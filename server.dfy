/** The static file server of server.mjs: resolving a request URL to a file
    under the root directory, the 403/404/200 decision, and the content type
    chosen by file extension. */
module Server {
  import opened JsStrings
  import opened Wrappers

  /** Node's path and URL helpers, taken as given: root is
      normalize(__dirname); decodeURIComponent yields None where it would
      throw a URIError (a malformed percent escape). */
  datatype PathLib = PathLib(
    root: string,
    decodeURIComponent: string -> Option<string>,
    join: (string, string) -> string,
    normalize: string -> string,
    extname: string -> string)

  /** The files the server can see: existsSync and statSync(..).isDirectory(). */
  datatype FileSystem = FileSystem(existsSync: string -> bool, isDirectory: string -> bool)

  /** What resolvePath does with a URL: returns a path, returns null, or
      throws the URIError of decodeURIComponent. */
  datatype Resolution = Resolved(path: string) | Null | Thrown

  /** `cleaned === '/' ? '/index.html' : cleaned`: the root page is
      index.html, and every other path is requested as it is. */
  function Requested(cleaned: string): (r: string)
    ensures cleaned == "/" ==> r == "/index.html"
    ensures cleaned != "/" ==> r == cleaned
    ensures r != "/"
  {
    if cleaned == "/" then "/index.html" else cleaned
  }

  /** resolvePath: decode the text before the first '?', map '/' to
      '/index.html', join it to the root and normalize; a path that does not
      start with the root is refused with null. */
  function ResolvePath(lib: PathLib, urlPath: string): (r: Resolution)
    ensures r.Thrown? <==> lib.decodeURIComponent(BeforeFirst(urlPath, '?')).None?
    ensures r.Resolved? ==> StartsWith(r.path, lib.root)
    ensures r.Resolved? ==>
      r.path == lib.normalize(lib.join(lib.root, Requested(lib.decodeURIComponent(BeforeFirst(urlPath, '?')).value)))
    ensures r.Null? ==>
      !StartsWith(lib.normalize(lib.join(lib.root, Requested(lib.decodeURIComponent(BeforeFirst(urlPath, '?')).value))), lib.root)
  {
    match lib.decodeURIComponent(BeforeFirst(urlPath, '?'))
    case None => Thrown
    case Some(cleaned) =>
      var full := lib.normalize(lib.join(lib.root, Requested(cleaned)));
      if !StartsWith(full, lib.root) then Null else Resolved(full)
  }

  /** Only the text before the first '?' matters: any query string resolves
      as the bare path does. */
  lemma QueryIgnored(lib: PathLib, path: string, query: string)
    requires '?' !in path
    ensures ResolvePath(lib, path + "?" + query) == ResolvePath(lib, path)
  {
    BeforeFirstIgnoresRest(path, '?', query);
  }

  /** Resolving a URL is resolving its part before the first '?'. */
  lemma ResolvesBeforeQuery(lib: PathLib, urlPath: string)
    ensures ResolvePath(lib, urlPath) == ResolvePath(lib, BeforeFirst(urlPath, '?'))
  {
    BeforeFirstIdempotent(urlPath, '?');
  }

  /** A URL that decodes to '/' resolves exactly as one that decodes to
      '/index.html'. */
  lemma SlashIsIndex(lib: PathLib, u1: string, u2: string)
    requires lib.decodeURIComponent(BeforeFirst(u1, '?')) == Some("/")
    requires lib.decodeURIComponent(BeforeFirst(u2, '?')) == Some("/index.html")
    ensures ResolvePath(lib, u1) == ResolvePath(lib, u2)
  {
  }

  /** The extension table, keyed by lower-case extension. */
  const ContentTypeByExt: map<string, string> := map[
    ".html" := "text/html; charset=utf-8",
    ".css" := "text/css; charset=utf-8",
    ".js" := "application/javascript; charset=utf-8",
    ".json" := "application/json; charset=utf-8",
    ".png" := "image/png",
    ".jpg" := "image/jpeg",
    ".jpeg" := "image/jpeg",
    ".svg" := "image/svg+xml",
    ".ico" := "image/x-icon"
  ]

  const DefaultContentType: string := "application/octet-stream"

  /** A key of the extension table: a leading dot, at least one more
      character, and no upper-case letter. */
  predicate ExtensionKey(ext: string) {
    |ext| >= 2 && ext[0] == '.' && AsciiLower(ext) == ext
  }

  lemma ExtensionKeyOf(ext: string)
    requires |ext| >= 2 && ext[0] == '.'
    requires forall k :: 0 <= k < |ext| ==> !('A' <= ext[k] <= 'Z')
    ensures ExtensionKey(ext)
  {
    LowerOfNoUpper(ext);
  }

  /** Every key of the table is a lower-case extension with its leading dot,
      so a lookup by the lower-cased extension can find each of them. */
  lemma ContentTypeTableKeys()
    ensures forall ext :: ext in ContentTypeByExt ==> ExtensionKey(ext)
  {
    forall ext | ext in ContentTypeByExt
      ensures ExtensionKey(ext)
    {
      if ext == ".html" { ExtensionKeyOf(".html"); }
      else if ext == ".css" { ExtensionKeyOf(".css"); }
      else if ext == ".js" { ExtensionKeyOf(".js"); }
      else if ext == ".json" { ExtensionKeyOf(".json"); }
      else if ext == ".png" { ExtensionKeyOf(".png"); }
      else if ext == ".jpg" { ExtensionKeyOf(".jpg"); }
      else if ext == ".jpeg" { ExtensionKeyOf(".jpeg"); }
      else if ext == ".svg" { ExtensionKeyOf(".svg"); }
      else { ExtensionKeyOf(".ico"); }
    }
  }

  /** `contentTypeByExt[ext.toLowerCase()] || 'application/octet-stream'`:
      the table's entry for the lower-cased extension, or the default when
      there is none; never empty. */
  function ContentTypeFor(ext: string): (ct: string)
    ensures ct != []
    ensures ct == DefaultContentType || ct in ContentTypeByExt.Values
    ensures ct == DefaultContentType <==> AsciiLower(ext) !in ContentTypeByExt
    ensures AsciiLower(ext) in ContentTypeByExt ==> ct == ContentTypeByExt[AsciiLower(ext)]
  {
    var lower := AsciiLower(ext);
    if lower in ContentTypeByExt then
      assert ContentTypeByExt[lower] != DefaultContentType;
      ContentTypeByExt[lower]
    else DefaultContentType
  }

  /** The lookup ignores the case of the extension. */
  lemma ContentTypeIgnoresCase(ext: string)
    ensures ContentTypeFor(AsciiUpper(ext)) == ContentTypeFor(ext)
    ensures ContentTypeFor(AsciiLower(ext)) == ContentTypeFor(ext)
  {
    LowerOfUpper(ext);
    LowerIdempotent(ext);
  }

  lemma PngInEitherCase()
    ensures ContentTypeFor(".PNG") == ContentTypeFor(".png") == "image/png"
  {
    assert AsciiLower(".png") == ".png";
    assert AsciiUpper(".png") == ".PNG";
    ContentTypeIgnoresCase(".png");
  }

  lemma UnknownExtensionIsOctetStream()
    ensures ContentTypeFor(".txt") == DefaultContentType
    ensures ContentTypeFor("") == DefaultContentType
  {
    assert AsciiLower(".txt") == ".txt";
  }

  datatype Response = Response(status: int, contentType: string) | Crashed

  /** The request handler's decision for req.url (None when it is missing):
      403 when resolvePath gives null (or an empty path), 404 exactly for a
      missing file or a directory, and 200 with the extension's content type
      exactly for an existing file that is not a directory; a URIError from
      decodeURIComponent escapes the handler. */
  function HandleRequest(lib: PathLib, fs: FileSystem, url: Option<string>): (res: Response)
    ensures var u := if url.Some? && url.value != [] then url.value else "/";
      && (res.Crashed? <==> ResolvePath(lib, u).Thrown?)
      && (res.Response? && res.status == 403 <==> ResolvePath(lib, u).Null? || ResolvePath(lib, u) == Resolved([]))
      && (res.Response? && res.status == 200 ==>
            var p := ResolvePath(lib, u).path;
            && ResolvePath(lib, u).Resolved? && StartsWith(p, lib.root)
            && fs.existsSync(p) && !fs.isDirectory(p)
            && res.contentType == ContentTypeFor(lib.extname(p)))
    ensures var u := if url.Some? && url.value != [] then url.value else "/";
      ResolvePath(lib, u).Resolved? && ResolvePath(lib, u).path != [] ==>
        var p := ResolvePath(lib, u).path;
        && (res.Response? && res.status == 404 <==> !fs.existsSync(p) || fs.isDirectory(p))
        && (res.Response? && res.status == 200 <==> fs.existsSync(p) && !fs.isDirectory(p))
    ensures res.Response? ==> res.status in {200, 403, 404}
  {
    var u := if url.Some? && url.value != [] then url.value else "/";
    match ResolvePath(lib, u)
    case Thrown => Crashed
    case Null => Response(403, "text/plain; charset=utf-8")
    case Resolved(filePath) =>
      if filePath == [] then Response(403, "text/plain; charset=utf-8")
      else if !fs.existsSync(filePath) || fs.isDirectory(filePath) then Response(404, "text/plain; charset=utf-8")
      else Response(200, ContentTypeFor(lib.extname(filePath)))
  }

  /** With a non-empty root, a request is refused with 403 exactly when
      resolvePath returns null: a resolved path is never empty. */
  lemma ForbiddenExactlyWhenNull(lib: PathLib, fs: FileSystem, url: string)
    requires lib.root != [] && url != []
    ensures HandleRequest(lib, fs, Some(url)) == Response(403, "text/plain; charset=utf-8") <==>
      ResolvePath(lib, url).Null?
  {
  }

  /** A request is only ever answered from beneath the root. */
  lemma ServedFromRoot(lib: PathLib, fs: FileSystem, url: Option<string>)
    requires HandleRequest(lib, fs, url).Response? && HandleRequest(lib, fs, url).status == 200
    ensures var u := if url.Some? && url.value != [] then url.value else "/";
      StartsWith(ResolvePath(lib, u).path, lib.root)
  {
  }
}
