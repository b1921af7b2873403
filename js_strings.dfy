/** The parts of ECMAScript String semantics the model relies on: the UTF-16
    code units a string is made of, String.prototype.trim, the first piece of
    String.prototype.split, startsWith, and lower-casing of ASCII letters. */
module JsStrings {

  /** The code units String.prototype.charCodeAt reads: a character outside
      the Basic Multilingual Plane is a surrogate pair (Unicode, section 3.9). */
  function CodeUnits(c: char): (u: seq<int>)
    ensures |u| == (if c as int < 0x1_0000 then 1 else 2)
    ensures forall k :: 0 <= k < |u| ==> 0 <= u[k] < 0x1_0000
  {
    var v := c as int;
    if v < 0x1_0000 then [v]
    else [0xD800 + (v - 0x1_0000) / 0x400, 0xDC00 + (v - 0x1_0000) % 0x400]
  }

  /** The UTF-16 code units of a string, in order. */
  function Utf16(s: string): (u: seq<int>)
    ensures |u| >= |s|
    ensures forall k :: 0 <= k < |u| ==> 0 <= u[k] < 0x1_0000
  {
    if s == [] then [] else Utf16(s[..|s| - 1]) + CodeUnits(s[|s| - 1])
  }

  /** The characters back from their UTF-16 code units (the inverse of Utf16
      on well-formed input). */
  function FromUtf16(u: seq<int>): string
    decreases |u|
  {
    if u == [] then []
    else if 0xD800 <= u[0] < 0xDC00 && |u| >= 2 && 0xDC00 <= u[1] < 0xE000 then
      var v := 0x1_0000 + (u[0] - 0xD800) * 0x400 + (u[1] - 0xDC00);
      (if v < 0x11_0000 then [v as char] else []) + FromUtf16(u[2..])
    else if 0 <= u[0] < 0xD800 || 0xE000 <= u[0] < 0x1_0000 then [u[0] as char] + FromUtf16(u[1..])
    else FromUtf16(u[1..])
  }

  function Flatten(s: string): seq<int> {
    if s == [] then [] else CodeUnits(s[0]) + Flatten(s[1..])
  }

  lemma {:induction false} FlattenAppend(a: string, c: char)
    ensures Flatten(a + [c]) == Flatten(a) + CodeUnits(c)
  {
    if a != [] {
      assert (a + [c])[1..] == a[1..] + [c];
      FlattenAppend(a[1..], c);
    } else {
      assert [c][1..] == [];
    }
  }

  lemma {:induction false} Utf16IsFlatten(s: string)
    ensures Utf16(s) == Flatten(s)
  {
    if s != [] {
      var s' := s[..|s| - 1];
      Utf16IsFlatten(s');
      FlattenAppend(s', s[|s| - 1]);
      assert s' + [s[|s| - 1]] == s;
    }
  }

  lemma {:induction false} FromFlatten(s: string)
    ensures FromUtf16(Flatten(s)) == s
  {
    if s != [] {
      var v := s[0] as int;
      var rest := Flatten(s[1..]);
      FromFlatten(s[1..]);
      if v < 0x1_0000 {
        assert Flatten(s) == [v] + rest;
        assert (Flatten(s))[1..] == rest;
      } else {
        var hi, lo := 0xD800 + (v - 0x1_0000) / 0x400, 0xDC00 + (v - 0x1_0000) % 0x400;
        assert Flatten(s) == [hi, lo] + rest;
        assert (Flatten(s))[2..] == rest;
        assert 0x1_0000 + (hi - 0xD800) * 0x400 + (lo - 0xDC00) == v;
      }
    }
  }

  /** No two strings share their code units: Utf16 loses nothing. */
  lemma Utf16RoundTrip(s: string)
    ensures FromUtf16(Utf16(s)) == s
  {
    Utf16IsFlatten(s);
    FromFlatten(s);
  }

  /** The code points String.prototype.trim removes: WhiteSpace and
      LineTerminator (ECMA-262, sections 12.2 and 12.3), i.e. TAB, VT, FF,
      ZWNBSP, the Space_Separator category, LF, CR, LS and PS. */
  predicate IsTrimmed(c: char) {
    var v := c as int;
    v == 0x09 || v == 0x0B || v == 0x0C || v == 0xFEFF
    || v == 0x20 || v == 0xA0 || v == 0x1680 || 0x2000 <= v <= 0x200A
    || v == 0x202F || v == 0x205F || v == 0x3000
    || v == 0x0A || v == 0x0D || v == 0x2028 || v == 0x2029
  }

  /** s has nothing at either end that trim would remove. */
  predicate IsClean(s: string) {
    s == [] || (!IsTrimmed(s[0]) && !IsTrimmed(s[|s| - 1]))
  }

  function TrimStart(s: string): (r: string)
    ensures |r| <= |s| && r == s[|s| - |r|..]
    ensures forall k :: 0 <= k < |s| - |r| ==> IsTrimmed(s[k])
    ensures r == [] || !IsTrimmed(r[0])
  {
    if s != [] && IsTrimmed(s[0]) then TrimStart(s[1..]) else s
  }

  function TrimEnd(s: string): (r: string)
    ensures |r| <= |s| && r == s[..|r|]
    ensures forall k :: |r| <= k < |s| ==> IsTrimmed(s[k])
    ensures r == [] || !IsTrimmed(r[|r| - 1])
  {
    if s != [] && IsTrimmed(s[|s| - 1]) then TrimEnd(s[..|s| - 1]) else s
  }

  /** String.prototype.trim: s without its leading and trailing white space
      and line terminators. The result is the slice s[i..i+|r|] of s, all of
      s outside it is trimmed, and nothing trimmed is left at its ends. */
  function Trim(s: string): (r: string)
    ensures IsClean(r)
  {
    var t := TrimStart(s);
    var r := TrimEnd(t);
    CleanEnds(t, r);
    r
  }

  lemma CleanEnds(t: string, r: string)
    requires t == [] || !IsTrimmed(t[0])
    requires |r| <= |t| && r == t[..|r|]
    requires r == [] || !IsTrimmed(r[|r| - 1])
    ensures IsClean(r)
  {
    if r != [] {
      assert r[0] == t[0];
    }
  }

  /** Trim(s) is the slice s[i..i+|r|] of s, where i is the number of
      characters trimmed from its start, and everything of s outside that
      slice is trimmed. */
  lemma TrimIsSlice(s: string)
    ensures var r, i := Trim(s), |s| - |TrimStart(s)|;
      && 0 <= i <= |s| - |r| && r == s[i..i + |r|]
      && (forall k :: 0 <= k < i ==> IsTrimmed(s[k]))
      && (forall k :: i + |r| <= k < |s| ==> IsTrimmed(s[k]))
  {
    var t := TrimStart(s);
    var r := TrimEnd(t);
    var i := |s| - |t|;
    SliceOfSuffix(s, i, |r|);
    forall k | i + |r| <= k < |s|
      ensures IsTrimmed(s[k])
    {
      assert s[k] == t[k - i];
    }
  }

  lemma SliceOfSuffix(s: string, i: nat, n: nat)
    requires i + n <= |s|
    ensures s[i..][..n] == s[i..i + n]
  {
  }

  /** A string with nothing to trim at its ends is its own trim. */
  lemma TrimClean(s: string)
    requires IsClean(s)
    ensures Trim(s) == s
  {
  }

  /** trim is idempotent. */
  lemma TrimIdempotent(s: string)
    ensures Trim(Trim(s)) == Trim(s)
  {
    TrimClean(Trim(s));
  }

  /** The first element of s.split(sep) for a one-character separator: the
      text before the first sep, or all of s when sep does not occur. */
  function BeforeFirst(s: string, sep: char): (r: string)
    ensures sep !in r
    ensures r == s || (|r| < |s| && s[|r|] == sep)
    ensures r == s[..|r|]
  {
    if s == [] then []
    else if s[0] == sep then []
    else [s[0]] + BeforeFirst(s[1..], sep)
  }

  /** Whatever follows the first separator does not change the first piece. */
  lemma {:induction false} BeforeFirstIgnoresRest(p: string, sep: char, rest: string)
    requires sep !in p
    ensures BeforeFirst(p + [sep] + rest, sep) == p
  {
    if p != [] {
      assert (p + [sep] + rest)[1..] == p[1..] + [sep] + rest;
      BeforeFirstIgnoresRest(p[1..], sep, rest);
    }
  }

  lemma {:induction false} BeforeFirstIdempotent(s: string, sep: char)
    ensures BeforeFirst(BeforeFirst(s, sep), sep) == BeforeFirst(s, sep)
  {
    if s != [] && s[0] != sep {
      BeforeFirstIdempotent(s[1..], sep);
    }
  }

  /** String.prototype.startsWith. */
  predicate StartsWith(s: string, prefix: string) {
    |prefix| <= |s| && s[..|prefix|] == prefix
  }

  function AsciiLowerChar(c: char): char {
    if 'A' <= c <= 'Z' then (c as int + 32) as char else c
  }

  function AsciiUpperChar(c: char): char {
    if 'a' <= c <= 'z' then (c as int - 32) as char else c
  }

  /** String.prototype.toLowerCase on the ASCII letters. */
  function AsciiLower(s: string): (r: string)
    ensures |r| == |s|
    ensures forall k :: 0 <= k < |s| ==> r[k] == AsciiLowerChar(s[k])
  {
    if s == [] then [] else [AsciiLowerChar(s[0])] + AsciiLower(s[1..])
  }

  /** String.prototype.toUpperCase on the ASCII letters. */
  function AsciiUpper(s: string): (r: string)
    ensures |r| == |s|
    ensures forall k :: 0 <= k < |s| ==> r[k] == AsciiUpperChar(s[k])
  {
    if s == [] then [] else [AsciiUpperChar(s[0])] + AsciiUpper(s[1..])
  }

  /** Lower-casing forgets the case a string was written in. */
  lemma LowerOfUpper(s: string)
    ensures AsciiLower(AsciiUpper(s)) == AsciiLower(s)
  {
    assert forall k :: 0 <= k < |s| ==> AsciiLowerChar(AsciiUpperChar(s[k])) == AsciiLowerChar(s[k]);
  }

  lemma LowerIdempotent(s: string)
    ensures AsciiLower(AsciiLower(s)) == AsciiLower(s)
  {
  }

  /** A string with no upper-case ASCII letter is its own lower case. */
  lemma LowerOfNoUpper(s: string)
    requires forall k :: 0 <= k < |s| ==> !('A' <= s[k] <= 'Z')
    ensures AsciiLower(s) == s
  {
  }
}
