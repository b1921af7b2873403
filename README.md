# Asset Intelligence Workbench — a verified model of its deterministic core

The workbench is a small browser application (`app.js`) with a static file
server (`server.mjs`). Given a subject location and an asset type, the
application builds four things:

- synthetic demographics;
- a list of comparable properties (comps) drawn from a heat-map dataset;
- market statistics over those comps;
- the nearest major routes, taken from an Overpass response.

This project models the parts of that pipeline that do not depend on the
network or the screen, and proves what they guarantee:

- the string seed hash `hashCode`: a loop over UTF-16 code units, with 32-bit
  wrap-around at every step;
- `buildComps`: one synthetic record per raw point, three filters, a stable
  sort by distance, and a cut to 40;
- `buildMarketStats`: averages with fallbacks, and a vacancy rate clamped at 2%;
- `generateDemographics`: four rings, each drawing from its own seed;
- `normalizeRouteName`, and the dedup/rank block of `fetchNearbyRoutes`.
  The block is a `forEach` that fills a `Map` keyed by route label. It is
  modelled as a method with a loop over a `RouteMap` class that keeps its
  keys in insertion order. That method is proved equal to a functional
  specification (`Deduped` of `Sightings`), and the ranking guarantees are
  proved about that specification;
- the server's `resolvePath`, its 403/404/200 decision, and the content type
  chosen by the lower-cased extension.

JavaScript numbers are modelled as Dafny `real`s and `int`s:

- ToInt32 (section 7.1.6 of ECMA-262), `Math.abs` and `Math.round` are
  written out.
- `Number.prototype.toFixed` follows section 21.1.3.3 of ECMA-262; below
  10^21 this covers both the string and the value `Number(...)` reads back.

The model takes the floating-point primitives as parameters, grouped in
`Seed.Numerics`:

- `seeded`, whose results are only known to lie in [0, 1);
- `haversineMiles`;
- `Number::toString`, used for toFixed of magnitudes of 10^21 and more.

Node's `decodeURIComponent`, `path.join`, `path.normalize`, `path.extname`,
`existsSync` and `statSync().isDirectory()` are parameters too, grouped in
`Server.PathLib` and `Server.FileSystem`.

Modules and files:

- `wrappers.dfy` (`Wrappers`): `Option`;
- `js_numbers.dfy` (`JsNumbers`): ToInt32, `Math.abs`, `Math.round`, integer
  `toString`, `toFixed`;
- `js_strings.dfy` (`JsStrings`): UTF-16 code units, `trim`, `split('?')[0]`,
  `startsWith`, ASCII case mapping;
- `array_ops.dfy` (`ArrayOps`): `filter`, stable `sort`, `slice(0, n)`;
- `seed.dfy` (`Seed`): `hashCode` and the abstract numerics;
- `assets.dfy` (`Assets`): the asset types and `assetTypeProfiles`;
- `comps.dfy` (`Comps`): `buildComps`;
- `market_stats.dfy` (`MarketStats`): `buildMarketStats`;
- `demographics.dfy` (`Demographics`): `generateDemographics`;
- `routes.dfy` (`Routes`): `normalizeRouteName` and the route ranking;
- `server.dfy` (`Server`): `server.mjs`.

## Model

| member | source | states |
|---|---|---|
| JsNumbers.ToInt32 | app.js:40 | `hash \|= 0` gives a signed 32-bit value |
| JsNumbers.ToInt32Periodic | app.js:39-40 | ToInt32 only sees its argument modulo 2^32 |
| JsNumbers.ToInt32OfInt32 | app.js:40 | `\|= 0` leaves a value already in 32-bit range unchanged |
| JsNumbers.Abs | app.js:42 | `Math.abs` is non-negative and equals x or -x |
| JsNumbers.Round | app.js:195 | `Math.round(x)` is the integer within half a unit of x, the upper one on a tie |
| JsNumbers.RoundMonotonic | app.js:300 | a larger argument never rounds to less |
| JsNumbers.RoundOfInteger | app.js:198 | an integer rounds to itself |
| JsNumbers.NatToString | app.js:232 | the `${idx}` text of an index is a non-empty string of digits with no leading zero |
| JsNumbers.NatToStringRoundTrip | app.js:232 | reading the digits of `${idx}` back gives idx |
| JsNumbers.NatToStringInjective | app.js:232 | different indices print differently, so every index gets its own seed text |
| JsNumbers.FixedDigits | app.js:184 | with f = 0 the text is the digits of n; with f > 0 it has a point before its last f digits, no leading zero before the point except a lone 0, and its digits read without the point spell n |
| JsNumbers.ToFixed | app.js:184 | for f > 0 and below 10^21, a non-negative x prints as x·10^f rounded, with a point before the last f digits and no leading zero except a lone 0 before the point; a negative x prints '-' followed by the same text for -x |
| JsNumbers.UnsignedFixed | app.js:236 | for f > 0 and below 10^21, the toFixed text of a non-negative x spells x scaled by 10^f and rounded, with no leading zero except a lone 0 before the point |
| JsNumbers.ToFixedReadsBack | app.js:236 | below 10^21, `Number(x.toFixed(f))` is exactly the value the toFixed text spells |
| JsNumbers.FixedValue | app.js:236 | `Number(x.toFixed(f))` never has the opposite sign of x (a small negative x may read back as zero) |
| JsNumbers.FixedValueClose | app.js:236 | `Number(x.toFixed(f))` is within half a unit of the last place of x |
| JsNumbers.ScaledDigits | app.js:236 | helper naming the integer n of toFixed's step 10.a, x·10^f rounded; it is never negative for a non-negative x |
| JsStrings.Utf16RoundTrip | app.js:39 | the code units `charCodeAt` reads decode back to the string |
| JsStrings.CodeUnits | app.js:38-39 | a character below U+10000 is one code unit and any other is a surrogate pair, each unit in [0, 0xFFFF] |
| JsStrings.Utf16 | app.js:38-39 | the code units `str.length` counts and `charCodeAt` reads: at least one per character, each in [0, 0xFFFF] |
| JsStrings.Trim | app.js:332-333 | `trim()` leaves nothing trimmable at either end |
| JsStrings.TrimIsSlice | app.js:332-333 | `trim()` returns a slice of its input, and everything outside the slice is white space or a line terminator |
| JsStrings.TrimClean | app.js:332-333 | a string with clean ends is its own trim |
| JsStrings.TrimIdempotent | app.js:332-333 | trimming twice is trimming once |
| JsStrings.BeforeFirst | server.mjs:23 | `split('?')[0]` holds no '?', is a prefix, and is all of s or stops at the first '?' |
| JsStrings.BeforeFirstIgnoresRest | server.mjs:23 | whatever follows the first '?' does not change `split('?')[0]` |
| JsStrings.BeforeFirstIdempotent | server.mjs:23 | applying `split('?')[0]` twice gives the same result as once |
| JsStrings.StartsWith | server.mjs:27 | defines `startsWith`: the prefix is no longer than the string, and the string begins with it |
| JsStrings.LowerOfUpper | server.mjs:49 | lower-casing an upper-cased string is lower-casing the original |
| JsStrings.LowerIdempotent | server.mjs:49 | lower-casing is idempotent |
| JsStrings.AsciiLower | server.mjs:49 | `toLowerCase()` keeps the length and lower-cases each character on its own (ASCII letters only) |
| ArrayOps.Filter | app.js:251-253 | `filter` keeps exactly the elements that satisfy the predicate |
| ArrayOps.FilterKeepsOrder | app.js:251-253 | filtering keeps the index order of the mapped records |
| ArrayOps.FilterOfIndexed | app.js:230-251 | each record that survives a filter of the index-ordered records sits at its own id |
| ArrayOps.Insert | app.js:254 | one insertion step of the sort adds exactly one element |
| ArrayOps.InsertSorted | app.js:254 | inserting into a sorted list keeps it sorted |
| ArrayOps.SortBy | app.js:254 | `sort((a, b) => a.distance - b.distance)` is a permutation, ordered by distance |
| ArrayOps.SortByStable | app.js:254 | the sort is stable: elements with the same key keep their order |
| ArrayOps.SortByThenBy | app.js:254 | on input in increasing index order, the sorted list is ordered by distance, then by index |
| ArrayOps.Take | app.js:255 | `slice(0, n)` is the first min(n, length) elements |
| ArrayOps.TakeOfSortedOmits | app.js:383 | what the slice drops from a sorted list is no nearer than anything it keeps, and the slice is full |
| ArrayOps.TakeOfSortedThenByOmits | app.js:255 | what the slice drops comes after everything it keeps, by distance and then by index, and the slice is full |
| ArrayOps.DistinctByPermutation | app.js:383 | sorting cannot make two entries share a label |
| Seed.HashState | app.js:38-41 | the accumulator after each code unit is ToInt32(31·h + code), always signed 32-bit |
| Seed.HashCodeOf | app.js:36-43 | hashCode's result lies in [0, 2^31] |
| Seed.ShiftStep | app.js:39-40 | `(hash << 5) - hash + code`, then `\|= 0`, is ToInt32(31·hash + code) |
| Seed.HashCode | app.js:36-43 | the loop computes HashCodeOf, in [0, 2^31] |
| Seed.HashOfEmpty | app.js:36-43 | the empty string hashes to 0 |
| Seed.HashOfOneCharacter | app.js:36-43 | a one-character ASCII string hashes to its code |
| Seed.HashOfTwoCharacters | app.js:36-43 | a two-character ASCII string hashes to 31·first + second |
| Seed.HashIsOrderSensitive | app.js:36-43 | "ab" and "ba" hash differently |
| Assets.Name | app.js:29-34 | every asset type has a non-empty name |
| Assets.ProfileOf | app.js:29-34 | every profile has a vacancy base in (0, 0.2) and a positive rent base and absorption factor |
| Comps.CompSeed | app.js:232 | a record's seed is a hashCode, so it lies in [0, 2^31] |
| Comps.RentFactorBounds | app.js:236 | arithmetic helper: with seeded in [0, 1), the unrounded rent lies in 75%-125% of the profile's rent base |
| Comps.MakeComp | app.js:230-249 | the record for index idx has id idx |
| Comps.MakeCompFields | app.js:230-249 | name "{type} Comp {idx+1}", lat/lng from the point, distance from haversineMiles, sf in [15000, 125000], clear height in [12, 42], year in [1970, 2025], rent within the 75%-125% band up to the cent |
| Comps.GeneratedFieldsIgnoreLocation | app.js:230-249 | id, name, size, clear height, year and rent depend only on the index and the asset type |
| Comps.Generate | app.js:229-250 | the map gives one record per raw point, in order, record i made from point i |
| Comps.NearAndSized | app.js:251 | defines the first filter: within 5 miles, and a size between minSf and maxSf |
| Comps.TallEnough | app.js:252 | defines the second filter: a clear height of at least the minimum |
| Comps.BuiltInRange | app.js:253 | defines the third filter: a year built within [yearBuiltMin, yearBuiltMax] |
| Comps.Passes | app.js:251-253 | defines the three filters together, with the size band minSf..maxSf written out as half to 1.5 times the subject's size |
| Comps.Candidates | app.js:251-253 | the filtered records are in index order, each is its own index's record and passes all filters, and every passing record is among them |
| Comps.CandidatesOrdered | app.js:251-253 | the three filters keep the records in index order |
| Comps.CandidateSound | app.js:251-253 | a record that survives the filters is within 5 miles, within half to 1.5 times the subject's size, tall enough, and built in range |
| Comps.CandidateComplete | app.js:251-253 | a record that passes all the filters survives them |
| Comps.BuildComps | app.js:224-256 | at most 40 records, each passing all filters; ordered by distance, with ties in index order; a passing record is left out only when 40 records that sort before it fill the list |
| Comps.BuildCompsDistinct | app.js:224-256 | no raw point appears twice in the result |
| Comps.BuildCompsEmpty | app.js:224-256 | when no record passes, the result is empty |
| MarketStats.VacancyRate | app.js:299 | the rate is the linear estimate clamped below at 0.02 |
| MarketStats.Max | app.js:299 | `Math.max` is at least each argument and equals one of them |
| MarketStats.SumOf | app.js:295-297 | defines `comps.reduce((sum, c) => sum + f(c), 0)` as a left fold from 0; its bounds are stated by SumBounds |
| MarketStats.MeanOr | app.js:295-297 | defines the average over a non-empty list and the fallback for an empty one; its bounds are stated by MeanBounds |
| MarketStats.NetAbsorption | app.js:300 | defines the absorption formula; its properties are stated by the three Absorption lemmas |
| MarketStats.BuildMarketStats | app.js:293-307 | the vacancy rate is at least 0.02; with no comps the rent is the profile's rent base and the vacancy rate is the base plus 0.0021 (year 2000, 2.8 miles) |
| MarketStats.SumBounds | app.js:295-297 | a reduce of values in [lo, hi] over n comps lies in [n·lo, n·hi] |
| MarketStats.QuotientBounds | app.js:295-297 | arithmetic helper: dividing a sum in [n·lo, n·hi] by n gives a value in [lo, hi] |
| MarketStats.MeanBounds | app.js:295-297 | an average of values in [lo, hi] lies in [lo, hi] |
| MarketStats.LeastOf | app.js:297 | proof helper for DistanceMeanAtMost (the source computes no minimum): the least distance over the comps, attained by one of them and no greater than any |
| MarketStats.DistanceMeanAtMost | app.js:297 | if every comp is within hi miles, so is the average distance |
| MarketStats.AbsorptionDependsOnlyOnCount | app.js:300 | net absorption depends only on the number of comps |
| MarketStats.AbsorptionMonotone | app.js:300 | more comps never give less absorption |
| MarketStats.AbsorptionOfNoComps | app.js:300 | with no comps, absorption is 120,000 SF times the profile's factor, rounded |
| MarketStats.StatsOfBuiltComps | app.js:293-307 | on buildComps output, the vacancy rate is in [0.02, base + 0.0265] and the average rent is within the profile's 75%-125% band up to the cent |
| Demographics.BaseSeed | app.js:184 | the base seed is a hashCode, so it lies in [0, 2^31] |
| Demographics.RadiusProfilesOutward | app.js:185-190 | the four rings have different labels and grow outward, from 2 miles to 11.7 |
| Demographics.RowFor | app.js:193-206 | a ring's row carries the ring's label, an average income at least 11,160 above the median, and a non-negative household count within 62 miles |
| Demographics.PopulationDensity | app.js:195 | density is within 4,200 (plus rounding) above 2,800 - 45 per mile |
| Demographics.MedianIncome | app.js:197 | median income is within 70,000 (plus rounding) above 62,000 + 1,500 per mile |
| Demographics.AverageIncome | app.js:198 | for a median of at least 62,000, the average is at least the median + 11,160 and at most round(1.32 · median) |
| Demographics.Households | app.js:194-196 | a non-negative density gives a non-negative household count |
| Demographics.RingRows | app.js:192-207 | one row per ring, in order, row i using the seed baseSeed + 11·i |
| Demographics.GenerateDemographics | app.js:183-208 | exactly four rows, labelled '2-mile radius', '5-mile radius', '10-mile radius' and '20-minute drive-time proxy', in that order |
| Demographics.RowUsesItsSeed | app.js:192-193 | row i is ring i's figures for seeded(baseSeed + 11·i) |
| Demographics.RowReadsOwnSeed | app.js:192-193 | two noise sources that agree on row i's seed give the same row i |
| Demographics.RowsFollowPrintedLocation | app.js:184 | the rows depend on the location only through its coordinates printed to four decimals |
| Demographics.DemographicsRanges | app.js:192-207 | every row keeps its ring's ranges for density and median, an average at least 11,160 above the median, and non-negative households |
| Routes.TrimmedTag | app.js:332-333 | `tags.x ? tags.x.trim() : ''` is clean, and empty for a missing tag |
| Routes.Truthy | app.js:332-333 | defines a truthy tag: present and not the empty string |
| Routes.TagsOf | app.js:366 | defines `el.tags \|\| {}`: an element without tags has none of ref, name or highway |
| Routes.NormalizeRouteName | app.js:331-338 | "ref (name)" when both trimmed tags are non-empty, else the non-empty one, else "Unnamed route"; never empty and never padded |
| Routes.UnnamedExactly | app.js:331-338 | the label is "Unnamed route" exactly when both tags trim to nothing, or when the one present tag reads "Unnamed route" |
| Routes.Sighting | app.js:365-376 | an element qualifies exactly when it has a center and a non-empty highway tag and its label is not "Unnamed route"; its route is that label and the haversine distance to its center |
| Routes.AppendSighting | app.js:377-380 | setting one more route adds its label last if new, and replaces the stored distance only when strictly nearer |
| Routes.Labels | app.js:377-380 | defines the Map's key order: each label in the order it is first seen |
| Routes.Nearest | app.js:378-379 | defines the stored distance of a label: its first sighting, replaced only by a strictly nearer one |
| Routes.LabelsAreSighted | app.js:364-381 | a label is a key exactly when some sighting carries it, and every sighting's label is a key |
| Routes.LabelsDistinct | app.js:364-381 | the map's keys are distinct |
| Routes.NearestIsLeast | app.js:378-379 | the stored distance of a label is the distance of one of its sightings, and no sighting of it is nearer |
| Routes.CollectedFrom | app.js:365-381 | every sighting comes from some element |
| Routes.CollectHas | app.js:365-381 | every element that yields a sighting contributes it |
| Routes.Deduped | app.js:383 | `Array.from(deduped.values())` has one route per key, in key order, each at its label's nearest distance |
| Routes.ElementsOf | app.js:362 | a response without an elements array gives no elements |
| Routes.RouteMap.constructor | app.js:364 | `new Map()` is empty |
| Routes.RouteMap.Get | app.js:377 | `deduped.get` finds exactly the stored keys and returns their routes |
| Routes.RouteMap.Set | app.js:379 | `deduped.set` updates the key's route; a new key goes last, an existing one keeps its place |
| Routes.RouteMap.Values | app.js:383 | `deduped.values()` lists the stored routes in key order |
| Routes.TracksStep | app.js:377-380 | one forEach step keeps the map equal to first-seen labels and nearest distances of the sightings so far |
| Routes.TracksValues | app.js:383 | the values of a map that tracks the sightings are their Deduped list |
| Routes.DedupRoutes | app.js:364-383 | the forEach loop over a Map leaves exactly Deduped(Sightings(elements)) in `deduped.values()` |
| Routes.RankRoutes | app.js:362-383 | the block returns the deduplicated routes, sorted by distance, first 8 |
| Routes.Ranked | app.js:383 | defines the ranking: the deduplicated routes, sorted by distance, first 8; its guarantees are stated by the Ranked lemmas |
| Routes.SightingsFromElements | app.js:365-381 | each sighting is the sighting of some element |
| Routes.ElementIsSighted | app.js:365-381 | each qualifying element's sighting is among the sightings |
| Routes.RankedSorted | app.js:383 | at most 8 routes, in ascending distance |
| Routes.RankedDistinct | app.js:383 | no label appears twice in the ranking |
| Routes.RankedNearest | app.js:365-383 | every ranked route is a sighting that is not "Unnamed route", at its label's least distance |
| Routes.RankedComplete | app.js:365-383 | a sighted label is left out only when 8 routes, none farther than it, fill the ranking |
| Routes.RankedTiesInFirstSeenOrder | app.js:383 | routes at equal distance keep the order in which their labels were first seen |
| Routes.RankedOfNoElements | app.js:362 | with no elements array the ranking is empty |
| Server.Requested | server.mjs:24 | '/' becomes '/index.html', every other cleaned path is used unchanged, and the result is never '/' |
| Server.ResolvePath | server.mjs:22-32 | a URIError exactly when decoding fails; a returned path is the normalized join and starts with the root; null exactly when that path does not start with the root |
| Server.QueryIgnored | server.mjs:23 | a query string after '?' does not change the resolved path |
| Server.ResolvesBeforeQuery | server.mjs:23 | only the text before the first '?' matters |
| Server.SlashIsIndex | server.mjs:24 | a URL decoding to '/' resolves as '/index.html' does |
| Server.ContentTypeFor | server.mjs:49-50 | the table's own entry for the lower-cased extension when it is a key, and 'application/octet-stream' exactly when it is not |
| Server.ContentTypeTableKeys | server.mjs:10-20 | every key of the extension table is a dot and at least one more character with no upper-case letter, so the lower-cased lookup can reach each entry |
| Server.ContentTypeIgnoresCase | server.mjs:49 | ASCII upper- or lower-casing the extension does not change the content type |
| Server.PngInEitherCase | server.mjs:49-50 | '.PNG' and '.png' both give 'image/png' |
| Server.UnknownExtensionIsOctetStream | server.mjs:50 | '.txt' and no extension give 'application/octet-stream' |
| Server.HandleRequest | server.mjs:34-54 | a missing or empty url is '/'; the handler crashes exactly when decoding throws; 403 exactly for null (or an empty path); for a resolved path, 404 exactly when the file is missing or a directory and 200 exactly when it exists and is not one, with its extension's type |
| Server.ForbiddenExactlyWhenNull | server.mjs:37-40 | with a non-empty root, 403 is answered exactly when resolvePath returns null |
| Server.ServedFromRoot | server.mjs:27-31 | a 200 is only ever served from beneath the root |

## Left out

- Network I/O is left out: geocoding, the Overpass query and its fetch, the heat-map dataset fetch, and the `res.ok` check with its error. `RankRoutes` starts from the decoded response (`data.elements`, or none).
- The DOM and Leaflet rendering, request-id cancellation and `Promise.all` are left out. They concern presentation and concurrency, not the computed values.
- `seeded` and `haversineMiles` are parameters. Their trigonometry is floating point; only `seeded`'s range [0, 1) is assumed, since it is `x - Math.floor(x)`.
- JavaScript doubles are modelled as exact reals. Rounding of intermediate floating-point results is not modelled, so bounds hold up to that rounding.
- `Math.PI` is the decimal 3.141592653589793, the shortest decimal of the double nearest to pi.
- Demographics.Households: only the sign of the household count is stated. Its size follows floating-point area arithmetic that the model treats as exact.
- JsNumbers.ToFixed: for magnitudes of 10^21 and more, the text comes from the `Number::toString` parameter. Its format is not modelled, since no input of the core reaches it (coordinates are at most 180 in magnitude).
- JsNumbers.NatToString: this is Number::toString for integers only, which is all that `${idx}` and `${idx + 1}` print.
- JsStrings.AsciiLower: `toLowerCase()` is modelled on ASCII letters only. The lookup still agrees with the full Unicode mapping for every extension. The table's keys are lower-case ASCII, and the only non-ASCII characters whose lower case contains ASCII letters are U+0130 and the Kelvin sign U+212A. U+0130 lowercases to 'i' followed by a combining dot, which no key contains, and U+212A lowercases to 'k', which no key contains.
- Server: `decodeURIComponent`, `path.join`, `path.normalize`, `path.extname`, `existsSync` and `statSync` are parameters, since they are library code. The URIError that escapes the request handler is the `Crashed` response. Streaming the file, `createServer` and `listen` are I/O.
- Routes.NearestIsLeast: which of two equally near sightings of one label is kept is not stated; `Routes.Nearest` defines the strict `<`, which keeps the first, but both give the same `{name, distance}`, so the output cannot tell them apart.
- JavaScript strings may hold a lone surrogate (an Overpass tag value with a `\uD800` escape, say). Dafny strings are sequences of Unicode scalar values, so such a string is not modelled. Tag values only reach `trim`, concatenation and comparison, and `hashCode` only hashes digits, '.', '-', '|' and the asset names.
- NaN is not modelled. A non-numeric subject size or filter bound (`Number('abc')`) is NaN in JavaScript, and every comparison in the filters at app.js:251-253 is then false, so no comp passes. In the model the size and bounds are reals.
- Tag values are strings or absent. A non-string tag value in the JSON (a number, say) is not modelled.
- The smoke test script (`scripts/smoke-test.mjs`) only spawns processes and issues HTTP requests, so it is not modelled.
