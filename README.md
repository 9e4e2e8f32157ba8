# Route-geometry parsing of the freight-route page

This project models, in Dafny, the part of the freight-route map page
(`src/app/page.tsx`) that does not depend on the map service: how `plotRoute`
turns the route string of the selected feature (`route_geom`) into driving
requests and renderer options.

1. The page drops the first 12 and the last 2 characters of the route string
   with JavaScript's `substring`, which clamps both bounds into the string and
   swaps them when the start lies past the end (`RoutePage.RouteBody`).
2. It splits the rest at every comma (`RoutePage.Pieces`), trims each piece and
   splits it at every single space (`RoutePage.Tokens`), giving one segment of
   tokens per piece (`RoutePage.Segments`).
3. Segment `i` becomes a directions request from `segment[0]` to `segment[1]`
   with travel mode driving, and a renderer whose options are the shared
   `{preserveViewport: true, suppressMarkers: true, routeIndex: 0}` with the
   route index overridden to `i` (`RoutePage.PlanRoute`).

The JavaScript built-ins are modelled in module `JsString`: `Substring`,
`Split` for a one-character separator, `Trim`, and `Join` as the inverse of
`Split`. `Split` is proved to be characterised by its properties: the only
non-empty sequence of separator-free parts whose join is `s` is `Split(s)`
(`JsString.SplitJoin`, `JsString.SplitUnique`). A JavaScript array read that
may be `undefined` is `Wrappers.At`, which returns an `Option`.

Behaviour kept as written: a coordinate list of the usual `lng lat, lng lat`
shape puts one whole coordinate in each comma-separated piece, so the request
built from a piece goes from that coordinate's longitude to its latitude
(`RoutePage.CoordinatePairLeg`). The model states this and does not change it.

## Model

| member | source | states |
|---|---|---|
| `Wrappers.At` | src/app/page.tsx:42-43 | an index read yields a value exactly when the index is in range, and then the element at that index |
| `JsString.ClampIndex` | src/app/page.tsx:32 | a `substring` bound is moved into `[0, len]`, to the point nearest the given bound |
| `JsString.Substring` | src/app/page.tsx:32 | the result is no longer than the string; with in-range bounds it is the slice between them in either order; bounds both at or below 0, or both at or past the end, give the empty string |
| `JsString.SubstringSymmetric` | src/app/page.tsx:32 | swapping the two bounds never changes the result |
| `JsString.SubstringClampsBounds` | src/app/page.tsx:32 | out-of-range bounds act as the nearest in-range bound |
| `JsString.Split` | src/app/page.tsx:32 | one more part than separators in the string (so never zero parts), no part holds the separator, and joining the parts with the separator gives back the string |
| `JsString.SplitJoin` | src/app/page.tsx:32 | splitting the join of any non-empty list of separator-free parts returns that list |
| `JsString.SplitUnique` | src/app/page.tsx:32 | any non-empty separator-free list whose join is `s` equals `Split(s)` |
| `JsString.SplitOfSeparatorFree` | src/app/page.tsx:32 | a string without the separator splits into the one-element list of itself |
| `JsString.SplitRun` | src/app/page.tsx:32 | `k >= 1` separators between two separator-free words split into the first word, `k - 1` empty parts and the second word |
| `JsString.TrimStart` | src/app/page.tsx:32 | the result is a suffix of the input, everything removed is whitespace, and it does not start with whitespace |
| `JsString.TrimEnd` | src/app/page.tsx:32 | the result is a prefix of the input, everything removed is whitespace, and it does not end with whitespace |
| `JsString.Trim` | src/app/page.tsx:32 | the result is a contiguous piece of the input with only whitespace around it, and it neither starts nor ends with whitespace |
| `JsString.TrimIdempotent` | src/app/page.tsx:32 | trimming a trimmed piece changes nothing |
| `JsString.TrimOfTrimmed` | src/app/page.tsx:32 | a string with no whitespace at either end is its own trim |
| `RoutePage.RouteBody` | src/app/page.tsx:32 | for a string of 14 or more characters the body is the characters from index 12 up to length - 2; for 13 characters it is the character at index 11; for 2 to 12 it is the last two characters; for fewer than 2 it is the whole string |
| `RoutePage.Pieces` | src/app/page.tsx:32 | one more piece than commas in the body, no piece holds a comma, and the pieces joined with commas give back the body |
| `RoutePage.Tokens` | src/app/page.tsx:32 | a segment has at least one token, no token holds a space, joining the tokens with single spaces gives back the trimmed piece, and there is one more token than spaces in it |
| `RoutePage.Segments` | src/app/page.tsx:32 | one segment per piece, in order; segment `i` has at least one token, no token holds a space, and its tokens joined with single spaces are piece `i` trimmed |
| `RoutePage.SegmentRequest` | src/app/page.tsx:41-45 | the origin is present exactly when the segment has a token and is then token 0; the destination is present exactly when it has two tokens and is then token 1; the travel mode is driving |
| `RoutePage.WithRouteIndex` | src/app/page.tsx:47 | the spread keeps the base options' viewport and marker flags and replaces the route index with `i` |
| `RoutePage.PlanRoute` | src/app/page.tsx:34-47 | one leg per segment, as many as the body has commas plus one; leg `i` goes from token 0 to token 1 of segment `i` (no destination for a one-token segment), by driving, and its renderer options are `preserveViewport` and `suppressMarkers` true with route index `i` |
| `RoutePage.PiecesOfWrappedList` | src/app/page.tsx:32 | a 12-character header, a comma-joined list of comma-free coordinates and a 2-character trailer give back exactly that list as pieces |
| `RoutePage.LegOfPiece` | src/app/page.tsx:40-45 | leg `i` and segment `i` come from piece `i` alone: the segment is that piece's tokens and the request is built from them |
| `RoutePage.TokensOfPair` | src/app/page.tsx:32 | a piece that trims to two space-free words joined by one space gives exactly those two tokens |
| `RoutePage.CoordinatePairLeg` | src/app/page.tsx:41-43 | a piece that trims to `lng lat` gives a request from the longitude to the latitude of that one coordinate, drawn with route index `i` |
| `RoutePage.SpaceRunLeg` | src/app/page.tsx:32 | a piece with `k >= 2` spaces between its two words yields the first word, `k - 1` empty tokens and the second word, so its request has an empty destination |
| `RoutePage.SingleTokenLeg` | src/app/page.tsx:41-45 | a piece without a space after trimming is a one-token segment whose request has an origin and no destination |

## Left out

- Loading the map library and building the map (`loadMap`, lines 21-27) and the `importLibrary` calls: foreign library I/O.
- `DirectionsService.route`, its asynchronous callback, the `DirectionsStatus.OK` test, `setDirections`, `setMap` and `console.log` (lines 48-56): network and rendering side effects. The model stops at the request and renderer options each segment gets.
- The React component, its state, the `<select>` and the `parseInt` of its value (lines 60-80): user interface.
- The module-level `map` variable and its lazy creation in the ref callback (lines 8 and 75): lifecycle of the external map.
- The geometry data file and the `geom[routeSelection]` lookup (lines 6 and 31): the route string is a parameter of the model.
- String indices: JavaScript counts UTF-16 code units, the model counts Unicode scalar values; the two differ for characters outside the Basic Multilingual Plane, and strings with unpaired surrogates have no counterpart in the model.
- `JsString.IsWhitespace`: the fixed set of ECMAScript WhiteSpace and LineTerminator characters, with the Unicode space separators (category Zs) as of Unicode 15; a later Unicode version adding a space separator is not followed.
- `JsString.Split`: modelled for one-character separators only, which is all the page uses (`","` and `' '`).
