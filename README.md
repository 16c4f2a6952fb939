# bicit in Dafny

bicit turns a GPX track into a picture. It analyses the track: distance, time and moving time, speeds, climb, elevation profile and a map. It then fills an SVG template that marks its slots with ids: the text of `tspan` elements such as `value_distance`, the `d` of the `path_elevation` path, and the link of the `image_map` image. This project models the part of bicit that computes. The I/O, rendering and UI around it are not modelled.

- **The template pass** (`bicit-cli/src/lib.rs`).
  - The SVG is its sequence of reader events.
  - The pass is a loop with explicit state: the output so far, the one-slot pending text, the template's metrics and the context's map cache.
  - Its helpers are modelled too: SVG lengths with their unit table (96 px per inch, as in section 5.2 of CSS Values and Units Level 3), the `viewBox`, pixel sizing of the embedded map image, and the track colour taken from the `stroke` attribute or inline `style`.
- **The context** (`bicit-cli/src/context.rs`).
  - `Context` is a class holding the loaded data and the three map-cache cells.
  - `load` is the nested loop over tracks, segments and decimated point pairs, proved equal to a fold over the pairs.
  - The track name, the string values, the elevation path and the memoised map image.
- **The path descriptor parser** (`bicit/src/lib.rs`), **`get_hhmmss`** (`bicit/src/time.rs`), and the consecutive-duplicate filter and argument guards of the map renderer (`bicit-cli/src/map.rs`).

Modelling choices:
- Numbers are `real` and durations are whole seconds.
- Rust's parsing of `f64`, `round`, `{:.0}`/`{:.1}` and saturating `as u32` are written out.
- Rust's truncating `/` and `%` on `i64` are written out.
- Geodesic distance is a parameter: any function with non-negative values.
- The map renderer is a parameter: any function from points, a size and a colour to a link or an error.
- `{}` formatting of `f64` is a parameter.
- A panic of the source (an `assert`, an `unwrap`, an XML error) is a `Failure` result.

The pass keeps one behaviour of the source as it is: every `path` element with an id and a `d` has its `d` parsed, whatever the id. The whole pass therefore fails when that `d`'s first space-separated token is not `m` or `M`, or when its second or third token has no ',' or a field that is not a number. A shorter `d` (`m` alone, or `M 1,2`) passes with height and length 0, and tokens after the third are ignored.

## Model

| member | source | states |
|---|---|---|
| Text.Trim | bicit-cli/src/lib.rs:22 | the result neither starts nor ends with whitespace |
| Text.TrimUnique | bicit-cli/src/lib.rs:22 | any slice with only whitespace before and after it and non-whitespace ends is the trim |
| Text.TrimSlice | bicit-cli/src/lib.rs:22 | the trim is always such a slice of the input, with only whitespace cut off either side |
| Text.TrimStart | bicit-cli/src/lib.rs:135 | the result is a suffix of the input, drops only whitespace and does not start with whitespace |
| Text.Split | bicit/src/lib.rs:28 | splitting gives at least one piece and no piece contains the separator |
| Text.SplitJoin | bicit/src/lib.rs:28 | splitting pieces joined by the separator gives back the pieces, empty ones included |
| Text.JoinSplit | bicit/src/lib.rs:28 | joining the pieces of a split with the separator gives back the text |
| Text.NonEmpty | bicit-cli/src/lib.rs:58-61 | the filter is no longer than its input and keeps no empty piece |
| Text.NonEmptyMembers | bicit-cli/src/lib.rs:58-61 | a piece is kept exactly when it is in the input and not empty |
| Text.NonEmptyAppend | bicit-cli/src/lib.rs:58-61 | filtering a concatenation filters each part in order, so the kept pieces keep their order |
| Text.NonEmptyKeepsNonEmpty | bicit-cli/src/lib.rs:58-61 | a list without empty pieces is kept whole |
| Text.SplitRuns | bicit-cli/src/lib.rs:58-61 | splitting fields surrounded by any runs of separators (at least one between neighbours) and dropping empty pieces gives back exactly the fields |
| Text.FindSub | bicit-cli/src/lib.rs:133 | the result is the first position where the needle occurs, and None exactly when it occurs nowhere |
| Text.NatToString | bicit/src/time.rs:9 | the decimal text of n is digits that read back as n, with no leading zero |
| Numbers.ParseDigitText | bicit/src/lib.rs:35-46 | a digit string parses as an `f64` to its decimal value |
| Numbers.ParseNegative | bicit/src/lib.rs:35-46 | a leading '-' parses to the negation of the rest, and fails when the rest fails |
| Numbers.ParseDecimal | bicit-cli/src/lib.rs:41 | `ip.fp` parses to ip plus fp over its power of ten, and `-ip.fp` to its negation |
| Numbers.ParseNatText | bicit/src/lib.rs:35-46 | the decimal text of a natural number, with or without '-', parses back to it |
| Numbers.RoundHalfAway | bicit-cli/src/context.rs:239 | `f64::round` is within one half of x, and ties go away from zero |
| Numbers.RoundHalfEven | bicit-cli/src/context.rs:71 | `{:.0}` rounding is within one half of x, and ties go to the even integer |
| Numbers.FormatFixed0Accurate | bicit-cli/src/context.rs:71 | the `{:.0}` text parses back to a number within 0.5 of the value |
| Numbers.FormatFixed1Accurate | bicit-cli/src/context.rs:72-74 | the `{:.1}` text parses back to a number within 0.05 of the value |
| Numbers.PixelCount | bicit-cli/src/lib.rs:78-79 | `round().max(1.0) as u32` lies in 1..u32::MAX, is the rounded value in range, 1 below 0.5, and saturates above |
| Hhmmss.TruncDiv60 | bicit/src/time.rs:6-7 | Rust's `/ 60` truncates toward zero: the quotient brackets the dividend from the side of zero |
| Hhmmss.TruncRem60 | bicit/src/time.rs:5-6 | Rust's `% 60`: dividend = 60 × quotient + remainder, and the remainder has the dividend's sign and lies below 60 in size |
| Hhmmss.DecomposeExact | bicit/src/time.rs:4-7 | hours×3600 + minutes×60 + seconds equals the duration; for a non-negative duration minutes and seconds are in [0, 60) and hours are unbounded |
| Hhmmss.Pad2 | bicit/src/time.rs:9 | `{:02}` gives at least two characters; a non-negative value gives digits reading back to it, exactly two below 100 |
| Hhmmss.HhmmssRoundTrip | bicit/src/time.rs:3-10 | for a non-negative duration the text is three ':'-separated digit fields, minutes and seconds two digits each, and reading them back gives the duration |
| Colors.TryFromHex | bicit-cli/src/lib.rs:172-181 | a colour exists exactly for '#' plus six or eight hex digits, and it keeps that text |
| InputPaths.NewInputPath | bicit/src/lib.rs:20-60 | the token loop computes the descriptor function, panics included |
| InputPaths.SpecPrefix | bicit/src/lib.rs:28-33 | on success the prefix is the first space-separated token and is "m" or "M" |
| InputPaths.PrefixChecked | bicit/src/lib.rs:28-33 | a descriptor whose first token is not "m"/"M" fails; on success `ss` is the second token verbatim; with fewer than three tokens height and length are 0 |
| InputPaths.TrailingTokensIgnored | bicit/src/lib.rs:49-51 | tokens after the third do not change the result |
| InputPaths.RelativeAbsolute | bicit/src/lib.rs:39-47 | with "m" height and length are the third pair; with "M" they are the third pair minus the start point, so both forms agree on the same geometry |
| InputPaths.ThreePointDescriptor | bicit/src/lib.rs:28-59 | `p x,y x',y'` with numeric fields succeeds with prefix p, ss `x,y`, and length/height from the third pair |
| InputPaths.ThreeTokens | bicit/src/lib.rs:28 | a descriptor of three space-free tokens is read as exactly those tokens |
| InputPaths.ParsePairJoined | bicit/src/lib.rs:34-38 | `x,y` with numeric fields reads as the pair of their values |
| InputPaths.RelativeAnchor | bicit/src/lib.rs:68-75 | "m 2.64583,169.33333 10.583337,-31.75" gives height -31.75, length 10.583337, the verbatim ss and prefix "m" |
| InputPaths.AbsoluteAnchor | bicit/src/lib.rs:77-84 | "M 5.2,174.6 137.5,140.2" gives height -34.4, length 132.3, the verbatim ss and prefix "M" |
| Svg.ParseSvgLengthToPx | bicit-cli/src/lib.rs:21-55 | the scanning loop computes the length function |
| Svg.SvgLengthToPx | bicit-cli/src/lib.rs:21-55 | None for blank input or input not starting with a digit, '.' or '-'; a result needs a unit in the table |
| Svg.NumberWithUnit | bicit-cli/src/lib.rs:28-52 | a number followed by a unit is the number scaled by the unit's factor, and None for a unit outside the table |
| Svg.LengthWithUnit | bicit-cli/src/lib.rs:21-54 | a number text that parses, followed by a unit of the table, is the whole length: the number times the unit's pixels |
| Svg.SurroundingWhitespace | bicit-cli/src/lib.rs:22 | whitespace around a length does not change its value |
| Svg.UnitlessAnchor | bicit-cli/src/lib.rs:352 | "1080" is 1080 px |
| Svg.PixelAnchor | bicit-cli/src/lib.rs:353 | "1080px" is 1080 px |
| Svg.MillimetreAnchor | bicit-cli/src/lib.rs:354 | "25.4mm" is 96 px |
| Svg.CentimetreAnchor | bicit-cli/src/lib.rs:355 | "2.54cm" is 96 px |
| Svg.InchAnchor | bicit-cli/src/lib.rs:356 | "1in" is 96 px |
| Svg.PointAnchor | bicit-cli/src/lib.rs:357 | "72pt" is 96 px |
| Svg.ParseAll | bicit-cli/src/lib.rs:66-71 | all fields parse exactly when the result exists, and it holds their values in order |
| Svg.ViewBoxRoundTrip | bicit-cli/src/lib.rs:57-72 | four numbers with any runs of whitespace and commas before, between and after them parse to those four values |
| Svg.ViewBoxNeedsFourFields | bicit-cli/src/lib.rs:57-64 | any other number of fields between such runs gives None |
| Svg.ScaledPixels | bicit-cli/src/lib.rs:75-79 | one image dimension in pixels lies in 1..u32::MAX, is units × px / viewBox rounded when in range, and follows IEEE division for a zero viewBox |
| Svg.ImagePixels | bicit-cli/src/lib.rs:74-81 | both pixel dimensions lie in 1..u32::MAX |
| Svg.FullViewBox | bicit-cli/src/lib.rs:74-81 | an image as large as the viewBox gets the SVG's own pixel size |
| Svg.ImagePixelsAnchor | bicit-cli/src/lib.rs:361-372 | 158.75×190.5 units in a 285.75 viewBox at 1080 px give (600, 720) |
| Svg.FallbackPixels | bicit-cli/src/lib.rs:227-233 | without metrics the width is 1000 and the height is ≥ 1 and within one half of 1000 × h / w when the aspect is not clamped |
| Svg.AspectBounds | bicit-cli/src/lib.rs:229 | the clamped aspect is at least 0.0001, so the fallback height is bounded, and unclamped it is w / h |
| Svg.StrokeHexFromStyle | bicit-cli/src/lib.rs:130-154 | a found stroke is '#' plus six or eight hex digits, accepted as a colour |
| Svg.CountHexDigits | bicit-cli/src/lib.rs:139-146 | the counting loop gives the length of the leading hex-digit run |
| Svg.ExtractHexStrokeFromStyle | bicit-cli/src/lib.rs:130-154 | the method computes the stroke function |
| Svg.StrokeFound | bicit-cli/src/lib.rs:132-153 | when `stroke:` first occurs after `pre`, whatever `pre` holds before it, any whitespace and then a six- or eight-digit hex colour give that colour |
| Svg.StrokeWrongLength | bicit-cli/src/lib.rs:132-151 | after the first `stroke:`, any whitespace and '#', a hex run of any other length gives None |
| Svg.StrokeAnchor | bicit-cli/src/lib.rs:388-393 | `fill:none;stroke:#2db192;stroke-width:1` gives `#2db192` |
| MapRender.Dedupe | bicit-cli/src/map.rs:96-108 | the output is no longer than the input and ends with the input's last point |
| MapRender.DedupeConsecutiveCoords | bicit-cli/src/map.rs:96-108 | the push loop computes the dedupe function |
| MapRender.DedupeKeepsChanges | bicit-cli/src/map.rs:99-105 | a point is dropped exactly when it equals the previous point, and no two adjacent output points are equal |
| MapRender.DedupeSubsequence | bicit-cli/src/map.rs:97-107 | the output is an order-preserving subsequence of the input |
| MapRender.DedupeKeepsFirst | bicit-cli/src/map.rs:98-105 | empty input gives empty output, and a non-empty input's first point is kept |
| MapRender.DedupeIdempotent | bicit-cli/src/map.rs:96-108 | deduping twice is deduping once |
| MapRender.NoDuplicatesFixed | bicit-cli/src/map.rs:96-108 | a list without adjacent duplicates is returned unchanged |
| MapRender.RenderTrackMapHref | bicit-cli/src/map.rs:118-124 | empty coordinates or a zero width or height fail before any rendering |
| MapRender.RenderTrackMap | bicit-cli/src/map.rs:113-126 | the renderer is called, with a deduplicated subsequence of the points, only after both guards pass |
| Track.SegmentLength | bicit-cli/src/context.rs:216-217 | a segment's geodesic length is never negative |
| Track.TotalLength | bicit-cli/src/context.rs:215-217 | the total distance is never negative |
| Track.DecimatedPairs | bicit-cli/src/context.rs:223-225 | the pairs are exactly the points at 10k and 10k+10, (n-1)/10 of them |
| Track.FoldFromAppend | bicit-cli/src/context.rs:215-269 | folding over a concatenation folds the second part from the first part's result |
| Track.StepTotals | bicit-cli/src/context.rs:225-268 | one pair adds its seconds to the time only when both timestamps exist and differ by a positive amount, its moving seconds when faster than 0.5, its geodesic length, its climb, and its first elevation to the profile |
| Track.FoldTotals | bicit-cli/src/context.rs:225-268 | total time, moving time, distance and net climb are the sums over the pairs, and the profile's elevations are the first elevations of the pairs with both elevations |
| Track.FoldElevations | bicit-cli/src/context.rs:249-267 | uphill is the sum of the positive elevation differences and downhill the sum of the others negated; the largest and smallest elevations are those of the first elevations of the pairs with both elevations, starting from 0 and 99999; each profile sample is such an elevation at the distance covered through its pair |
| Track.Highest | bicit-cli/src/context.rs:257-259 | the running maximum is at least the start value and every value, and is the start value or one of them |
| Track.Lowest | bicit-cli/src/context.rs:260-262 | the running minimum is at most the start value and every value, and is the start value or one of them |
| Track.StepConsistent | bicit-cli/src/context.rs:225-268 | one pair keeps moving ≤ total time, non-negative accumulators, samples within [min, max] and non-decreasing sample distances |
| Track.FoldConsistent | bicit-cli/src/context.rs:201-269 | the statistics after any sequence of pairs satisfy those invariants |
| Track.SpeedMaxIsLargest | bicit-cli/src/context.rs:237-246 | the maximum speed is at least every counted pair's speed, and is 0 or one of them |
| Track.PointsOf | bicit-cli/src/context.rs:220-222 | every raw point goes into `coords`, in order |
| Track.AverageSpeed | bicit-cli/src/context.rs:273-282 | an average speed is 0 without time and never negative |
| Track.AnalyzeConsistent | bicit-cli/src/context.rs:197-298 | loaded data satisfies the statistics invariants and has a non-empty track name |
| Track.MovingSpeedAtLeastAverage | bicit-cli/src/context.rs:273-282 | with moving time, the moving speed is at least the average speed |
| Track.TruncateEllipsis | bicit-cli/src/context.rs:162-175 | max 0 gives ""; a short string is unchanged; otherwise exactly max characters, the first max-1 kept and '…' last |
| Track.TruncateIdempotent | bicit-cli/src/context.rs:162-175 | truncating twice is truncating once |
| Track.FileName | bicit-cli/src/context.rs:190-191 | a file name is a non-empty last component, neither "." nor "..", without '/' |
| Track.LastDot | bicit-cli/src/context.rs:190-191 | the last '.' of a name, or None when there is none |
| Track.FileStem | bicit-cli/src/context.rs:190-193 | a stem is never empty |
| Track.FileStemOneExtension | bicit-cli/src/context.rs:190-193 | `stem.ext` has stem `stem` |
| Track.FirstName | bicit-cli/src/context.rs:178-181 | the first track name that is present, or None when no track has one |
| Track.ComputeTrackName | bicit-cli/src/context.rs:177-195 | the track name is never empty |
| Track.FirstNamedTrackWins | bicit-cli/src/context.rs:177-195 | the first named track decides: its trimmed name truncated to 32 when not blank, and otherwise the file fallback, with no later track consulted |
| Track.StemAnchor | bicit-cli/src/context.rs:318-322 | no tracks and "foo_bar.gpx" give "foo_bar" |
| Track.LongNameTruncated | bicit-cli/src/context.rs:184 | a long trimmed name becomes 32 characters ending in '…' |
| Track.TruncationAnchor | bicit-cli/src/context.rs:324-336 | the 36-character name becomes 32 characters ending in '…' |
| Track.GetString | bicit-cli/src/context.rs:67-85 | a value exists exactly when data is loaded and the key is one of the eleven |
| Track.DistanceAnchor | bicit-cli/src/context.rs:71 | a distance between 21.5 and 22.5 km is written "22km" |
| Track.TimeValueReadsBack | bicit-cli/src/context.rs:79-80 | the time values read back as the total and moving seconds |
| Contexts.ImageLookup | bicit-cli/src/context.rs:105-131 | without data nothing changes; only `image_map` returns the link, which is the cached one and matches the requested size and colour; a matching cache is reused; a failed rebuild gives None and keeps the cache |
| Contexts.LookupCacheIgnoresKey | bicit-cli/src/context.rs:112-122 | whether the map is rebuilt does not depend on the key |
| Contexts.LookupIdempotent | bicit-cli/src/context.rs:112-127 | asking again for the same size and colour does not rebuild |
| Contexts.LookupAfterRender | bicit-cli/src/context.rs:87-127 | a rebuild stores (link, (w, h), colour) and `image_map` gets that link |
| Contexts.EmptyCacheRenders | bicit-cli/src/context.rs:113-118 | an empty cache always needs a rebuild |
| Contexts.ElevationWidth | bicit-cli/src/context.rs:138 | the vertical divisor is at least 100 and at least the elevation range |
| Contexts.Moves | bicit-cli/src/context.rs:148-153 | each move is the difference from the previous placed point, the first from the origin |
| Contexts.PathFor | bicit-cli/src/context.rs:133-160 | a path exists exactly for `path_elevation` with data loaded |
| Contexts.MovesTelescope | bicit-cli/src/context.rs:148-153 | the moves add up to the last placed point |
| Contexts.PathClosesVertically | bicit-cli/src/context.rs:156 | the final `l 0 -last_e` brings the path back to its starting height |
| Contexts.ProfileFitsBox | bicit-cli/src/context.rs:138-146 | every placed sample's height lies between 0 and the descriptor's height |
| Contexts.ProfileMovesForward | bicit-cli/src/context.rs:145 | with a non-negative length, placed samples never move backwards |
| Contexts.PushPoints | bicit-cli/src/context.rs:220-222 | the push loop appends the segment's points in order |
| Contexts.AccumulatePair | bicit-cli/src/context.rs:226-268 | one turn of the pair loop is one step of the statistics fold |
| Contexts.AccumulatePairs | bicit-cli/src/context.rs:223-269 | the pair loop computes the fold of the segment's decimated pairs |
| Contexts.AddSegments | bicit-cli/src/context.rs:218-270 | the segment loop appends every point and folds every segment's pairs |
| Contexts.Context.constructor | bicit-cli/src/context.rs:51-59 | a new context has no data and an empty cache |
| Contexts.Context.CleanupTempFiles | bicit-cli/src/context.rs:61-65 | all three cache cells are cleared and the data kept |
| Contexts.Context.BuildMap | bicit-cli/src/context.rs:87-103 | without data it fails and changes nothing; otherwise a successful render stores link, size and colour, and a failed one leaves the cache |
| Contexts.Context.GetImage | bicit-cli/src/context.rs:105-131 | the answer and the new cache are those of the lookup |
| Contexts.Context.GetPath | bicit-cli/src/context.rs:133-160 | the loop with `old_d`/`old_e` builds the path of the path function |
| Contexts.Context.Load | bicit-cli/src/context.rs:197-301 | a read error leaves the data; otherwise the data is the analysis of the track (fold, averages, name, points) and the cache is unchanged |
| Template.GetAttributeFirst | bicit-cli/src/lib.rs:122-128 | the value is that of the first attribute with the key, and None exactly when no attribute has it |
| Template.WithoutKeys | bicit-cli/src/lib.rs:302-305 | the kept attributes are exactly those whose key is not dropped |
| Template.WithoutKeysAppend | bicit-cli/src/lib.rs:302-305 | dropping keys distributes over concatenation, so the kept attributes stay in their order |
| Template.FirstTrackColor | bicit-cli/src/lib.rs:156-192 | the track colour is that of the first element that gives one, and None exactly when none does |
| Template.ExtractTrackColor | bicit-cli/src/lib.rs:156-192 | the event loop returns the first element's colour |
| Template.StrokeAttributeAnchor | bicit-cli/src/lib.rs:374-383 | a `path_elevation` with `stroke='#22C55E'` gives that colour |
| Template.StyleAnchor | bicit-cli/src/lib.rs:385-394 | a `path_elevation` after an image, with the colour in `style`, gives `#2db192` |
| Template.ImageRequest | bicit-cli/src/lib.rs:217-236 | an image is sized exactly when width and height exist and parse; the size is `ImagePixels` of the parsed width and height with metrics and `FallbackPixels` without, lies in 1..u32::MAX, is 1000 wide without metrics, and carries the track colour only for `image_map` |
| Template.HandleSpec | bicit-cli/src/lib.rs:194-246 | no id gives nothing; only images touch the cache; only a path whose `d` does not parse fails; a replacement needs data and a known id of the right element |
| Template.HandleResolves | bicit-cli/src/lib.rs:203-207 | with data, a `tspan` with a known key gets its string value |
| Template.HandleImage | bicit-cli/src/lib.rs:217-240 | with data, `image_map` with a width and height that parse is answered by the map lookup for the requested size and colour, which also gives the new cache |
| Template.HandlePath | bicit-cli/src/lib.rs:208-216 | with data, the elevation path whose `d` parses gets the elevation path |
| Template.PathParseFailure | bicit-cli/src/lib.rs:210-211 | a path with any id and a `d` the parser refuses fails |
| Template.HandleXml | bicit-cli/src/lib.rs:194-246 | the handler's answer and the context's new cache are those of the handler function |
| Template.MetricsFrom | bicit-cli/src/lib.rs:263-289 | metrics exist exactly when width and height are present and both are lengths |
| Template.MetricsWithoutViewBox | bicit-cli/src/lib.rs:270-276 | without a `viewBox`, user units are pixels |
| Template.MetricsWithViewBox | bicit-cli/src/lib.rs:270-286 | with a parsable `viewBox`, the user space is its width and height |
| Template.PathRewrite | bicit-cli/src/lib.rs:297-307 | a rewritten path has exactly one `d`, the new one, last, preceded by the other attributes in their order; a path without `d` keeps its attributes and gains `d` last |
| Template.ImageRewrite | bicit-cli/src/lib.rs:312-322 | a rewritten image has exactly one `xlink:href`, the new one, last, no `sodipodi:absref`, preceded by the other attributes in their order |
| Template.ImageWithoutLink | bicit-cli/src/lib.rs:312-322 | an image without `xlink:href` or `sodipodi:absref` keeps its attributes in order and gains the new link last |
| Template.StepEvent | bicit-cli/src/lib.rs:260-337 | after a failure nothing changes; otherwise exactly one event is appended; only an element handed to the handler (a `tspan` start, an empty `path` or `image`) can fail or change the cache, and then with the handler's error and cache; metrics change only from none at an `svg` start; a text node takes the pending value or stays, and empties the slot; an empty `path` or `image` is written rewritten with the handler's answer, or as it is when there is none |
| Template.StepCorresponds | bicit-cli/src/lib.rs:292-336 | the event written for an input event stands for it: text for text, anything else copied, and an empty `path` or `image` rewritten with the handler's answer or kept when there is none |
| Template.StepWithHandleXml | bicit-cli/src/lib.rs:194-246 | with `handle_xml` as the handler, only a path can fail and only an image changes the cache |
| Template.Pass | bicit-cli/src/lib.rs:259-339 | without failure, as many events are written as read |
| Template.ApplySpec | bicit-cli/src/lib.rs:248-342 | a result exists only for a well-formed document and has as many events as it |
| Template.ErrorSticks | bicit-cli/src/lib.rs:337 | once the pass fails, later events change nothing |
| Template.PassStep | bicit-cli/src/lib.rs:259-339 | the pass over one more event is one step from the pass over the prefix |
| Template.ErrorDecides | bicit-cli/src/lib.rs:337-341 | a failure on a prefix is the document's result, and the cache is the one at the failure |
| Template.SuccessDecides | bicit-cli/src/lib.rs:339-341 | without failure the result is the written events, or the reader's error for a malformed document |
| Template.ElementAt | bicit-cli/src/lib.rs:297-327 | in a pass without failure, the output at an empty `path` or `image` is that element rewritten with the handler's answer on the state the pass reached, or the element itself when there is no answer |
| Template.PathReplaced | bicit-cli/src/lib.rs:297-311 | in a document that goes through, the elevation path whose `d` parses is written with the elevation profile as its new `d` |
| Template.ImageReplaced | bicit-cli/src/lib.rs:312-327 | in a document that goes through, the map image is written linking to the map the lookup gives for its size and the track colour, and kept as it is only when the lookup gives no link |
| Template.OutAt | bicit-cli/src/lib.rs:259-339 | without failure the event written at place i is already there after i+1 events |
| Template.OutExtends | bicit-cli/src/lib.rs:259-339 | the events written for a prefix stay the beginning of the output |
| Template.PassCorresponds | bicit-cli/src/lib.rs:260-337 | every output event stands for the input event at its place: text for text, a path or image kept or rewritten, anything else copied |
| Template.NoErrorWhenHandled | bicit-cli/src/lib.rs:292-337 | if the handler succeeds on every element handed to it, the pass never fails |
| Template.NoErrorWithoutPaths | bicit-cli/src/lib.rs:297-298 | a document without `path` elements never fails in the handler |
| Template.TextTakesSlot | bicit-cli/src/lib.rs:328-334 | a text node takes the pending value if any, else stays, and empties the slot |
| Template.PendingCarries | bicit-cli/src/lib.rs:259-339 | events other than text and `tspan` starts leave the pending value |
| Template.PendingStaysNone | bicit-cli/src/lib.rs:292-295 | without a `tspan` start nothing becomes pending |
| Template.TspanSetsPending | bicit-cli/src/lib.rs:292-295 | each `tspan` start re-arms the slot with the handler's answer, a value or nothing |
| Template.TspanAnswer | bicit-cli/src/lib.rs:203-207 | `handle_xml` answers a `tspan` with the string value of its id, or nothing without an id |
| Template.PendingAt | bicit-cli/src/lib.rs:292-334 | the answer of a `tspan` start stays pending until the next text or `tspan` start |
| Template.TspanFillsAt | bicit-cli/src/lib.rs:292-334 | the next text after a `tspan` start becomes the handler's answer, or stays when there is none |
| Template.TspanFillsNextText | bicit-cli/src/lib.rs:292-334 | the next text after a known `tspan` becomes its value; an unknown or unresolved one leaves the text |
| Template.TextKeptAt | bicit-cli/src/lib.rs:328-334 | a text with no `tspan` start since the previous text or the document start is written as it is |
| Template.TextWithoutTspanKept | bicit-cli/src/lib.rs:328-334 | a text with no `tspan` start since the previous text is written as it is, so one arming replaces at most one text |
| Template.MetricsKept | bicit-cli/src/lib.rs:262 | once set, metrics never change |
| Template.FirstSvgMetrics | bicit-cli/src/lib.rs:261-291 | the metrics come from the first `svg` start tag |
| Template.InertUnchanged | bicit-cli/src/lib.rs:259-339 | a document whose elements the handler answers with no replacement is written back identically, without failure |
| Template.InertAnswer | bicit-cli/src/lib.rs:194-246 | `handle_xml` answers no replacement, and no failure, for an element whose id the context does not know and, on a path, whose `d` parses |
| Template.InertDocument | bicit-cli/src/lib.rs:430-438 | such a document's result is the document itself, or the parse failure when malformed |
| Template.DistanceTextAnchor | bicit-cli/src/lib.rs:396-427 | the `value_distance` span's text becomes "22km" and every other event is copied |
| Template.ApplyEvent | bicit-cli/src/lib.rs:260-337 | one turn of the loop on the context is one step of the pass |
| Template.ApplyContextXml | bicit-cli/src/lib.rs:248-342 | the method gives the pass's result and leaves the context with the pass's cache |

## Left out

- Reading files is not modelled: the template, the GPX file and the output. `Context.Load` takes the parsed GPX or the read error as its argument.
- GPX parsing and `Geodesic.length`/`distance` are not modelled: the geodesic is a non-negative function parameter, and a track's length is the sum of its consecutive distances.
- Timestamps are whole seconds: `whole_seconds` truncation of sub-second differences is not modelled.
- The map renderer itself is an opaque parameter: OSM tiles, wgpu, PNG/base64 and `simplify_linestring`. Its two guards and the dedupe filter are modelled.
- quick_xml is not modelled: tokenising, trimming of text, attribute unescaping, and escaping and serialising the output. A document is the reader's event list, with a flag for a parse error; the output is an event list.
- Template.GetAttribute: an attribute whose value fails to unescape gives None in the source; attribute values here are already unescaped.
- Colors.TryFromHex: `galileo::Color::try_from_hex` is taken to accept exactly '#' and six or eight hex digits. Colours are compared by their text, not by their RGBA value.
- Floating point is not modelled: numbers are exact reals with no f64 rounding, and `inf`/`nan` literals do not parse.
- Numbers.FormatFixed0: `{:.0}`/`{:.1}` round the exact real half to even, so results may differ from Rust on values that f64 cannot represent exactly.
- Contexts.Context.GetPath: the `{}` text of an `f64` is the parameter `display`. Where the source divides by a zero distance (infinite or NaN text), the horizontal scale is 0.
- Track.TimeValueReadsBack: `value_time` uses the `hhmmss` crate in the source; the model writes it with `get_hhmmss`, which gives the same text for non-negative durations.
- `Template::apply_context_to_file`, `main.rs` and the UI crate are not modelled: they are argument handling, the spawned `inkscape`, file dialogs and threads.
- `bicit/src/render.rs`, `build.rs` and `embedded_templates.rs` are foreign rendering and build-time generation.
- PassCorresponds: states which kind of event stands at each place; the replacement values are stated at each place by `ElementAt`, `PathReplaced`, `ImageReplaced` and `TspanFillsNextText`.
- Track.FileStem: only '/'-separated paths are covered; Windows prefixes and `\` separators are not modelled.
