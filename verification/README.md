# ptvrs request core, modelled in Dafny

`ptvrs` is a Rust client for the Public Transport Victoria timetable API
(version 3). This project models the part of it that decides what goes
over the wire and how answers are read back:

- **Query encoding** (`clean`, `to_query`, and the `*Opts` structs
  serialised through serde). Each options struct becomes an `Opts` variant.
  `Fields` lists its serialised fields in declaration order, with serde's
  renames and `skip_serializing_if` applied. `Query` is `to_query` of the
  serialised object.
- **Request assembly** (`Client::rq`). Three steps are modelled:
  - the `devid` separator rule and the augmented path;
  - the HMAC-SHA1 signature over the path's UTF-8 bytes, hex-encoded;
  - the final URL.
  A server-side check (`Verifies`) is defined as the partner of signing.
- **Endpoint paths**: the path template of every endpoint method.
- **Response classification**: the status-code branch at the end of `rq`,
  and how its error message is built.
- **Field decoders and enums**:
  - `de_iso_8601`, `ser_iso_8601`, `ser_touch_utc`, `de_rfc3339`,
    `opt_de_rfc3339` and `de_service_time`;
  - `deserialize_path`, `de_string_as_i32` and `I32ButSilly`;
  - `RouteType` with its `i8` conversions, `Serialize`, `Deserialize` and
    `Display`.

Some of this behaviour comes from library code. It appears as
function-typed parameters, because its internals are not part of this
model:

- the HMAC-SHA1 digest (`hmac`);
- `url_escape::encode_query` and `encode_path` (`encodeQuery`,
  `encodePath`);
- `f64` parsing (`parseF64`);
- chrono's `%H:%M:%S` parse behind `de_service_time`
  (`parseServiceTime`);
- the canonical HTTP reason phrases (`reason`).

serde_json's map iteration order is also an input: `Enumerates(entries,
obj)` says that `entries` lists the object `obj` in some order, and every
result about queries holds for every such order.

Rust's standard conversions that the core relies on are written out in
full. Each one below except `trim` has its inverse proved; `trim` is
pinned down through `clean` (`Helpers.CleanIsSlice`, `Helpers.CleanTrimmed`,
`Helpers.CleanKeepsInnerSpaces`):

- `i32::from_str` (`Integers.ParseI32`);
- integer `Display` (`Text.IntToString`);
- `str::split` and `join` (`Text`), and `trim` (`Text.Trim`);
- serde_json's string escaping (`Json.Escape`, with `Json.Unescape`);
- UTF-8 (`Encoding.Utf8`) and `hex::encode` (`Encoding.HexEncode`);
- chrono's fixed-width formats (`DateTimes`).

Modules:

| module | file | models |
|---|---|---|
| `Outcomes` | outcomes.dfy | `Option` and `Result` |
| `Integers` | integers.dfy | fixed-width integers, `i32::from_str` |
| `Text` | text.dfy | decimal digits, zero padding, split, join, trim |
| `Json` | json.dfy | the JSON scalars and arrays the options produce, serde_json escaping |
| `Encoding` | encoding.dfy | UTF-8 and lower-case hex |
| `DateTimes` | datetimes.dfy | `NaiveDateTime`, the formats and fixed-width parsers the helpers use |
| `Types` | types.dfy | `RouteType`, `I32ButSilly` |
| `Helpers` | helpers.dfy | everything in `src/helpers.rs` |
| `Options` | options.dfy | the options structs and their query strings |
| `Requests` | requests.dfy | `Client::rq` |
| `Endpoints` | endpoints.dfy | the endpoint methods' paths and URLs |

The model follows the code where the code and its documentation differ:

- `clean` strips every leading and every trailing `"`, not just one pair.
- `rq` adds no separator after any path that ends in `?`, even when the
  path's query is not empty.
- `departures_stop_route` puts the route id where the stop id belongs, and
  the stop id where the route id belongs.
- `de_string_as_i32` asks serde_json for an `i32`, so its string visitor is
  never reached and every JSON value is refused.

The last three are logged under Findings, with the corrected behaviour
proved next to the behaviour as written.

## Model

| member | source | states |
|---|---|---|
| Helpers.Clean | src/helpers.rs:7-13 | the cleaned text is no longer than the input and neither starts nor ends with `"` |
| Helpers.CleanIsSlice | src/helpers.rs:7-13 | `clean` only cuts from the two ends: its result is a contiguous piece of the input |
| Helpers.CleanTrimmed | src/helpers.rs:9-11 | on text with no whitespace at either end, `clean` only removes the surrounding quotes |
| Helpers.CleanQuoted | src/helpers.rs:10-11 | a quoted text loses its opening quote and then every trailing quote |
| Helpers.CleanUnwraps | src/helpers.rs:7-13 | one pair of quotes wrapped around a text that neither starts nor ends with `"` is undone exactly |
| Helpers.CleanKeepsInnerSpaces | src/helpers.rs:9-11 | spaces just inside the quotes survive, because trimming happens before unquoting |
| Helpers.CleanTrimsSpaces | src/helpers.rs:9 | a second pass removes those spaces, so `clean` is not idempotent |
| Helpers.CleanStripsEveryQuote | src/helpers.rs:10-11 | two quotes on each side are all removed, not one pair |
| Helpers.CleanRenderedString | src/helpers.rs:37 | a JSON string value that does not end in `"` reaches the query as its escaped text without quotes |
| Helpers.CleanCutsEscapedQuote | src/helpers.rs:11 | an escaped quote at the end of a quoted text is cut down to its backslash |
| Helpers.CleanRenderedStringEndingInQuote | src/helpers.rs:37 | a string value ending in `"` loses that quote, and its escape leaves a lone backslash |
| Helpers.QuoteEndingValueTruncated | src/helpers.rs:37 | the value `a"` is sent as `a\` |
| Helpers.CleanRenderedInt | src/helpers.rs:37 | an integer value is sent as its decimal text |
| Helpers.CleanRenderedBool | src/helpers.rs:37 | a boolean value is sent as `true` or `false` |
| Helpers.EnumeratesSingleton | src/helpers.rs:16-20 | an object with one key is iterated as exactly that entry |
| Helpers.ElementSegments | src/helpers.rs:23-35 | an array gives one `key=value` segment per element, in element order, each value cleaned and URL-escaped |
| Helpers.ToQuery | src/helpers.rs:15-42 | an object with no entries gives the empty query |
| Helpers.ObjectQuery | src/helpers.rs:15-42 | the empty object gives the empty query, whatever the iteration order |
| Helpers.QueryJoinsSegments | src/helpers.rs:15-42 | the query is the `&`-join of all entries' segments in entry order, an empty array standing for one empty segment |
| Helpers.SplitQuery | src/helpers.rs:15-42 | splitting the query on `&` gives back exactly the segments, in order, when no segment holds `&` |
| Helpers.SegmentsAppend | src/helpers.rs:20-41 | the encoding is compositional: two runs of entries give the first run's segments, then the second run's |
| Helpers.SegmentsAround | src/helpers.rs:20-41 | entry `i`'s segments sit between those of the entries before and after it |
| Helpers.FieldSegmentsPresent | src/helpers.rs:15-42 | every segment a key of the object stands for appears in the query, whatever the map's iteration order |
| Helpers.OneScalarQuery | src/helpers.rs:37 | a single scalar entry gives `key=value` with the value cleaned but not URL-escaped |
| Helpers.CleanKeepsPlainJoin | src/helpers.rs:37 | a plain string value containing `&` passes through `clean` unchanged |
| Helpers.ScalarAmpersandSplits | src/helpers.rs:37 | so a scalar string value holding `&` is read by the server as two parameters |
| Helpers.DeIso8601 | src/helpers.rs:44-51 | succeeds exactly on JSON strings that parse as `%Y-%m-%dT%H:%M:%S`, with the parsed value; a string that does not parse fails with a message naming the raw text and the parse error, any other JSON type as an invalid type |
| Helpers.DeServiceTime | src/helpers.rs:64-83 | null and the empty string both mean no time; any other string goes to the time parser, giving its time, or a failure whose message names the raw text and the parse error; other JSON types are an invalid type |
| Helpers.DeServiceTimeDelegates | src/helpers.rs:64-83 | a time comes out exactly when a non-empty string parses, and it is the parsed time; a failure's message starts with the raw text in quotes |
| Helpers.DeRfc3339 | src/helpers.rs:96-103 | succeeds exactly on JSON strings that parse as `%Y-%m-%dT%H:%M:%S%.3fZ` (an optional fraction of any length), with the parsed value; a string that does not parse fails with a message naming the raw text and the parse error, any other JSON type as an invalid type |
| Helpers.OptDeRfc3339 | src/helpers.rs:105-118 | null means no value; anything else must decode as `de_rfc3339` does, and fails as it does, with the same message naming the raw text |
| Helpers.CleanSerIso8601 | src/helpers.rs:53-61 | a serialised ISO date reaches the query as the formatted text itself |
| Helpers.CleanSerTouchUtc | src/helpers.rs:86-94 | a serialised touch date reaches the query as its text, space included |
| Helpers.DeSerIso8601 | src/helpers.rs:44-61 | `de_iso_8601` reads back what `ser_iso_8601` writes, for whole-second times in years 0 to 9999 |
| Helpers.ParseCoordinate | src/helpers.rs:151-166 | a coordinate parses exactly when the text before its first `,` parses as `f64`, and gives that number |
| Helpers.PathPointsShape | src/helpers.rs:146-169 | a path decodes exactly when it has an even number of tokens that all parse; point `j` comes from tokens `2j` and `2j+1`; an odd count fails on the longitude; the latitude is never reported missing |
| Helpers.ParsePathsShape | src/helpers.rs:136-173 | the list of paths decodes exactly when every element is a string that decodes, one point list per string, in order |
| Helpers.CoordinateTextIsPrefix | src/helpers.rs:153 | the coordinate text is the longest prefix of the token without a `,` |
| Helpers.PathRoundTrip | src/helpers.rs:146-169 | a path written as `lat, lon lat, lon ...` decodes to its points, in order |
| Helpers.TrailingSpaceFails | src/helpers.rs:147-158 | a trailing space makes the whole path fail, because `f64` rejects the empty token |
| Helpers.DeStringAsI32 | src/helpers.rs:191-209 | as written, every JSON value is refused as an invalid type for "a string representing an integer": serde_json's `deserialize_i32` refuses strings, and the visitor refuses numbers |
| Helpers.IntendedDeStringAsI32 | src/helpers.rs:191-209 | reached through its `visit_str`, the decoder refuses every value that is not a JSON string as an invalid type |
| Helpers.IntendedDeStringAsI32Accepts | src/helpers.rs:191-209 | the intended decoder succeeds exactly on strings holding an in-range 32-bit literal, with its value |
| Helpers.DeStringAsI32RefusesStrings | src/helpers.rs:191-209 | every 32-bit integer written as a JSON string is refused as written, and read back by the intended decoder |
| Requests.Separator | src/core.rs:25-37 | the separator is empty exactly when the path has a `?` and ends in `?`; otherwise it is one character |
| Requests.AugmentPath | src/core.rs:25-37 | the signed path is `/`, then the path unchanged, then the separator, and ends with `devid=` and the developer id |
| Requests.AugmentedHasQuery | src/core.rs:25-37 | the signed path always has a query |
| Requests.AugmentPathCases | src/core.rs:25-37 | the three cases: `?` when the path has no query, nothing after a trailing `?`, `&` otherwise |
| Requests.DevidIsLastParam | src/core.rs:25-37 | unless the path has a non-empty query ending in `?`, the developer id is one more parameter after the path's own, which are unchanged |
| Requests.DevidSwallowed | src/core.rs:25-37 | for a path `base?param?` the developer id is glued onto `param?` and no `devid` parameter is sent |
| Requests.IntendedAugmentPath | src/core.rs:25-37 | the corrected augmented path starts with `/` and the path unchanged |
| Requests.IntendedDevidIsLastParam | src/core.rs:25-37 | with the corrected separator the developer id is always a parameter of its own, after the path's own parameters |
| Requests.IntendedAgrees | src/core.rs:25-37 | the corrected and the written separator agree on every path except those with a non-empty query ending in `?` |
| Requests.Signature | src/core.rs:39-42 | the signature is 40 lower-case hex digits |
| Requests.SignedUrl | src/core.rs:39-43 | the URL splits back into exactly the signed path and its signature, with nothing more: neither the origin nor `&signature=` is signed |
| Requests.SignedUrlVerifies | src/core.rs:39-43 | a server holding the key accepts every URL `rq` builds: the hex decodes to the HMAC of the key's bytes over the path's bytes |
| Requests.Classify | src/core.rs:49-58 | a non-success status is a failure `Request failed: <status>`, followed by ` - ` and the API's message when the error body decodes; a success status yields the body when it decodes and the undecodable-body error otherwise |
| Requests.FailureMessageRecovers | src/core.rs:51-55 | the two failure messages are told apart, and the API's message is recovered from the error exactly |
| Endpoints.Pieces | src/core.rs:64-325 | every path template starts with `v3` and has at least one more piece |
| Endpoints.Path | src/core.rs:64-325 | every path starts with its template, and goes past it exactly for the methods that take options |
| Endpoints.Url | src/core.rs:24-43 | every endpoint URL passes the server's signature check and starts with the origin, `/` and the template |
| Endpoints.UrlPrefix | src/core.rs:25-43 | the URL starts with the origin, `/` and the path |
| Endpoints.PiecesHaveNoQuery | src/core.rs:64-325 | with run refs, coordinates and the escaped search term free of `?` and `&`, no template piece holds either |
| Endpoints.TemplateHasNoQuery | src/core.rs:64-325 | with such arguments a template has no query of its own |
| Endpoints.NoOptionsRequest | src/core.rs:100-120 | methods without options get `?devid=` after the template, and the developer id is their only parameter |
| Endpoints.OptionsPathQuery | src/core.rs:64-325 | for methods with options, the query of the path is exactly the options' query string |
| Endpoints.OptionsRequest | src/core.rs:64-325 | when the options' query has no `?`, the server sees the options' parameters unchanged, then the developer id |
| Endpoints.EmptyQueryRequest | src/core.rs:25-37 | a template followed by an empty query gets the developer id right after the `?`, as its only parameter |
| Endpoints.DefaultOptionsRequest | src/core.rs:64-325 | with default options the signed path is the template, `?devid=` and the id, with no `&` |
| Endpoints.DeparturesPieces | src/core.rs:80-95 | ids and route types stay single path pieces |
| Endpoints.DeparturesStopRouteSwapped | src/core.rs:80-95 | as written, the piece after `stop` is the route id and the piece after `route` is the stop id |
| Endpoints.IntendedDeparturesStopRoute | src/core.rs:80-95 | the corrected template has the stop id after `stop` and the route id after `route` |
| Endpoints.IntendedDeparturesSwapsIds | src/core.rs:80-95 | the corrected template is the written one with the two ids exchanged |
| Endpoints.RoutesTemplate | src/core.rs:243-245 | the `routes` template is `v3/routes` |
| Endpoints.RouteNamePath | src/core.rs:243-245 | a route name ending in `?` reaches the path unescaped, so the path ends in `?` |
| Endpoints.RouteNameSwallowsDevid | src/core.rs:243-245 | end to end, as written: that request sends no `devid` parameter, only the name with the id glued on |
| Endpoints.RouteNameKeepsDevid | src/core.rs:243-245 | with the corrected separator the name keeps its `?` and the developer id is a parameter of its own |
| Endpoints.IntendedTrailingParam | src/core.rs:25-37 | with the corrected separator, `base?param?` keeps `param?` and adds the developer id after it |
| Options.Present | src/ty.rs:146-179 | the written fields are exactly the set fields, with their values |
| Options.PresentAppend | src/ty.rs:146-179 | fields are written in declaration order: two runs of declared fields are written as the first run's set fields, then the second's |
| Options.PresentOne | src/ty.rs:146-179 | a single field is written, with its key and value, exactly when it is set |
| Options.PresentDistinct | src/ty.rs:146-179 | distinct declared keys give distinct written keys |
| Options.ObjectOfEnumerated | src/ty.rs:146-179 | the written entries list the object built from them |
| Options.Serialized | src/ty.rs:146-179 | the written fields list the serialised object |
| Options.SerializedField | src/ty.rs:146-179 | a set field is in the object under its key with its value, and only set fields are |
| Options.SerializedEmpty | src/ty.rs:146-179 | the object is empty exactly when no field is set |
| Options.FieldsDistinct | src/ty.rs:146-779 | no options struct declares two fields under the same serialised name |
| Options.ToValue | src/ty.rs:146-779 | `to_value` of a struct is the object its set fields list |
| Options.Default | src/ty.rs:146-779 | the derived default sets none of its fields, and gives no list of disruption modes |
| Options.DefaultKeepsKeys | src/ty.rs:146-779 | the default declares the same fields, under the same serialised names, as the struct |
| Options.DefaultIsEmpty | src/ty.rs:146-779 | a struct serialises to the empty object exactly when it is its default |
| Options.DefaultFieldsUnset | src/ty.rs:146-779 | a struct is its default exactly when none of its fields is set |
| Options.DeparturesDefault | src/ty.rs:146-211 | the same for the two departures structs |
| Options.Query | src/helpers.rs:15-42 | the default struct gives the empty query |
| Options.SetFieldSegments | src/helpers.rs:15-42 | every segment a set field stands for appears in the query |
| Options.ScalarFieldSegment | src/helpers.rs:37 | a set scalar field appears as `key=value`, the value rendered and cleaned |
| Options.ArrayFieldSegments | src/helpers.rs:23-35 | a set list field appears as one `key=value` segment per element, each value URL-escaped |
| Options.DateIndex | src/ty.rs:146-779 | each struct with a date has exactly that date field, under its serialised name |
| Options.DateKeyOnly | src/ty.rs:700-709 | the other date name is never in the object: `RouteIdOpts` keeps `date`, the others only have `date_utc` |
| Options.DateSegment | src/ty.rs:158-160 | a set date reaches the query as `date_utc=` (`date=` for `RouteIdOpts`) and its ISO 8601 text |
| Options.TouchSegments | src/ty.rs:540-550 | set touch-on and touch-off times reach the query as `YYYY-MM-DD HH:MM` under their `journey_touch_*_utc` names |
| Options.TouchSegment | src/ty.rs:540-550 | one set touch time reaches the query under its renamed key |
| Options.FreeTramZoneSegment | src/ty.rs:552-553 | the free tram zone flag reaches the query as `is_journey_in_free_tram_zone=true` or `=false` |
| Options.FareEstimateRenamed | src/ty.rs:540-557 | the field names `touch_on`, `touch_off` and `free_tram_zone` never reach the object |
| Options.RouteTypeSegments | src/ty.rs:689-698 | every route type in a `route_types` filter becomes its own `route_types=<code>` segment |
| Options.EmptyModesQuery | src/ty.rs:374-387 | an empty list of disruption modes is serialised, yet the query is empty |
| Options.RouteNameQuery | src/ty.rs:689-698 | with only a route name set, the query is `route_name=` and the name itself, unescaped |
| Types.FromI8 | src/ty.rs:43-54 | codes 0 to 4 name a kind and every other code is `Other`, which converts back to the same code |
| Types.FromToI8 | src/ty.rs:43-67 | converting to `i8` and back is the identity exactly on route types `From<i8>` can produce; `Other(1)` comes back as `Tram` |
| Types.Deserialize | src/ty.rs:78-86 | succeeds exactly on JSON integers in `i8` range, giving a route type with that code |
| Types.DeserializeSerialize | src/ty.rs:69-86 | `Deserialize` reads back what `Serialize` writes, up to the canonical form |
| Types.DisplayMatchesSerialize | src/ty.rs:69-92 | the displayed code is how the query encoder renders the serialised value, and it parses back to the code |
| Types.DecodeI32ButSilly | src/ty.rs:19-30 | any JSON value that is not a string is refused as an invalid type for "a string" |
| Types.I32ButSillyAccepts | src/ty.rs:19-30 | succeeds exactly on strings holding an in-range 32-bit literal, with its value |
| Types.I32ButSillyRoundTrip | src/ty.rs:19-30 | a 32-bit integer written as a string decodes to itself |
| Types.StringIntDecodersAgree | src/ty.rs:19-30 | `I32ButSilly` and the intended `de_string_as_i32` accept the same strings with the same value; only the error text differs (`{:?}` against `Display`) |
| Integers.AccumulateReads | src/ty.rs:27 | the digit loop of `i32::from_str` yields the literal's value when it fits, and the overflow error for the sign otherwise |
| Integers.ParseI32Accepts | src/ty.rs:27 | `i32::from_str` accepts exactly the literals that fit in 32 bits; the empty string is the only `Empty` error |
| Integers.ParseIntToString | src/ty.rs:27 | reading back the decimal text of a 32-bit integer gives it back |
| DateTimes.ParseIso8601 | src/helpers.rs:49 | a parse succeeds only on text of the shape `####-##-##T##:##:##`, at a whole second; other shapes fail with their shape error |
| DateTimes.ParseRfc3339 | src/helpers.rs:101 | a parse succeeds only on text of that shape followed by `Z`, or by `.`, one or more digits and `Z` |
| DateTimes.FractionNanos | src/helpers.rs:101 | the fraction read after the `.` is less than a second, and a fraction of at most nine digits counts in units of 10^(9 - its length) nanoseconds |
| DateTimes.Rfc3339WithoutFraction | src/helpers.rs:101 | without a fraction, `%.3f` reads nothing and the parse is the ISO parse followed by `Z` |
| DateTimes.Rfc3339WithFraction | src/helpers.rs:101 | with a fraction of any length, the parse is the ISO fields plus the fraction's nanoseconds |
| DateTimes.FractionTrailingZero | src/helpers.rs:101 | a trailing zero within the first nine fraction digits does not change the value, so `.5`, `.50` and `.500` are the same half second |
| DateTimes.FractionSkipsPastNinth | src/helpers.rs:101 | fraction digits past the ninth are read and skipped |
| DateTimes.ParseFormatRfc3339Whole | src/helpers.rs:101 | a whole-second time in ISO form followed by `Z` parses back, for years 0 to 9999 |
| DateTimes.ParseFormatRfc3339Millis | src/helpers.rs:101 | a time on a whole millisecond, written with three fraction digits and `Z`, parses back, for years 0 to 9999 |
| DateTimes.AssembleFormat | src/helpers.rs:49-58 | the fields of the ISO form, with the value's sub-second part, assemble back into the value, leap seconds included |
| DateTimes.IsoFields | src/helpers.rs:58 | the ISO form carries each field, zero-padded, at its fixed position |
| DateTimes.FormatIsoChars | src/helpers.rs:58 | the ISO form holds only digits, `-`, `+`, `T` and `:`, none of which JSON escapes |
| DateTimes.FormatTouchDropsSeconds | src/helpers.rs:91 | the touch form is the ISO form with a space for the `T` and no seconds |
| DateTimes.ParseFormatIso8601 | src/helpers.rs:49-58 | parsing the ISO form gives the value back, for whole-second times in years 0 to 9999 |
| Json.EscapeChar | src/helpers.rs:31-37 | a character is escaped exactly when it is not plain, and an escape starts with a backslash |
| Json.UnescapeEscape | src/helpers.rs:31-37 | reading back serde_json's escaping gives the string back |
| Json.EscapePlain | src/helpers.rs:31-37 | plain strings are written unchanged |
| Json.EscapeEnds | src/helpers.rs:31-37 | an escaped text never starts with `"`, and ends with one exactly when the string does |
| Encoding.Utf8RoundTrip | src/core.rs:39-40 | decoding the UTF-8 bytes of a string gives it back |
| Encoding.Utf8Injective | src/core.rs:39-40 | different paths are signed over different bytes |
| Encoding.HexRoundTrip | src/core.rs:42 | decoding the hex of a digest gives the digest back |
| Text.JoinSplit | src/helpers.rs:147 | joining the pieces of a split gives back the string |
| Text.SplitJoin | src/helpers.rs:40-41 | splitting a join of separator-free pieces gives back the pieces |
| Text.ZeroPadDigits | src/helpers.rs:58 | a zero-padded number has the padded width and reads back as the number |

## Left out

- Network I/O: `reqwest::get`, awaiting, and reading the body are not modelled. `Requests.Classify` takes the status, the decoded body and the decoded API error as inputs.
- The `DEBUG` environment check and the print of the URL (src/core.rs:45-47) are left out: the model has no environment and no output.
- HMAC-SHA1 and SHA-1 are not modelled. The digest is a parameter, and only its use is proved: the key's and the path's UTF-8 bytes go in, and the hex of the digest goes out.
- `url_escape::encode_query` and `encode_path` are parameters. Nothing is assumed about them, so no result depends on what they escape.
- `f64` parsing and the `Display` of `f64` coordinates are not modelled. `parseF64` is a parameter, and the latitude and longitude of `outlets_lat_long` are taken as their text.
- `Helpers.DeServiceTime`: chrono's `%H:%M:%S` parse into a `NaiveDateTime` is a parameter. The contract states what the decoder does with the parser's answer, not what the parser accepts.
- chrono's parser is modelled strictly: exactly four year digits and two digits for every other field, with no leading sign and no padding variants. chrono accepts a few more shapes. `DateTimes.ParseIso8601` and `DateTimes.ParseRfc3339` are therefore stricter than chrono on unusual inputs, and when an input has several faults the error kind reported may differ from chrono's.
- `DateTimes.ParseFormatIso8601`: years outside 0 to 9999 (written with a sign by `%Y`) and times with nanoseconds are not covered. The format drops the nanoseconds, so no round trip exists for them.
- serde_json's map iteration order is an input, not a constant. The results hold for every order.
- JSON values are modelled only in the shapes the options structs produce: null, booleans, integers, strings, and arrays of those. Numbers never take a floating-point form.
- `Json.Unescape` does not handle surrogate-pair `\u` escapes. serde_json never writes them for the strings here.
- `ExpandOptions` and `DisruptionStatus` are modelled as their serialised names (strings). Their serde impls only map a variant to a fixed name.
- `DisruptionModes` is an empty enum, so a given list of disruption modes is always empty. `ser_disruption_query` (src/helpers.rs:178-189) is not used by any options struct and is not modelled.
- `SearchOpts` and `StopsIdRouteTypeOpts` are not part of this model. The query of `search` and `stops_id_route_type` is taken as a string.
- The id newtypes (`RouteId`, `StopId`, `DirectionId`, `DisruptionId`, `RunId`) are not part of this model. They are modelled as 32-bit integers shown in decimal.
- Response structs and their other fields are not modelled, only the field decoders they use. The same goes for `ApiError` beyond its message, the `ptvrs-macros` crate, `lib.rs` re-exports and the integration tests.
- `Helpers.ToQuery` and `Helpers.ObjectQuery` only state the empty case themselves. What the query contains is stated by `Helpers.QueryJoinsSegments`, `Helpers.SplitQuery` and `Helpers.FieldSegmentsPresent`.
- `Requests.Signature`: the contract states the signature's shape, while `Requests.SignedUrlVerifies` states what it signs.
- `Options.Present` states membership in both directions itself; the order of the written fields is stated by `Options.PresentAppend` and `Options.PresentOne`.
- `Endpoints.Pieces` states only that every template starts with `v3`. The pieces of each endpoint are stated through `Endpoints.DeparturesStopRouteSwapped`, `Endpoints.RoutesTemplate` and the templates' query-freedom lemmas.
- `Options.Query` states only the default case. Which segments each field adds is stated by `Options.SetFieldSegments`, `Options.DateSegment`, `Options.TouchSegments`, `Options.RouteTypeSegments` and `Options.RouteNameQuery`.
- The `unwrap` calls in `to_query` and `rq` never fail in the model. Every options struct serialises to an object, and HMAC accepts keys of any length.

## Findings

| source | as written | input that shows it | evidently intended | confidence | as-written member | corrected member |
|---|---|---|---|---|---|---|
| src/core.rs:25-37 | no separator is added after any path ending in `?`, even when the query before it is not empty | `routes` with `route_name` set to `x?`: the path is `v3/routes?route_name=x?`, and the signed path becomes `/v3/routes?route_name=x?devid=...`, with no `devid` parameter | add nothing only when the `?` starts an empty query, otherwise `&` | not executed | Requests.DevidSwallowed, Endpoints.RouteNameSwallowsDevid | Requests.IntendedDevidIsLastParam, Endpoints.RouteNameKeepsDevid |
| src/core.rs:87-92 | `departures_stop_route` formats `.../stop/{route_id}/route/{stop_id}` | route id 1, stop id 2: the path reads `stop/1/route/2` | `stop/{stop_id}/route/{route_id}` | not executed | Endpoints.DeparturesStopRouteSwapped | Endpoints.IntendedDeparturesStopRoute, Endpoints.IntendedDeparturesSwapsIds |
| src/helpers.rs:191-209 | `de_string_as_i32` calls `deserialize_i32`; serde_json answers that by reading a JSON number, refuses strings before the visitor is asked, and hands numbers to `visit_i64`/`visit_u64`, which the visitor does not implement | the JSON string `"42"`: refused as an invalid type, although the visitor's `visit_str` would parse it to 42 | call `deserialize_str` (or `deserialize_any`) so that `visit_str` parses the string | not executed | Helpers.DeStringAsI32, Helpers.DeStringAsI32RefusesStrings | Helpers.IntendedDeStringAsI32, Helpers.IntendedDeStringAsI32Accepts |
