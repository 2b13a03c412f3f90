# Company mapping: caching and validation layer

This project models the logic that wraps two external services in the company-mapping pipeline.

**The strategy validation job (`tasks/validation.py`).** For every company row, each circular-economy strategy code is handled in turn:

- it is checked against the strategy dictionary;
- it is looked up in a response cache under a composite key;
- on a cache miss, the classification service is asked, and its free-text reply is stored in the cache and saved;
- the reply is parsed into an (agreement, strategy, explanation) triple.

The per-code triples are joined with `", "` into the row's three output columns. A row that raises gets the fixed error triple instead.

**The geocoding of cities (`tasks/mapping.py`).** `get_osm_coordinates` asks the Nominatim search service up to `retries` times. After each failed attempt it waits, and the wait doubles each time. The map generator resolves each unique city through a coordinate cache, and looks up only the cities that are not cached yet.

Modules:

- `Options` holds the optional value.
- `PyStr` holds Python's `str.split` (without a maximum count), `str.join` and `str.strip`. Split and join come with their round-trip laws; strip comes with a decomposition into whitespace, result and whitespace, and with idempotence on stripped strings.
- `ResponseParser` holds `parse_openai_response`.
- `Validation` holds:
  - the column and code validators and the row-error handler. `ValidateStrategyCode` and `HandleRowError` are plain definitions; what they do to a row is stated by `InvalidCodeUntouched`, `ValidCodeConsultsCache`, `RowErrorKeepsWrites` and `MissingCodesRow`;
  - the cache key;
  - the row loop, as functions (`CodeStep`, `CodesRun`, `RowStep`, `RowsRun`, `Job`);
  - the imperative `ProcessCsvAndSave`, proved equal to those functions.
- `Mapping` holds:
  - the lookup as the imperative `GetOsmCoordinates`, proved equal to the function `Geocode`;
  - the city loop as `FillCityCoordinates`, proved equal to `ResolveCities`.

How the outside world is represented:

- **The classification client and `construct_prompt`** are one oracle. It maps the request number and the prompt arguments either to a reply or to an exception text.
- **The search service** is a function from the request URL and the attempt number to a reply, which carries a status code and the list of places in the JSON body.
- **Coordinates** are values of a type parameter. The `if lat and lon` test is a predicate parameter.
- **Caches** are maps. Loading a cache is a parameter. Each `save_cache` is recorded, as a ghost value, as a snapshot of the whole map.
- **Waits** (`time.sleep`) are recorded as ghost values.
- **Request counts.** In the validation job the number of client requests made so far is an ordinary value: the oracle is indexed by it. In the map generator the number of search requests and pauses are ghost counters.

The strategy field keeps only the text between the first and the second `": "` on its line, because the code calls `split(": ")` without a maximum count.

- The comment at `tasks/validation.py:197` expects the line `Strategy: R#: StrategyName`.
- On such a line, `split(": ")[1]` keeps only `R#`: `"Strategy: R2: Reuse"` gives `"R2"` (`ResponseParser.ParseTruncatesStrategy`).

## Model

| member | source | states |
|---|---|---|
| PyStr.Split | tasks/validation.py:192 | `str.split` without a maximum count always yields at least one piece |
| PyStr.JoinSplit | tasks/validation.py:192 | joining the pieces of a split with the same separator gives back the original string |
| PyStr.SplitPiecesFree | tasks/validation.py:195 | no piece of a split contains the separator |
| PyStr.Join | tasks/validation.py:154-156 | `sep.join(parts)`; it is the inverse of `Split` both ways, as stated by `PyStr.JoinSplit` and `PyStr.SplitJoin` |
| PyStr.SplitJoin | tasks/validation.py:154-156 | for the separators `", "`, `": "` and `"\n"` (no proper suffix equal to a prefix), splitting the join of separator-free pieces gives the pieces back |
| PyStr.SplitAfter | tasks/validation.py:195 | a split consumes the first occurrence: `a + sep + b` splits into `a` followed by the pieces of `b` when `a` lacks `sep` |
| PyStr.IndexOf | tasks/validation.py:195 | the first occurrence of the separator, and `None` exactly when it does not occur |
| PyStr.Strip | tasks/validation.py:195 | `strip()` leaves no leading or trailing Python whitespace and never lengthens the string |
| PyStr.StripDecomposes | tasks/validation.py:195 | the input is whitespace, then the result of `strip()`, then whitespace; with the row above this determines the result exactly |
| PyStr.StripStripped | tasks/validation.py:195 | `strip()` leaves an already stripped string unchanged |
| ResponseParser.Field | tasks/validation.py:195-202 | `line.split(": ")[1].strip()`, or `None` where indexing `[1]` raises; its properties are `ResponseParser.FieldPresent` and `ResponseParser.FieldBetween` |
| ResponseParser.ParseOpenAiResponse | tasks/validation.py:180-210 | the parser; its behaviour on every reply is stated by `ResponseParser.ParseErrorCases` and `ResponseParser.ParseFields`, and its round trip by `ResponseParser.ParseRender` |
| ResponseParser.Lines | tasks/validation.py:192 | a reply always has at least one line |
| ResponseParser.FieldPresent | tasks/validation.py:195 | a line yields a field exactly when it contains `": "`; otherwise indexing `[1]` raises |
| ResponseParser.FieldBetween | tasks/validation.py:195-198 | the field of `p + ": " + f + t` is `strip(f)` when `t` is empty or starts with the next `": "` |
| ResponseParser.ParseErrorCases | tasks/validation.py:192-210 | the sentinel `("Error","Error","Error")` comes back when the reply has fewer than two lines, when line 0 or 1 lacks `": "`, or when the agreement is `"Disagree"` and line 2 exists without `": "` |
| ResponseParser.ParseFields | tasks/validation.py:192-206 | otherwise the agreement and strategy are the fields of lines 0 and 1, and the explanation is the field of line 2 only when the agreement is exactly `"Disagree"` and there are more than two lines; otherwise it is `""` |
| ResponseParser.ParseOfLines | tasks/validation.py:192-206 | the parse is determined by the lines' fields |
| ResponseParser.ParseTwoLines | tasks/validation.py:192-206 | a two-line reply with both fields gives the two fields and an empty explanation |
| ResponseParser.ParseThreeLines | tasks/validation.py:192-206 | a three-line reply gives an explanation only after `"Disagree"`; otherwise the third line is ignored |
| ResponseParser.ParseRender | tasks/validation.py:180-206 | parsing the rendered reply of any well-formed triple (plain one-line fields, empty explanation unless `"Disagree"`) gives that triple back |
| ResponseParser.ParseWellFormed | tasks/validation.py:192-206 | every result other than the sentinel is well formed; with `ResponseParser.ParseRender`, the well-formed triples are exactly the results of successful parses |
| ResponseParser.FieldPlain | tasks/validation.py:195-202 | the field of a single line, when present, is one line, free of `": "` and stripped |
| ResponseParser.ParseRenderOther | tasks/validation.py:192-204 | the round trip for a two-line reply |
| ResponseParser.ParseRenderDisagree | tasks/validation.py:192-204 | the round trip for a three-line `"Disagree"` reply |
| ResponseParser.ParseTruncatesStrategy | tasks/validation.py:198 | `"Strategy: CODE: NAME"` yields just `CODE` |
| ResponseParser.ParseDisagreeExplanation | tasks/validation.py:198-204 | a three-line reply whose strategy line is `"Strategy: CODE: NAME"` yields `CODE`, and the explanation of line 2 exactly when the agreement is `"Disagree"` |
| ResponseParser.ParseExampleAgree | tasks/validation.py:192-206 | `"Agreement: Agree\nStrategy: R2: Reuse"` gives `("Agree","R2","")` |
| ResponseParser.ParseExampleDisagree | tasks/validation.py:192-206 | a three-line Disagree reply gives `("Disagree","R3","wrong category")` |
| ResponseParser.ParseExampleGarbage | tasks/validation.py:208-210 | a reply without `": "` gives the sentinel |
| PyStr.SplitPiecesWithin | tasks/validation.py:192-195 | every character of a piece of a split comes from the split string |
| PyStr.StripWithin | tasks/validation.py:195 | `strip()` adds no character and no occurrence of a separator |
| Validation.MissingColumns | tasks/validation.py:25 | the comprehension yields exactly the required columns absent from the frame |
| Validation.ValidateColumns | tasks/validation.py:21-29 | true exactly when every required column is present |
| Validation.GetCacheKey | tasks/validation.py:74-78 | the four parts joined by `_`; `Validation.CacheKeyInjective` and `Validation.CacheKeyCollision` state when it is unique and when it is not |
| Validation.CacheKeyInjective | tasks/validation.py:74-78 | when company, city and country contain no `_`, the key determines all four parts |
| Validation.CacheKeyCollision | tasks/validation.py:74-78 | in general the key is not unique, despite its docstring: `("a_b","c",…)` and `("a","b_c",…)` share a key |
| Validation.FirstUnderscore | tasks/validation.py:78 | a string whose first part is free of `_` splits uniquely at its first `_` |
| Validation.ClassifyCodes | tasks/validation.py:118-151 | the loop over one row's codes computes exactly `CodesRun`: invalid codes give `("Invalid", "Invalid strategy code: "+code, "")`, hits are parsed from the cache, a miss calls the client and then stores and saves the reply, and a raise stops the row and reports the exception text |
| Validation.ClassifyRow | tasks/validation.py:105-161 | one row inside its `try` computes exactly `RowStep`: the joined triple, or the error triple built by `handle_row_error` from the exception text |
| Validation.ProcessCsvAndSave | tasks/validation.py:88-170 | the job computes exactly `Job`. It returns before any row when a column is missing, with no call and no save. Otherwise it writes three columns as long as the rows (so the check at line 164 never fires) |
| Validation.ValidateStrategyCode | tasks/validation.py:31-38 | membership of the code in the strategy dictionary; stated by `Validation.InvalidCodeUntouched` (not a key: the Invalid triple, nothing else happens) and `Validation.ValidCodeConsultsCache` (a key: the cache is consulted) |
| Validation.HandleRowError | tasks/validation.py:40-45 | the text of the third column of a failed row; stated by `Validation.RowErrorKeepsWrites` and `Validation.MissingCodesRow`: `"Error in OpenAI response"` whatever the row and the exception text |
| Validation.CodeStep | tasks/validation.py:118-151 | one code of a row; stated by `Validation.InvalidCodeUntouched`, `Validation.ValidCodeConsultsCache` and `Validation.CodeStepExtends` |
| Validation.CodesRun | tasks/validation.py:118-151 | the loop over a row's codes; stated by `Validation.CodesRunAligned`, `Validation.CodesRunOrdered`, `Validation.CodesRunExtends`, `Validation.CodesRunCached` and `Validation.CodesRunFills` |
| Validation.RowStep | tasks/validation.py:104-161 | one row, joined or failed; stated by `Validation.RowErrorKeepsWrites`, `Validation.MissingCodesRow`, `Validation.RowStepExtends` and `Validation.RowStepFills` |
| Validation.RowsRun | tasks/validation.py:104-161 | the loop over the rows; stated by `Validation.RowsRunAligned`, `Validation.RowsRunExtends`, `Validation.RowsRunCached` and `Validation.RowsRunFills` |
| Validation.Job | tasks/validation.py:88-170 | the whole job; stated by `Validation.ProcessCsvAndSave`, `Validation.JobInvariants` and `Validation.RerunIsIdempotent` |
| Validation.RowsRunAligned | tasks/validation.py:104-165 | every row appends exactly one triple, whether it succeeds or fails |
| Validation.CodesRunAligned | tasks/validation.py:109-151 | a successful row has one result per element of `RE_Strategy_Codes.split(", ")`, after the results already gathered |
| Validation.CodesRunOrdered | tasks/validation.py:118-151 | for any client, a row that runs to the end without a raise leaves every valid key cached, and its k-th result is what the final cache gives for the k-th code |
| Validation.CachedCodesAt | tasks/validation.py:118-151 | the k-th result read from the cache is that of the k-th code |
| Validation.ExtendsTransitive | tasks/validation.py:130-143 | "a later state of" is transitive |
| Validation.CodeStepExtends | tasks/validation.py:118-143 | one code never removes or changes a cache entry; it adds as many saves as keys, at most one per request, and keeps the last save equal to the cache |
| Validation.CodesRunExtends | tasks/validation.py:118-151 | the same over a row's codes, including on a raise |
| Validation.RowStepExtends | tasks/validation.py:104-161 | the same over one row |
| Validation.RowsRunExtends | tasks/validation.py:104-161 | over a whole run the cache only grows, the save log is only appended to, there is one save per new key, and the last save holds the whole cache |
| Validation.JobInvariants | tasks/validation.py:88-170 | the job's columns align with the rows, and the final cache extends the loaded one and has been saved |
| Validation.RowErrorKeepsWrites | tasks/validation.py:40-45 | a row whose client call raises yields `("Error","Error","Error in OpenAI response")` for every exception text, and the cache writes and saves made earlier in that row persist |
| Validation.MissingCodesRow | tasks/validation.py:109 | a row without a `RE_Strategy_Codes` value fails with the same error triple and changes nothing |
| Validation.ValidCodeConsultsCache | tasks/validation.py:127-146 | a valid code whose key is cached is parsed from the cache with no request. An uncached one costs one request: a reply is stored under the key, the updated cache is saved once and that reply is parsed; an exception changes neither cache nor saves and is passed on with its text |
| Validation.InvalidCodeUntouched | tasks/validation.py:120-124 | an invalid code yields the Invalid triple and changes neither the cache, nor the request count, nor the saves |
| Validation.CodesRunCached | tasks/validation.py:118-151 | when every valid key of a row is cached, the client is not called and the row's results are read from the cache |
| Validation.RowsRunCached | tasks/validation.py:104-161 | when every valid key of every row is cached, the session (cache, requests, saves) is unchanged and the output is read from the cache alone |
| Validation.CachedCodesStable | tasks/validation.py:130-143 | growing the cache does not change what is read for keys already present |
| Validation.CachedRowStable | tasks/validation.py:130-143 | the same for a whole row |
| Validation.CodesRunFills | tasks/validation.py:118-151 | with a client that never raises, a row leaves each of its valid keys cached, its results equal what the final cache gives, and every request is followed by exactly one save |
| Validation.RowStepFills | tasks/validation.py:104-156 | the same for one row, joined |
| Validation.RowsRunFills | tasks/validation.py:104-161 | the same for a whole run |
| Validation.RerunIsIdempotent | tasks/validation.py:88-170 | after a run whose client never raised, running the job again over the cache it left calls no client (whatever it would answer), saves nothing, and writes the same columns |
| Mapping.Pow2 | tasks/mapping.py:33 | powers of two are positive |
| Mapping.Backoffs | tasks/mapping.py:30-37 | the waits after `n` failed attempts number `n` |
| Mapping.FirstSuccess | tasks/mapping.py:21-29 | the first attempt whose reply has status 200 and a non-empty body, and none exactly when no attempt in range succeeds |
| Mapping.Geocode | tasks/mapping.py:19-40 | the lookup once the cache misses; stated by `Mapping.GeocodeBounded`, `Mapping.GeocodeFirstSuccess`, `Mapping.GeocodeAllFail` and `Mapping.GeocodeIgnoresRest` |
| Mapping.GetOsmCoordinates | tasks/mapping.py:14-40 | a non-empty cache holding the city returns its entry with no request and no wait; otherwise the lookup computes exactly `Geocode` |
| Mapping.BackoffsShape | tasks/mapping.py:30-37 | the wait after the k-th failed attempt (from 0) is `backoff_factor * 2^k` |
| Mapping.BackoffsDouble | tasks/mapping.py:33-37 | each wait is twice the one before it |
| Mapping.BackoffsTotal | tasks/mapping.py:30-37 | `n` failed attempts wait `backoff_factor * (2^n - 1)` in all |
| Mapping.GeocodeBounded | tasks/mapping.py:21-40 | at most `retries` requests, none and `(None, None)` when `retries <= 0`, and one wait after each failed request, including the last |
| Mapping.GeocodeFirstSuccess | tasks/mapping.py:21-29 | the lookup fails exactly when no attempt succeeds; otherwise its result is the first place of the last (and first successful) reply, and all earlier replies failed |
| Mapping.GeocodeAllFail | tasks/mapping.py:21-40 | when every attempt fails the result is `(None, None)` after `retries` requests (none when `retries <= 0`), with waits `b, 2b, …, 2^(retries-1) b` |
| Mapping.FirstSuccessAgrees | tasks/mapping.py:21-29 | two services that agree on success up to the first success find the same first success |
| Mapping.GeocodeIgnoresRest | tasks/mapping.py:21-37 | the lookup reads no reply after its last request, and it handles a 429 and any other failure alike: services that agree on success and first place give the same lookup |
| Mapping.FillCityCoordinates | tasks/mapping.py:79-102 | the city loop computes exactly `ResolveCities`, and the cache is saved exactly once after the loop |
| Mapping.ResolveCity | tasks/mapping.py:88-100 | one city of the loop; stated by `Mapping.ResolveCityGrows`, `Mapping.ResolveCityListed`, `Mapping.ResolveCityCost` and `Mapping.FailedCityAbsent` |
| Mapping.ResolveCities | tasks/mapping.py:87-100 | the loop over the cities; stated by `Mapping.FillCityCoordinates`, `Mapping.ResolveCitiesGrows`, `Mapping.ResolveCitiesCost`, `Mapping.ResolveCitiesUncached` and `Mapping.CityLoop` |
| Mapping.ResolveCityGrows | tasks/mapping.py:88-100 | one city never changes an existing cache entry; an uncached city is added iff its lookup gave truthy coordinates; the coordinates gain exactly that city if it is cached; one pause per new entry |
| Mapping.ResolveCitiesGrows | tasks/mapping.py:87-100 | over all cities the cache only grows. A new key is exactly a listed, uncached city with truthy coordinates, and holds its looked-up point. The found coordinates are the listed cities now cached, taken from the cache. There is exactly one pause per new entry |
| Mapping.FailedCityAbsent | tasks/mapping.py:93-100 | an uncached city whose lookup fails is in neither map afterwards |
| Mapping.ResolveCityListed | tasks/mapping.py:88-96 | a city is appended to the uncached list exactly when it is not cached, and no other key enters or leaves the cache |
| Mapping.ResolveCityCost | tasks/mapping.py:88-98 | a cached city issues no request and no pause; an uncached one costs at most five requests and at most one pause |
| Mapping.ResolveCitiesCost | tasks/mapping.py:87-100 | requests and pauses happen only for uncached cities, at most five requests and one pause each |
| Mapping.ResolveCitiesUncached | tasks/mapping.py:87-92 | over distinct cities the uncached list is the cities missing from the loaded cache, in order |
| Mapping.Uncached | tasks/mapping.py:88-92 | the listed cities that are not keys of the cache |
| Mapping.UncachedSameMembership | tasks/mapping.py:88-92 | the uncached list depends only on which listed cities are cached |
| Mapping.DistinctTail | tasks/mapping.py:87 | the tail of a duplicate-free list is duplicate-free and lacks the head |
| Mapping.CityLoop | tasks/mapping.py:79-102 | from the loaded cache: no loaded entry changes; the coordinates are exactly the cities that end up cached, with their cache entries; the uncached list is the cities missing from the loaded cache; one pause per new entry; at most five requests per uncached city |

## Left out

- File I/O of `load_cache` and `save_cache` (directories, JSON encoding) is not modelled. The loaded cache is a parameter, and each save is a ghost snapshot.
- The JSON round trip of the coordinate cache (tuples come back as lists) is invisible, because coordinates are opaque.
- Reading the CSV, adding the data-frame columns and writing the CSV are not modelled. The frame is a list of column names and a sequence of row records, and the `Written` outcome carries the three new columns.
- Cell values are strings. The one exception is a missing `RE_Strategy_Codes` cell, whose `split` raises and fails the row. A missing company, city or country cell, which Python formats into the key as `nan`, is not modelled.
- `construct_prompt` and `OpenAIClient.get_openai_response` are a single oracle that returns a string or raises. A client that returns `None` without raising is not modelled, because the client's code is not part of this model.
- Exceptions from `save_cache` inside a row are not modelled, since they are file-system failures.
- `requests.get` is not modelled: its URL is the f-string of line 19, and the User-Agent header is not modelled. Network exceptions are not modelled either; they are not caught in the source.
- A body that is not JSON, a place without `lat`/`lon`, and the `float(...)` conversion, all of which raise uncaught in the source, are not modelled. Coordinates are opaque.
- `Mapping.GetOsmCoordinates`: `backoff_factor` is an integer; a float factor is not modelled.
- `Mapping.GetOsmCoordinates`: a negative `backoff_factor` makes `time.sleep` raise `ValueError` at the first failed attempt (lines 32 and 36). The model records the negative wait and goes on. A wait too large for `time.sleep` (`OverflowError`, beyond about 2^33 seconds) is not modelled either; the only caller passes a factor of 1 with 5 retries, so its waits are 1 to 16 seconds.
- `time.sleep`, logging, `tqdm`, `run_job` and BigQuery are not modelled. Waits are ghost values; the others have no effect on the results.
- The country filter and `unique()` of `generate_germany_map` (lines 73-76, 85-87) are not modelled: the list of cities is a parameter. The lemmas that need it assume the list is duplicate-free, as `unique()` guarantees.
- Plotting (shapefile, scatter, legends, `savefig`) is not modelled.
- The two copies of the city loop (`tasks/mapping.py:180-193` and `269-282`) are not modelled separately. They are the modelled loop without the `uncached_cities` list.
