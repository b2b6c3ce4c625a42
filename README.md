# Mapa turístico de La Paz — a verified model of the ingestion transforms and the API query layer

The repository collects tourist places of La Paz (Bolivia) from OpenStreetMap, scores and filters
them, stores them in PostgreSQL/PostGIS, and serves them over an Express API to a map. This
project models, in Dafny, the two parts of it that hold the logic:

- **The extractor's transforms** (`scripts/osm_extractor.py`). An Overpass element becomes a place
  record (`process_element`, `get_coordinates`). The record is classified by a priority rule list with
  `*` wildcards and a name-keyword fallback (`get_category`), described (`get_description`) and
  scored (`calculate_rating`). The places are then sorted in place and capped per category
  (`filter_important_places`), and reduced to one place per case-folded, trimmed name
  (`remove_duplicate_names`). Two pieces of text are produced: the Overpass QL query per tag
  (`build_query`) and the PostgreSQL array literal for the photo URLs.
- **The API's query layer** (`backend/server.js`). `GET /api/lugares` builds its SQL and parameter
  vector step by step, with a running placeholder counter, and builds a separate count query.
  It also computes the pagination figures and normalises `fotos`. `GET /api/lugares/:id` has a
  404 rule and a nearby-places query. `GET /api/busqueda-geo` has a 400 rule and builds a
  parameter vector. `GET /api/estadisticas` has a taxonomy `CASE` and a module-level cache.

Ratings are integer tenths: 3.0 is `30` and a bonus of 1.5 is `15`. The sum of tenths is exact,
so Python's `round(score, 1)` is the identity here. SQL text is a list of `Clause` values that carry
their `$k` placeholder numbers (`ApiSql`). Parameters are symbolic: `Float(raw)` stands for
`parseFloat(raw)`, `Int(arg)` for `parseInt(arg)`, and `OffsetOf(page, limit)` for
`(page - 1) * limit`. The central property of the API layer is `ApiSql.Numbered`: the
placeholders, read clause by clause, are exactly `$1 … $n` for `n` parameters.

Imperative code is modelled imperatively, and each such method is proved against a function:
- `remove_duplicate_names` updates a dictionary in a loop; `Dedup` specifies it.
- `filter_important_places` sorts an `array` in place and then counts in a loop; `SortDesc` and
  `Capped` specify the two steps.
- `process_elements` appends in a loop; `Processed` specifies it.
- `calculate_rating` accumulates a score; `Rating` specifies it.
- The `/api/lugares` builders advance `paramIndex` and `countParamIndex`; `LugaresQuery` and
  `CountQuery` specify them.
- The statistics cache is a class whose `entries` map the handler updates; `Respond` specifies it.

The code is modelled as written. These behaviours of the source are kept and proved:
- `'monumento'` can never be returned by `get_category`, because `historic=*` comes earlier in the
  list (`OsmCategory.MonumentoUnreachable`).
- A non-empty `description` tag made only of whitespace yields an empty description, because the
  tag is tested before it is trimmed (`OsmCategory.BlankDescriptionTagGivesEmpty`).
- The count query tests the untrimmed `search`. A search of blanks therefore filters the count
  but not the page (`ApiLugares.BlankSearchCountedOnly`).
- `lat` and `lng` without `max_distance` order by `distancia`. Only the geographic select defines
  that column (`ApiLugares.DistanceOrderWithoutDistanceColumn`).
- In `/api/busqueda-geo`, `categoryFilter` is built and its values are pushed, but the filter is
  never put into the query. With categories, the parameters then outnumber the placeholders of
  the query sent. The filter that was built would have numbered them exactly
  (`ApiGeo.GeoNumbering`).
- `cache.set(key, value, 3600000)` goes to a `Map`, which has no time to live, so the statistics
  are served from the cache forever (`ApiStats.CachedForever`,
  `ApiStats.FirstSnapshotServedForever`). Each request is handled as one step here; see
  "Left out" for requests that overlap.
- URLs are written into the photo-array literal without escaping. A URL holding a double quote
  never reads back as itself (`OsmText.QuoteInUrlBreaksLiteral`).

## Model

| member | source | states |
|---|---|---|
| `OsmDedup.RemoveDuplicateNames` | scripts/osm_extractor.py:77-89 | The result is the dictionary's values, in insertion order, after the loop has seen every place. No two results share a stripped, lower-cased name. Every input name has a result, and every result is an input place. |
| `OsmDedup.DedupWellFormed` | scripts/osm_extractor.py:80-88 | After any prefix of the input, the insertion-order keys are distinct and are exactly the dictionary's keys, and each stored place has its own key. |
| `OsmDedup.Dedup` | scripts/osm_extractor.py:80-88 | The dictionary after the loop has seen a prefix of the input: every listed name has a stored place, and there are no more names than places. What it keeps is stated by `DedupKeys`, `DedupKeepsBest`, `DedupKeepsFirst` and `DedupFirstAppearanceOrder`. |
| `OsmDedup.CollectNames` | scripts/osm_extractor.py:80-88 | The loop that fills the dictionary and records its insertion order ends with `Dedup` of the whole input. |
| `OsmDedup.DedupKeys` | scripts/osm_extractor.py:80-86 | The dictionary has an entry for a name exactly when some input place has that name. |
| `OsmDedup.DedupKeepsBest` | scripts/osm_extractor.py:83-88 | No input place with a given name is rated above the place kept for that name. |
| `OsmDedup.DedupKeepsFirst` | scripts/osm_extractor.py:83-88 | The kept place is an input place, and every earlier place with the same name is rated strictly lower: among the best rated, the first one stays. |
| `OsmDedup.DedupFirstAppearanceOrder` | scripts/osm_extractor.py:80-89 | Names are listed in the order of their first appearance: the first place with an earlier-listed name comes before every place with a later-listed name. |
| `OsmDedup.ValuesDistinct` | scripts/osm_extractor.py:89 | No two returned places share a name key. |
| `OsmDedup.ValuesCover` | scripts/osm_extractor.py:89 | Every name key of the input is the key of some returned place. |
| `OsmDedup.ValuesFromInput` | scripts/osm_extractor.py:89 | Every returned place is one of the input places. |
| `OsmFilter.FilterImportantPlaces` | scripts/osm_extractor.py:272-299 | The array ends up sorted by (rating, Wikidata id length) in descending order. The result is the per-category capped selection of it: a subsequence, still sorted. Each category keeps min(its limit, its number of input places). |
| `OsmFilter.SortPlaces` | scripts/osm_extractor.py:275 | The in-place sort leaves the array equal to the stable descending sort of its old contents. |
| `OsmFilter.SortDescCorrect` | scripts/osm_extractor.py:275 | The sort's output is ordered by descending key and is a permutation of its input. |
| `OsmFilter.SortDescKeepsSorted` | scripts/osm_extractor.py:275 | Sorting a list that is already in order changes nothing. |
| `OsmFilter.SortDescStable` | scripts/osm_extractor.py:275 | The sort is stable: for every key (rating, Wikidata id length), the places with that key come out in the order they went in. |
| `OsmFilter.InsertSorted` | scripts/osm_extractor.py:275 | Stable insertion into a sorted list keeps it sorted. |
| `OsmFilter.InsertPermutes` | scripts/osm_extractor.py:275 | Insertion adds exactly the one element. |
| `OsmFilter.CountCatSort` | scripts/osm_extractor.py:275 | Sorting does not change how many places each category has. |
| `OsmFilter.SelectWithinLimits` | scripts/osm_extractor.py:290-299 | The counting loop returns the capped selection of the sorted places. No category exceeds its limit, which is the table value or 10 by default. |
| `OsmFilter.CappedCounts` | scripts/osm_extractor.py:292-298 | Each category keeps exactly min(limit, its number of places). |
| `OsmFilter.CappedIsSubsequence` | scripts/osm_extractor.py:292-299 | The selection is a subsequence of the sorted places. |
| `OsmFilter.SubsequenceSorted` | scripts/osm_extractor.py:275-299 | A subsequence of a sorted list is sorted, so the output is ordered by rating in descending order. |
| `OsmRating.CalculateRating` | scripts/osm_extractor.py:254-270 | The score accumulated step by step equals `Rating`. It lies between 3.0 and 5.0 and equals min(5.0, 3.0 + the applicable bonuses). |
| `OsmRating.Rating` | scripts/osm_extractor.py:254-270 | Between 3.0 and 5.0 (inside the clamp's [1.0, 5.0]), and min(5.0, 3.0 + the bonuses). |
| `OsmRating.WikidataNeverLowers` | scripts/osm_extractor.py:256-257 | Adding a `wikidata` tag never lowers the rating. |
| `OsmCategory.FirstMatch` | scripts/osm_extractor.py:218-222 | It returns the index of the first rule whose key is present and whose value matches or is `*`; `None` when no rule matches. |
| `OsmCategory.GetCategory` | scripts/osm_extractor.py:204-232 | When some priority rule matches, the category is the category of the first matching rule. Otherwise it is the keyword fallback on the lower-cased name. |
| `OsmCategory.MonumentoUnreachable` | scripts/osm_extractor.py:212-216 | The category is always one of the thirteen names and is never `monumento`. |
| `OsmCategory.HistoricIsHeritage` | scripts/osm_extractor.py:212 | A `historic` tag that no earlier rule catches gives `patrimonio_historico`. |
| `OsmCategory.GetDescription` | scripts/osm_extractor.py:234-252 | A non-empty `description` tag gives that tag, trimmed. Otherwise the text of the category's table entry, or the default text for categories without one. |
| `OsmCategory.DescriptionWithoutTag` | scripts/osm_extractor.py:248-252 | Without a description tag the description is never empty, and `otros` gets the default text. |
| `OsmCategory.BlankDescriptionTagGivesEmpty` | scripts/osm_extractor.py:250-251 | Any non-empty description tag made only of whitespace passes the test and is trimmed to the empty string. |
| `OsmPlace.GetCoordinates` | scripts/osm_extractor.py:194-202 | A node uses its `lat`/`lon`. Another element with a `center` object uses the center's. Missing type, missing center or unparsable numbers give no coordinates. |
| `OsmPlace.NodeIgnoresCenter` | scripts/osm_extractor.py:196-197 | A node without a usable `lat` has no coordinates, even when it has a center. |
| `OsmPlace.ProcessElement` | scripts/osm_extractor.py:163-186 | No place exactly when the trimmed name is empty or a coordinate is missing or zero. Otherwise the record has that name and those coordinates, the element's category, description and rating, `fotos == []`, the trimmed `opening_hours` tag (default `Consultar horarios`), the trimmed `phone`, `website` and `wikidata` tags (default empty), and the element's id and type. |
| `OsmPlace.ProcessElementValid` | scripts/osm_extractor.py:163-186 | Every produced place has a non-empty trimmed name and nonzero coordinates. Its rating is in [3.0, 5.0], its photo list is empty, and its category is a known one other than `monumento`. |
| `OsmPlace.ProcessedValid` | scripts/osm_extractor.py:155-161 | Processing keeps at most one place per element. Every place is valid and is the result of one of the elements. |
| `OsmPlace.ProcessElements` | scripts/osm_extractor.py:155-161 | The appending loop returns the processed places, all of them valid. |
| `OsmText.Selector` | scripts/osm_extractor.py:115-116 | A wildcard tag gives a double-quoted selector without `=`. Any other tag is used as it is. |
| `OsmText.WildcardSelectsKey` | scripts/osm_extractor.py:115-121 | For a `key=*` tag the selector quotes exactly the text before the first `=`, and that text holds no `=`. |
| `OsmText.BuildQuery` | scripts/osm_extractor.py:114-133 | The query starts with the JSON-output, 90-second-timeout header. It contains the node and the way statement for the tag's selector inside the La Paz bounding box. |
| `OsmText.FotosLiteral` | scripts/osm_extractor.py:356 | The literal is braced. |
| `OsmText.FotosLiteralRoundTrip` | scripts/osm_extractor.py:356 | For URLs without double quotes or backslashes, the literal parses back to the same URLs in the same order, and it is `{}` exactly for the empty list. |
| `OsmText.QuoteInUrlBreaksLiteral` | scripts/osm_extractor.py:356 | A URL holding a double quote is written unescaped and never reads back as itself. |
| `OsmText.ParseJoinQuoted` | scripts/osm_extractor.py:356 | The comma-joined quoted URLs parse back to the URL list. |
| `Text.StripEmpty` | scripts/osm_extractor.py:166-167 | A name is rejected as empty after trimming exactly when it is all whitespace. |
| `ApiLugares.BuildLugaresQuery` | backend/server.js:59-114 | The builder, advancing `paramIndex`, produces the page query `LugaresQuery`, and that query is numbered. |
| `ApiLugares.LugaresNumbered` | backend/server.js:59-114 | Every `$k` of the page query names an existing parameter, each parameter is named once, and the counts match. |
| `ApiLugares.LugaresJustified` | backend/server.js:64-114 | Each clause is present only when its condition holds (geo: `lat && lng && max_distance`; category: given and not `all`; search: non-empty after trim; rating: truthy). Its placeholders name the values pushed for it: `lng, lat, max_distance` as `$1..$3`, `categoria`, twice `%search%`, `parseFloat(min_rating)`, `parseInt(limit)` and the offset. |
| `ApiLugares.LugaresCategoryFilter` | backend/server.js:95-98 | The category clause is present exactly when `categoria` is given and is not `all`. |
| `ApiLugares.LugaresSearchFilter` | backend/server.js:100-103 | The search clause is present exactly when the trimmed `search` is not empty. |
| `ApiLugares.LugaresRatingFilter` | backend/server.js:105-108 | The rating clause is present exactly when `min_rating` is truthy. |
| `ApiLugares.LugaresFrame` | backend/server.js:64-114 | The query opens with the geographic select on `$1,$2,$3` exactly when all three geo fields are truthy. The order is by `distancia` exactly when `lat && lng`, else by rating and name. LIMIT and OFFSET use the last two parameters, `parseInt(limit)` and the offset, with defaults 50 and 1. |
| `ApiLugares.LugaresOrder` | backend/server.js:95-114 | The clauses come in the fixed order select, category, search, rating, order, paging, each at most once. |
| `ApiLugares.DistanceOrderWithoutDistanceColumn` | backend/server.js:64-111 | With `lat` and `lng` but no `max_distance`, the plain select is used, yet the order is by `distancia`. |
| `ApiLugares.BuildCountQuery` | backend/server.js:120-132 | The count builder, advancing `countParamIndex`, produces `CountQuery`, numbered from `$1`. |
| `ApiLugares.CountNumbered` | backend/server.js:120-132 | The count query's placeholders are exactly `$1 … $n` for its own `n` parameters. |
| `ApiLugares.CountClauses` | backend/server.js:120-132 | The count query has the category clause exactly when the page query's category condition holds, and the search clause exactly when the untrimmed `search` is truthy. It never has a geographic, rating, order or paging clause. |
| `ApiLugares.BlankSearchCountedOnly` | backend/server.js:100-132 | A search of blanks adds the search filter to the count query and not to the page query. |
| `ApiPaging.Pages` | backend/server.js:147 | With a positive limit, the page count is the least number of pages that hold all rows. A zero limit gives no number (`null` in the JSON). |
| `ApiPaging.PagesCoverRows` | backend/server.js:57-147 | With a positive limit, a page from 1 on starts before the last row exactly when its number is at most the page count. |
| `ApiPlaces.ShapePlace` | backend/server.js:274-278 | The returned place has an array of photos, and nothing else in the row changes. |
| `ApiPlaces.ShapeRows` | backend/server.js:137-142 | Every row of the page is shaped, one for one and in order. |
| `ApiPlaces.ShapeRowsFotos` | backend/server.js:141 | Every returned `fotos` is the stored array when the stored value is an array, and `[]` otherwise. Shaping again changes nothing. |
| `ApiPlaces.Detail` | backend/server.js:232-280 | Both queries read the same table, so the distance-ordered rows are the table's rows reordered. 404 exactly when no row has the id. Otherwise the first matching row, shaped, together with the nearby list: at most five rows of the table, none of which has the id. |
| `ApiPlaces.MatchingFirst` | backend/server.js:244-249 | The first row the query returns is the first row of the table with that id. |
| `ApiPlaces.Nearby` | backend/server.js:257-268 | At most five places, none with the subject's id, all taken from the distance-ordered table. |
| `ApiPlaces.NearbyIsClosest` | backend/server.js:259-268 | With the table in ascending order of a distance `dist` from the place, as `ORDER BY distancia` returns it, the list holds five places, or every other place when there are fewer. No other place left out is strictly nearer than a place listed. |
| `ApiPlaces.OthersMembers` | backend/server.js:265 | A row is among the candidates exactly when it is in the table and its id differs from the subject's. |
| `ApiPlaces.Matching` | backend/server.js:244-249 | The rows returned all have the id and come from the table; none are returned exactly when no row has the id. |
| `ApiGeo.BusquedaGeo` | backend/server.js:293-324 | 400 exactly when `lat` or `lng` is missing or empty. Otherwise the query is the radius select on `$1,$2,$3`, whose first three parameters are `lng`, `lat` and the radius (1000 when not sent). The category filter is built exactly when `categories` is given and is not `all`. |
| `ApiGeo.GeoCategoryParams` | backend/server.js:305-308 | The pushed categories are the comma-separated pieces of `categories`, in order, after the three point parameters, and they join back into it. |
| `ApiGeo.GeoNumbering` | backend/server.js:302-324 | Without categories the query is numbered. With categories it is not, and the unused filter on `$4…` would have made it numbered. |
| `ApiStats.TipoOf` | backend/server.js:195-200 | `cultural` exactly for museo, teatro and basilica; `naturaleza` exactly for parque and mirador; `urbano` exactly for plaza and mercado; `otros` for the rest and for a missing category. |
| `ApiStats.TypesDistribution` | backend/server.js:190-205 | No distribution (SQL `NULL`) exactly for an empty table. Otherwise one entry per group that has rows, holding that group's count. |
| `ApiStats.TipoCountsPartition` | backend/server.js:195-203 | The four group counts add up to the number of rows. |
| `ApiStats.MakeSnapshot` | backend/server.js:208-214 | The snapshot carries the four query results, with the types distribution computed from the category column, and the time it was built. |
| `ApiStats.Respond` | backend/server.js:162-222 | A cached snapshot is returned from the cache unchanged. On a miss, a successful computation is stored and returned with `fromCache: false`. A failed one returns 500 and stores nothing. |
| `ApiStats.StatsCache.constructor` | backend/server.js:43 | The cache starts empty. |
| `ApiStats.StatsCache.Set` | backend/server.js:216 | Storing replaces the entry for the key. The time-to-live argument has no effect. |
| `ApiStats.StatsCache.Estadisticas` | backend/server.js:162-222 | The handler's new cache contents and response are those of `Respond` on the old contents. |
| `ApiStats.CachedForever` | backend/server.js:162-168 | Once a snapshot is cached, every later request, however late, gets that very snapshot with `fromCache: true`. |
| `ApiStats.FirstSnapshotServedForever` | backend/server.js:162-222 | From an empty cache, requests fail until the first successful computation, which is returned with `fromCache: false`. Every later request gets that snapshot from the cache. |

## Left out

- Network and file I/O: the Overpass and Wikidata fetches, `load_from_file`/`save_to_file`, `time.sleep` and logging. `run_extraction` only sequences the modelled steps around these calls.
- `enrich_with_wikidata` and `get_image_url`. The first is a network call and the second an MD5 hash. `OsmPlace.ProcessElement` states the record before enrichment, so `fotos` is always `[]` there.
- The psycopg2 insert loop of `save_to_database`, apart from the photo-array literal.
- Exceptions raised inside `process_element`, outside the coordinate parsing that `get_coordinates` catches. An element is a typed record here, so the tag lookups cannot fail.
- Floating point. Ratings are exact integer tenths. Coordinates are reals, and only the zero test matters to the extractor. `float()` parsing is abstracted as a field that is either a number or unparsable.
- The Express wiring (helmet, cors, morgan, rate limiting, error middleware, `listen`) and the 500 replies of the `/api/lugares`, `/api/lugares/:id` and `/api/busqueda-geo` handlers.
- Query execution in PostgreSQL and PostGIS: `ST_Distance`, `ST_DWithin`, `ST_Centroid`, `ILIKE` and the statistics aggregates. The model builds the SQL and parameters and proves how they fit together. Which rows the engine returns is an input: the table in distance order for the nearby list, and the four statistics results for the snapshot. `ST_Distance` is an abstract function `dist` on rows in `ApiPlaces.NearbyIsClosest`.
- `ApiGeo.BusquedaGeo` models the request and its parameters. The database's rejection of a parameter count that does not match the placeholders, which turns that request into a 500, is not modelled.
- `Promise.all`. The four statistics queries are treated as one result, or as one failure.
- JavaScript's coercions of query-string values. `parseFloat`, `parseInt` and `(page - 1) * limit` stay symbolic parameters. The pagination arithmetic in `ApiPaging` is stated over integers.
- `Text.Strip`, `Text.Lower`: whitespace and case folding follow ASCII, plus the Latin-1 capital letters for lower-casing. Python's and JavaScript's wider Unicode tables are not modelled. Python's `strip()` also removes the separators U+001C to U+001F, and both languages remove Unicode spaces such as U+00A0; `Text.IsSpace` leaves these out.
- `ApiStats.CachedForever`, `ApiStats.FirstSnapshotServedForever`: each request is modelled as one atomic step. In the source, a miss checks `cache.has` (backend/server.js:162), awaits the queries (line 170) and only then calls `cache.set` (line 216). Two requests that miss at the same time both compute, and the later `set` overwrites the earlier snapshot. That interleaving is not modelled, so these two lemmas hold only for requests that do not overlap.
- `OsmText.FotosLiteralRoundTrip`: proved only for URLs without `"` or `\`. The source writes URLs into the literal unescaped. PostgreSQL reads a backslash inside a quoted element as an escape, and `OsmText.ParseItems` does not interpret escapes. URLs holding either character are not modelled beyond `OsmText.QuoteInUrlBreaksLiteral`.
- The `id` route parameter is text in the source and is compared with the integer id column by PostgreSQL. The model takes it as an integer.
- The frontend, the QGIS scripts and the styling configuration.
