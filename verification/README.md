# Grid place search with website e-mail extraction — a Dafny model

This project models the backend of a small location-search tool. The tool does five things.

- It lays an N×N grid of cells over a circular search area.
- It sends one Places nearby-search request per cell and keyword.
- It keeps each place once, and only if it is within the original radius. Each kept place
  records its distance from the centre, rounded to two decimals.
- It enriches every place with its place-details record: website, phone and formatted address.
- On request, it crawls each place's website for contact e-mail addresses. The crawl visits a
  fixed list of contact-like paths, validates the addresses, puts the big mail providers first
  and keeps five.

A single-point variant does the same with one request per keyword and no radius filter.

The modules follow the backend's files:

| module | models |
|---|---|
| `Geometry` (`geometry.dfy`) | `backend/grid_calculator.py`: layout, lattice, in-circle filter; `round(x, 2)` |
| `Places` (`places.dfy`) | `backend/places_api.py`: parsing nearby results, details lookup, enrichment |
| `Emails` (`emails.dfy`) | `backend/email_extractor.py`: URL checks, base domain, `mailto:` handling, validator, page harvest, crawl, final filter |
| `Search` (`search.dfy`) | `backend/search_engine.py`: both searches, de-duplication, the e-mail stage, final sort |
| `Ordering` (`ordering.dfy`) | Python's stable `list.sort(key=…)` with a numeric or `float('inf')` key |
| `Text` (`text.dfy`) | the `str` operations used: `lower`, `strip`, `split`, `replace`, `in`, `startswith` |
| `Wrappers` (`wrappers.dfy`) | `Option` and `Result` |

The outside world is passed in as parameters:

- **Geometry.** The Haversine distance and `cos(radians(·))` are the two fields of `Geometry.Geo`.
  They are uninterpreted, so every property holds for any distance and cosine functions.
- **Nearby search.** A nearby-search exchange is `Services.nearby: Query -> ApiResponse`. An
  `ApiResponse` is the decoded JSON body (`status`, `results`) or a failed request.
- **Place details.** A details exchange is `Services.details: string -> DetailsResponse`.
- **Web pages.** The web is `Services.web: (site, path) -> PageResult`. A `PageResult` is the list
  of regular-expression matches in the page text and the list of anchor `href`s, or a failure.
- **Address pattern.** The address regular expression's `match` is
  `Services.emailPattern: string -> bool`.

The grid search and the single-point search are written as methods whose loops follow the
source. Their `queries` output lists the requests made, in order. Each search is proved equal to
a reference definition: `Search.Accepted` applied to `Search.Stream` of those requests, followed
by `Search.Finish`.

## Where the model follows the code rather than the documentation

- **Page budget.** A website crawl stops after `max_pages` = 3 requested pages. A page that cannot
  be fetched still uses up one page of the budget, because `_extract_emails_from_page` swallows
  the error and the counter is incremented afterwards.
- **Address limit.** At most five addresses are returned per website.
- **Validator.** `_is_valid_email` rejects only three things:
  - an empty address;
  - an address without `@`;
  - an address that contains, once lower-cased, one of the ten deny-listed substrings.

  Every later branch, including the default one, accepts. The "same domain", "business domain"
  and "shared company label" checks therefore do not change the outcome
  (`Emails.IsValidEmail`).
- **Ranking.** The final filter ranks addresses by one rule only: the domain contains one of four
  providers. Those addresses come first. There is no scoring and no de-obfuscation.
- **Rounding and the radius.** The radius test uses the exact distance; the rounded value is what
  gets stored. A kept place can therefore show a stored distance slightly above the radius.
- **Default sort key in the grid search.** The grid search sorts on `distance_from_center`, defaulting
  to `float('inf')`. Every kept grid result has that field, so the default never applies there.
- **Single-point sort key.** The single-point search sorts on `distance`, which is the distance
  from the search point recorded at parsing time.

## Model

| member | source | states |
|---|---|---|
| Geometry.PlanLayout | backend/grid_calculator.py:43-54 | planning fails with a division by zero exactly when `grid_size` is 0 or the length of a degree of longitude (111·cos) is 0; otherwise centre, radius and grid size are carried over, the cell radius times N is the radius, the latitude span times 111 and the longitude span times 111·cos are the radius, and each step times N is twice its span |
| Geometry.CalculateGridPoints | backend/grid_calculator.py:40-69 | the nested loops compute the reference plan (in-circle lattice centres, row-major); error exactly for a zero grid size or zero cosine; no cells for a negative size; at most N² cells; each within `radius_km` of the centre with radius `radius_km / grid_size` |
| Geometry.ScanRow | backend/grid_calculator.py:58-67 | one pass of the inner loop appends exactly the in-circle centres of row i, in column order |
| Geometry.GridPlanProperties | backend/grid_calculator.py:43-69 | the reference plan's error condition, size bound, empty result for a negative size, and in-radius cells with the cell radius |
| Geometry.GridPlanComplete | backend/grid_calculator.py:57-67 | every lattice centre within the radius is planned (nothing inside the circle is dropped) |
| Geometry.KeepInCircleSound | backend/grid_calculator.py:64-67 | the filter keeps a candidate if and only if it lies within the radius |
| Geometry.KeepInCircleIndices | backend/grid_calculator.py:57-67 | the plan is an order-preserving selection of lattice positions that includes every in-circle position |
| Geometry.LatticeRowMajor | backend/grid_calculator.py:57-61 | candidate (i, j) is the (i·N + j)-th visited: latitude rows outer, longitude columns inner |
| Geometry.CandidateInsideBox | backend/grid_calculator.py:49-61 | for a positive radius, every candidate centre lies strictly inside the box centre ± `radius_km/111` in latitude and centre ± `radius_km/(111·cos)` in longitude |
| Geometry.LayoutTiles | backend/grid_calculator.py:43-61 | the N cells tile that box exactly: the first centre is half a step above the lower edge, the last half a step below the upper edge, neighbours are `2·span/N` apart, and each cell has radius `radius_km/N` |
| Geometry.Round2Nearest | backend/places_api.py:113 | `round(x, 2)` yields a multiple of 0.01 within 0.005 of x |
| Places.ParsePlace | backend/places_api.py:103-120 | a parsed record keeps the raw id and coordinates and carries the search keyword; name and address (from `vicinity`) are the raw values or `''`, rating `0`, rating count `0` and types `[]` when missing; price level and `open_now` are copied (absent without `opening_hours`); `photos` holds exactly when there is at least one photo; the distance is the search point's distance to the place rounded to 2 decimals; no website, phone, e-mails, formatted address or distance from a centre yet |
| Places.ParsePlaces | backend/places_api.py:89-128 | every output is a fresh record; results without coordinates are skipped; all-with-coordinates input gives one record each; none gives an empty list |
| Places.ParsePlacesAppend | backend/places_api.py:91-122 | parsing distributes over concatenation, so outputs keep the input order |
| Places.ParsePlacesOrigin | backend/places_api.py:91-122 | every record comes from a raw result with coordinates, and every such raw result is parsed |
| Places.NearbySearch | backend/places_api.py:55-74 | places come back only for status `OK`, and then exactly the parsed results (none when `results` is missing); other statuses and failed requests give an empty list |
| Places.GetPlaceDetails | backend/places_api.py:178-195 | a payload is returned exactly for status `OK`, and it is the `result` member, or an empty object when that member is missing |
| Places.EnrichPlace | backend/places_api.py:209-232 | a place without a non-empty id, with a failed lookup, or with an empty or non-object payload is unchanged; otherwise website and phone come from the details, and the formatted address too (defaulting to the vicinity); nothing else changes |
| Places.EnrichPlaces | backend/places_api.py:207-234 | one output per input, same order; each is updated as a single enrichment step and only in website, phone and formatted address |
| Emails.NormalizeUrl | backend/email_extractor.py:68-69 | a URL that already starts with `http://` or `https://` is returned as is; any other URL gets exactly `https://` in front |
| Emails.Authority | backend/email_extractor.py:159 | the authority `urlparse` splits off after `//`: the longest prefix with no `/`, `?` or `#`, followed by one of them or by the end |
| Emails.Netloc | backend/email_extractor.py:159-160 | `urlparse(url).netloc` after tab, CR and LF are deleted: for an `http://` or `https://` URL, the longest prefix of the text after `//` that holds no `/`, `?` or `#` (the next character, if any, is one of them); empty for any other URL; never longer than the URL and free of tab, CR and LF |
| Emails.IsValidUrl | backend/email_extractor.py:150-162 | valid exactly when non-empty and, after adding the scheme and deleting tab, CR and LF as `urlsplit` does, the character after `//` exists and does not start a path, query or fragment |
| Emails.LineFeedUrlInvalid | backend/email_extractor.py:150-162 | a website consisting of a single line feed is not a valid URL, so it is not crawled |
| Emails.RemoveUnsafe | backend/email_extractor.py:159 | the URL `urlsplit` parses keeps exactly the characters other than tab, CR and LF |
| Emails.RemoveUnsafeIdempotent | backend/email_extractor.py:159 | deleting tab, CR and LF a second time changes nothing |
| Emails.BaseDomain | backend/email_extractor.py:164-174 | the lower-cased host, with one leading `www.` removed exactly when present |
| Emails.BaseDomainSkipsUnsafe | backend/email_extractor.py:164-174 | a tab, CR or LF anywhere in the URL does not change the base domain (`https://ex` + tab + `ample.com` gives that of `https://example.com`) |
| Text.Split | backend/email_extractor.py:133 | `split('?')` on one character: at least one piece, none containing the separator; the first piece is everything before the first separator, or the whole string when there is none |
| Text.RemoveAll | backend/email_extractor.py:133 | `replace('mailto:', '')` keeps only characters of the input; a string without an occurrence comes back unchanged, one with an occurrence comes back at least one pattern-length shorter |
| Text.SplitJoin | backend/email_extractor.py:133 | joining the pieces of `split('?')` with the separator gives back the input, so no character is lost or invented |
| Emails.MailtoAddress | backend/email_extractor.py:131-133 | the extracted address has no `?` and is no longer than the link |
| Emails.MailtoRoundTrip | backend/email_extractor.py:131-133 | `mailto:` + address, with or without `?` + query, gives the address back, for addresses without `?` or an embedded `mailto:` |
| Emails.IsValidEmail | backend/email_extractor.py:187-236 | accepts exactly the non-empty addresses containing `@` and none of the deny-listed substrings (case-insensitively) |
| Emails.Domain | backend/email_extractor.py:210 | `email.split('@')[1]`: the text after the first `@`, up to the second `@` or to the end when there is no second one |
| Text.Lower | backend/email_extractor.py:139 | `lower()` on ASCII: same length, each character mapped by itself to its lower-case form |
| Text.Strip | backend/email_extractor.py:139 | `strip()`: never longer than the input, and neither end of a non-empty result is `str.isspace` whitespace |
| Text.StripSlice | backend/email_extractor.py:139 | the input is a run of whitespace, then the stripped string, then another run of whitespace |
| Text.LeadingSpaces | backend/email_extractor.py:139 | the leading whitespace run is maximal: every character before it is whitespace and the character after it is not |
| Text.TrailingSpaces | backend/email_extractor.py:139 | the trailing whitespace run is maximal: every character in it is whitespace and the character before it is not |
| Emails.NormalizeIdempotent | backend/email_extractor.py:139 | lower-casing and stripping a second time changes nothing |
| Emails.NormalizeKeepsAt | backend/email_extractor.py:252 | lower-casing and stripping keeps an `@` and adds none |
| Emails.MailtoCandidates | backend/email_extractor.py:129-135 | exactly the addresses of `mailto:` links that match the pattern |
| Emails.AddAcceptedContents | backend/email_extractor.py:138-141 | the page set gains exactly the accepted candidates, each once |
| Emails.PageEmails | backend/email_extractor.py:98-148 | a failed page yields nothing; otherwise exactly the normalised candidates the validator accepts, without duplicates, all already normalised |
| Emails.UnionContents | backend/email_extractor.py:81 | `set.update` adds exactly the missing elements and never duplicates |
| Emails.CrawlPaths | backend/email_extractor.py:74-89 | the paths requested are a prefix of the path list, nothing at all once the budget is spent, and otherwise start with the next path |
| Emails.CrawlFetched | backend/email_extractor.py:74-89 | the crawl requests the paths in order and stops after `max_pages` requests, failed pages included |
| Emails.CrawlContents | backend/email_extractor.py:74-89 | the collected set is exactly what the requested pages yield, each address once |
| Emails.HarvestAccepted | backend/email_extractor.py:138-141 | every address a crawled page contributes is valid, normalised and has an `@` |
| Emails.Select | backend/email_extractor.py:257-263 | picks exactly the addresses of one priority class, never more than its input and without duplicates when the input has none |
| Emails.Top | backend/email_extractor.py:265 | at most five leading elements, and the whole list when it is shorter |
| Emails.FilterEmails | backend/email_extractor.py:238-265 | empty in, empty out; fails with `IndexError` exactly when some address has no `@`; otherwise at most five distinct normalised input addresses, priority first, and an address is dropped only from a full result (from an all-priority one if it is priority) |
| Emails.RankedProperties | backend/email_extractor.py:257-263 | the stable reverse sort on the priority key keeps each address once and puts every priority address before every other one |
| Emails.TopProperties | backend/email_extractor.py:263-265 | truncation keeps the ranking; any cut address implies five results, all priority when the cut one is priority |
| Emails.AtSurvivesNormalize | backend/email_extractor.py:252-258 | every de-duplicated normalised address has an `@` exactly when every input has one |
| Emails.FilterNormalized | backend/email_extractor.py:94-96 | on the crawl's normalised, valid addresses the filter cannot fail, and it keeps or drops input addresses only |
| Emails.CrawlSite | backend/email_extractor.py:63-96 | for any URL: the first `min(max_pages, 8)` paths are requested in order; the result has at most five distinct, valid, normalised addresses, each found on a requested page; an address found but left out means five were kept, all priority ones if it was priority; priority addresses come first |
| Emails.ExtractEmailsFromWebsite | backend/email_extractor.py:50-96 | an invalid URL gives nothing and requests nothing; otherwise the first `min(max_pages, 8)` paths are requested in order; at most five distinct, valid, normalised addresses, all found on those pages, priority first, and none dropped unless the result is full |
| Ordering.SortBy | backend/search_engine.py:119 | `list.sort(key=...)`: the result has the input's length, is ordered by key and is a permutation of the input |
| Ordering.SortByProperties | backend/search_engine.py:119 | the sort is ordered by key, a permutation of its input, and stable (each key class keeps its input order) |
| Ordering.SortByOfSorted | backend/search_engine.py:189 | sorting an already sorted list leaves it unchanged |
| Ordering.InsertKeyClass | backend/search_engine.py:119 | inserting appends the new element to its own key class and leaves every other class alone |
| Search.AcceptedIds | backend/search_engine.py:82-98 | the kept ids are exactly the ids of admitted results |
| Search.AcceptedUnique | backend/search_engine.py:82-98 | no two kept places share an id (at most one has none) |
| Search.AcceptedComplete | backend/search_engine.py:82-98 | the first admitted result with a given id is kept, with its distance noted |
| Search.AcceptedSound | backend/search_engine.py:82-98 | every kept place is the annotated first admitted result with its id |
| Search.AcceptPage | backend/search_engine.py:82-98 | the result loop over one page extends the kept list and the seen-id set as the reference filter does on the longer stream |
| Search.AcceptOne | backend/search_engine.py:83-98 | one result: skipped when its id was seen or it lies outside the radius, kept annotated otherwise, its id recorded |
| Search.SearchCell | backend/search_engine.py:68-103 | the keyword loop makes one request per keyword at the cell and filters each page in turn |
| Search.CollectPasses | backend/search_engine.py:67-103 | the cell loop makes exactly the requests cell by cell, keyword by keyword, and keeps what the reference filter keeps on their results |
| Search.PassQueriesCount | backend/search_engine.py:61-68 | the grid makes cells × keywords requests |
| Search.PassQueriesAt | backend/search_engine.py:67-79 | request number c·K + k is keyword k at cell c, with the cell's centre and radius |
| Search.StreamMembers | backend/search_engine.py:74-82 | a result is in the stream exactly when one of the requests returned it, and it carries that request's keyword |
| Search.ExtractEmailsForPlaces | backend/search_engine.py:204-228 | every place gets an e-mail list and nothing else changes; none for a missing, empty or invalid website; a place with a non-empty website gets exactly what crawling that website with the default budget of 3 pages returns, so every address was found on one of the first 3 paths; at most five distinct, valid, normalised addresses |
| Search.FinishProperties | backend/search_engine.py:109-119 | enrichment, e-mails and sort keep every place once with its id, change only the later fields, and sort by the key |
| Search.SearchOutcome | backend/search_engine.py:109-122 | both searches return unique ids, sorted by their key, each place found by one of the keywords, and every admitted result's id |
| Search.GridListings | backend/search_engine.py:89-97 | a kept grid result is within the radius and records its rounded distance from the centre |
| Search.UnfilteredListings | backend/search_engine.py:163-168 | without a radius filter a kept place is a search result as returned, with no distance from a centre |
| Search.SearchGrid | backend/search_engine.py:53-122 | the planner's error propagates with no requests; otherwise the requests are the plan's cells × keywords; the result has unique ids, is sorted by distance from the centre, contains only places within the radius with their rounded distance, contains every in-radius place found, and has no e-mails unless asked; the result equals `Search.Finish` of `Search.Accepted` over the request stream |
| Search.SearchSinglePoint | backend/search_engine.py:147-192 | one request per keyword at the point; unique ids, sorted by distance; every place found is in the result, none has a distance from a centre, and none has e-mails unless asked; the result equals `Search.Finish` of the page stream |

## Left out

- HTTP, JSON decoding, HTML parsing and the address regular expression. These are abstract
  parameters (`Services`). Their decoded outcomes are modelled, including failures, statuses and
  missing keys.
- `time.sleep`, `print`, the progress counters (`total_searches`, `current_search`) and
  `delay_between_requests`. None of them affects a result.
- Request parameters: the radius in metres, `language='ko'`, the API key and the details field
  list. They do not affect any computed value.
- `urljoin`. The page at a path is `web(site, path)`; how the URL is joined is part of that
  oracle.
- Floating point. Arithmetic is exact over `real`. The Haversine distance and the cosine are
  uninterpreted. A `math.asin` domain error, possible only through rounding, would abandon the
  rest of a page in `search_grid`; it is not modelled.
- Unicode case mapping. `lower()` is modelled on ASCII letters only.
- `urlparse` corner cases. Userinfo and ports stay inside the host, as in `urlparse().netloc`.
  Bracketed IPv6 hosts and the `ValueError` that `_is_valid_url` swallows are not modelled. Nor
  is the removal of leading C0 control characters and spaces that newer Python releases add.
- `Emails.Netloc`: only the authority of an `http`/`https` URL is extracted. Other schemes, and a
  URL whose scheme is not followed by `//`, give an empty host.
- `Places.EnrichPlace`: a details value that is neither a string nor null is not copied. For
  `website` and `formatted_phone_number` the field becomes `None`, as it does for a missing key.
  For `formatted_address` it also becomes `None`, not the `vicinity` default that a missing key
  gets.
- `Places.RawPlace`: a key present with the JSON value `null` is treated as a missing key. For
  `name`, `vicinity`, `rating`, `user_ratings_total` and `types` the source's `.get(key, default)`
  would return `None` there, not the default. A null `opening_hours` or `photos` would raise
  inside the per-entry handler and skip the entry.
- `Places.ParsePlaces`: malformed entries caught by the per-entry handler are not modelled.
  Neither are coordinates that are present but not numbers.
- Python set iteration order. E-mail sets are modelled as sequences in first-insertion order, and
  every property of the final filter is proved for every input order.
- `backend/config.py`, `app.py` and `demo.py` are not part of this model.
