# leaseinfo — a Dafny model of the leasing-brochure search

leaseinfo is a browser application for searching office-leasing brochures
("임대안내문") published by brokerage companies. Its data layer
(`js/firebase-config.js`) reads two trees from a realtime database
(`buildings` keyed by building id, `vacancies` keyed by building id and then
vacancy id), merges them into one flat list of records, caches the three
values for five minutes, and answers the searches, the autocomplete
suggestions and the grouping queries of the viewer (pages of one
document, past issues of one publisher for one building, the latest issue
of every other publisher, the latest publication month). The page
controller (`js/search.js`) keeps the results table (search, paging,
selection) and the image viewer, which moves between pages of a document
by probing neighbouring file names, between issues of a publisher, and
between publishers of the same building; it also memoises a colour per
publisher from a 32-bit string hash. An older controller
(`js/222search.js`) has the same table and a simpler viewer that steps
through the results that have an image.

The model, one Dafny module per concern:

- `Wrappers` — `Option`, standing for JavaScript's `null`/`undefined`.
- `Text` — ASCII `toLowerCase`, `includes`, decimal digits, `padStart`, `trim`.
- `Collections` — the generic sequence operations the code relies on:
  `filter`, `findIndex`, `slice(0, n)`, a `Map` filled "first one wins" or
  "newer one wins", a `Set` in insertion order, the stable descending sort
  `Array.prototype.sort` performs with a date comparator, the default
  string sort, and the bounded probing loop.
- `Tokens` — the leftmost-longest matches of the regular expressions
  `([가-힣]+구)`, `([가-힣]+동)`, `([가-힣0-9]+(?:로|길))` and
  `[가-힣A-Za-z0-9]+역`.
- `PublishDates` — `parsePublishDate` (dates as month indices
  `year * 12 + month - 1`, the epoch `new Date(0)` as `1970 * 12`) and the
  "YYYY년 M월" text of `getLastUpdateTime`.
- `Merge` — the raw database shapes, the merged record `Listing`, and
  `loadMergedData`'s merge loop.
- `Cache` — the module-level caches as a class `FirebaseService`.
- `Query` — `searchVacancies`.
- `Suggestions` — the three autocomplete sources and `getSourceList`.
- `Grouping` — `getDocumentPages`, `getArchivesBySourceAndBuilding`,
  `getOtherSourcesForBuilding`, `getAllForBuilding`, `getLastUpdateTime`.
- `PageUrls` — `getAdjacentPageUrl` and `findNextValidPage`.
- `SourceColors` — `hashString` and the palette of `getSourceColor`.
- `ResultsTable` — what both controllers share: pagination, the
  selection map, the search form and its guard, the viewer captions.
- `SearchApp` — the class `LeasingSearchApp` of `js/search.js`.
- `LegacySearchApp` — the class `LeasingSearchApp` of `js/222search.js`.

The database, the clock and the image loader are parameters: the fetched
snapshots are `Option` arguments (absent is `null`), `Date.now()` is an
argument (`now` where the freshness test reads it, `fetchedAt` where
`loadVacancies` reads it again once its snapshot has arrived), and whether an image URL loads is an oracle
`imageExists: string -> bool`. The merged list that the query functions
obtain by awaiting `loadMergedData()` is an argument `data`.

Behaviours of the code a reader might not expect:

- the station suggestions test the query against the whole
  `nearbyStation` text of a record and then return every station token of
  that text, even tokens that do not contain the query
  (`Suggestions.StationSuggestionWithoutQuery`);
- the suggestion functions reject only the empty query; a query of
  spaces is turned away by the input handler's `trim`, not by them;
- choosing an issue in the archive select replaces only the viewed
  record's image, date, document and page; the publisher list, the cursor
  and the archive list are not recomputed;
- when the viewed record's publisher is not among the building's
  publishers, the publisher cursor is `-1`, the value `findIndex` gives
  for a miss;
- a record without a `pageNum` is shown at page 1 (`pageNum || 1`).

## Model

| member | source | states |
|---|---|---|
| Merge.MergeData | js/firebase-config.js:79-120 | the nested loops produce exactly `MergedRecords`: for each building in order, for each vacancy in order, one record when the vacancy is an object with a non-empty `buildingName`, completed with the building's facts or none |
| Merge.SchemaSkipped | js/firebase-config.js:82-83 | the `_schema` entry of the vacancy tree yields no record |
| Merge.BuildingRecordsMember | js/firebase-config.js:88-119 | a record comes from a building's vacancies iff some vacancy object with a building name under it, and the building is not `_schema`, produces it |
| Merge.MergedMember | js/firebase-config.js:79-120 | a record is in the merged list iff some building entry and vacancy object produce it with that building's facts from `buildings` |
| Merge.MergedAppend | js/firebase-config.js:79-120 | merging two parts of the tree one after the other gives the concatenation of the parts' merges, so order is kept |
| Merge.BuildingRecordsAppend | js/firebase-config.js:88-119 | the same for the vacancies of one building |
| Merge.SingleEntry | js/firebase-config.js:88-119 | one vacancy gives one record when it is an object with a building name, and none otherwise |
| Merge.ListingDefaults | js/firebase-config.js:91-118 | the record carries the ids `buildingId` and `${buildingId}_${vacancyId}`, a missing building leaves every building field empty and the coordinates null, missing areas become 0, and the page number is never 0 (1 when missing) |
| Cache.FreshWindow | js/firebase-config.js:17-23 | a cache stamped at `t` is fresh exactly while `now < t + 300000` ms (five minutes); used to show that a merged list stays served for five minutes after a fetch |
| Cache.FirebaseService.constructor | js/firebase-config.js:13-16 | every cache and the fetch time start empty |
| Cache.FirebaseService.LoadBuildings | js/firebase-config.js:22-38 | a fresh cache is returned unchanged; otherwise a non-null snapshot is cached and returned, and a null snapshot leaves the cache as it was and returns the stale cache if there is one, else `{}`; the fetch time is not touched |
| Cache.FirebaseService.LoadVacancies | js/firebase-config.js:43-60 | as `LoadBuildings` (a null snapshot returns the stale cache or `[]`), and a miss also stamps the fetch time with the clock reading `fetchedAt` taken after the snapshot arrived |
| Cache.FirebaseService.LoadMergedData | js/firebase-config.js:66-126 | a fresh merged cache is returned and nothing changes; otherwise both loads run, each under its own cache rule, the result is `MergedRecords` of what they return and is cached, both tree caches and the fetch time end as those loads leave them, and after a vacancies fetch at `fetchedAt > 0` the merged cache is fresh for every time in `[fetchedAt, fetchedAt + 300000)` |
| Collections.Filter | js/firebase-config.js:144-178 | `filter` keeps only elements of the input that pass the test |
| Collections.FilterKeepsAll | js/firebase-config.js:144-178 | every input element that passes the test is kept |
| Collections.FindIndex | js/search.js:583-595 | `findIndex`: the first index whose element passes, or -1 exactly when none does |
| Collections.Take | js/firebase-config.js:207 | `slice(0, n)`: the first `min(n, length)` elements |
| Collections.ProbeUntil | js/search.js:736-755 | the bounded walk returns the first step (1..limit) whose value is found, with every earlier step defined and not found, or none when no step within the limit is found |
| Collections.FirstPerKeyIsFirst | js/firebase-config.js:194-206 | a `Map` filled only when the key is absent holds, for each key, the first element with that key |
| Collections.FirstPerKeyComplete | js/firebase-config.js:194-206 | every key of the input is present in that map |
| Collections.FirstPerKeyOrder | js/firebase-config.js:194-206 | the map's values are in the order their keys first occur |
| Collections.KeepFirstPerKey | js/firebase-config.js:298-305 | the loop with a seen-set computes the first-per-key list |
| Collections.LatestPerKeyShape | js/firebase-config.js:367-380 | a `Map` that replaces a value only by a strictly newer one has one value per key and covers every key |
| Collections.LatestPerKeyIsLatest | js/firebase-config.js:367-380 | each value kept is from the input and no element with its key is newer |
| Collections.KeepLatestPerKey | js/firebase-config.js:367-380 | the loop computes the latest-per-key list |
| Collections.FindMaxDate | js/firebase-config.js:447-455 | the loop computes the greatest date among the elements that have one |
| Collections.MaxDateIsMax | js/firebase-config.js:447-455 | that date is none iff no element has a date, and otherwise it is one element's date and no smaller than any other's |
| Collections.DedupMember | js/firebase-config.js:218-244 | a `Set` in insertion order has no duplicates and the same members as the input |
| Collections.SortDesc | js/firebase-config.js:340-344 | the comparator sort `dateB - dateA` gives a permutation of its input, in non-increasing date order |
| Collections.SortDescStable | js/firebase-config.js:340-344 | the sort is stable: the elements of any one date keep their input order |
| Collections.SortDescFirst | js/firebase-config.js:340-344 | after the stable descending sort, the first element with date `d` is the input's first element with date `d` |
| Collections.LexTotal | js/firebase-config.js:244 | the default string order compares any two strings |
| Collections.SortLex | js/firebase-config.js:244 | the default `sort()` gives a permutation in non-decreasing string order |
| Collections.NewestPerKeyShape | js/firebase-config.js:367-390 | latest per key and then sorted by date: one element per key, every key covered, newest first, all from the input |
| Text.Lower | js/firebase-config.js:147-173 | `toLowerCase` keeps the length and lowers each character on its own |
| Text.NatToString | js/search.js:836 | `String(n)`: decimal digits, no leading zero, whose value is `n` |
| Text.PadStart | js/search.js:836 | `padStart(width, '0')`: zeros on the left up to `width`, the text unchanged when it is already long enough |
| Text.PadRoundTrip | js/search.js:828-837 | a digit string re-read as a number and padded back to its length is the same string |
| Text.TrimSpec | js/search.js:223 | `trim` returns the middle of the text with no whitespace at either end, having removed only whitespace |
| Text.TrimEmpty | js/search.js:223-232 | a query trims to empty exactly when it is all whitespace |
| Text.TrimIdempotent | js/search.js:286-292 | trimming twice is trimming once |
| Tokens.FindToken | js/firebase-config.js:225-240 | the regex search finds the leftmost start of a token and at that start the longest token; none means no token starts anywhere |
| Tokens.FirstToken | js/firebase-config.js:225 | `match` without the `g` flag returns a token occurring in the text, or null when there is none |
| Tokens.AllTokens | js/firebase-config.js:260 | `match` with the `g` flag returns tokens that occur in the text |
| Tokens.TokenSpansAreScan | js/firebase-config.js:260 | the positions the `g` scan visits are each the longest token at its start, strictly in order and without overlap, with no token starting before the first, between two, or after the last |
| Tokens.AllTokensAreScan | js/firebase-config.js:260 | the tokens `match` returns are exactly the texts at the scan's positions, one per position, in order |
| Tokens.TwoStations | js/firebase-config.js:260 | `"강남역 역삼역"` yields both station names, in order |
| PublishDates.FindDateMatch | js/firebase-config.js:427 | `(\d{2,4})\.(\d{2})` matches at the leftmost position where a 2–4 digit year, a dot and two digits start |
| PublishDates.DateMatchUnique | js/firebase-config.js:427 | at one position at most one year length matches |
| PublishDates.ParsePublishDate | js/firebase-config.js:424-439 | a text with no match gives the epoch; any result is at least year 100 |
| PublishDates.ParseLeftmost | js/firebase-config.js:427-438 | with the leftmost match, the result is its year (two digits read as 20xx) and its month |
| PublishDates.TwoDigitYear | js/firebase-config.js:433-435 | a two-digit year `yy.mm` parses to the same month as `20yy.mm` |
| PublishDates.SampleDates | js/firebase-config.js:420-439 | `"26.01"` and `"2026.01"` are both January 2026, and `""` is the epoch |
| PublishDates.YearMonthRoundTrip | js/firebase-config.js:438-458 | `getFullYear` and `getMonth() + 1` recover the year and month a date was built from |
| PublishDates.MonthIndexOrder | js/firebase-config.js:450-452 | dates compare as (year, month) pairs |
| PublishDates.LastUpdateText | js/firebase-config.js:457-461 | the text is "정보 없음" exactly when there is no latest date |
| Query.SearchVacancies | js/firebase-config.js:131-182 | every record returned is from the data and matches; every matching record is returned |
| Query.MatchesIsConjunction | js/firebase-config.js:144-178 | the early-return filter accepts exactly when every truthy criterion holds: building name, address, station, area range, source |
| Query.SearchMember | js/firebase-config.js:131-182 | a record is in the search result iff it is in the data and meets every criterion |
| Query.SearchAppend | js/firebase-config.js:144-178 | the search keeps the data's order |
| Query.WalkingTimeIgnored | js/firebase-config.js:132-140 | the walking-time option is destructured but never filters |
| Query.EmptyOptionsMatchAll | js/firebase-config.js:131-182 | with no options every record is returned |
| Query.CaseInsensitive | js/firebase-config.js:147-173 | the text criteria do not depend on the case of the search term |
| Query.LowerIdempotent | js/firebase-config.js:147-173 | lowering twice is lowering once |
| Suggestions.GetBuildingNameSuggestions | js/firebase-config.js:187-208 | the loop over the data computes `BuildingNameSuggestions` |
| Suggestions.BuildingSuggestionsShape | js/firebase-config.js:187-208 | an empty query gives nothing; at most 10 suggestions, distinct names, each from a record whose name contains the query |
| Suggestions.BuildingSuggestionIsFirst | js/firebase-config.js:196-204 | each suggestion carries the address and id of the first matching record with that name |
| Suggestions.BuildingSuggestionsComplete | js/firebase-config.js:196-207 | with fewer than 10 suggestions, every matching name is suggested |
| Suggestions.AddressCandidate | js/firebase-config.js:221-241 | a district candidate is a 구/동/로·길 token of the address whose lowered text contains the lowered query |
| Suggestions.VisitAddress | js/firebase-config.js:220-242 | visiting one record adds its candidates to the set in gu, dong, road order; an empty address adds nothing |
| Suggestions.GetDistrictSuggestions | js/firebase-config.js:213-245 | the loop computes `DistrictSuggestions` |
| Suggestions.DistrictSuggestionsShape | js/firebase-config.js:213-245 | an empty query gives nothing; at most 10, sorted, distinct, each containing the query and taken from some record's address |
| Suggestions.CandidateSource | js/firebase-config.js:221-241 | every collected district is a candidate of some record |
| Suggestions.DistrictSortedBeforeTruncation | js/firebase-config.js:244 | when a candidate is cut off, the list is full and every kept entry sorts no later than it |
| Suggestions.GetStationSuggestions | js/firebase-config.js:250-268 | the loop computes `StationSuggestions` |
| Suggestions.StationSuggestionsShape | js/firebase-config.js:250-268 | an empty query gives nothing; at most 10, distinct, each a station token of a record whose station text contains the query |
| Suggestions.StationSource | js/firebase-config.js:258-264 | every collected station comes from a record whose whole station text matched |
| Suggestions.StationCandidatesComplete | js/firebase-config.js:257-264 | every station token of every record whose station text contains the query is collected |
| Suggestions.StationSuggestionsComplete | js/firebase-config.js:250-268 | a station token of a matching record is missing from the suggestions only when ten were already found |
| Suggestions.StationCandidatesSingle | js/firebase-config.js:258-264 | one record contributes all of its station tokens when its text matches, else none |
| Suggestions.StationSuggestionWithoutQuery | js/firebase-config.js:258-264 | querying "강남" on "강남역 역삼역" also suggests "역삼역", which does not contain the query |
| Suggestions.GetSourceList | js/firebase-config.js:273-284 | the loop computes `SourceList` |
| Suggestions.SourcesMember | js/firebase-config.js:277-281 | a name is collected iff it is non-empty and some record has it as its source |
| Suggestions.SourceListShape | js/firebase-config.js:273-284 | the list is sorted, distinct, and holds exactly the non-empty sources of the data |
| Grouping.GetDocumentPages | js/firebase-config.js:289-310 | the method computes `DocumentPages` |
| Grouping.DocumentPagesShape | js/firebase-config.js:289-310 | an empty id gives nothing; each page is a record of the document with an image, in strictly increasing page order |
| Grouping.DocumentPagesComplete | js/firebase-config.js:294-306 | every page number of the document's records with an image appears |
| Grouping.DocumentPageIsEarliest | js/firebase-config.js:294-306 | for each page number the record kept is the first one after the stable sort |
| Grouping.GetArchivesBySourceAndBuilding | js/firebase-config.js:318-348 | the method computes `Archives` |
| Grouping.ArchivesShape | js/firebase-config.js:318-348 | an empty source or building gives nothing; each issue is a record of that publisher and building with an image, one per date-and-document key, newest first |
| Grouping.ArchivesFirstAndComplete | js/firebase-config.js:331-338 | each issue kept is the first record with its key |
| Grouping.ArchivesComplete | js/firebase-config.js:331-346 | every key of the publisher's records for the building appears |
| Grouping.NewestPerSourceShape | js/firebase-config.js:366-388 | one record per publisher, every publisher covered, newest first |
| Grouping.NewestPerSourceIsLatest | js/firebase-config.js:366-382 | no record of a publisher is newer than the one kept |
| Grouping.GetOtherSourcesForBuilding | js/firebase-config.js:356-392 | the method computes `OtherSources` |
| Grouping.OtherSourcesShape | js/firebase-config.js:356-392 | an empty building gives nothing; one record per publisher other than the excluded one, with an image, newest first, each no older than any record of its publisher |
| Grouping.AllForBuildingShape | js/firebase-config.js:399-417 | an empty building gives nothing; otherwise exactly the building's records with an image, newest first, ties in data order |
| Grouping.GetLastUpdateTime | js/firebase-config.js:444-462 | the text is "YYYY년 M월" of the latest date among dated records, or "정보 없음" |
| Grouping.LatestDateIsMax | js/firebase-config.js:444-456 | there is no latest date iff no record is dated; otherwise it is a dated record's date and no dated record is later |
| PageUrls.FindPageSpec | js/search.js:828 | `page_(\d+)\.jpg` finds no match iff none exists; a match is the leftmost and its digits are the whole digit run |
| PageUrls.PageString | js/search.js:836 | the new page text is at least three digits and reads back as the number |
| PageUrls.AdjacentPageUrlNone | js/search.js:827-838 | there is no adjacent URL iff the URL has no page pattern or the new page would be below 1 |
| PageUrls.AdjacentPageUrlSpec | js/search.js:827-838 | otherwise only the first pattern's digits change, to the padded new page, and the rest of the URL is kept |
| PageUrls.AdjacentPageNumber | js/search.js:827-838 | the adjacent URL's page number is the old one plus the offset |
| PageUrls.AdjacentRoundTrip | js/search.js:827-838 | for a three-digit page, the next URL's previous URL is the original, and from page 2 on the previous URL's next URL is too |
| PageUrls.StepBack | js/search.js:827-838 | for a three-digit page text, a step to a page of at least 1 and the step back return the original URL |
| PageUrls.ProbePageNumber | js/search.js:741-748 | the k-th probe's page number is the start page plus k steps |
| PageUrls.FirstHitOrNoHit | js/search.js:741-755 | a walk either has exactly one first hit or none |
| PageUrls.NoAdjacentNoHit | js/search.js:741-755 | without an adjacent page nothing is found |
| PageUrls.FindNextValidPage | js/search.js:736-755 | the result is the first probe within 20 whose image exists, with its page offset, or null when no probe finds one |
| SourceColors.ToInt32 | js/search.js:62 | `hash & hash` keeps the value in the 32-bit signed range and congruent modulo 2^32 |
| SourceColors.HashFoldIsWrappedPoly | js/search.js:57-65 | the wrapped loop equals the 32-bit wrap of the polynomial hash `Σ 31^k·c` |
| SourceColors.HashOf | js/search.js:64 | `Math.abs` of the hash is at most 2^31 |
| SourceColors.SourceColorOf | js/search.js:68-85 | an empty source gets the first palette colour; otherwise the colour at hash mod 20 |
| SourceColors.BmpUnits | js/search.js:60 | for text without astral characters the UTF-16 code units are the characters |
| ResultsTable.TotalPages | js/search.js:467 | `ceil(n / size)`: enough pages for every row, no empty last page, none only for no rows |
| ResultsTable.PageItems | js/search.js:373-375 | the page's rows are the consecutive rows from `(page - 1) * size`, empty past the end |
| ResultsTable.PageOfRow | js/search.js:373-375 | every row appears on page `j / size + 1` of the table |
| ResultsTable.PageSizes | js/search.js:373-375 | a page has rows iff it is within the page count; every page before the last is full |
| ResultsTable.FirstPageIsPrefix | js/search.js:373-375 | the first page is the first `size` rows |
| ResultsTable.PageWindowSpec | js/search.js:481-482 | the numbered links are exactly the existing pages within two of the current one: at most five, the current page among them when it exists |
| ResultsTable.ClickPage | js/search.js:503-505 | a click moves to the page exactly when it is within 1..total, else the page stays |
| ResultsTable.PrevNextLinks | js/search.js:466-511 | the previous and next links change the page exactly when they are not drawn disabled |
| ResultsTable.WindowLinksFollowed | js/search.js:481-505 | every numbered link in the window is followed |
| ResultsTable.Toggle | js/search.js:430-441 | checking stores the result row with that id under the id, unchecking removes the id; no other entry changes and entries stay keyed by their own id |
| ResultsTable.Unselect | js/search.js:535-540 | removing drops that id and nothing else |
| ResultsTable.ToggleUndo | js/search.js:430-441 | checking and then unchecking a row is the same as removing it |
| ResultsTable.BuildSearchOptions | js/search.js:281-297 | each search type sets exactly its own fields (the complex type sets all), never the source |
| ResultsTable.ComplexCollectsAll | js/search.js:283-297 | the complex type collects every form field |
| ResultsTable.GuardStopsOnlyVacuous | js/search.js:298-302 | the "enter a condition" guard only stops searches that would return every record |
| ResultsTable.BuildingGuard | js/search.js:284-302 | a building search proceeds iff the trimmed name is non-empty |
| ResultsTable.DistrictGuard | js/search.js:284-302 | a district search proceeds iff the trimmed district is non-empty |
| ResultsTable.WalkingTimeAlone | js/search.js:290-302 | a station search with only a walking time passes the guard and returns every record |
| ResultsTable.PrevIndex | js/search.js:850-855 | a previous index exists iff the index is positive, and it is one less |
| ResultsTable.NextIndex | js/search.js:857-862 | a next index exists iff the index is before the last, and it is one more |
| SearchApp.SourceNavigation | js/search.js:666-705 | with at most one publisher nothing is shown; otherwise the badge reads `index + 1 / total`, each button is disabled at its end, and an enabled button names the neighbouring publisher |
| SearchApp.NavigationMatchesMoves | js/search.js:666-705 | on a valid cursor a button is disabled exactly when its move does nothing |
| SearchApp.DisplayPage | js/search.js:552 | `pageNum \|\| 1` is never 0 and keeps a non-zero page |
| SearchApp.WithArchive | js/search.js:628-635 | the copy takes the issue's image, date, document and page and keeps every other field |
| SearchApp.SameBuildingShape | js/search.js:562-598 | the publisher list has one record per publisher, newest first, each a result of the same building with an image |
| SearchApp.SameBuildingFindsOwnSource | js/search.js:592-595 | a viewed result with an image always finds its own publisher |
| SearchApp.PageSteppedUnique | js/search.js:759-825 | a page step has exactly one outcome |
| SearchApp.PageSteppedTracksFile | js/search.js:759-825 | a page step keeps the counter equal to the page number in the file name |
| SearchApp.LeasingSearchApp.constructor | js/search.js:5-54 | the initial state: no results or selection, page 1 of 20 rows, no viewer, an empty colour memo |
| SearchApp.LeasingSearchApp.HashString | js/search.js:57-65 | the loop over the code units computes `HashOf` |
| SearchApp.LeasingSearchApp.GetSourceColor | js/search.js:68-85 | the colour is `SourceColorOf(source)`, a palette entry; a non-empty name is memoised and the memo stays consistent |
| SearchApp.LeasingSearchApp.PerformSearch | js/search.js:281-317 | without a condition nothing changes; otherwise the results are the search and the page is 1 |
| SearchApp.LeasingSearchApp.LoadAll | js/search.js:319-331 | the results become the whole merged list, from page 1 |
| SearchApp.LeasingSearchApp.ResetSearch | js/search.js:333-344 | the results are emptied and the page is 1 |
| SearchApp.LeasingSearchApp.ChangePageSize | js/search.js:124-128 | the new size is kept and the page is 1 |
| SearchApp.LeasingSearchApp.ClickPageLink | js/search.js:503-505 | the page changes as `ClickPage` says |
| SearchApp.LeasingSearchApp.ToggleItem | js/search.js:430-441 | the selection changes as `Toggle` says |
| SearchApp.LeasingSearchApp.RemoveSelected | js/search.js:535-540 | the selection changes as `Unselect` says |
| SearchApp.LeasingSearchApp.ShowImageViewer | js/search.js:544-559 | the record is viewed at its page, the publisher list and cursor and the archive are computed, and the viewer draws them |
| SearchApp.LeasingSearchApp.FindSameBuildingOtherSources | js/search.js:562-598 | the publisher list is `SameBuilding` and the cursor is the viewed publisher's index or -1 |
| SearchApp.LeasingSearchApp.LoadArchives | js/search.js:600-603 | the archive is the publisher's issues for the building |
| SearchApp.LeasingSearchApp.UpdateImageViewer | js/search.js:642-664 | with a viewed record the display is redrawn for it; without one nothing changes |
| SearchApp.LeasingSearchApp.UpdateOtherSourcesNavigation | js/search.js:666-705 | only the publisher navigation is redrawn |
| SearchApp.LeasingSearchApp.UpdatePageInfo | js/search.js:840-846 | only the page counter is redrawn, and only with a viewed record |
| SearchApp.LeasingSearchApp.OnArchiveSelect | js/search.js:625-640 | an index on the list views the issue in place of the record and redraws; any other index changes nothing |
| SearchApp.LeasingSearchApp.SwitchToSource | js/search.js:864-875 | the given record is viewed at its page with its archive, and redrawn |
| SearchApp.LeasingSearchApp.ShowPrevOtherSource | js/search.js:850-855 | at the first publisher nothing changes; otherwise the previous publisher's record is viewed at its own page (`pageNum || 1`) with its archive list |
| SearchApp.LeasingSearchApp.ShowNextOtherSource | js/search.js:857-862 | at the last publisher nothing changes; otherwise the next publisher's record is viewed at its own page (`pageNum || 1`) with its archive list |
| SearchApp.LeasingSearchApp.StepPage | js/search.js:759-825 | while busy nothing changes; otherwise the image and counter move to the first probe that exists, or stay when there is none, and nothing else on display changes |
| SearchApp.LeasingSearchApp.ShowPrevPage | js/search.js:759-791 | `StepPage` with direction -1: ignored while busy; otherwise the image and counter move to the first existing earlier page (`PageStepped`), the display is unchanged when there is none, and a move replaces only the image and the page counter (`PageInfo` of the viewed publisher and the new page) |
| SearchApp.LeasingSearchApp.ShowNextPage | js/search.js:793-825 | `StepPage` with direction 1: ignored while busy; otherwise the image and counter move to the first existing later page (`PageStepped`), the display is unchanged when there is none, and a move replaces only the image and the page counter (`PageInfo` of the viewed publisher and the new page) |
| LegacySearchApp.Counter | js/222search.js:541-546 | the counter shows `index + 1 / total` exactly when there are images and a cursor |
| LegacySearchApp.ButtonsMatchMoves | js/222search.js:552-577 | each button is disabled exactly when its handler does nothing, and a move stays in the list |
| LegacySearchApp.ViewableExactly | js/222search.js:522-523 | the viewable list is exactly the results with an image |
| LegacySearchApp.OpenedRowIsFound | js/222search.js:405-418 | the view button of a result with an image puts the cursor on a record with that id |
| LegacySearchApp.LeasingSearchApp.constructor | js/222search.js:4-15 | the initial state: no results or selection, page 1 of 20 rows, cursor -1 |
| LegacySearchApp.LeasingSearchApp.PerformSearch | js/222search.js:243-285 | without a condition nothing changes; otherwise the results are the search and the page is 1 |
| LegacySearchApp.LeasingSearchApp.LoadAll | js/222search.js:287-299 | the results become the whole merged list, from page 1 |
| LegacySearchApp.LeasingSearchApp.ResetSearch | js/222search.js:301-316 | the results are emptied and the page is 1 |
| LegacySearchApp.LeasingSearchApp.ChangePageSize | js/222search.js:62-66 | the new size is kept and the page is 1 |
| LegacySearchApp.LeasingSearchApp.ClickPageLink | js/222search.js:477-482 | the page changes as `ClickPage` says |
| LegacySearchApp.LeasingSearchApp.ToggleItem | js/222search.js:389-402 | the selection changes as `Toggle` says |
| LegacySearchApp.LeasingSearchApp.RemoveSelected | js/222search.js:509-516 | the selection changes as `Unselect` says |
| LegacySearchApp.LeasingSearchApp.ShowImageViewer | js/222search.js:518-531 | the viewable list is taken from the results, the cursor goes to the id's first row (kept without an id), and the viewer draws |
| LegacySearchApp.LeasingSearchApp.UpdateImageViewer | js/222search.js:533-557 | the viewer shows the image, caption, download link, counter and button states for the cursor |
| LegacySearchApp.LeasingSearchApp.ShowPrevImage | js/222search.js:559-567 | at the first image nothing changes; otherwise the cursor moves back one and the previous record is drawn |
| LegacySearchApp.LeasingSearchApp.ShowNextImage | js/222search.js:569-577 | at the last image nothing changes; otherwise the cursor moves on one and the next record is drawn |

## Left out

- Firebase initialisation and the `database.ref(...).once('value')` reads are not modelled; their snapshots are arguments.
- `async`/`await`, `Promise.all` and `setTimeout` are not modelled: every operation runs to completion, so two loads or page steps never interleave.
- `Cache.FirebaseService.LoadMergedData` runs the two loads one after the other with the same `now` and `fetchedAt`, where the source runs them concurrently.
- `SearchApp.LeasingSearchApp.StepPage`: the busy flag `isSearchingPage` is modelled as a guard only; a step runs to completion and always clears it, so the busy branch is reachable only from a state where it was already set.
- The DOM is not modelled: HTML rendering of the table, the selected list, the suggestions list and the archive `<select>` (`updateArchiveSelect`, including which option is marked selected), `escapeHtml`, `formatPrice`, the loading overlay and error alerts.
- The autocomplete's debouncing (`setupAutocompleteField`) is not modelled; the suggestion functions are modelled on the query they receive.
- The form's numbers are given already parsed: `parseInt`/`parseFloat` of the inputs are not modelled.
- `js/map.js` and the map buttons (`showSingleMarkerMap`, `showSelectedOnMap`) are not part of this model.
- `Text.Lower` lowers only ASCII `A`–`Z`; JavaScript's full Unicode `toLowerCase` is not modelled (Hangul has no case).
- `Collections.LexLe` compares code points, where JavaScript's default `sort()` compares UTF-16 code units; the two orders differ only for text with characters beyond U+FFFF.
- `PublishDates.ParsePublishDate` returns a month index instead of a `Date`: only month, year and order are kept, and JavaScript's treatment of years 0–99 in `new Date(year, …)` is not needed because the code maps them to 2000–2099 first.
- `PublishDates.Epoch`: `new Date(0)` is midnight UTC, while the dates the code builds with `new Date(year, month, 1)` are local midnight; the model places the epoch at month index 1970-01 and so ties it with a date of January 1970 (or "1969.13"). In JavaScript the two compare by time zone: east of UTC (Korean time, for one) January 1970 is older than the epoch, so `getOtherSourcesForBuilding`, `findSameBuildingOtherSources` and the `dateB - dateA` sorts prefer an undated record over one dated January 1970, where the model keeps the first of the two; west of UTC the epoch is older than January 1970, and `getLastUpdateTime` shows December 1969 for a dataset whose dates are all unreadable, where the model shows January 1970. Only data dated January 1970 or unreadable is affected.
- The order in which `selectedItems` (a JavaScript `Map`) lists its entries is not modelled: the selection is a Dafny `map`.
- `LegacySearchApp.LeasingSearchApp.ShowPrevImage`: when `showImageViewer` is called without an id after the results shrank, the cursor can point past the end and the source throws on `undefined` after moving it; the exception is not modelled, only the state it leaves (cursor moved, viewer unchanged).
- The image oracle `imageExists` is a pure function: an image that loads on one probe loads on every probe.
- `Grouping.AllForBuilding` is modelled as a function only; the source calls it nowhere in the two controllers.
- `Grouping.DocumentPages` sorts by `pageNum` rather than `pageNum || 0`; the two agree on merged records, whose page number is never 0 (`Merge.ListingDefaults`).
- Console logging is not modelled.
