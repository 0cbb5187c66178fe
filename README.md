# Sitemap backfill, modelled in Dafny

The system collects, for one website, the sitemaps and page URLs whose `<lastmod>` dates fall
inside a date window. It starts at a sitemap index URL and reads the `<sitemap>` entries
(`script.py`). Each entry on the index's own host with an in-window date is recorded. The walk
then fetches that entry's document and, if it is an index too, walks it the same way.
Afterwards every recorded sitemap is fetched again and its undated or in-window `<url>`
locations are kept. A Flask endpoint (`server.py`) validates the request, runs this walk, and maps the
exception classes it raises to HTTP status codes.

The model has one module per concern:

- `Common`: `Option`, `Result`, `Outcome`.
- `Text`: prefix up to a stop character; decimal digits and their values.
- `Dates`: calendar dates, their order, and the `YYYY-MM-DD` parser with its inverse.
- `Urls`: the host part of a URL.
- `Dicts`: Python's insertion-ordered `dict`, with item assignment and `update`.
- `Documents`: what a fetch returns, parsed documents, and the exceptions.
- `Lastmod`: `parse_lastmod_date`.
- `IndexWalk`: `extract_sitemap_links` and `add_nested_sitemaps`.
  - The mutable `sitemap_links` dictionary is a class, `LinkTable`.
  - Each method is proved equal to a specification function: `ExtractLinks`, `ScanIndex`, `AddNested`.
- `Urlset`: `parse_sitemap`, a loop proved equal to `ParseSitemapResult`.
- `Backfill`: `main`, a loop proved equal to `MainResult`.
- `Server`: the endpoint, as a pure function from a request to a reply.

The network is a parameter. `Web` gives each URL a fixed response for the duration of one run:

- a failure (what `fetch_xml` turns into a RuntimeError);
- empty text;
- text that is not well-formed XML;
- a parsed document.

A parsed document is given as its `<sitemap>` entries and its `<url>` entries, in document
order. Each entry is its first `<loc>` and its first `<lastmod>` child. A child's text is
absent when the element is empty, as ElementTree reports it.

The recursion of `add_nested_sitemaps` carries an explicit `depth`. At depth 0 the model raises
`RecursionLimit`. That error is a RuntimeError, as Python's RecursionError is, so the handler
in `add_nested_sitemaps` absorbs it like a failed fetch.

Behaviour of the code that the model keeps as written, though a reader may expect otherwise:

- No record of visited sitemaps is kept. An index that lists itself is fetched again at every
  level (`IndexWalk.SelfListingIndexRefetched`).
- An index entry without `<lastmod>` is skipped, not accepted (`IndexWalk.UndatedEntrySkipped`).
- An accepted entry is written before its document is fetched. A nested sitemap whose fetch
  fails therefore stays in the result (`IndexWalk.RecordedDespiteFailedFetch`). `main` then
  fetches it again with no handler around the call, so the whole run raises
  (`Backfill.UnreachableRecordedSitemapFailsRun`).
- An empty `<lastmod/>` makes `.split` raise AttributeError. Nothing in `script.py` catches it,
  so the endpoint answers 500 "Unexpected error: ...".
- An empty `<loc/>` inside a `<url>` entry contributes `None` to that sitemap's list.

## Model

| member | source | states |
|---|---|---|
| Dates.ParseIsoDate | script.py:47 | a date is returned only when it is a valid calendar date with year 1..9999 |
| Dates.ParseFormat | script.py:47 | every valid date is read back from its `YYYY-MM-DD` text |
| Dates.FormatParse | server.py:20-21 | a string the parser accepts is exactly the `YYYY-MM-DD` text of the date it yields |
| Dates.OutsideWindow | script.py:91 | `d < start or d > end` holds exactly when `d` is outside the inclusive window |
| Dates.LessEqTotalOrder | script.py:48 | the date order is reflexive, antisymmetric, transitive and total |
| Text.UpTo | script.py:47 | the result is the longest prefix before the first stop character, as `split("T")[0]` gives |
| Text.DecimalRoundTrip | script.py:47 | zero-padded decimal text reads back as the number |
| Text.DigitsRoundTrip | script.py:47 | a run of digits is the padded text of its own value |
| Urls.Netloc | script.py:28 | the host never contains `/`, `?` or `#` |
| Urls.NetlocOfAbsoluteUrl | script.py:28 | the host of `scheme://host/path` is `host` |
| Dicts.Dict.Put | script.py:35 | assignment keeps keys distinct, sets the value, and appends the key only when it is new |
| Dicts.UpdateFacts | script.py:60 | `update` keeps the dict's keys in their order and appends the other dict's new keys in that dict's order; the other dict's values win and the rest are kept |
| Documents.FetchXml | script.py:6-13 | a fetch succeeds exactly when the web answers, and otherwise raises a RuntimeError naming the URL |
| Lastmod.ParseLastmodDate | script.py:43-52 | returns a date iff the element is present and its text before `T` parses to a date in the inclusive window; that date is the parsed one; raises only for an empty element |
| Lastmod.TimeOfDayDiscarded | script.py:47 | a `YYYY-MM-DDT...` timestamp yields its date |
| Lastmod.DateOnlyText | script.py:47 | a text without `T` is read whole, so a bare `YYYY-MM-DD` is the date it names, and any date read is a valid one |
| IndexWalk.LinkTable.constructor | script.py:23 | a new table is empty |
| IndexWalk.LinkTable.Put | script.py:35 | the table becomes the old table with the entry assigned |
| IndexWalk.LinkTable.Update | script.py:60 | the table becomes the old table updated with the other dict, in that dict's key order |
| IndexWalk.ExtractSitemapLinks | script.py:15-40 | the loop's result equals `ExtractLinks`, which does not take the content filter; when it raises nothing, the URLs it fetched, in order, are `FetchTrace` |
| IndexWalk.AddNestedSitemaps | script.py:55-62 | on a RuntimeError or empty text the table is unchanged; on success it is updated with the nested result; any other error escapes with the table unchanged; when it raises nothing it fetched `loc` (unless the depth is exhausted) and then the nested walk's URLs (`NestedTrace`) |
| IndexWalk.ExtractLinksFacts | script.py:15-40 | the walk raises only ValueError or the AttributeError of an empty `<lastmod>`; on success its keys are exactly the sitemaps accepted at every level, each once, on the domain and dated in the window, and each value is the `<lastmod>` date of an accepted entry whose `<loc>` is that key |
| IndexWalk.ScanIndexFacts | script.py:25-38 | the index loop adds exactly the accepted entries and everything reached below them to the keys it started with, keeping every recorded date in scope |
| IndexWalk.ScanIndexDated | script.py:25-38 | every date the index loop leaves in the dict was already there or is the `<lastmod>` date of an entry it or a nested walk accepted for that `<loc>` |
| IndexWalk.ExtractLinksDated | script.py:23-40 | each value of the dict a walk returns is the date of an accepted entry for that key, at some level of the walk |
| IndexWalk.AddNestedFacts | script.py:55-62 | a nested walk only adds keys reached from the nested document, and fails only on ValueError or AttributeError |
| IndexWalk.ReachedIsLocsOfDated | script.py:25-38 | the two accounts of the walk agree: the sitemaps reached are exactly the URLs of the reached `(loc, date)` pairs |
| IndexWalk.AddNestedDated | script.py:55-62 | a nested walk only adds dates of entries accepted in the nested document, at some level |
| IndexWalk.UndatedEntrySkipped | script.py:31-33 | an index entry without `<lastmod>` is neither recorded nor fetched |
| IndexWalk.RecordedDespiteFailedFetch | script.py:35-38 | an accepted entry whose document cannot be fetched stays recorded, and the loop goes on with its siblings |
| IndexWalk.NestedInvalidXmlEscapes | script.py:17-20 | a nested document that is not XML ends the whole walk with ValueError |
| IndexWalk.SelfListingIndexRefetched | script.py:55-60 | an index listing itself is fetched once per level until the depth runs out: `FetchTrace`, the fetch log of `ExtractSitemapLinks`, is that URL `depth` times |
| IndexWalk.SelfListingIndexWalk | script.py:55-62 | that walk still completes, with the one sitemap recorded |
| Urlset.ParseSitemap | script.py:65-98 | the loop's result equals `ParseSitemapResult` |
| Urlset.KeepUrlsMeaning | script.py:80-96 | an entry with an empty `<lastmod>` and a `<loc>` makes the loop raise; otherwise it appends the filtered entries' locations |
| Urlset.Filtered | script.py:80-96 | the kept list is never longer than the entries |
| Urlset.FilteredIsOrderedSubsequence | script.py:80-96 | the kept locations are those of exactly the passing entries, in document order |
| Urlset.ParseSitemapFacts | script.py:65-98 | a failed fetch raises RuntimeError; empty text gives `([], 0)`; bad XML raises `UnparseableSitemap(url)`, a ValueError naming the URL; otherwise the count is the number of `<url>` elements and the list is the filtered one, never longer |
| Backfill.RunMain | script.py:100-115 | the loop's result equals `MainResult`, which does not take the content filter |
| Backfill.CollectUrlsFacts | script.py:111-113 | bundles the four facts below about the loop of `main` |
| Backfill.CollectUrlsCompletes | script.py:111-113 | the loop completes iff `parse_sitemap` succeeds for every key |
| Backfill.CollectUrlsContents | script.py:111-113 | each key maps to the list `parse_sitemap` returns for it, and other entries are kept |
| Backfill.CollectUrlsOrder | script.py:111-113 | the new keys are appended in the order of the sitemaps dict |
| Backfill.CollectUrlsFirstError | script.py:111-113 | a failure is the error of the first sitemap whose parse fails |
| Backfill.MainFacts | script.py:100-115 | on success both dicts have the same keys in the same order, the sitemaps are those the walk reaches, in scope, each with the `<lastmod>` date of an entry naming it, and each list is what `parse_sitemap` keeps |
| Backfill.MainErrors | script.py:102-108 | an unreachable index raises its fetch error, an empty one raises RuntimeError, a non-XML one raises ValueError, and the recursion limit never escapes |
| Backfill.UnreachableRecordedSitemapFailsRun | script.py:111-112 | a recorded sitemap whose fetch fails makes the whole run raise |
| Server.ErrorReply | server.py:30-35 | RuntimeError gives 500 with the message, ValueError 422 with the message, anything else 500 "Unexpected error: ..." |
| Server.Served | server.py:28-29 | a successful run gives 200 with the two dicts unchanged |
| Server.HandleRequest | server.py:8-35 | statuses are 200, 400, 422 or 500; 200 exactly when the body holds the results; a missing or empty URL gives 400 before anything else |
| Server.AcceptedServed | server.py:16-28 | a request with a URL and two `YYYY-MM-DD` dates in order is answered with the run over that window |
| Server.ServedWasAccepted | server.py:16-28 | any reply other than 400 comes from such a request: `main` runs only after every check passes |
| Server.RejectedRequests | server.py:19-25 | an absent start date raises; a bad start date gives 400; then an absent end date raises, a bad one gives 400, and a reversed window gives 400 |
| Server.SingleDayAccepted | server.py:22 | equal start and end dates are accepted |
| Server.SuccessInScope | server.py:28-29 | a 200 reply lists only in-window sitemaps on the index's host, each with the `<lastmod>` date of an index entry naming it, with a URL list for each and nothing else |
| Server.FailureStatus | server.py:30-35 | a failed run answers 422 exactly for malformed XML and 500 exactly for fetch failures, an empty index, or an empty `<lastmod>` |

## Left out

- HTTP: the `requests` call, its 10-second timeout and `raise_for_status` are one fixed response per URL. The web is assumed not to change during a run.
- ElementTree: parsing and the namespace-qualified `findall(".//...")` searches are given as already-parsed entry lists. Only the first `<loc>` and `<lastmod>` child of each entry is kept, as `find` returns.
- Dates.ParseIsoDate: only the exact `YYYY-MM-DD` form is accepted. The model does not capture the other forms `datetime.fromisoformat` accepts (e.g. `YYYYMMDD`, week dates), or the one-digit months and days that `strptime` accepts.
- Urls.Netloc: a simplified `urlsplit`. It does not capture stripping of whitespace and control characters, or the ValueError for a malformed IPv6 host.
- The Python recursion limit is approximated by `depth`, one unit per nested index. The real limit counts interpreter frames.
- Server.HandleRequest: the model does not capture a request body that is not JSON, a JSON body that is not an object (`null`, an array, where `data.get` raises AttributeError before any check), or fields that are JSON values other than strings and null.
- Server.HandleRequest: JSON serialisation of the reply is not modelled. The dates in `"sitemaps"` are written by Flask as HTTP dates. Key order in the JSON output is also not modelled.
- The Flask application object and `app.run` are framework glue.
- The browser extension files (`background.js`, `index.js`, `popup.js`, `static/script.js`) are UI and messaging code and are not part of this model.
- The content filter is accepted and passed along but never read. Its irrelevance is stated by the methods' contracts against functions that do not take it.
