# Script crawler: crawl engine and `scripts` table

This project models the core of a small crawler that finds the external
scripts a website uses. Starting from one URL, `crawlPage` renders the page,
records one `(page_url, script_url)` row in the `scripts` table for each
`script[src]` on it, and then follows, depth first, the page's links that
start with the page's origin. It enters pages at depths 0, 1 and 2 only, and
never enters a URL twice in one session, because every recursive call shares
one visited set.
The table is read back in two ways. The grouped listing has one row per
script URL, ordered by script URL, and aggregates that URL's ids and page
URLs. The per-page listing gives the scripts recorded for one page. A delete
empties the table.

Files:

- `StringOrder.dfy`: the order `ORDER BY script_url` sorts by. This is the
  binary collation, which is the code-point order on strings. Proved
  irreflexive, transitive and total.
- `Store.dfy`: the `scripts` table as a class (`ScriptTable`) holding its rows
  in insertion order and the AUTOINCREMENT counter. It has `Insert` and
  `DeleteAll`. Both listings are functions over the rows (`ByPage`,
  `Grouped`), with lemmas about what they return.
- `Crawler.dfy`: the crawl.
  - `Crawl` and `CrawlLinks` define, as functions of the state before the
    call, what `crawlPage` does.
  - `CrawlSession.CrawlPage` is the imperative method: a shared `visited`
    field, a loop inserting rows (`RecordScripts`), and a loop recursing over
    the links. It is proved equal to `Crawl`.
  - Lemmas state what a call and a whole session do.
- `Scenarios.dfy`: small sites crawled end to end. They include the
  same-origin example and the depth chain. Two of them show quirks of the
  code:
  - the prefix filter admits a look-alike host;
  - depth-first order with a shared visited set can leave a page within two
    hops unfetched.

The browser is a finite site map from URL to `Page(scriptSrcs, hrefs)`. A URL
the map lacks is one whose navigation throws. Nothing catches that exception,
so the whole session ends (`aborted`). Note that `visited` already holds that
URL at that point. The origin of a URL is the parameter `originOf`.

The origin is recomputed from each page being visited (crawler.js:39); it is
not fixed by the start URL. `Crawl` filters a page's links with
`originOf(url)` for that page's own `url`.

Every fetched URL is proved to be within two filtered hops of the start URL.
The converse does not hold: `Scenarios.DepthFirstSkipsShortcut` gives a site
where a page two hops away is never fetched. That is why only one direction
is stated.

## Model

| member | source | states |
|---|---|---|
| StringOrder.LessIrreflexive | crawler.js:58 | no script URL sorts before itself |
| StringOrder.LessTransitive | crawler.js:58 | the ORDER BY order on script URLs is transitive |
| StringOrder.LessTotal | crawler.js:58 | of two distinct script URLs exactly one sorts first |
| Store.ScriptTable.constructor | crawler.js:9-11 | a newly created table is empty and its counter starts at 1 |
| Store.ScriptTable.Insert | crawler.js:28-35 | appends exactly one row (page, script) with the next id; the id is larger than every existing id, so ids stay unique and increasing |
| Store.ScriptTable.DeleteAll | crawler.js:90-95 | removes every row without resetting the counter; afterwards the grouped listing and every page listing are empty, so deleting again leaves the table empty too |
| Store.ByPageExact | crawler.js:81 | an entry (id, script_url) is listed for a page exactly when some row of that page carries it |
| Store.ByPageAppend | crawler.js:81 | the page listing keeps insertion order: listing a concatenation is the concatenation of the listings |
| Store.ByPageOfPageRows | crawler.js:27-36 | the rows one page's scripts add list, for that page, exactly its scripts in order, and nothing under any other page |
| Store.MatchingExact | crawler.js:58 | the rows aggregated for a script URL are exactly the rows with that script URL, each as many times as the table holds it |
| Store.InsertKey | crawler.js:58 | inserting a key into a strictly ascending key list keeps it strictly ascending and adds exactly that key |
| Store.Keys | crawler.js:58 | the group keys are strictly ascending and are exactly the script URLs present in the table |
| Store.MatchingScriptUrl | crawler.js:58 | every row aggregated into a group carries that group's script URL |
| Store.GroupedCorrect | crawler.js:58 | the grouped listing has one group per distinct script URL, in ascending order; each group's ids and page URLs come pairwise from exactly the rows with that script URL, as many as there are, and at least one |
| Crawler.SameOrigin | crawler.js:42-48 | a link is followed exactly when it is one of the page's hrefs and its text starts with the origin |
| Crawler.SameOriginAppend | crawler.js:44-46 | the filter keeps discovery order |
| Crawler.CrawlSession.constructor | crawler.js:14 | a session starts with an empty visited set over the given table |
| Crawler.CrawlSession.RecordScripts | crawler.js:27-36 | the table gains one row per script source of the page, in document order, with consecutive ids from the counter, and the counter advances by their number |
| Crawler.CrawlSession.CrawlPage | crawler.js:14-55 | the visited set, the table's rows and counter, and the success flag after the call are those `Crawl` gives from the state before it |
| Crawler.CrawlSkips | crawler.js:15 | a call deeper than 2, or for a visited URL, fetches nothing, inserts nothing and leaves the visited set unchanged |
| Crawler.CrawlRecords | crawler.js:15-36 | a call only extends the state: the fetch log and visited set grow, and the table gains exactly the rows of the newly fetched pages, in fetch order, with consecutive ids |
| Crawler.CrawlLinksRecords | crawler.js:52-54 | the loop over a page's links also only extends the state: the table gains exactly the rows of the pages the loop fetched, in fetch order, with consecutive ids |
| Crawler.ExtendsTransitive | crawler.js:52-54 | two extensions in turn make one: the rows of the second run of fetches follow those of the first, ids continuing |
| Crawler.CrawlLinksAppend | crawler.js:52-54 | crawling a concatenation of links crawls the first part to the end, each link's whole subtree before the next link, and then the second part from the state the first part left |
| Crawler.RowsOfAppend | crawler.js:52-54 | the rows recorded by fetching two runs of pages in turn are those of the first run followed by those of the second, with ids continuing |
| Crawler.CrawlConsistent | crawler.js:15-20 | a call keeps the session invariant: no URL fetched twice, fetched URLs are exactly the visited ones, aborted exactly when some fetched URL failed to render |
| Crawler.CrawlLinksConsistent | crawler.js:52-54 | the loop over links keeps the same invariant with its one shared visited set |
| Crawler.CrawlFailsLast | crawler.js:15-20 | a call from a running session keeps the failing URL, if any, last in the fetch log, with every URL fetched before it rendered |
| Crawler.CrawlLinksFailsLast | crawler.js:52-54 | the loop over links stops at the first failure, so that failure stays the last URL fetched |
| Crawler.CrawlReaches | crawler.js:39-54 | every URL a call at depth d fetches is reached from its URL in at most 2 - d filtered hops, and a call deeper than 2 fetches nothing |
| Crawler.CrawlLinksReach | crawler.js:52-54 | every URL the loop fetches is reached from one of the links in at most 2 - d filtered hops |
| Crawler.RowsOfByPage | crawler.js:27-36 | when no URL is fetched twice, each fetched page's scripts appear under it exactly once and in order, duplicates included; a page not fetched has no rows |
| Crawler.SessionFetchesOnce | crawler.js:14-16 | a session fetches the start URL first, never fetches a URL twice, fetches exactly the URLs it marks visited, and aborts exactly when a fetched URL fails |
| Crawler.SessionEndsAtFailure | crawler.js:14-20 | a session aborts exactly when the last URL it fetched failed, and every URL fetched before the last one rendered |
| Crawler.SessionStaysInReach | crawler.js:14-55 | every URL a session fetches is the start URL or is reached from it in at most 2 hops over links passing the origin filter |
| Crawler.SessionRecordsScripts | crawler.js:22-36 | a session keeps the rows already in the table and adds, for each page fetched, one row per script source in order, and nothing for other pages |
| Scenarios.SameOriginOnly | crawler.js:14-55 | start page with one script and links to a same-origin page and a foreign page: both scripts are recorded under their pages, ids 1 and 2, and the foreign page is never fetched |
| Scenarios.ChainStopsAtDepthTwo | crawler.js:15 | in a chain p0 -> p1 -> p2 -> p3, p3 is never fetched and its script never recorded |
| Scenarios.PrefixAdmitsLookalikeHost | crawler.js:46 | the prefix test lets `https://a.test.evil.com/x` through as a link of origin `https://a.test` |
| Scenarios.ShortcutReachable | crawler.js:39-48 | in the shortcut site q3 is two filtered hops from q0 |
| Scenarios.DepthFirstSkipsShortcut | crawler.js:52-54 | in that site q2 is first entered at depth 2 through q1, so q3 is never fetched |

## Left out

- Browser work (crawler.js:18-25, 42-50): launch, navigation with `networkidle2`, DOM queries and close. These are replaced by the site map. A missing entry stands for a navigation that throws. Failures of `page.evaluate` or `browser.close` are not modelled.
- `a.href` resolution to an absolute URL (crawler.js:45): the site map holds hrefs already resolved.
- `new URL(url).origin` (crawler.js:39) is the parameter `originOf`. URL parsing is library behaviour, and so is its `TypeError` on a malformed URL.
- The SQLite connection and schema creation (crawler.js:5-13) are reduced to the `ScriptTable` constructor.
- The insert callback and its `lastID` logging (crawler.js:31-34), and store errors, are not modelled: every insert succeeds.
- `db.run` is fire-and-forget, so its completion is not synchronised with the traversal. The model applies inserts at once, in emission order. When a session aborts, it therefore keeps every row emitted before the failure.
- `GROUP_CONCAT` joins its values into a comma-separated string. The model gives the sequences instead, in insertion order; SQLite does not fix that order.
- The per-page query has no `ORDER BY`. The model returns rows in insertion (rowid) order.
- Console output (`printScripts`, `printScriptsFromUrl` presentation, crawler.js:61-88), `saveToFile` (crawler.js:97-118) and the command-line dispatch (crawler.js:120-136) are presentation and I/O.
- Async scheduling is not modelled, because the traversal awaits each call in turn and so is sequential. Exceptions are modelled only as the session's `aborted` flag.
- URL identity is exact string equality, as in the code's `Set`. No normalisation of fragments, trailing slashes or case.
