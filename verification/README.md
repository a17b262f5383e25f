# Review scraper: pagination driver, date window and URL slug

A Dafny model of the one piece of logic in the review scraper: the
fetch–parse–filter–stop loop that each of the three site adapters
(`scrape_g2`, `scrape_capterra`, `scrape_trustradius`) runs, together with the
inclusive `within_range` test, the company slug in the listing URLs and the
start/end check of `main`.

The three adapters are copies of one loop (lines 27-66, 70-109 and 113-152 of
`scraper.py`; the second and third are the first shifted by 43 and 86 lines).
They differ only in URL template, CSS selectors, the date text format, the
`source` label and the text of the record's date: G2 and TrustRadius copy the
site's date text (lines 58 and 144), Capterra rewrites the parsed date with
`strftime("%Y-%m-%d")` (line 101). So the model writes the loop once, as `Scraper.Scrape`,
parameterised by a `Source` (`G2 | Capterra | TrustRadius`) that fixes the
label and the URL.

- `wrappers.dfy` — `Option` and `Result`, standing in for exceptions and exits.
- `decimal.dfy` — digit strings: zero-padded fields and `str(n)`, with round trips.
- `dates.dfy` — dates as `(year, month, day)` compared lexicographically;
  `within_range`; day numbers (Python's `toordinal`) as an independent account of
  the order; the ISO `YYYY-MM-DD` text form and its parser.
- `scraper.dfy` — the adapter loop. The server's answers are a finite
  sequence of `Page(status, blocks)`; a block is `Malformed` (a field missing or
  the date text unparseable) or `Entry(title, body, date)`. `ScanBlocks` is the
  inner `for` loop, `Scrape` the whole adapter, `RunAdapter` the loop as written
  (accumulator, `break`, early `return`) proved equal to `Scrape`. A separate
  pipeline (`Reached`, `Flatten`, `Entries`, `UntilBefore`, `InWindow`) defines
  the expected output independently, and `ScrapeMatchesReference` proves the two
  agree.
- `urls.dfy` — `company.lower().replace(' ', '-')` and the page URL templates.
- `cli.dfy` — `--source` choices, the date window check, and the whole run with
  the page responses as a parameter.

## Model

| member | source | states |
|---|---|---|
| Dates.WithinRangeInclusive | scraper.py:22-23 | a date equal to the window start or to the window end is inside the window |
| Dates.WithinRangeByOrdinal | scraper.py:22-23 | for real dates, `within_range` holds exactly when the date's day number lies between the day numbers of start and end, both included |
| Dates.BeforeMatchesOrdinal | scraper.py:51 | lexicographic `<` on (year, month, day) agrees with comparing day numbers in both directions, and equal day numbers mean equal dates |
| Dates.BeforeIsStrictTotalOrder | scraper.py:51 | date `<` is irreflexive, transitive and total, and `<=` is `<` or equality |
| Dates.ParseIso | scraper.py:14-19 | a date argument that parses yields a real calendar date; anything else is refused |
| Dates.FormatIso | scraper.py:101 | the ISO text of a date is ten characters with hyphens at positions 4 and 7 |
| Dates.ParseFormatIso | scraper.py:14-16 | every real date is read back from its ISO text unchanged |
| Dates.FormatParseIso | scraper.py:101 | every accepted date text is exactly the ISO text of the date it yields, so records carry the same text the parser accepts |
| Urls.Slug | scraper.py:32 | the slug keeps the name's length and contains no space and no capital letter |
| Urls.SlugShape | scraper.py:32 | the slug has the name's length, each space becomes a hyphen, every other character is lower-cased, and no space or capital letter remains |
| Urls.SlugIdempotent | scraper.py:32 | slugging a slug changes nothing |
| Urls.PageUrl | scraper.py:32 | a listing URL never contains a space, whatever the company name |
| Urls.PageUrlInjective | scraper.py:29-32 | for one company and site, different page numbers give different URLs, so each page of the walk is a distinct request |
| Scraper.ScanBlocks | scraper.py:44-62 | every record found on a page lies inside the window, has a real date and the adapter's label; a page yields at most one record per block |
| Scraper.Scrape | scraper.py:27-66 | every record returned lies inside the inclusive window, has a real date, and carries the adapter's fixed label ("G2", "Capterra" or "TrustRadius") |
| Scraper.RunAdapter | scraper.py:27-66 | the loop with page counter, accumulator, `break` on a non-200 or empty page and early `return` returns exactly the pages' scrape |
| Scraper.ResumeStep | scraper.py:44-62 | one block is either skipped (malformed or after the window), stops everything (before the window start), or prepends its record |
| Scraper.ScanAppend | scraper.py:44-62 | scanning two runs of blocks in a row: the second run counts only when the first did not hit the early exit |
| Scraper.ScrapeAppend | scraper.py:31-64 | scraping pages p then q: q contributes only when p neither ended pagination nor exited early |
| Scraper.ScrapeExtends | scraper.py:55-60 | records are only ever appended: the result for a prefix of the pages is a prefix of the full result |
| Scraper.StopAtEndingPage | scraper.py:35-42 | a non-200 page or a page with no blocks ends the scrape with exactly the records of the pages before it |
| Scraper.ScanExitsAt | scraper.py:51-52 | a well-formed block dated before the start ends its page with exactly the records accumulated before it on that page, and reports the exit |
| Scraper.ExitBlockExits | scraper.py:51-52 | any scan that reaches a well-formed block dated before the start exits there |
| Scraper.EarlyExitIgnoresRest | scraper.py:51-52 | after a well-formed block dated before the start, the rest of its page and all later pages can be replaced by anything without changing the result |
| Scraper.InertScansEmpty | scraper.py:45-62 | a malformed block, or one dated after the window, yields no record and does not stop the scan |
| Scraper.ScanSkipsInert | scraper.py:45-62 | removing a malformed or after-window block from a page leaves that page's records and exit unchanged |
| Scraper.ScrapeSkipsInert | scraper.py:44-62 | removing a malformed or after-window block leaves the scrape's result unchanged, as long as its page keeps a block |
| Scraper.MalformedPageContinues | scraper.py:41-62 | a successful page whose blocks are all malformed is not an empty page: it adds nothing and scraping moves on |
| Scraper.Reached | scraper.py:35-42 | the pages read are a prefix of the pages supplied, none of which ends pagination, and the page right after that prefix, if any, ends pagination |
| Scraper.Entries | scraper.py:45-49 | the blocks kept for filtering are all well-formed and all taken from the input, every well-formed block is kept, and no more blocks are kept than there were |
| Scraper.EntriesAppend | scraper.py:44-49 | the entries of two runs of blocks are the entries of the first followed by those of the second, so kept blocks stay in document order and none is repeated |
| Scraper.ScanMatchesReference | scraper.py:44-62 | one page's scan exits exactly when some well-formed block predates the start, and finds the in-window records of the well-formed blocks before that one, in order |
| Scraper.ScrapeMatchesReference | scraper.py:27-66 | the result is the in-window well-formed entries of the pages reached, in page order then block order, cut at the first well-formed entry dated before the start; nothing reordered or duplicated |
| Cli.ParseSource | scraper.py:159 | exactly the three texts `g2`, `capterra`, `trustradius` are accepted, each selecting the adapter whose name it is |
| Cli.ParseSourceRoundTrip | scraper.py:159 | each adapter's own choice name selects that adapter |
| Cli.ResolveWindow | scraper.py:166-171 | an accepted window has real dates with start not after end, and its dates are exactly the texts given; a date text that does not parse is refused as a format error, before any comparison |
| Cli.WindowCheck | scraper.py:169-171 | a start later than the end is refused with the start-after-end error; a start equal to the end, or earlier, is accepted |
| Cli.Run | scraper.py:156-178 | a run succeeds exactly when the source and window are valid; an unknown source is refused as such, and with a valid source a refused window is refused for the window's own reason (format or order); the records are then the chosen adapter's scrape of the responses, each carrying that source's label and lying in that window |
| Cli.RefusalPrecedesFetching | scraper.py:164-171 | a refused command line is refused whatever the site would have answered |

## Left out

- HTTP: `requests.get`, the User-Agent header and the missing timeout. The
  responses are a parameter (`pages`, one per listing page in order), and a page
  is only "status 200 or not".
- Exceptions from `requests.get` (lines 33, 76 and 119): a connection error or
  similar is raised outside the per-block `try`. It ends the program with a
  traceback, no file is written and the records gathered so far are lost. The
  model has no such outcome: every response is a `Page`, and `Cli.Run` succeeds
  on every valid command line.
- Endless pagination: the supplied pages are finite, and running out of them is
  treated like a page that ends pagination.
- Markup selection: BeautifulSoup selectors, `.text.strip()` and the
  `["datetime"][:10]` slice. A block arrives already split into title, body and
  date, or as `Malformed` for any exception the `try` would catch.
- Capterra's long-form date text (`%B %d, %Y`): the block carries the parsed
  date. A block whose date is not a real calendar date counts as malformed, as
  `strptime` would raise.
- Record dates: the model stores the parsed `Date`. G2 and TrustRadius write the
  raw date text and Capterra writes `strftime("%Y-%m-%d")`. These agree whenever
  the site's text is the canonical ISO form (`Dates.FormatParseIso`).
- Dates.ParseIso: stricter than Python's `strptime("%Y-%m-%d")`. That parser
  also accepts, for example, one-digit months and days (`2024-6-1`), a
  space-padded day (`2024-06- 1`) and non-ASCII decimal digits. All such texts
  are refused here. This follows the documented `YYYY-MM-DD` format rather than the library.
- Dates.FormatIso: always writes a four-digit year. Python's output for years
  below 1000 depends on the platform.
- Urls.Lower: lower-cases ASCII letters only. Python's `str.lower` also maps
  non-ASCII letters, and can change the length (`'İ'` becomes two code points).
  The "same length" of `Urls.Slug` and `Urls.SlugShape` holds for this ASCII
  model only.
- Cli.Run: does not model `--company` or `--output`. It also does not model the
  exit codes: argparse exits with 2 for a bad `--source`, and the date checks
  exit with 1.
- Writing the JSON file, printing the summary line and `sys.exit` are output I/O
  and are not modelled.
