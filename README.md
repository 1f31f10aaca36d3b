# TCGweb health checker — a Dafny model of its crawl policy and report logic

The TCGweb health checker crawls a list of government web sites once a
month. For each site it does the following:

- It walks the site breadth first, down to a depth limit.
- It skips download files, repeated URLs and pages that repeat a title.
  List pages with pagination query keys are a special case.
- It checks every external link once, with HEAD then GET, and with an
  `http://` → `https://` retry.
- It infers a "last updated" date for each page from the page text and its
  `<meta>` tags. This includes the Minguo (Republic of China) calendar year.
- It writes the page and link ledgers as JSON, and error CSVs beside them.
- It adds one row of statistics per site to a monthly Excel report.

Several entry points drive this. They differ in how they share out sites
among processes, in how they merge the per-site CSV settings with the
global ones, and in how they count results and end the run.

This project models that logic in Dafny. The browser, the HTTP client, the
HTML parser, the regular expressions, the clock and the file system become
inputs:

- `PageCrawl.Web` says what loading a URL gives.
- `LinkCheck.Outcome` says what each request returns.
- `DateExtraction.DateEvidence` holds the capture groups the date patterns
  matched.
- `SiteStats.Clock` holds the current date and time.

The program's own data become Dafny values and classes:

- The crawler object is `Crawler.CrawlerAgent`. Its two dicts are ordered
  ledgers (`Ledger.Entry` sequences, keeping Python's insertion order).
- The Excel writer is `Report.ReportGenerationAgent`. Its sheet is a
  sequence of rows.
- The log file is `Log.LogWriter`. The file is the text written so far.

Modules, one per concern:

| file | module | models |
|---|---|---|
| text.dfy | Text | the string builtins the code relies on (`lower`, `strip`, `split`, `int`/`str` of digits, string comparison, de-duplication) |
| calendar.dfy | Calendar | `datetime.date`, `strptime("%Y-%m-%d")` and `strftime` on dates |
| sorting.dfy | Sorting | Python's stable `sorted` under a key |
| ledger.dfy | Ledger | `page_info_dict` and `external_link_results` as insertion-ordered dicts |
| link_check.dfy | LinkCheck | `check_link_status` |
| page_policy.dfy | PagePolicy | the skip-extension test, the duplicate/pagination scan, `_sanitize_name` |
| crawl_page.dfy | PageCrawl | `_crawl_single_page`, `_record_page_info`, `_extract_and_check_links` as functions of the ledgers |
| crawler.dfy | Crawler | the crawler object, `crawl_site`'s queue loop, and the crawl as a function of the web (`StartState`, `Advance`, `Run`) |
| summary_order.dfy | SummaryOrder | the order `save_page_summary_to_json` writes |
| date_extraction.dfy | DateExtraction | `_normalize_date_string`, `_search_for_date_in_scope`, `_select_best_date`, `extract_last_updated` |
| site_stats.dfy | SiteStats | the per-site statistics shared by the report writer and the three worker entry points |
| report.dfy | Report | the Excel report writer |
| site_config.dfy | SiteConfig | merging the CSV site settings with the global ones; skipping processed sites |
| run_accounting.dfy | RunAccounting | counting results and ending a run, per entry point |
| problematic_links.dfy | ProblematicLinks | the error-link CSV extraction |
| log_writer.dfy | Log | the buffered log writer |

## Model

| member | source | states |
|---|---|---|
| Text.Lower | crawler/web_crawler.py:607-608 | each character of the result is the lower-case form of the character at the same position |
| Text.Strip | reporter/report_generation.py:88 | the stripped text is no longer than the input, neither starts nor ends with whitespace (Python's whole `isspace` set, Unicode included), and is empty only when the input is all whitespace |
| Text.StripSlice | reporter/report_generation.py:88 | the stripped text is the slice of the input that starts where the leading whitespace ends |
| Text.StripCutsSpace | reporter/report_generation.py:88 | everything cut off, before and after that slice, is whitespace |
| Text.Dedup | crawler/web_crawler.py:551 | de-duplication keeps exactly the elements of the input, each once |
| Text.DedupFirstSeen | crawler/web_crawler.py:551 | the kept elements come in the order of their first occurrences in the input |
| Text.DedupDistinct | crawler/web_crawler.py:551 | a sequence without repetitions is left as it is |
| Text.ParsePad | analyzer/date_extraction.py:109 | reading back a zero-padded number gives the number |
| Text.PadParse | analyzer/date_extraction.py:82 | padding what was read back from a digit string of the right width gives the string |
| Text.LexLeTotal | crawler/web_crawler.py:245 | Python's string comparison orders any two strings |
| Text.LexLeAntisymmetric | crawler/web_crawler.py:245 | two strings each at most the other are equal |
| Text.LexLeTransitive | crawler/web_crawler.py:245 | string comparison is transitive |
| Calendar.ParseIso | reporter/report_generation.py:150 | `strptime` accepts exactly four, two and two digits separated by dashes that name a real Gregorian date |
| Calendar.ParseFormatIso | analyzer/date_extraction.py:109 | a valid date, written `YYYY-MM-DD`, parses back to itself |
| Calendar.FormatParseIso | reporter/report_generation.py:167 | any text `strptime` accepts is exactly how `strftime` writes the date back |
| Calendar.OrdinalOrder | analyzer/date_extraction.py:241-247 | day numbers follow calendar order, in both directions |
| Calendar.OrdinalInjective | analyzer/date_extraction.py:241 | two valid dates with the same day number are the same date |
| Calendar.IsoTextOrder | crawler/web_crawler.py:245 | for written dates, comparing the texts compares the dates, in both directions |
| Sorting.Sort | crawler/web_crawler.py:245 | the sorted copy is a rearrangement of the input of the same length |
| Sorting.SortSorted | crawler/web_crawler.py:245 | the result is ordered under the key and is a permutation of the input |
| Sorting.SortStable | crawler/web_crawler.py:256-266 | elements the key cannot tell apart keep their input order |
| Ledger.Lookup | crawler/web_crawler.py:558 | `dict.get` finds a value exactly when the key is present, and it is that key's value |
| Ledger.PutSpec | crawler/web_crawler.py:506-513 | after assignment the keys stay distinct and the key reads the new value; the key list is unchanged when the key was present and gains the key at its end otherwise |
| Ledger.PutOther | crawler/web_crawler.py:506-513 | after assignment every other key reads as before |
| Ledger.PutKeepsKeys | crawler/web_crawler.py:506 | assignment removes no key |
| LinkCheck.TryLinkCheck | crawler/web_crawler.py:290-311 | HEAD first; GET only after 403, 404 or 405, or after TooManyRedirects; the status is that of the last request answered, or none when it raised |
| LinkCheck.HttpsVariant | crawler/web_crawler.py:321 | the first `http://` becomes `https://` and the rest of the link is kept |
| LinkCheck.CheckLinkStatus | crawler/web_crawler.py:313-332 | the result is always keyed by the link as given, and the first request is a HEAD of that link |
| LinkCheck.CheckLinkStatusOutcome | crawler/web_crawler.py:313-332 | the status is the answer to the last request issued, or 0 when it raised; a request to another URL, or a second HEAD, happens only for an `http://` link whose first check raised, and goes to its `https://` form |
| LinkCheck.HttpRetried | crawler/web_crawler.py:317-329 | an `http://` link whose first check raised is checked again: right after the first check's requests comes a HEAD of its `https://` form, and every later request goes there |
| LinkCheck.TrustedHeadSettles | crawler/web_crawler.py:292-300 | a HEAD answered with any status other than 403, 404 or 405 is the result, with no further request |
| LinkCheck.NoRetryWithoutHttp | crawler/web_crawler.py:317-332 | a link not starting with `http://` whose check raises reports 0, and is never retried under another URL |
| LinkCheck.StatusRank | crawler/web_crawler.py:256-262 | the rank is 0, 1 or 2 for 2xx, 3xx and 4xx; 3 for 500 and above; 4 for anything below 200 |
| LinkCheck.StatusRankMonotone | crawler/web_crawler.py:256-262 | a higher status class never ranks before a lower one |
| PagePolicy.SkippedInAnyCase | crawler/web_crawler.py:591-614 | a path ending in a listed extension is skipped whatever its letter case |
| PagePolicy.SkippedByQuery | crawler/web_crawler.py:612-614 | a listed extension anywhere in the query is enough to skip the URL |
| PagePolicy.PageTitle | crawler/web_crawler.py:660 | without a `<title>` the name is the URL's last path segment, or `index`, never empty |
| PagePolicy.Classify | crawler/web_crawler.py:663-759 | a verdict other than new comes from a ledger entry with the same URL or title; a pagination verdict needs a pagination query key; list pagination needs pagination on, skipped pagination needs it off |
| PagePolicy.FirstDecidingEntry | crawler/web_crawler.py:663-759 | only the first entry with the same URL or title decides; the entries after it are never read |
| PagePolicy.UnmatchedIsNew | crawler/web_crawler.py:663-759 | a page whose URL and title match no entry is new |
| PagePolicy.RecordedUrlIsDuplicate | crawler/web_crawler.py:664-669 | a URL already in the ledger, with no earlier entry of the same title, is a duplicate |
| PagePolicy.RecordedUrlCanBeNew | crawler/web_crawler.py:672-727 | an earlier entry with the same title, the same segment count and no pagination key stops the scan, so a URL already recorded can still come out new |
| PagePolicy.PaginationVerdict | crawler/web_crawler.py:672-727 | same title and same segment count: a pagination key (any case) gives list pagination when enabled and skipped pagination when not; no key gives new |
| PagePolicy.DifferentDepthVerdict | crawler/web_crawler.py:730-759 | same title and a different segment count is a duplicate exactly when pages are not saved or the content is equal; otherwise new |
| PagePolicy.ScanLedger | crawler/web_crawler.py:663-759 | the loop over the ledger returns the verdict `Classify` specifies |
| PagePolicy.ReplaceReserved | crawler/web_crawler.py:437 | each of `<>:"/\|?*` becomes `_`, everything else is kept, the length unchanged |
| PagePolicy.CollapseRuns | crawler/web_crawler.py:439 | runs of `_`, `-` and whitespace (what `\s` matches, Unicode included) become one `_`; the result is no longer than the input |
| PagePolicy.TrimUnderscores | crawler/web_crawler.py:441 | the result neither starts nor ends with space or `_` |
| PagePolicy.TrimSlice | crawler/web_crawler.py:441 | `strip(' _')` returns a slice `s[lo..hi]` of its input, and every character cut from either end is a space or `_` |
| PagePolicy.TrimKeepsText | crawler/web_crawler.py:441 | trimming drops no character that is not a separator |
| PagePolicy.CollapseKeepsText | crawler/web_crawler.py:439 | collapsing keeps every character that is not a separator, in the same order |
| PagePolicy.CollapseRun | crawler/web_crawler.py:439 | a run made only of separators becomes a single `_`, or nothing when the run was already under way |
| PagePolicy.CollapseAppend | crawler/web_crawler.py:439 | collapsing works piece by piece: the second piece continues a run exactly when the first ends in a separator; with `CollapseRun`, each maximal run becomes exactly one `_` |
| PagePolicy.CleanStem | crawler/web_crawler.py:436-443 | at most 150 characters, no reserved character, no separator but `_`, no `__` |
| PagePolicy.CleanStemKeepsText | crawler/web_crawler.py:436-443 | the stem keeps, in order, the name's characters that are neither reserved nor separators: all of them when the stem is shorter than 150 characters, the first ones otherwise; it is empty only when the name has none |
| PagePolicy.SanitizeName | crawler/web_crawler.py:434-452 | a directory gets `_links`; a file name gets `.html` unless the cleaned stem already holds a dot |
| PagePolicy.SanitizedNameIsSafe | crawler/web_crawler.py:434-452 | a sanitised name holds no reserved character and no whitespace or dash |
| PageCrawl.Land | crawler/web_crawler.py:636-640 | the page comes from the URL itself when it answers below 400, else from its `https://` variant when the URL is `http://` and the variant answers; otherwise it fails |
| PageCrawl.SkippedFileName | crawler/web_crawler.py:616 | a skipped file's name is its last path segment, or `skipped_file`, never empty |
| PageCrawl.SourceOf | crawler/web_crawler.py:501-504 | a record has a source page exactly when it has a parent, and its URL is the parent |
| PageCrawl.CrawlPage | crawler/web_crawler.py:583-847 | the outcome of one page is the result function's, with the ledgers after it |
| PageCrawl.SkippedFileIsNotRecorded | crawler/web_crawler.py:606-622 | a download or media URL gives status 200, no links, its file name, and leaves both ledgers unchanged |
| PageCrawl.LedgerEffects | crawler/web_crawler.py:583-847 | only ordinary and failed pages are recorded, only ordinary pages check links, only ordinary, list and frameset pages report links; the keys stay distinct |
| PageCrawl.RecordAndCheck | crawler/web_crawler.py:506-513 | recording a page and checking its links keep both ledgers' keys distinct and change the page ledger at the page's key only |
| PageCrawl.RetriedPageSkipsScan | crawler/web_crawler.py:771-823 | a page reached over the `https://` retry is ordinary without a scan, even when its URL is already recorded |
| PageCrawl.FirstLoadIsScanned | crawler/web_crawler.py:656-759 | a page that loads at the first attempt takes the scan's verdict |
| PageCrawl.FailedPage | crawler/web_crawler.py:826-832 | a page that fails reports the last status it was answered with (0 for none), no links, and is recorded under the URL requested |
| PageCrawl.RegisterLinksSpec | crawler/web_crawler.py:556-559 | links not yet in the ledger are appended with status 0 and this page as source; known links keep their record |
| PageCrawl.SetStatusesSpec | crawler/web_crawler.py:566-568 | each checked link gets its status; its source stays and no key is added |
| PageCrawl.CheckedLedgerSpec | crawler/web_crawler.py:549-577 | known links keep their record, are neither re-checked nor re-attributed; new links are appended in order with their checked status and this page as source; no other key appears |
| PageCrawl.LinkStatusesCover | crawler/web_crawler.py:570-577 | the per-page map covers every unique external link of the page, new or known, with the status now in the ledger |
| Crawler.Enqueued | crawler/web_crawler.py:1003-1006 | the entries added are exactly the links not yet visited, with the given parent and depth |
| Crawler.EnqueueLinks | crawler/web_crawler.py:1003-1006 | the loop appends those entries, in link order, behind the queue |
| Crawler.SeedQueue | crawler/web_crawler.py:911-935 | the first queue is the sitemap's unvisited links at depth 1 under the homepage, or the homepage's when that is empty; a sitemap page that failed gives none, and one whose text is a marker or an error message gives its own links |
| Crawler.FreshDistinct | crawler/web_crawler.py:949-955 | no visit requests a URL an earlier visit requested or reached |
| Crawler.LineageAll | crawler/web_crawler.py:988-1006 | every visited entry is a seed link (a link the first queue was built from) at depth 1 under the start page, or was put on the queue by an earlier visit |
| Crawler.CrawlerAgent.RecordPageInfo | crawler/web_crawler.py:497-513 | the page ledger gets the record under the URL reached, with the parent as its source page; the link ledger is unchanged |
| Crawler.CrawlerAgent.ExtractAndCheckLinks | crawler/web_crawler.py:515-581 | the link ledger becomes the checked ledger of the page's unique links, and the returned map is their statuses |
| Crawler.CrawlerAgent.Landed | crawler/web_crawler.py:645-847 | a loaded page's outcome and ledgers are those the page-step function gives |
| Crawler.CrawlerAgent.CrawlSinglePage | crawler/web_crawler.py:583-847 | the method's outcome and ledgers are those `PageCrawl.CrawlPage` gives |
| Crawler.CrawlerAgent.OpenPage | crawler/web_crawler.py:957-964 | the outcome and the new ledgers are exactly the page step `PageCrawl.CrawlPage` from the old ledgers; a visit keeps every recorded key, records the page, and reports only links of the site |
| Crawler.CrawlerAgent.OpenHome | crawler/web_crawler.py:874-877 | the homepage is crawled at depth 0 with no parent against empty ledgers and titles; the outcome and ledgers are that page step |
| Crawler.CrawlerAgent.SeedCrawl | crawler/web_crawler.py:879-947 | from the homepage's step, the sitemap page is crawled exactly when the homepage answered below 400, is ordinary and links to a sitemap not yet visited; the visited set, statuses, titles, first queue, ledgers and history are those of `StartState` |
| Crawler.CrawlerAgent.CrawlRoots | crawler/web_crawler.py:875-947 | the state before the loop is `StartState` of the web; the homepage is crawled first; the sitemap page is crawled exactly when the homepage is an ordinary page answered below 400 that links to a sitemap not yet visited; the statuses, the visited set and the first queue follow from them; the sitemap's outcome is the page result against the ledger the homepage left |
| Crawler.StartFacts | crawler/web_crawler.py:874-947 | of `StartState`, for every web: the ledgers are dicts; one or two roots, the second exactly when the sitemap is visited, and its outcome is the page result against the ledger the homepage left; the visited set, statuses and first queue follow from the roots; each root is recorded |
| Crawler.VisitAdvance | crawler/web_crawler.py:949-1006 | a turn that visits the head of the queue adds the URL and the URL reached to `visited`, adds the status when the page reports, the title when it has one, queues its children as `QueueAfter` says, and appends the visit |
| Crawler.NextQueue | crawler/web_crawler.py:986-1006 | the queue after a visit: a list page passes its links on at its own level and parent, other spawning pages one level down, nothing at the depth limit |
| Crawler.CrawlerAgent.VisitHead | crawler/web_crawler.py:957-1006 | one turn that visits the head of the queue leaves the state `Advance` gives |
| Crawler.CrawlerAgent.Drain | crawler/web_crawler.py:949-1006 | the loop drains the queue and ends in the state `Run` reaches from where it started |
| Crawler.AdvanceKeeps | crawler/web_crawler.py:949-1006 | one turn keeps the loop invariant: ledgers are dicts, no URL is visited twice, every queued entry is a seed link or a child of an earlier visit, and every link that feeds the queue is visited or still queued |
| Crawler.RunKeeps | crawler/web_crawler.py:949-1006 | the crawl run to the end has an empty queue and keeps that invariant |
| Crawler.StartInv | crawler/web_crawler.py:874-947 | the invariant holds of the state before the loop |
| Crawler.CrawlFacts | crawler/web_crawler.py:849-1015 | of the crawl `Run` makes from `StartState`, for every web: the roots are as `StartFacts` says; the statuses are those of the roots and the visits that report one; no URL is crawled twice; every visit's depth is between 1 and the limit; every visit took a seed link or an entry an earlier visit queued; every crawled page is recorded; every seed link (when the limit is at least 1), and every link of a visit that passes its links on, ends up visited |
| Crawler.CrawlerAgent.CrawlSite | crawler/web_crawler.py:849-1015 | the statuses, both ledgers and the history of the crawl are exactly those `Run` gives from `StartState`: the crawl is a function of the web; and, through `CrawlFacts`, the sitemap is crawled exactly when the homepage allows it, no URL is crawled twice, every visit's depth is between 1 and the limit, every visit took a seed link or an entry an earlier visit queued, every crawled page is recorded, and every seed link and every link of a visit that passes its links on ends up visited |
| SummaryOrder.SummaryGroup | crawler/web_crawler.py:229-241 | group 0 exactly for parseable dates, 2 for the no-date mark, 3 for a failed crawl, else 1 |
| SummaryOrder.GroupsPartition | crawler/web_crawler.py:229-241 | every page lands in exactly one of the four groups |
| SummaryOrder.OrderPagesPermutation | crawler/web_crawler.py:247 | the written summary holds every page of the ledger, each once |
| SummaryOrder.OrderPagesGroups | crawler/web_crawler.py:247 | dated pages, then unreadable, then `[無日期]`, then `[爬取失敗]` |
| SummaryOrder.OrderPagesNewestFirst | crawler/web_crawler.py:244 | the dated pages come newest date first |
| SummaryOrder.ParsedTextOrder | crawler/web_crawler.py:244 | two texts `strptime` accepts compare as their dates |
| SummaryOrder.OrderExternal | crawler/web_crawler.py:252-266 | the `external_links` object is present exactly when some link was checked |
| SummaryOrder.OrderExternalSorted | crawler/web_crawler.py:254-264 | the written links are all the links, by status class, then by URL |
| SummaryOrder.SavePageSummary | crawler/web_crawler.py:216-266 | the partition loop and the two sorts give `OrderPages` and `OrderExternal` |
| DateExtraction.Numbers | analyzer/date_extraction.py:82 | empty and non-digit groups are dropped, so there are no more numbers than groups |
| DateExtraction.NumbersOfGroups | analyzer/date_extraction.py:82 | the numbers are the non-empty all-digit groups, each read as a decimal number, in group order |
| DateExtraction.ReadNumbers | analyzer/date_extraction.py:84-140 | a date is read only from two or three numbers, its year is at least 1990, and two numbers give day 1 |
| DateExtraction.NormalizeDateString | analyzer/date_extraction.py:70-140 | any date it produces that `strptime` can read is in 1990 or later |
| DateExtraction.YearFirstDayFirstAgree | analyzer/date_extraction.py:84-109 | a date written year first and the same date written day first normalise alike, to its `YYYY-MM-DD` text |
| DateExtraction.MinguoAgreesWithCommonEra | analyzer/date_extraction.py:96-103 | a Minguo year and its common-era year give the same date, with three numbers or with two |
| DateExtraction.ReadNumbersYear | analyzer/date_extraction.py:89-134 | for two or three numbers the year is a trailing number of 1900 or more, else the first, plus 1911 when below 200; the numbers are rejected exactly when that year is before 1990, and otherwise give that year |
| DateExtraction.RejectsBefore1990 | analyzer/date_extraction.py:89-134 | numbers that are all below 79 or in 1900..1989 give no date |
| DateExtraction.NormalizeWrittenDate | analyzer/date_extraction.py:70-140 | normalising a date's own `YYYY-MM-DD` text gives it back |
| DateExtraction.CollectMatches | analyzer/date_extraction.py:168-175 | the loop over matches keeps their non-empty normalised dates, in order |
| DateExtraction.ScopeDatesPriority | analyzer/date_extraction.py:188-203 | the generic flag is set exactly when no keyword date exists; the dates are then keyword dates only, else generic dates; each once, none empty |
| DateExtraction.SearchForDateInScope | analyzer/date_extraction.py:142-203 | the loop gives what `ScopeDates` specifies |
| DateExtraction.AppendNew | analyzer/date_extraction.py:294-296 | an item is in the result exactly when it was in the list or is a new non-empty date; the list is a prefix; no duplicates are added |
| DateExtraction.DedupAppend | analyzer/date_extraction.py:294-296 | appending the new non-empty texts to an empty list is first-seen de-duplication |
| DateExtraction.AppendFirstSeen | analyzer/date_extraction.py:294-304 | the loop gives `AppendNew` |
| DateExtraction.MetaPlainDate | analyzer/date_extraction.py:315-328 | a `<meta>` value holding a plain date yields that date |
| DateExtraction.MetaDateOf | analyzer/date_extraction.py:318-325 | a value whose first dash part is four digits and second is digits gives the normalised first three parts |
| DateExtraction.MetaDateTimeKeepsMonthOnly | analyzer/date_extraction.py:318-325 | a date with a time (`…T10:00:00Z`) yields only its year and month, day 1 |
| DateExtraction.PastDates | analyzer/date_extraction.py:234-250 | the candidates kept are exactly the readable dates strictly before today |
| DateExtraction.Closest | analyzer/date_extraction.py:240-244 | the closest date is one of the readable dates, and there is none only when none is readable |
| DateExtraction.ClosestIsNearest | analyzer/date_extraction.py:240-244 | no readable date is nearer to today than the one chosen |
| DateExtraction.MaxTextIsGreatest | analyzer/date_extraction.py:262 | `max` returns a text no other text exceeds |
| DateExtraction.LatestText | analyzer/date_extraction.py:262 | among readable dates the greatest text is the latest date |
| DateExtraction.BestDateChoice | analyzer/date_extraction.py:220-263 | none gives `[無日期]`; one is returned unchanged; else the latest date before today, else the readable date closest to today, else `[無日期]` |
| DateExtraction.SelectBestDate | analyzer/date_extraction.py:205-263 | the loop gives `BestDate` |
| DateExtraction.CandidatesOrigin | analyzer/date_extraction.py:280-328 | candidates are distinct and non-empty; with keyword dates they are exactly those; otherwise generic dates then `<meta>` dates |
| DateExtraction.LastUpdatedIsCandidate | analyzer/date_extraction.py:266-332 | the date reported is one of the candidates, or `[無日期]` |
| DateExtraction.ReadMetaDates | analyzer/date_extraction.py:313-328 | the loop over `<meta>` tags gives one date per tag, in order |
| DateExtraction.ExtractLastUpdated | analyzer/date_extraction.py:266-332 | the method gives `LastUpdated` |
| SiteStats.CountFailedPages | reporter/report_generation.py:121-125 | `failed_pages` is the number of results that are 0 or at least 400 |
| SiteStats.CountFailedLinks | reporter/report_generation.py:128-131 | `failed_external_links` is the number of links whose status, 0 when missing, is 0 or at least 400 |
| SiteStats.FailedPagesCount | reporter/report_generation.py:124 | a status counts as failed exactly when it is 0 or at least 400 |
| SiteStats.BucketOf | reporter/report_generation.py:141-163 | no date exactly when `strptime` rejects the value; past when the date is up to today; future otherwise |
| SiteStats.PastDates | reporter/report_generation.py:153-154 | every past date is valid and up to today |
| SiteStats.FutureDates | reporter/report_generation.py:158-159 | every future date is valid and after today |
| SiteStats.DateBuckets | reporter/report_generation.py:141-163 | the loop's counters and lists are the bucket functions; outdated counts the past dates before one year ago |
| SiteStats.BucketsPartition | reporter/report_generation.py:141-163 | undated, past and future pages add up to all pages |
| SiteStats.DatedPagesCollected | reporter/report_generation.py:149-159 | a page dated up to today is in `past_dates`, a later one in `future_dates` |
| SiteStats.MaxDate | reporter/report_generation.py:167 | `max` is one of the dates and none is later |
| SiteStats.MinDate | reporter/report_generation.py:169 | `min` is one of the dates and none is earlier |
| SiteStats.LatestUpdateSpec | reporter/report_generation.py:165-171 | the latest past date, else the earliest future date, else `無有效日期` exactly when no page has a date |
| SiteStats.Summarize | reporter/report_generation.py:117-174 | the statistics block gives `SummaryOf`; the worker copies are gcp_main_mpselfqueue.py:70-118, gcp_main_mpfast.py:70-114 and gcp_main_mpstandard.py:65-107 |
| SiteStats.SummaryConsistent | reporter/report_generation.py:174 | pages with a date plus pages without add up to the pages crawled; outdated pages and failures are bounded by their totals |
| Report.MaxRow | reporter/report_generation.py:37 | `max_row` is at least 1 and at least the number of rows |
| Report.RowUrlsHeld | reporter/report_generation.py:86-88 | a row yields a URL exactly when its second cell is truthy, and the URL is the stripped text of that cell |
| Report.ProcessedUrlsSpec | reporter/report_generation.py:85-88 | a URL is processed exactly when some row after the header yields it |
| Report.SiteRow | reporter/report_generation.py:181-194 | twelve cells, one per header, with the URL in the second |
| Report.PutRow | reporter/report_generation.py:197-198 | the row is written at its row number, padding with empty rows; every other row is unchanged |
| Report.AddedSiteIsProcessed | reporter/report_generation.py:181-201 | a site added below the header is among the processed URLs afterwards |
| Report.ReportGenerationAgent.constructor | reporter/report_generation.py:13 | writing starts at row 2, with no workbook loaded |
| Report.ReportGenerationAgent.InitializeExcelReport | reporter/report_generation.py:18-72 | an existing report is loaded and writing resumes below its last row; otherwise a new sheet holds the header row |
| Report.ReportGenerationAgent.GetProcessedUrls | reporter/report_generation.py:74-91 | with no workbook, nothing; else the processed URLs of the sheet, in row order |
| Report.ReportGenerationAgent.AddSiteToExcel | reporter/report_generation.py:93-206 | without a workbook nothing changes and the call fails; else the site's row goes at the current row, which advances by exactly one |
| Report.ReportGenerationAgent.FinalizeExcelReport | reporter/report_generation.py:208-218 | the workbook is closed and the sheet kept |
| SiteConfig.ParseIntOfText | gcp_main_mpselfqueue.py:415 | `int()` reads back any integer as Python writes it |
| SiteConfig.CsvDepth | gcp_main_mpselfqueue.py:415 | a missing or empty depth gives none |
| SiteConfig.CappedDepth | gcp_main_mpselfqueue.py:413-422 | the depth never exceeds the global one; it is the global depth or the CSV depth, and never more than the CSV depth |
| SiteConfig.CsvDepthWritten | gcp_main.py:204-208 | a depth `n` written in the CSV gives depth `n` under the asyncio entry point and the smaller of `n` and the global depth under the process-pool ones |
| SiteConfig.CsvDepthMissing | gcp_main.py:204-208 | a missing or empty depth cell keeps the global depth under every entry point |
| SiteConfig.DeeperCsvDepth | gcp_main.py:206 | a CSV depth above the global one raises the depth under the asyncio entry point, and is ignored by the other three |
| SiteConfig.TriStateOverrides | gcp_main_mpselfqueue.py:426-439 | a missing value keeps the global setting; a value changes it exactly when it reads, in any letter case, as the opposite of the global setting |
| SiteConfig.TriStateIgnoresCase | gcp_main_mpselfqueue.py:426-428 | the override reads the value the same way whatever its letter case |
| SiteConfig.Task | gcp_main_mpselfqueue.py:412-443 | a task keeps the site's URL and name, takes the merged depth and the two tri-state settings |
| SiteConfig.Configure | gcp_main.py:201-240 | one task per pending site |
| SiteConfig.ConfigureAt | gcp_main.py:201-240 | the task at each position is that of the site at the same position |
| SiteConfig.PlannedIffPending | gcp_main_mpselfqueue.py:407-410 | a site gets a task exactly when its stripped URL is not among the processed URLs |
| SiteConfig.MergeSiteConfigs | gcp_main_mpselfqueue.py:407-443 | the loop gives the capped plan; gcp_main_mpfast.py:364-400 and gcp_main_mpstandard.py:272-308 do the same |
| SiteConfig.FilterPendingSites | gcp_main.py:172-177 | the sites kept are those whose stripped URL is not processed, in order |
| SiteConfig.BuildTasks | gcp_main.py:201-240 | the loop gives one task per pending site under the override rule |
| RunAccounting.Step | gcp_main_mpselfqueue.py:505-559 | restarts and waits leave the processed count alone; a failure or a set of statistics adds exactly one |
| RunAccounting.TallyCounts | gcp_main_mpselfqueue.py:505-545 | processed counts every failure and every set of statistics; successes are the statistics whose Excel write went through; successes and failures add up to processed; the run stays successful exactly until a wait finds every worker dead |
| RunAccounting.SelfQueueLoop | gcp_main_mpselfqueue.py:493-561 | the loop's counters are those of the events it consumed; it never processes more than the total; it stops at the first event after which the total is reached or every worker is dead, and before that point every event was consumed |
| RunAccounting.CountPoolResults | gcp_main_mpfast.py:420-456 | successes are the results with statistics whose Excel write went through; successes and failures add up to the results; gcp_main_mpstandard.py:325-363 does the same |
| RunAccounting.GatherCounts | gcp_main.py:243-247 | successes and failures add up to the number of tasks |
| RunAccounting.GatherFailures | gcp_main.py:243-247 | the failures are exactly the results other than a returned `True`: returned `False` and raised exceptions alike |
| RunAccounting.Finish | gcp_main_mpselfqueue.py:582-593 | the report is always finalised; the VM stops exactly when no site was left or the run succeeded (for the self-managed pool, also completely); the report is mailed exactly when the VM stops and the entry point is the self-managed or the fast pool |
| RunAccounting.SelfQueueShutdown | gcp_main_mpselfqueue.py:585-593 | the self-managed pool stops the VM exactly when no wait found every worker dead and every task was processed |
| ProblematicLinks.ParentUrl | utils/extract_problematic_links.py:48-49 | a missing or null source page gives an empty parent URL |
| ProblematicLinks.ErrorRowIffNot200 | utils/extract_problematic_links.py:43-55 | an entry has a row among the error rows exactly when its status, 200 when missing, is not 200 |
| ProblematicLinks.ErrorRowsNot200 | utils/extract_problematic_links.py:47 | no error row reports status 200 |
| ProblematicLinks.CollectErrorRows | utils/extract_problematic_links.py:58-71 | the loop gives one row per entry whose status is not 200, in entry order |
| ProblematicLinks.ExtractErrorLinks | utils/extract_problematic_links.py:24-88 | a missing JSON file gives no CSV; else each section's rows, written only when not empty |
| ProblematicLinks.FileWrittenIffError | utils/extract_problematic_links.py:74-82 | a CSV is written exactly when its section has an entry whose status is not 200 |
| Log.JoinThenNewline | utils/log_writer.py:55 | a batch joined by newlines and closed by one more newline is each message on its own line |
| Log.LinesConcat | utils/log_writer.py:55 | two batches written one after the other write their messages in order |
| Log.LogWriter.constructor | utils/log_writer.py:29-49 | an opened file holds the header; when opening fails the file stays closed and holds nothing; the buffer is empty |
| Log.LogWriter.FlushBuffer | utils/log_writer.py:51-56 | an open file with buffered messages gets them newline-joined plus a newline, and the buffer empties; otherwise nothing changes |
| Log.LogWriter.LogOnly | utils/log_writer.py:58-66 | a closed file drops the message; an open one buffers it and flushes exactly when the buffer reaches its size; the buffer stays below a positive size; the file then the buffer hold the header and every message in order |
| Log.LogWriter.Close | utils/log_writer.py:68-76 | an open file gets the rest of the buffer and the footer, and closes; the file then holds the header, every message and the footer; closing again changes nothing |

## Left out

- The browser, the HTTP client and the HTML parser are not modelled. This covers Playwright navigation, the SPA probe and its waits, `page.content`, httpx, BeautifulSoup, `_clean_html_noise` and `_get_content_preview`. What they answer is the input `PageCrawl.Web` or `LinkCheck.Outcome`. `urljoin`, `urlparse` and `parse_qs` are also inputs: a page's same-host and other-host links, its path segment count, its query keys, and the content-equality test.
- The date regular expressions are not modelled. Their capture groups are the input.
- `[LINK_ERROR]` records are not modelled. They are written when `urljoin` raises on an anchor (crawler/web_crawler.py:539-545). Parsing is an input, so the model never raises there.
- File I/O is left out: the JSON and CSV writes, HTML saving with its name-collision counter, `os.makedirs`, and the workbook load and save. The CSV and workbook contents are modelled as values. The CSV quoting of `csv.DictWriter` is not modelled.
- Concurrency and process management are left out: `multiprocessing` pools, the hand-managed workers and their queues, memory checks, restarts, the asyncio semaphore and `asyncio.gather`. What reaches the main process is a sequence of results in arrival order.
- Delivery is left out: e-mail packing and sending, the `gcloud` shutdown command and argument parsing. `RunAccounting.Finish` only says which of them a run performs.
- The clock is left out. "Today" and "now" are one reading, passed as a parameter (`SiteStats.Clock`, `today: Ymd`). The source reads the clock several times in one call. The log's header and footer time stamps are given as text.
- Floating point is left out. `outdated_percentage` and its `round(…, 2)` are kept as the exact pair `Report.Percent(part, whole)`. Crawl durations are given as text.
- Python `set` iteration order is not modelled. The link sets and `list(set(external_links))` are given first-seen order, where Python's order is arbitrary. That order matters: `crawl_site` queues a page's links in it, so it decides the breadth-first visiting order and, of two pages sharing a title, which one is recorded and which one is skipped as a duplicate. The model proves its properties for the order it fixes.
- Text.Lower: only ASCII letters are lower-cased. Python's `str.lower` also folds other scripts; the extensions and keywords compared against are ASCII.
- SiteConfig.ParseIntOfText: Python's `int()` also accepts non-ASCII decimal digits, such as fullwidth `０`-`９`. The model accepts only ASCII digits, with single underscores between them, an optional sign, and whitespace around them.
- DateExtraction.Numbers: only ASCII digits count. Python's `isdigit`, `int` and the `\d` of the date patterns also accept other Unicode decimal digits, such as fullwidth `０`-`９`; a group written that way is dropped by the model and read by the program. `Text.IsDigits` and `Text.ParseNat` have the same limit.
- Calendar.ParseIso: `strptime("%Y-%m-%d")` also accepts one-digit months and days. The model accepts only two digits. Every date the program writes has two digits.
- Calendar.FormatIso: `strftime` writes years below 1000 without zero padding on some platforms. The model always pads to four digits. The normaliser never produces such years.
- SiteConfig.TriState: a short CSV row that lacks the trailing fields gets `None` for them from `csv.DictReader`, and `.lower()` then raises. The model treats such a value as absent, which falls back to the global setting. An empty cell reads as `''` and falls back in the program as well.
- PagePolicy.PageTitle: a `<title>` whose `.string` is `None` (an empty one, or one with more than one child) is not modelled. At the first attempt `_sanitize_name(None)` then raises a `TypeError`, and the page takes the failure path: the `https://` retry for an `http://` URL, else a record as failed. The model gives every `<title>` a text.
- PageCrawl.FilePath: the path of a saved page is `os.path.join(page_dir, filename)` with a `_1`, `_2`, … suffix against collisions. The model keeps only the file name, since directories and the file system are not modelled.
- Report.ReportGenerationAgent.GetProcessedUrls: `str()` of a percent cell is not modelled. A number cell is written in decimal, but a percent cell whose rounded value is not zero yields the empty URL "" instead of its decimal text. Where the share is exactly 0.005 percent, the model counts the cell as non-zero, whereas Python's float rounding decides it.
- Report.ReportGenerationAgent.InitializeExcelReport: a report file that exists but fails to load is not modelled separately. It behaves like a missing one.
- RunAccounting.SelfQueueLoop: the real loop waits for more events when the queue is empty. The model also stops when the given events run out. Its postcondition then says only that no earlier event ended the loop.
- Crawler.CrawlerAgent.CrawlSite: the web is assumed to show only links from a finite set (`universe`), so the crawl provably ends. In the program every ordinary page queues its links one level deeper, so the depth limit bounds the crawl whenever each page has finitely many links. A `[LIST_PAGINATION]` page is the exception (crawler/web_crawler.py:988-994): it queues its links at its own depth. A site whose list pages link to fresh list pages without end, such as a calendar or an endless `?page=` chain, is never left: the visited set keeps each URL to one visit but does not bound how many URLs there are. The model does not capture that non-termination.
- The exception paths are left out. These are the `try/except` around each whole entry point, around each worker, and around `extract_error_links_from_json` when the JSON is unreadable. The last one is modelled as a missing file.

## Where the code and its documentation differ

The model follows the code in each case.

- The duplicate scan is documented as "a URL already crawled is skipped". In the code, an earlier ledger entry with the same title, the same segment count and no pagination key ends the scan with "treat as a new page". A later entry with the same URL is then never compared. `PagePolicy.RecordedUrlCanBeNew` exhibits the case.
- The `https://` fallback of `_crawl_single_page` records the page without running the duplicate scan. A page reached that way is ordinary even when its URL is already in the ledger (`PageCrawl.RetriedPageSkipsScan`).
- Framesets are not handled specially by `crawl_site`. The frame links are queued one level down with the frameset as parent, and its status is counted. No page record is written for it.
- `[LIST_PAGINATION]` queues its links only when the page is above the depth limit. They go in at the page's own depth, under the page's own parent.
- A `<meta>` value holding a date and a time (`2024-03-15T10:00:00Z`) gives only its year and month, with day 1. The third dash part is not all digits, so the normaliser drops it (`DateExtraction.MetaDateTimeKeepsMonthOnly`).
- The asyncio entry point (`gcp_main.py`) uses a CSV depth even when it is larger than the global depth. The three process-pool entry points cap it (`SiteConfig.DeeperCsvDepth`).
- `get_processed_urls` keeps the stripped text of every truthy URL cell. A cell holding only spaces therefore yields the empty string, which is not a URL.
