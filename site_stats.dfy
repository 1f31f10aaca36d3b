/** The statistics of one crawled site that go into the summary report:
    failed pages and external links, the pages with and without a usable
    `last_updated` date, the latest update and the outdated pages. The
    report writer and the three multiprocessing entry points compute them
    with the same rules; they are modelled once here.

    The clock is an input: the date of "today" and the time of day, read
    once (the source reads `datetime.now()` separately for "today" and for
    "one year ago"). */
module SiteStats {
  import opened Text
  import opened Calendar
  import opened Ledger
  import DateExtraction

  /** The `latest_update` value of a site without any usable date. */
  const NoValidDate := "無有效日期"

  /** The moment the statistics are taken: today's date and the time of
      day in microseconds since midnight. */
  datatype Clock = Clock(today: Ymd, sinceMidnight: nat)

  // ---------------------------------------------------------------------
  // Failure counts.

  /** A status counted as a failure: 400 and above, or 0 (no answer). */
  predicate Failing(status: int) {
    status >= 400 || status == 0
  }

  function IsFailing(): int -> bool {
    s => Failing(s)
  }

  /** `link_info.get('status', 0)`. */
  function StatusOrZero(status: Option<int>): int {
    if status.Some? then status.value else 0
  }

  function LinkFailing(): Option<int> -> bool {
    s => Failing(StatusOrZero(s))
  }

  /** `failed_pages`: the crawl results that are failures. */
  method CountFailedPages(results: seq<int>) returns (n: nat)
    ensures n == |Filter(results, IsFailing())|
  {
    n := 0;
    for i := 0 to |results|
      invariant n == |Filter(results[..i], IsFailing())|
    {
      assert results[..i + 1][..i] == results[..i];
      if results[i] >= 400 || results[i] == 0 {
        n := n + 1;
      }
    }
    assert results[..|results|] == results;
  }

  /** `failed_external_links`: the checked links whose status, 0 when
      missing, is a failure. */
  method CountFailedLinks(statuses: seq<Option<int>>) returns (n: nat)
    ensures n == |Filter(statuses, LinkFailing())|
  {
    n := 0;
    for i := 0 to |statuses|
      invariant n == |Filter(statuses[..i], LinkFailing())|
    {
      assert statuses[..i + 1][..i] == statuses[..i];
      var status := if statuses[i].Some? then statuses[i].value else 0;
      if status >= 400 || status == 0 {
        n := n + 1;
      }
    }
    assert statuses[..|statuses|] == statuses;
  }

  /** A status is counted as failed exactly when it is 0 or at least 400. */
  lemma FailedPagesCount(results: seq<int>, status: int)
    ensures status in Filter(results, IsFailing()) <==> status in results && (status >= 400 || status == 0)
    ensures |Filter(results, IsFailing())| <= |results|
  {
    FilterMembers(results, IsFailing(), status);
  }

  // ---------------------------------------------------------------------
  // Date buckets.

  /** Where a page's `last_updated` puts it: no usable date, a date up to
      today, or a date after today. */
  datatype Bucket = Undated | Past(date: Ymd) | Future(date: Ymd)

  function BucketOf(lastUpdated: string, today: Ymd): (b: Bucket)
    ensures b.Undated? <==> ParseIso(lastUpdated).None?
    ensures b.Past? ==> ParseIso(lastUpdated) == Some(b.date) && DateLe(b.date, today)
    ensures b.Future? ==> ParseIso(lastUpdated) == Some(b.date) && !DateLe(b.date, today)
  {
    if lastUpdated == DateExtraction.NoDate || lastUpdated == CrawlFailed || lastUpdated == "" then Undated
    else match ParseIso(lastUpdated)
      case None => Undated
      case Some(d) => if DateLe(d, today) then Past(d) else Future(d)
  }

  /** A date before "one year ago": midnight of the date is earlier than
      the present moment 365 days back. */
  predicate Outdated(d: Ymd, now: Clock) {
    Ordinal(d) < Ordinal(now.today) - 365
    || (Ordinal(d) == Ordinal(now.today) - 365 && now.sinceMidnight > 0)
  }

  function OutdatedAt(now: Clock): Ymd -> bool {
    d => Outdated(d, now)
  }

  /** `past_dates`, in ledger order. */
  function PastDates(lastUpdated: seq<string>, today: Ymd): (r: seq<Ymd>)
    ensures forall d :: d in r ==> ValidDate(d) && DateLe(d, today)
  {
    if lastUpdated == [] then []
    else
      PastDates(lastUpdated[..|lastUpdated| - 1], today)
        + match BucketOf(lastUpdated[|lastUpdated| - 1], today)
          case Past(d) => [d]
          case _ => []
  }

  /** `future_dates`, in ledger order. */
  function FutureDates(lastUpdated: seq<string>, today: Ymd): (r: seq<Ymd>)
    ensures forall d :: d in r ==> ValidDate(d) && !DateLe(d, today)
  {
    if lastUpdated == [] then []
    else
      FutureDates(lastUpdated[..|lastUpdated| - 1], today)
        + match BucketOf(lastUpdated[|lastUpdated| - 1], today)
          case Future(d) => [d]
          case _ => []
  }

  /** `no_date_pages`. */
  function UndatedCount(lastUpdated: seq<string>, today: Ymd): nat {
    if lastUpdated == [] then 0
    else
      UndatedCount(lastUpdated[..|lastUpdated| - 1], today)
        + if BucketOf(lastUpdated[|lastUpdated| - 1], today).Undated? then 1 else 0
  }

  /** The date counters and lists after the loop over `page_summary`. */
  datatype DateStats = DateStats(noDate: nat, past: seq<Ymd>, future: seq<Ymd>, outdated: nat)

  method DateBuckets(lastUpdated: seq<string>, now: Clock) returns (s: DateStats)
    ensures s.noDate == UndatedCount(lastUpdated, now.today)
    ensures s.past == PastDates(lastUpdated, now.today)
    ensures s.future == FutureDates(lastUpdated, now.today)
    ensures s.outdated == |Filter(s.past, OutdatedAt(now))|
  {
    var noDate, past, future, outdated := 0, [], [], 0;
    for i := 0 to |lastUpdated|
      invariant noDate == UndatedCount(lastUpdated[..i], now.today)
      invariant past == PastDates(lastUpdated[..i], now.today)
      invariant future == FutureDates(lastUpdated[..i], now.today)
      invariant outdated == |Filter(past, OutdatedAt(now))|
    {
      assert lastUpdated[..i + 1][..i] == lastUpdated[..i];
      var text := lastUpdated[i];
      if text == DateExtraction.NoDate || text == CrawlFailed || text == "" {
        noDate := noDate + 1;
        continue;
      }
      match ParseIso(text)
      case None =>
        noDate := noDate + 1;
      case Some(d) =>
        if DateLe(d, now.today) {
          assert (past + [d])[..|past|] == past;
          past := past + [d];
          if Outdated(d, now) {
            outdated := outdated + 1;
          }
        } else {
          future := future + [d];
        }
    }
    assert lastUpdated[..|lastUpdated|] == lastUpdated;
    s := DateStats(noDate, past, future, outdated);
  }

  /** Every page lands in exactly one bucket. */
  lemma {:induction false} BucketsPartition(lastUpdated: seq<string>, today: Ymd)
    ensures UndatedCount(lastUpdated, today) + |PastDates(lastUpdated, today)| + |FutureDates(lastUpdated, today)|
         == |lastUpdated|
  {
    if lastUpdated != [] {
      BucketsPartition(lastUpdated[..|lastUpdated| - 1], today);
    }
  }

  /** A page with a date up to today is in `past_dates`; with a later
      date, in `future_dates`. */
  lemma {:induction false} DatedPagesCollected(lastUpdated: seq<string>, today: Ymd, i: int)
    requires 0 <= i < |lastUpdated| && ParseIso(lastUpdated[i]).Some?
    ensures var d := ParseIso(lastUpdated[i]).value;
      (DateLe(d, today) ==> d in PastDates(lastUpdated, today))
      && (!DateLe(d, today) ==> d in FutureDates(lastUpdated, today))
    decreases |lastUpdated|
  {
    var init := lastUpdated[..|lastUpdated| - 1];
    if i < |lastUpdated| - 1 {
      assert init[i] == lastUpdated[i];
      DatedPagesCollected(init, today, i);
    }
  }

  // ---------------------------------------------------------------------
  // The latest update.

  /** `max(past_dates)`. */
  function MaxDate(ds: seq<Ymd>): (m: Ymd)
    requires ds != []
    ensures m in ds && forall d :: d in ds ==> DateLe(d, m)
  {
    if |ds| == 1 then ds[0]
    else
      var m := MaxDate(ds[..|ds| - 1]);
      assert forall d :: d in ds ==> d in ds[..|ds| - 1] || d == ds[|ds| - 1];
      if DateLe(m, ds[|ds| - 1]) then ds[|ds| - 1] else m
  }

  /** `min(future_dates)`. */
  function MinDate(ds: seq<Ymd>): (m: Ymd)
    requires ds != []
    ensures m in ds && forall d :: d in ds ==> DateLe(m, d)
  {
    if |ds| == 1 then ds[0]
    else
      var m := MinDate(ds[..|ds| - 1]);
      assert forall d :: d in ds ==> d in ds[..|ds| - 1] || d == ds[|ds| - 1];
      if DateLe(ds[|ds| - 1], m) then ds[|ds| - 1] else m
  }

  /** `latest_update`: the latest date up to today, else the earliest
      later date, else the marker. */
  function LatestUpdate(past: seq<Ymd>, future: seq<Ymd>): string
    requires forall d :: d in past ==> ValidDate(d)
    requires forall d :: d in future ==> ValidDate(d)
  {
    if past != [] then
      var m := MaxDate(past);
      assert ValidDate(m);
      FormatIso(m)
    else if future != [] then
      var m := MinDate(future);
      assert ValidDate(m);
      FormatIso(m)
    else NoValidDate
  }

  /** The latest update is the marker only without any date; otherwise it
      reads back as the newest past date, or, without past dates, as the
      earliest future date. */
  lemma LatestUpdateSpec(lastUpdated: seq<string>, today: Ymd)
    ensures var past, future := PastDates(lastUpdated, today), FutureDates(lastUpdated, today);
      var r := LatestUpdate(past, future);
      (r == NoValidDate <==> past == [] && future == [])
      && (past != [] ==>
            ParseIso(r).Some? && ParseIso(r).value in past
            && forall d :: d in past ==> DateLe(d, ParseIso(r).value))
      && (past == [] && future != [] ==>
            ParseIso(r).Some? && ParseIso(r).value in future
            && forall d :: d in future ==> DateLe(ParseIso(r).value, d))
  {
    var past, future := PastDates(lastUpdated, today), FutureDates(lastUpdated, today);
    if past != [] {
      ParseFormatIso(MaxDate(past));
      assert |NoValidDate| != |FormatIso(MaxDate(past))|;
    } else if future != [] {
      ParseFormatIso(MinDate(future));
      assert |NoValidDate| != |FormatIso(MinDate(future))|;
    }
  }

  // ---------------------------------------------------------------------
  // The whole row.

  /** The statistics of one site. */
  datatype Summary = Summary(
    totalPages: nat,
    pagesWithDate: nat,
    noDatePages: nat,
    latestUpdate: string,
    outdatedPages: nat,
    failedPages: nat,
    failedExternalLinks: nat,
    totalExternalLinks: nat)

  /** The statistics of a site as functions of its crawl results, the
      `last_updated` values of its page ledger and the statuses of its
      external-link ledger. */
  function SummaryOf(results: seq<int>, lastUpdated: seq<string>, linkStatuses: seq<Option<int>>, now: Clock): Summary {
    var past, future := PastDates(lastUpdated, now.today), FutureDates(lastUpdated, now.today);
    Summary(|results|, |past| + |future|, UndatedCount(lastUpdated, now.today), LatestUpdate(past, future),
            |Filter(past, OutdatedAt(now))|, |Filter(results, IsFailing())|, |Filter(linkStatuses, LinkFailing())|,
            |linkStatuses|)
  }

  /** The statistics block of `add_site_to_excel` and of each worker. */
  method Summarize(results: seq<int>, lastUpdated: seq<string>, linkStatuses: seq<Option<int>>, now: Clock)
    returns (s: Summary)
    ensures s == SummaryOf(results, lastUpdated, linkStatuses, now)
  {
    var failedPages := CountFailedPages(results);
    var failedLinks := CountFailedLinks(linkStatuses);
    var dates := DateBuckets(lastUpdated, now);
    var latest := LatestUpdate(dates.past, dates.future);
    s := Summary(|results|, |dates.past| + |dates.future|, dates.noDate, latest, dates.outdated,
                 failedPages, failedLinks, |linkStatuses|);
  }

  /** The counts of a row agree with each other: every page is dated or
      not, outdated pages are among the dated ones, failures are among the
      results and links. */
  lemma SummaryConsistent(results: seq<int>, lastUpdated: seq<string>, linkStatuses: seq<Option<int>>, now: Clock)
    ensures var s := SummaryOf(results, lastUpdated, linkStatuses, now);
      s.pagesWithDate + s.noDatePages == |lastUpdated|
      && s.outdatedPages <= s.pagesWithDate
      && s.failedPages <= s.totalPages
      && s.failedExternalLinks <= s.totalExternalLinks
      && (s.latestUpdate == NoValidDate <==> s.pagesWithDate == 0)
  {
    BucketsPartition(lastUpdated, now.today);
    LatestUpdateSpec(lastUpdated, now.today);
  }
}
