/** Per-site settings: a row of the websites CSV merged with the
    command-line defaults into one crawl task, and the resume filter that
    drops the sites already in this month's report. The three
    multiprocessing entry points only ever lower the depth; the plain
    asyncio entry point lets the CSV depth replace it. */
module SiteConfig {
  import opened Text

  /** A row of the websites CSV; `None` where the column is absent. */
  datatype SiteRow = SiteRow(url: string, name: string, depth: Option<string>,
                             saveHtml: Option<string>, pagination: Option<string>)

  /** The command-line defaults: `--depth`, not `--no-save-html`, not
      `--no-pagination`. */
  datatype Globals = Globals(depth: int, saveHtml: bool, pagination: bool)

  /** The settings one site is crawled with. */
  datatype SiteTask = SiteTask(url: string, name: string, depth: int, saveHtml: bool, pagination: bool)

  /** How the CSV depth combines with the global one. */
  datatype DepthRule =
    | Capped    // the multiprocessing entry points: the smaller of the two
    | Override  // the asyncio entry point: the CSV value whenever it parses

  // ---------------------------------------------------------------------
  // Python's int() on text.

  /** Digit groups joined by single underscores, as `int()` accepts them. */
  predicate Numeral(b: string) {
    |b| > 0 && IsDigit(b[0]) && IsDigit(b[|b| - 1])
    && (forall i :: 0 <= i < |b| ==> IsDigit(b[i]) || b[i] == '_')
    && (forall i :: 0 <= i < |b| - 1 && b[i] == '_' ==> IsDigit(b[i + 1]))
  }

  function NotUnderscore(): char -> bool {
    (c: char) => c != '_'
  }

  lemma NumeralDigits(b: string)
    requires Numeral(b)
    ensures forall i :: 0 <= i < |Filter(b, NotUnderscore())| ==> IsDigit(Filter(b, NotUnderscore())[i])
  {
    var d := Filter(b, NotUnderscore());
    forall i | 0 <= i < |d|
      ensures IsDigit(d[i])
    {
      FilterMembers(b, NotUnderscore(), d[i]);
    }
  }

  /** The value of a numeral: its digits with the underscores dropped. */
  function NumeralValue(body: string): nat
    requires Numeral(body)
  {
    NumeralDigits(body);
    ParseNat(Filter(body, NotUnderscore()))
  }

  /** An optional leading sign split off: minus or not, and the rest. */
  function SignSplit(t: string): (bool, string) {
    if |t| > 0 && (t[0] == '-' || t[0] == '+') then (t[0] == '-', t[1..]) else (false, t)
  }

  /** `int(s)`: surrounding whitespace, an optional sign, then decimal
      digits that may be grouped with single underscores; anything else
      is a `ValueError`, here `None`. */
  function ParseInt(s: string): Option<int> {
    var (negative, body) := SignSplit(Strip(s));
    if !Numeral(body) then None
    else
      var v: int := NumeralValue(body);
      Some(if negative then -v else v)
  }

  lemma {:induction false} FilterKeepsAll<T>(s: seq<T>, p: T -> bool)
    requires forall i :: 0 <= i < |s| ==> p(s[i])
    ensures Filter(s, p) == s
  {
    if s != [] {
      FilterKeepsAll(s[..|s| - 1], p);
    }
  }

  /** The digits of a natural number read back as that number. */
  lemma DigitsParse(n: nat)
    ensures Numeral(PadNat(n, 1)) && NumeralValue(PadNat(n, 1)) == n
  {
    var body := PadNat(n, 1);
    FilterKeepsAll(body, NotUnderscore());
    ParsePad(n, 1);
  }

  /** `str(n)` splits into its sign and the digits of `|n|`. */
  lemma SignOfText(n: int)
    ensures SignSplit(IntText(n)) == (n < 0, PadNat(if n < 0 then -n else n, 1))
  {
    var s := IntText(n);
    if n < 0 {
      assert s[0] == '-' && s[1..] == PadNat(-n, 1);
    } else {
      assert IsDigit(s[0]);
    }
  }

  /** Stripped text made of a sign and a numeral parses to the numeral's
      signed value. */
  lemma ParseStripped(s: string, negative: bool, body: string, v: nat)
    requires Strip(s) == s && SignSplit(s) == (negative, body)
    requires Numeral(body) && NumeralValue(body) == v
    ensures ParseInt(s) == Some(if negative then -(v as int) else v as int)
  {
  }

  /** `str(n)` has no whitespace to strip. */
  lemma TextStripped(n: int)
    ensures Strip(IntText(n)) == IntText(n)
  {
    var s := IntText(n);
    var digits := PadNat(if n < 0 then -n else n, 1);
    assert s[|s| - 1] == digits[|digits| - 1];
    assert IsDigit(s[|s| - 1]);
    assert s[0] == '-' || IsDigit(s[0]);
    StripKeeps(s);
  }

  /** `int(str(n)) == n`. */
  lemma ParseIntOfText(n: int)
    ensures ParseInt(IntText(n)) == Some(n)
  {
    var m: nat := if n < 0 then -n else n;
    DigitsParse(m);
    SignOfText(n);
    TextStripped(n);
    ParseStripped(IntText(n), n < 0, PadNat(m, 1), m);
  }

  // ---------------------------------------------------------------------
  // The settings of one site.

  /** `int(v) if v else None`, with a `ValueError` also giving `None`. */
  function CsvDepth(field: Option<string>): (d: Option<int>)
    ensures field.None? || field.value == "" ==> d.None?
  {
    if field.None? || field.value == "" then None else ParseInt(field.value)
  }

  /** The multiprocessing rule: the CSV depth is taken only when it is
      below the global depth. */
  function CappedDepth(field: Option<string>, global: int): (d: int)
    ensures d <= global
    ensures d == global || CsvDepth(field) == Some(d)
    ensures CsvDepth(field).Some? ==> d <= CsvDepth(field).value
  {
    var csv := CsvDepth(field);
    if csv.Some? && global > csv.value then csv.value else global
  }

  /** The asyncio rule: the CSV depth is taken whenever it parses. */
  function OverrideDepth(field: Option<string>, global: int): int
  {
    var csv := CsvDepth(field);
    if csv.Some? then csv.value else global
  }

  /** The capped depth is the overriding one, kept at or below the
      global depth. */
  lemma CappedIsClampedOverride(field: Option<string>, global: int)
    ensures CappedDepth(field, global)
         == if OverrideDepth(field, global) < global then OverrideDepth(field, global) else global
  {
  }

  /** A depth written in the CSV is used as is by the asyncio entry point;
      the multiprocessing ones use it only below the global depth, so a
      deeper one is ignored there. */
  lemma CsvDepthWritten(n: int, global: int)
    ensures OverrideDepth(Some(IntText(n)), global) == n
    ensures CappedDepth(Some(IntText(n)), global) == if n < global then n else global
  {
    ParseIntOfText(n);
  }

  /** A missing or empty depth cell keeps the global depth under every
      entry point. */
  lemma CsvDepthMissing(global: int)
    ensures OverrideDepth(None, global) == global && OverrideDepth(Some(""), global) == global
    ensures CappedDepth(None, global) == global && CappedDepth(Some(""), global) == global
  {
  }

  /** A CSV depth above the global one raises the depth under the asyncio
      entry point and is ignored by the multiprocessing ones. */
  lemma DeeperCsvDepth(n: int, global: int)
    requires n > global
    ensures OverrideDepth(Some(IntText(n)), global) > global
    ensures CappedDepth(Some(IntText(n)), global) == global
  {
    CsvDepthWritten(n, global);
  }

  /** `site.get(key, '').lower()` compared with `'true'` and `'false'`;
      any other value keeps the global setting. */
  function TriState(field: Option<string>, global: bool): bool
  {
    var v := Lower(if field.Some? then field.value else "");
    if v == "true" then true else if v == "false" then false else global
  }

  lemma LowerTwice(s: string)
    ensures Lower(Lower(s)) == Lower(s)
  {
  }

  /** The comparison ignores the case of ASCII letters. */
  lemma TriStateIgnoresCase(s: string, global: bool)
    ensures TriState(Some(s), global) == TriState(Some(Lower(s)), global)
  {
    LowerTwice(s);
  }

  /** A missing value keeps the global setting, and a value changes it only
      when it spells the opposite of the global setting, in any letter case. */
  lemma TriStateOverrides(s: string, global: bool)
    ensures TriState(None, global) == global
    ensures TriState(Some(s), global) != global <==> Lower(s) == (if global then "false" else "true")
  {
  }

  /** The task one CSV row becomes. */
  function Task(site: SiteRow, g: Globals, rule: DepthRule): (t: SiteTask)
    ensures t.url == site.url && t.name == site.name
    ensures rule == Capped ==> t.depth <= g.depth
    ensures t.saveHtml == TriState(site.saveHtml, g.saveHtml)
    ensures t.pagination == TriState(site.pagination, g.pagination)
  {
    var depth := match rule
      case Capped => CappedDepth(site.depth, g.depth)
      case Override => OverrideDepth(site.depth, g.depth);
    SiteTask(site.url, site.name, depth, TriState(site.saveHtml, g.saveHtml),
             TriState(site.pagination, g.pagination))
  }

  // ---------------------------------------------------------------------
  // The resume filter and the task list.

  /** A site still to crawl: its stripped URL is not among the processed
      ones. */
  function PendingIn(processed: seq<string>): SiteRow -> bool {
    (site: SiteRow) => Strip(site.url) !in processed
  }

  /** The tasks of `pending`, in order. */
  function Configure(pending: seq<SiteRow>, g: Globals, rule: DepthRule): (tasks: seq<SiteTask>)
    ensures |tasks| == |pending|
  {
    if pending == [] then []
    else Configure(pending[..|pending| - 1], g, rule) + [Task(pending[|pending| - 1], g, rule)]
  }

  lemma {:induction false} ConfigureAt(pending: seq<SiteRow>, g: Globals, rule: DepthRule, i: nat)
    requires i < |pending|
    ensures Configure(pending, g, rule)[i] == Task(pending[i], g, rule)
  {
    if i < |pending| - 1 {
      ConfigureAt(pending[..|pending| - 1], g, rule, i);
    }
  }

  lemma ConfigureStep(pending: seq<SiteRow>, g: Globals, rule: DepthRule, k: nat)
    requires k < |pending|
    ensures Configure(pending[..k + 1], g, rule) == Configure(pending[..k], g, rule) + [Task(pending[k], g, rule)]
  {
    assert pending[..k + 1][..k] == pending[..k];
  }

  /** The task list of a run. */
  function Plan(sites: seq<SiteRow>, processed: seq<string>, g: Globals, rule: DepthRule): seq<SiteTask> {
    Configure(Filter(sites, PendingIn(processed)), g, rule)
  }

  /** A row's task is among the tasks of the rows passing a test on
      URLs exactly when the row passes it. */
  lemma {:induction false} TaskOfFiltered(sites: seq<SiteRow>, p: SiteRow -> bool, g: Globals,
                                          rule: DepthRule, site: SiteRow)
    requires site in sites
    requires forall a: SiteRow, b: SiteRow :: a.url == b.url ==> p(a) == p(b)
    ensures Task(site, g, rule) in Configure(Filter(sites, p), g, rule) <==> p(site)
  {
    var pending := Filter(sites, p);
    FilterMembers(sites, p, site);
    if Task(site, g, rule) in Configure(pending, g, rule) {
      var i :| 0 <= i < |pending| && Configure(pending, g, rule)[i] == Task(site, g, rule);
      ConfigureAt(pending, g, rule, i);
      FilterMembers(sites, p, pending[i]);
    }
    if p(site) {
      var i :| 0 <= i < |pending| && pending[i] == site;
      ConfigureAt(pending, g, rule, i);
    }
  }

  /** A CSV row is scheduled exactly when its stripped URL has not been
      processed, and then with its own settings. */
  lemma PlannedIffPending(sites: seq<SiteRow>, processed: seq<string>, g: Globals, rule: DepthRule,
                          site: SiteRow)
    requires site in sites
    ensures Task(site, g, rule) in Plan(sites, processed, g, rule) <==> Strip(site.url) !in processed
  {
    TaskOfFiltered(sites, PendingIn(processed), g, rule, site);
  }

  lemma ConfigureSnoc(pending: seq<SiteRow>, site: SiteRow, g: Globals, rule: DepthRule)
    ensures Configure(pending + [site], g, rule) == Configure(pending, g, rule) + [Task(site, g, rule)]
  {
    assert (pending + [site])[..|pending|] == pending;
  }

  /** One row of the merge loop: a skipped row adds nothing, any other
      row adds its task. */
  lemma MergeStep(sites: seq<SiteRow>, p: SiteRow -> bool, g: Globals, rule: DepthRule, k: nat,
                  before: seq<SiteTask>, after: seq<SiteTask>)
    requires k < |sites| && before == Configure(Filter(sites[..k], p), g, rule)
    requires after == if p(sites[k]) then before + [Task(sites[k], g, rule)] else before
    ensures after == Configure(Filter(sites[..k + 1], p), g, rule)
  {
    var pre, x := sites[..k], sites[k];
    assert sites[..k + 1] == pre + [x];
    FilterSnoc(pre, x, p);
    var f := Filter(pre, p);
    if p(x) {
      assert Filter(sites[..k + 1], p) == f + [x];
      ConfigureSnoc(f, x, g, rule);
    } else {
      assert Filter(sites[..k + 1], p) == f;
    }
  }

  /** One row of the resume filter. */
  lemma FilterStep(sites: seq<SiteRow>, p: SiteRow -> bool, k: nat, before: seq<SiteRow>, after: seq<SiteRow>)
    requires k < |sites| && before == Filter(sites[..k], p)
    requires after == if p(sites[k]) then before + [sites[k]] else before
    ensures after == Filter(sites[..k + 1], p)
  {
    assert sites[..k + 1] == sites[..k] + [sites[k]];
    FilterSnoc(sites[..k], sites[k], p);
  }

  /** The merge loop of the multiprocessing entry points: processed sites
      are skipped, every other row gets the capped depth and its
      overrides. */
  method MergeSiteConfigs(sites: seq<SiteRow>, processed: seq<string>, g: Globals)
    returns (tasks: seq<SiteTask>)
    ensures tasks == Plan(sites, processed, g, Capped)
  {
    tasks := [];
    for i := 0 to |sites|
      invariant tasks == Configure(Filter(sites[..i], PendingIn(processed)), g, Capped)
    {
      var site := sites[i];
      ghost var before := tasks;
      if Strip(site.url) in processed {
        MergeStep(sites, PendingIn(processed), g, Capped, i, before, tasks);
        continue;
      }
      var depth := CappedDepth(site.depth, g.depth);
      var saveHtml := TriState(site.saveHtml, g.saveHtml);
      var pagination := TriState(site.pagination, g.pagination);
      tasks := tasks + [SiteTask(site.url, site.name, depth, saveHtml, pagination)];
      MergeStep(sites, PendingIn(processed), g, Capped, i, before, tasks);
    }
    assert sites[..|sites|] == sites;
  }

  /** The resume filter of the asyncio entry point. */
  method FilterPendingSites(sites: seq<SiteRow>, processed: seq<string>) returns (pending: seq<SiteRow>)
    ensures pending == Filter(sites, PendingIn(processed))
  {
    pending := [];
    for i := 0 to |sites|
      invariant pending == Filter(sites[..i], PendingIn(processed))
    {
      ghost var before := pending;
      if Strip(sites[i].url) in processed {
        FilterStep(sites, PendingIn(processed), i, before, pending);
        continue;
      }
      pending := pending + [sites[i]];
      FilterStep(sites, PendingIn(processed), i, before, pending);
    }
    assert sites[..|sites|] == sites;
  }

  /** The task loop of the asyncio entry point, over the pending sites. */
  method BuildTasks(pending: seq<SiteRow>, g: Globals) returns (tasks: seq<SiteTask>)
    ensures tasks == Configure(pending, g, Override)
  {
    tasks := [];
    for i := 0 to |pending|
      invariant tasks == Configure(pending[..i], g, Override)
    {
      ConfigureStep(pending, g, Override, i);
      var site := pending[i];
      var depth := OverrideDepth(site.depth, g.depth);
      var saveHtml := TriState(site.saveHtml, g.saveHtml);
      var pagination := TriState(site.pagination, g.pagination);
      tasks := tasks + [SiteTask(site.url, site.name, depth, saveHtml, pagination)];
    }
    assert pending[..|pending|] == pending;
  }
}
