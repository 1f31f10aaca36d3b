/** Per-page decisions of the crawler that depend on no I/O: the test for
    download and media URLs, the scan of the page ledger that recognises a
    page already crawled or a list page with pagination parameters, the page
    title fallback, and the file-name cleanup used when pages are saved. */
module PagePolicy {
  import opened Text

  // ---------------------------------------------------------------------
  // Download and media files.

  /** The extensions of files the crawler does not open. */
  const SkipExtensions: seq<string> := [
    ".pdf", ".doc", ".docx", ".xls", ".xlsx", ".ods", ".odt", ".ppt", ".pptx",
    ".zip", ".rar", ".7z", ".tar", ".gz",
    ".jpg", ".jpeg", ".png", ".gif", ".bmp", ".svg", ".webp", ".ico",
    ".mp4", ".avi", ".mov", ".wmv", ".flv", ".webm", ".mkv",
    ".mp3", ".wav", ".flac", ".aac", ".ogg",
    ".txt", ".csv", ".json", ".xml"
  ]

  /** The URL's path, lower-cased, ends with a listed extension, or its
      query, lower-cased, contains one anywhere. */
  predicate IsSkippedFile(path: string, query: string) {
    exists e :: e in SkipExtensions && (EndsWith(Lower(path), e) || Contains(Lower(query), e))
  }

  lemma LowerConcat(a: string, b: string)
    ensures Lower(a + b) == Lower(a) + Lower(b)
  {
  }

  /** The extension test ignores letter case: `/Report.PDF` is skipped. */
  lemma SkippedInAnyCase(path: string, ext: string, query: string)
    requires Lower(ext) in SkipExtensions
    ensures IsSkippedFile(path + ext, query)
  {
    LowerConcat(path, ext);
    var l := Lower(path + ext);
    assert l[|l| - |Lower(ext)|..] == Lower(ext);
  }

  lemma {:induction false} ContainsSuffix(s: string, pre: string, sub: string)
    ensures Contains(pre + sub + s, sub)
    decreases |pre|
  {
    if pre == [] {
      assert (pre + sub + s)[..|sub|] == sub;
    } else {
      assert (pre + sub + s)[1..] == pre[1..] + sub + s;
      ContainsSuffix(s, pre[1..], sub);
    }
  }

  /** A listed extension anywhere in the query is enough, in any letter
      case (`download?file=a.PDF&x=1`), whatever the path. */
  lemma SkippedByQuery(path: string, before: string, ext: string, after: string)
    requires Lower(ext) in SkipExtensions
    ensures IsSkippedFile(path, before + ext + after)
  {
    LowerConcat(before + ext, after);
    LowerConcat(before, ext);
    ContainsSuffix(Lower(after), Lower(before), Lower(ext));
  }

  // ---------------------------------------------------------------------
  // The page title.

  /** The `<title>` text, or else the URL's last path segment, or else
      "index". */
  function PageTitle(title: Option<string>, url: string): (r: string)
    ensures title.None? ==> r != "" && '/' !in r
  {
    match title
    case Some(t) => t
    case None => if LastSegment(url) != "" then LastSegment(url) else "index"
  }

  // ---------------------------------------------------------------------
  // The ledger scan.

  /** The query keys, lower-cased, that mark a list page. */
  const PaginationKeys: set<string> := {"page", "pagesize", "offset", "limit", "start", "count", "p", "pn"}

  /** Some query key of the URL, lower-cased, is a pagination key. The keys
      are those `parse_qs` reports (it drops keys with blank values). */
  predicate HasPaginationKey(queryKeys: seq<string>) {
    exists k :: k in queryKeys && Lower(k) in PaginationKeys
  }

  /** What the scan needs to know about the page being crawled and the pages
      already in the ledger: its final URL and title, the number of non-empty
      path segments of any URL, its own query keys, and whether its content
      equals the saved content of an earlier URL. */
  datatype PageFacts = PageFacts(
    actualUrl: string,
    title: string,
    segments: string -> nat,
    queryKeys: seq<string>,
    sameContent: string -> bool)

  /** One ledger entry as the scan sees it. */
  datatype Seen = Seen(url: string, title: string)

  datatype Verdict = New | Duplicate | ListPagination | SkippedPagination

  /** The entry decides the verdict: same URL, or same title. */
  predicate Decides(e: Seen, f: PageFacts) {
    e.url == f.actualUrl || e.title == f.title
  }

  /** The verdict the first deciding entry gives. */
  function Decide(e: Seen, f: PageFacts, savePages: bool, enablePagination: bool): Verdict {
    if e.url == f.actualUrl then Duplicate
    else if f.segments(f.actualUrl) == f.segments(e.url) then
      if HasPaginationKey(f.queryKeys) then
        (if enablePagination then ListPagination else SkippedPagination)
      else New
    else if savePages then (if f.sameContent(e.url) then Duplicate else New)
    else Duplicate
  }

  /** The scan over the ledger in insertion order: entries that decide
      nothing are passed over, and the first one that does ends the scan. */
  function Classify(ledger: seq<Seen>, f: PageFacts, savePages: bool, enablePagination: bool): (v: Verdict)
    ensures v != New ==> exists e :: e in ledger && Decides(e, f)
    ensures (v == ListPagination || v == SkippedPagination) ==> HasPaginationKey(f.queryKeys)
    ensures v == ListPagination ==> enablePagination
    ensures v == SkippedPagination ==> !enablePagination
  {
    if ledger == [] then New
    else if Decides(ledger[0], f) then Decide(ledger[0], f, savePages, enablePagination)
    else Classify(ledger[1..], f, savePages, enablePagination)
  }

  /** Only the first deciding entry matters; what follows it is never read. */
  lemma {:induction false} FirstDecidingEntry(prefix: seq<Seen>, e: Seen, rest: seq<Seen>, f: PageFacts, save: bool, paginate: bool)
    requires forall x :: x in prefix ==> !Decides(x, f)
    requires Decides(e, f)
    ensures Classify(prefix + [e] + rest, f, save, paginate) == Decide(e, f, save, paginate)
  {
    if prefix != [] {
      assert (prefix + [e] + rest)[1..] == prefix[1..] + [e] + rest;
      FirstDecidingEntry(prefix[1..], e, rest, f, save, paginate);
    }
  }

  /** A page whose URL and title match nothing in the ledger is new. */
  lemma {:induction false} UnmatchedIsNew(ledger: seq<Seen>, f: PageFacts, save: bool, paginate: bool)
    requires forall x :: x in ledger ==> !Decides(x, f)
    ensures Classify(ledger, f, save, paginate) == New
  {
    if ledger != [] {
      UnmatchedIsNew(ledger[1..], f, save, paginate);
    }
  }

  /** A URL already in the ledger is a duplicate when no earlier entry
      shares the page's title. */
  lemma RecordedUrlIsDuplicate(ledger: seq<Seen>, i: nat, f: PageFacts, save: bool, paginate: bool)
    requires i < |ledger| && ledger[i].url == f.actualUrl
    requires forall j :: 0 <= j < i ==> ledger[j].url != f.actualUrl && ledger[j].title != f.title
    ensures Classify(ledger, f, save, paginate) == Duplicate
  {
    assert ledger == ledger[..i] + [ledger[i]] + ledger[i + 1..];
    FirstDecidingEntry(ledger[..i], ledger[i], ledger[i + 1..], f, save, paginate);
  }

  /** But a URL already in the ledger is not always a duplicate: an earlier
      entry with the same title, the same number of path segments and no
      pagination key ends the scan with "new" before the URL is reached. */
  lemma RecordedUrlCanBeNew()
    ensures
      var f := PageFacts("https://a.example/news/2", "News", _ => 2, [], _ => false);
      var ledger := [Seen("https://a.example/news/1", "News"), Seen("https://a.example/news/2", "News")];
      f.actualUrl == ledger[1].url && Classify(ledger, f, true, true) == New
  {
    var f := PageFacts("https://a.example/news/2", "News", _ => 2, [], _ => false);
    var ledger := [Seen("https://a.example/news/1", "News"), Seen("https://a.example/news/2", "News")];
    assert !HasPaginationKey(f.queryKeys);
    assert Decides(ledger[0], f);
  }

  /** The same-title, same-depth case is decided by the query keys alone. */
  lemma PaginationVerdict(ledger: seq<Seen>, i: nat, f: PageFacts, save: bool, paginate: bool)
    requires i < |ledger| && ledger[i].title == f.title && ledger[i].url != f.actualUrl
    requires f.segments(f.actualUrl) == f.segments(ledger[i].url)
    requires forall j :: 0 <= j < i ==> !Decides(ledger[j], f)
    ensures HasPaginationKey(f.queryKeys) ==>
      Classify(ledger, f, save, paginate) == (if paginate then ListPagination else SkippedPagination)
    ensures !HasPaginationKey(f.queryKeys) ==> Classify(ledger, f, save, paginate) == New
  {
    assert ledger == ledger[..i] + [ledger[i]] + ledger[i + 1..];
    FirstDecidingEntry(ledger[..i], ledger[i], ledger[i + 1..], f, save, paginate);
  }

  /** The same-title, different-depth case: without saved pages there is
      nothing to compare, so it is a duplicate; with them, the content decides. */
  lemma DifferentDepthVerdict(ledger: seq<Seen>, i: nat, f: PageFacts, save: bool, paginate: bool)
    requires i < |ledger| && ledger[i].title == f.title && ledger[i].url != f.actualUrl
    requires f.segments(f.actualUrl) != f.segments(ledger[i].url)
    requires forall j :: 0 <= j < i ==> !Decides(ledger[j], f)
    ensures Classify(ledger, f, save, paginate) == Duplicate <==> !save || f.sameContent(ledger[i].url)
    ensures Classify(ledger, f, save, paginate) != Duplicate ==> Classify(ledger, f, save, paginate) == New
  {
    assert ledger == ledger[..i] + [ledger[i]] + ledger[i + 1..];
    FirstDecidingEntry(ledger[..i], ledger[i], ledger[i + 1..], f, save, paginate);
  }

  /** The scan as the crawler runs it: a loop over the ledger that returns
      at the first deciding entry. */
  method ScanLedger(ledger: seq<Seen>, f: PageFacts, savePages: bool, enablePagination: bool) returns (v: Verdict)
    ensures v == Classify(ledger, f, savePages, enablePagination)
  {
    for i := 0 to |ledger|
      invariant forall j :: 0 <= j < i ==> !Decides(ledger[j], f)
    {
      var e := ledger[i];
      if e.url == f.actualUrl || e.title == f.title {
        assert ledger == ledger[..i] + [e] + ledger[i + 1..];
        FirstDecidingEntry(ledger[..i], e, ledger[i + 1..], f, savePages, enablePagination);
        if e.url == f.actualUrl {
          return Duplicate;
        }
        if f.segments(f.actualUrl) == f.segments(e.url) {
          if HasPaginationKey(f.queryKeys) {
            v := if enablePagination then ListPagination else SkippedPagination;
            return;
          }
          return New;
        }
        if savePages {
          v := if f.sameContent(e.url) then Duplicate else New;
          return;
        }
        return Duplicate;
      }
    }
    UnmatchedIsNew(ledger, f, savePages, enablePagination);
    return New;
  }

  // ---------------------------------------------------------------------
  // File names for saved pages.

  /** Characters no file name may hold. */
  predicate IsReserved(c: char) {
    c == '<' || c == '>' || c == ':' || c == '"' || c == '/' || c == '\\' || c == '|' || c == '?' || c == '*'
  }

  /** Characters that fold into a single underscore. */
  predicate IsSeparator(c: char) {
    c == '_' || c == '-' || IsSpace(c)
  }

  /** Step 1: every reserved character becomes '_'. */
  function ReplaceReserved(s: string): (r: string)
    ensures |r| == |s|
    ensures forall i :: 0 <= i < |r| ==> !IsReserved(r[i])
    ensures forall i :: 0 <= i < |s| ==> r[i] == (if IsReserved(s[i]) then '_' else s[i])
  {
    if s == [] then [] else [if IsReserved(s[0]) then '_' else s[0]] + ReplaceReserved(s[1..])
  }

  /** No reserved character, no separator but '_', and no two '_' in a row. */
  ghost predicate CleanText(s: string) {
    (forall i :: 0 <= i < |s| ==> !IsReserved(s[i]) && (s[i] == '_' || !IsSeparator(s[i])))
    && (forall i, j :: 0 <= i < j < |s| && j == i + 1 ==> !(s[i] == '_' && s[j] == '_'))
  }

  lemma CleanSlice(s: string, lo: nat, hi: nat)
    requires lo <= hi <= |s|
    ensures CleanText(s) ==> CleanText(s[lo..hi])
  {
    if CleanText(s) {
      var t := s[lo..hi];
      forall i, j | 0 <= i < j < |t| && j == i + 1 ensures !(t[i] == '_' && t[j] == '_') {
        assert t[i] == s[lo + i] && t[j] == s[lo + j];
      }
    }
  }

  /** Step 2: every maximal run of separators becomes one '_';
      `inRun` says the previous character belonged to a run. */
  function CollapseRuns(s: string, inRun: bool): (r: string)
    requires forall i :: 0 <= i < |s| ==> !IsReserved(s[i])
    ensures |r| <= |s|
    ensures CleanText(r)
    ensures inRun && r != [] ==> r[0] != '_'
  {
    if s == [] then []
    else if IsSeparator(s[0]) then
      (if inRun then CollapseRuns(s[1..], true) else ['_'] + CollapseRuns(s[1..], true))
    else [s[0]] + CollapseRuns(s[1..], false)
  }

  /** Step 3: `strip(' _')`. */
  function TrimUnderscores(s: string): (r: string)
    ensures |r| <= |s|
    ensures r != [] ==> r[0] != '_' && r[0] != ' ' && r[|r| - 1] != '_' && r[|r| - 1] != ' '
    ensures CleanText(s) ==> CleanText(r)
  {
    if s != [] && (s[0] == '_' || s[0] == ' ') then
      CleanSlice(s, 1, |s|);
      TrimUnderscores(s[1..])
    else if s != [] && (s[|s| - 1] == '_' || s[|s| - 1] == ' ') then
      CleanSlice(s, 0, |s| - 1);
      TrimUnderscores(s[..|s| - 1])
    else s
  }

  /** The cleaned stem: steps 1 to 3, cut to 150 characters. */
  function CleanStem(name: string): (r: string)
    ensures |r| <= 150
    ensures CleanText(r)
    ensures r != [] ==> r[0] != '_'
  {
    var collapsed := CollapseRuns(ReplaceReserved(name), false);
    var trimmed := TrimUnderscores(collapsed);
    if |trimmed| <= 150 then trimmed
    else
      CleanSlice(trimmed, 0, 150);
      trimmed[..150]
  }

  /** The test "is not a separator", as a predicate value for `Filter`. */
  function NotSeparator(): char -> bool {
    c => !IsSeparator(c)
  }

  lemma FilterSingle(c: char)
    ensures Filter([c], NotSeparator()) == if IsSeparator(c) then [] else [c]
  {
    assert [c][..0] == [];
  }

  /** Collapsing keeps every character that is not a separator, in order. */
  lemma {:induction false} CollapseKeepsText(s: string, inRun: bool)
    requires forall i :: 0 <= i < |s| ==> !IsReserved(s[i])
    ensures Filter(CollapseRuns(s, inRun), NotSeparator()) == Filter(s, NotSeparator())
  {
    if s != [] {
      var p := NotSeparator();
      var rest := CollapseRuns(s[1..], IsSeparator(s[0]));
      CollapseKeepsText(s[1..], IsSeparator(s[0]));
      var head: string := if !IsSeparator(s[0]) then [s[0]] else if inRun then [] else "_";
      assert CollapseRuns(s, inRun) == head + rest;
      assert s == [s[0]] + s[1..];
      FilterConcat([s[0]], s[1..], p);
      FilterConcat(head, rest, p);
      FilterSingle(s[0]);
      FilterSingle('_');
      assert Filter([], p) == [];
    }
  }

  /** A maximal run of separators becomes one '_' (nothing more when the
      run was already under way), and a single other character stays. */
  lemma {:induction false} CollapseRun(t: string, inRun: bool)
    requires t != [] && forall i :: 0 <= i < |t| ==> IsSeparator(t[i]) && !IsReserved(t[i])
    ensures CollapseRuns(t, inRun) == if inRun then "" else "_"
  {
    if |t| > 1 {
      CollapseRun(t[1..], true);
    }
  }

  lemma CollapseCons(c: char, s: string, inRun: bool)
    requires !IsReserved(c) && forall i :: 0 <= i < |s| ==> !IsReserved(s[i])
    ensures CollapseRuns([c] + s, inRun)
         == (if !IsSeparator(c) then [c] else if inRun then [] else "_") + CollapseRuns(s, IsSeparator(c))
  {
    assert ([c] + s)[0] == c && ([c] + s)[1..] == s;
  }

  /** Whether a string leaves a run under way: it ends in a separator, or
      it is empty and a run was under way before it. */
  predicate EndsInRun(s: string, inRun: bool) {
    if s == [] then inRun else IsSeparator(s[|s| - 1])
  }

  lemma EndsInRunTail(s: string, inRun: bool)
    requires s != []
    ensures EndsInRun(s[1..], IsSeparator(s[0])) == EndsInRun(s, inRun)
  {
    if |s| > 1 {
      assert s[1..][|s| - 2] == s[|s| - 1];
    }
  }

  /** Collapsing works piecewise: the second piece continues a run exactly
      when the first ends in a separator. With `CollapseRun` this says that
      each maximal run of separators becomes exactly one '_'. */
  lemma {:induction false} CollapseAppend(s: string, t: string, inRun: bool)
    requires forall i :: 0 <= i < |s| ==> !IsReserved(s[i])
    requires forall i :: 0 <= i < |t| ==> !IsReserved(t[i])
    ensures CollapseRuns(s + t, inRun) == CollapseRuns(s, inRun) + CollapseRuns(t, EndsInRun(s, inRun))
    decreases |s|
  {
    if s == [] {
      assert s + t == t;
    } else {
      var sep := IsSeparator(s[0]);
      var a := CollapseRuns(s[1..], sep);
      var b := CollapseRuns(t, EndsInRun(s, inRun));
      assert s == [s[0]] + s[1..] && s + t == [s[0]] + (s[1..] + t);
      CollapseAppend(s[1..], t, sep);
      EndsInRunTail(s, inRun);
      CollapseCons(s[0], s[1..] + t, inRun);
      CollapseCons(s[0], s[1..], inRun);
      Regroup(if !sep then [s[0]] else if inRun then [] else "_", a, b);
    }
  }

  lemma Regroup(x: string, y: string, z: string)
    ensures x + (y + z) == (x + y) + z
  {
  }

  /** The characters `strip(' _')` removes. */
  predicate Trimmed(c: char) {
    c == ' ' || c == '_'
  }

  /** `strip(' _')` returns a slice of its input, and what it cuts from
      either end is ' ' or '_' (the second ensures of `TrimUnderscores` says
      the cutting goes as far as it can). */
  lemma {:induction false} TrimSlice(s: string) returns (lo: nat, hi: nat)
    ensures lo <= hi <= |s| && TrimUnderscores(s) == s[lo..hi]
    ensures forall i :: 0 <= i < lo ==> Trimmed(s[i])
    ensures forall i :: hi <= i < |s| ==> Trimmed(s[i])
  {
    if s != [] && Trimmed(s[0]) {
      lo, hi := TrimSlice(s[1..]);
      ShiftSlice(s, lo, hi);
      lo, hi := lo + 1, hi + 1;
    } else if s != [] && Trimmed(s[|s| - 1]) {
      lo, hi := TrimSlice(s[..|s| - 1]);
      assert s[..|s| - 1][lo..hi] == s[lo..hi];
    } else {
      lo, hi := 0, |s|;
    }
  }

  lemma ShiftSlice(s: string, lo: nat, hi: nat)
    requires s != [] && Trimmed(s[0]) && lo <= hi <= |s| - 1
    requires forall i :: 0 <= i < lo ==> Trimmed(s[1..][i])
    requires forall i :: hi <= i < |s| - 1 ==> Trimmed(s[1..][i])
    ensures s[1..][lo..hi] == s[lo + 1..hi + 1]
    ensures forall i :: 0 <= i < lo + 1 ==> Trimmed(s[i])
    ensures forall i :: hi + 1 <= i < |s| ==> Trimmed(s[i])
  {
    forall i | 1 <= i < |s| ensures s[i] == s[1..][i - 1] {
    }
  }

  lemma {:induction false} NothingKept(s: string)
    requires forall i :: 0 <= i < |s| ==> Trimmed(s[i])
    ensures Filter(s, NotSeparator()) == []
  {
    if s != [] {
      NothingKept(s[..|s| - 1]);
      assert IsSpace(' ');
    }
  }

  /** `strip(' _')` drops no character that is not a separator. */
  lemma TrimKeepsText(s: string)
    ensures Filter(TrimUnderscores(s), NotSeparator()) == Filter(s, NotSeparator())
  {
    var p := NotSeparator();
    var lo, hi := TrimSlice(s);
    var trimmed := s[lo..hi];
    assert s == s[..lo] + trimmed + s[hi..];
    NothingKept(s[..lo]);
    NothingKept(s[hi..]);
    FilterConcat(s[..lo], trimmed, p);
    FilterConcat(s[..lo] + trimmed, s[hi..], p);
  }

  /** The stem keeps, in order, the characters of the name that are neither
      reserved nor separators: all of them when it is shorter than 150
      characters, the first of them otherwise. It is empty only when the
      name has none. */
  lemma CleanStemKeepsText(name: string)
    ensures var kept := Filter(ReplaceReserved(name), NotSeparator());
      var r := Filter(CleanStem(name), NotSeparator());
      |r| <= |kept| && r == kept[..|r|]
      && (|CleanStem(name)| < 150 ==> r == kept)
      && (kept != [] ==> CleanStem(name) != [])
  {
    var p := NotSeparator();
    var replaced := ReplaceReserved(name);
    var collapsed := CollapseRuns(replaced, false);
    CollapseKeepsText(replaced, false);
    var trimmed := TrimUnderscores(collapsed);
    TrimKeepsText(collapsed);
    if |trimmed| > 150 {
      assert trimmed == trimmed[..150] + trimmed[150..];
      FilterConcat(trimmed[..150], trimmed[150..], p);
    }
  }

  /** `_sanitize_name(name, is_dir)`: the cleaned stem, then `_links` for a
      directory, or `.html` unless the stem already has a dot. */
  function SanitizeName(name: string, isDir: bool): (r: string)
    ensures isDir ==> r == CleanStem(name) + "_links"
    ensures !isDir && '.' in CleanStem(name) ==> r == CleanStem(name)
    ensures !isDir && '.' !in CleanStem(name) ==> r == CleanStem(name) + ".html"
  {
    var stem := CleanStem(name);
    assert '/' !in stem by {
      assert IsReserved('/');
    }
    if isDir then stem + "_links"
    else if '.' in LastSegment(stem) then stem
    else stem + ".html"
  }

  /** A sanitised name holds no reserved character and no whitespace or
      dash, is at most 156 characters long, and a file name always carries
      a dot. */
  lemma SanitizedNameIsSafe(name: string, isDir: bool)
    ensures var r := SanitizeName(name, isDir);
      |r| <= 156
      && (forall i :: 0 <= i < |r| ==> !IsReserved(r[i]) && !IsSpace(r[i]) && r[i] != '-')
      && (!isDir ==> '.' in r)
  {
    var stem := CleanStem(name);
    var r := SanitizeName(name, isDir);
    assert forall i :: 0 <= i < |stem| ==> !IsSpace(stem[i]) && stem[i] != '-';
    if !isDir && '.' !in stem {
      assert r[|stem|] == '.';
    }
  }
}
