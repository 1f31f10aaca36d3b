/** What crawling one page does (`_crawl_single_page` with
    `_record_page_info` and `_extract_and_check_links`), as functions of
    the two ledgers before the page and of the web. The browser, the HTML
    parser and the network are an input, `Web`: what loading a URL gives,
    the URL parts the crawler reads, and the answers to link checks. */
module PageCrawl {
  import opened Text
  import opened Calendar
  import opened Ledger
  import LinkCheck
  import PagePolicy
  import DateExtraction

  // ---------------------------------------------------------------------
  // The web.

  /** A loaded page: a frameset (its frame links), or a document with its
      `<title>`, the date evidence found in it, and its anchors split into
      same-host links (fragment removed) and links to other hosts. */
  datatype Body =
    | Frameset(frameLinks: seq<string>)
    | Document(title: Option<string>, evidence: DateExtraction.DateEvidence,
               internal: seq<string>, external: seq<string>)

  /** `page.goto(url)`: it raises, or answers with a status, the URL after
      redirects and the page. */
  datatype Load = LoadFailed | Loaded(status: int, actualUrl: string, body: Body)

  datatype Web = Web(
    path: string -> string,                     // urlparse(url).path
    query: string -> string,                    // urlparse(url).query
    load: string -> Load,
    segments: string -> nat,                    // non-empty path segments
    queryKeys: string -> seq<string>,           // parse_qs(query).keys()
    sameContent: (string, string) -> bool,      // _compare_page_content
    linkAnswers: string -> nat -> LinkCheck.Outcome,
    sitemapLink: string -> Option<string>,      // _find_sitemap_link
    sitemapLinks: string -> seq<string>,        // _extract_links_from_sitemap
    today: Ymd)

  /** The tag `crawl_site` reads from a page's result (`CrawlResult.html`);
      `Ordinary` stands for a page's HTML, `Error` for an error message. */
  datatype Tag =
    | Ordinary | SkippedDuplicate | SkippedPagination | SkippedFile
    | ListPagination | FramesetContainer | Error

  /** `(CrawlResult, internal_links, page_title, actual_url)`, with the
      status of the result; the link set is kept in first-seen order. */
  datatype PageOutcome = PageOutcome(tag: Tag, status: int, links: seq<string>, title: string, actualUrl: string)

  /** The ledgers after a page, and its outcome. */
  datatype PageStep = PageStep(outcome: PageOutcome, pages: seq<Entry<PageRecord>>, external: seq<Entry<ExternalRecord>>)

  /** A navigation that neither raised nor answered 400 or above. */
  predicate Answers(l: Load) {
    l.Loaded? && l.status < 400
  }

  /** The navigation the page's result comes from: the URL itself, or for
      an `http://` URL that failed, its `https://` variant. */
  datatype Landing = Landing(retried: bool, requested: string, status: int, actualUrl: string, body: Body)

  function Land(web: Web, url: string): (r: Option<Landing>)
    ensures r.Some? && !r.value.retried ==> r.value.requested == url && Answers(web.load(url))
    ensures r.Some? && r.value.retried ==>
      (!Answers(web.load(url)) && StartsWith(url, "http://") && r.value.requested == LinkCheck.HttpsVariant(url))
    ensures r.None? <==>
      (!Answers(web.load(url)) && (StartsWith(url, "http://") ==> !Answers(web.load(LinkCheck.HttpsVariant(url)))))
  {
    var first := web.load(url);
    if Answers(first) then Some(Landing(false, url, first.status, first.actualUrl, first.body))
    else if StartsWith(url, "http://") && Answers(web.load(LinkCheck.HttpsVariant(url))) then
      var second := web.load(LinkCheck.HttpsVariant(url));
      Some(Landing(true, LinkCheck.HttpsVariant(url), second.status, second.actualUrl, second.body))
    else None
  }

  /** The status a failed page is recorded with: that of the last
      navigation that answered, 0 when none did. */
  function FailureStatus(web: Web, url: string): int {
    var first := if web.load(url).Loaded? then web.load(url).status else 0;
    if StartsWith(url, "http://") && web.load(LinkCheck.HttpsVariant(url)).Loaded? then
      web.load(LinkCheck.HttpsVariant(url)).status
    else first
  }

  /** The name reported for a skipped file: `url.split('/')[-1]`, or
      "skipped_file" when that is empty. */
  function SkippedFileName(url: string): (r: string)
    ensures r != ""
  {
    if LastSegment(url) != "" then LastSegment(url) else "skipped_file"
  }

  /** The ledger as the scan reads it. */
  function SeenEntries(pages: seq<Entry<PageRecord>>): (r: seq<PagePolicy.Seen>)
    ensures |r| == |pages|
    ensures forall i :: 0 <= i < |pages| ==> r[i] == PagePolicy.Seen(pages[i].key, pages[i].value.title)
  {
    if pages == [] then []
    else SeenEntries(pages[..|pages| - 1]) + [PagePolicy.Seen(pages[|pages| - 1].key, pages[|pages| - 1].value.title)]
  }

  /** What the scan knows about the page that just loaded. */
  function Facts(web: Web, actualUrl: string, title: string): PagePolicy.PageFacts {
    PagePolicy.PageFacts(actualUrl, title, web.segments, web.queryKeys(actualUrl),
      (u: string) => web.sameContent(actualUrl, u))
  }

  /** The tag a scan verdict gives. */
  function VerdictTag(v: PagePolicy.Verdict): Tag {
    match v
    case New => Ordinary
    case Duplicate => SkippedDuplicate
    case ListPagination => ListPagination
    case SkippedPagination => SkippedPagination
  }

  /** The result of a navigation that answered: a frameset reports its
      frames; a document reached at the first attempt takes the scan's
      verdict, one reached over the `https://` retry is ordinary. */
  function LandedOutcome(pages: seq<Entry<PageRecord>>, web: Web, ld: Landing, savePages: bool, enablePagination: bool): (o: PageOutcome)
  {
    match ld.body
    case Frameset(frames) => PageOutcome(FramesetContainer, ld.status, Dedup(frames), "Frameset Container", ld.actualUrl)
    case Document(t, _, internal, _) =>
      var title := PagePolicy.PageTitle(t, ld.requested);
      var tag := if ld.retried then Ordinary
        else VerdictTag(PagePolicy.Classify(SeenEntries(pages), Facts(web, ld.actualUrl, title), savePages, enablePagination));
      var links := if tag == Ordinary || tag == ListPagination then Dedup(internal) else [];
      PageOutcome(tag, ld.status, links, title, ld.actualUrl)
  }

  /** The result of crawling `url` (the return value of
      `_crawl_single_page`). */
  function PageResult(pages: seq<Entry<PageRecord>>, web: Web, url: string, savePages: bool, enablePagination: bool): (o: PageOutcome)
  {
    if PagePolicy.IsSkippedFile(web.path(url), web.query(url)) then
      PageOutcome(SkippedFile, 200, [], SkippedFileName(url), url)
    else
      match Land(web, url)
      case None => PageOutcome(Error, FailureStatus(web, url), [], "", url)
      case Some(ld) => LandedOutcome(pages, web, ld, savePages, enablePagination)
  }

  /** `source_page` of a record: the parent's URL and title as the crawl
      knows it ("" when it has none), or none for a page without parent. */
  function SourceOf(parent: string, titles: map<string, string>): (r: Option<SourcePage>)
    ensures r.Some? <==> parent != ""
    ensures r.Some? ==> r.value.url == parent
  {
    if parent != "" then Some(SourcePage(if parent in titles then titles[parent] else "", parent)) else None
  }

  /** `_save_page_content`'s return value: a placeholder when pages are not
      saved, else the file name made from the title. */
  function FilePath(savePages: bool, title: string): string {
    if savePages then PagePolicy.SanitizeName(title, false) else "[未儲存] " + title + ".html"
  }

  /** The outcome and the ledgers after a navigation that answered: an
      ordinary page is recorded under the URL reached and checks its
      external links; any other result changes neither ledger. */
  function LandedStep(pages: seq<Entry<PageRecord>>, external: seq<Entry<ExternalRecord>>, web: Web, ld: Landing,
                      parent: string, depth: nat, titles: map<string, string>,
                      savePages: bool, enablePagination: bool): PageStep
  {
    var o := LandedOutcome(pages, web, ld, savePages, enablePagination);
    match ld.body
    case Document(_, evidence, _, links) =>
      if o.tag == Ordinary then
        PageStep(o,
          Put(pages, o.actualUrl, PageRecord(o.title, DateExtraction.LastUpdated(evidence, web.today),
            FilePath(savePages, o.title), o.status, depth, SourceOf(parent, titles))),
          CheckedLedger(external, Dedup(links), SourcePage(o.title, ld.requested), web.linkAnswers))
      else PageStep(o, pages, external)
    case Frameset(_) => PageStep(o, pages, external)
  }

  /** The outcome and the ledgers after a page whose navigations all
      failed: a failure record under the URL requested. */
  function FailedStep(pages: seq<Entry<PageRecord>>, external: seq<Entry<ExternalRecord>>, web: Web,
                      url: string, parent: string, depth: nat, titles: map<string, string>): PageStep
  {
    var o := PageOutcome(Error, FailureStatus(web, url), [], "", url);
    PageStep(o, Put(pages, url, PageRecord("", CrawlFailed, "", o.status, depth, SourceOf(parent, titles))), external)
  }

  /** One call of `_crawl_single_page`: its result and the ledgers after it. */
  function CrawlPage(pages: seq<Entry<PageRecord>>, external: seq<Entry<ExternalRecord>>, web: Web,
                     url: string, parent: string, depth: nat, titles: map<string, string>,
                     savePages: bool, enablePagination: bool): (s: PageStep)
    ensures s.outcome == PageResult(pages, web, url, savePages, enablePagination)
  {
    if PagePolicy.IsSkippedFile(web.path(url), web.query(url)) then
      PageStep(PageOutcome(SkippedFile, 200, [], SkippedFileName(url), url), pages, external)
    else
      match Land(web, url)
      case None => FailedStep(pages, external, web, url, parent, depth, titles)
      case Some(ld) => LandedStep(pages, external, web, ld, parent, depth, titles, savePages, enablePagination)
  }

  // ---------------------------------------------------------------------
  // Properties of one page.

  /** A download or media URL is not opened: status 200, no links, the last
      path segment as its name, and no ledger changes. */
  lemma SkippedFileIsNotRecorded(pages: seq<Entry<PageRecord>>, external: seq<Entry<ExternalRecord>>, web: Web,
                                 url: string, parent: string, depth: nat, titles: map<string, string>, save: bool, paginate: bool)
    requires PagePolicy.IsSkippedFile(web.path(url), web.query(url))
    ensures var s := CrawlPage(pages, external, web, url, parent, depth, titles, save, paginate);
      s.outcome == PageOutcome(SkippedFile, 200, [], SkippedFileName(url), url)
      && s.pages == pages && s.external == external
  {
  }

  /** Only ordinary and failed pages are recorded, only ordinary pages check
      links, and only ordinary, list and frameset pages report links. */
  lemma LedgerEffects(pages: seq<Entry<PageRecord>>, external: seq<Entry<ExternalRecord>>, web: Web,
                      url: string, parent: string, depth: nat, titles: map<string, string>, save: bool, paginate: bool)
    requires DistinctKeys(pages) && DistinctKeys(external)
    ensures var s := CrawlPage(pages, external, web, url, parent, depth, titles, save, paginate);
      var o := s.outcome;
      DistinctKeys(s.pages) && DistinctKeys(s.external)
      && (o.tag != Ordinary && o.tag != Error ==> s.pages == pages)
      && (o.tag != Ordinary ==> s.external == external)
      && (o.tag == Error ==>
            (o.links == [] && o.actualUrl == url && o.title == ""
             && Lookup(s.pages, url) == Some(PageRecord("", CrawlFailed, "", o.status, depth, SourceOf(parent, titles)))))
      && (o.tag == Ordinary ==>
            (Lookup(s.pages, o.actualUrl).Some?
             && Lookup(s.pages, o.actualUrl).value.status == o.status
             && Lookup(s.pages, o.actualUrl).value.source == SourceOf(parent, titles)))
      && (forall k :: k != url && k != o.actualUrl ==> Lookup(s.pages, k) == Lookup(pages, k))
      && (o.tag == SkippedDuplicate || o.tag == SkippedPagination || o.tag == SkippedFile || o.tag == Error ==> o.links == [])
  {
    if !PagePolicy.IsSkippedFile(web.path(url), web.query(url)) {
      match Land(web, url)
      case None =>
        PutSpec(pages, url, PageRecord("", CrawlFailed, "", FailureStatus(web, url), depth, SourceOf(parent, titles)));
      case Some(ld) =>
        LandedEffects(pages, external, web, ld, parent, depth, titles, save, paginate);
    }
  }

  /** `LedgerEffects` for a navigation that answered. */
  lemma LandedEffects(pages: seq<Entry<PageRecord>>, external: seq<Entry<ExternalRecord>>, web: Web, ld: Landing,
                      parent: string, depth: nat, titles: map<string, string>, save: bool, paginate: bool)
    requires DistinctKeys(pages) && DistinctKeys(external)
    ensures var s := LandedStep(pages, external, web, ld, parent, depth, titles, save, paginate);
      var o := s.outcome;
      DistinctKeys(s.pages) && DistinctKeys(s.external)
      && o.tag != Error && o.tag != SkippedFile
      && (o.tag != Ordinary ==> s.pages == pages && s.external == external)
      && (o.tag == Ordinary ==>
            (Lookup(s.pages, o.actualUrl).Some?
             && Lookup(s.pages, o.actualUrl).value.status == o.status
             && Lookup(s.pages, o.actualUrl).value.source == SourceOf(parent, titles)))
      && (forall k :: k != o.actualUrl ==> Lookup(s.pages, k) == Lookup(pages, k))
      && (o.tag == SkippedDuplicate || o.tag == SkippedPagination ==> o.links == [])
  {
    var o := LandedOutcome(pages, web, ld, save, paginate);
    match ld.body
    case Document(_, evidence, _, links) =>
      if o.tag == Ordinary {
        RecordAndCheck(pages, external, o.actualUrl,
          PageRecord(o.title, DateExtraction.LastUpdated(evidence, web.today),
            FilePath(save, o.title), o.status, depth, SourceOf(parent, titles)),
          Dedup(links), SourcePage(o.title, ld.requested), web.linkAnswers);
      }
    case Frameset(_) =>
  }

  /** Recording a page and checking its links keep both ledgers' keys
      distinct and change the page ledger at the page's key only. */
  lemma RecordAndCheck(pages: seq<Entry<PageRecord>>, external: seq<Entry<ExternalRecord>>, key: string, rec: PageRecord,
                       links: seq<string>, source: SourcePage, answers: string -> nat -> LinkCheck.Outcome)
    requires DistinctKeys(pages) && DistinctKeys(external) && NoDuplicates(links)
    ensures var p := Put(pages, key, rec);
      DistinctKeys(p) && DistinctKeys(CheckedLedger(external, links, source, answers))
      && Lookup(p, key) == Some(rec)
      && (forall k :: k != key ==> Lookup(p, k) == Lookup(pages, k))
  {
    PutSpec(pages, key, rec);
    CheckedLedgerSpec(external, links, source, answers);
  }

  /** A page reached over the `https://` retry is recorded as an ordinary
      page without looking at the ledger, even when the URL it reached is
      already recorded. */
  lemma RetriedPageSkipsScan(pages: seq<Entry<PageRecord>>, web: Web, url: string, save: bool, paginate: bool)
    requires !PagePolicy.IsSkippedFile(web.path(url), web.query(url))
    requires Land(web, url).Some? && Land(web, url).value.retried && Land(web, url).value.body.Document?
    ensures PageResult(pages, web, url, save, paginate).tag == Ordinary
  {
  }

  /** A page that loads at the first attempt takes the scan's verdict. */
  lemma FirstLoadIsScanned(pages: seq<Entry<PageRecord>>, web: Web, url: string, save: bool, paginate: bool)
    requires !PagePolicy.IsSkippedFile(web.path(url), web.query(url))
    requires Answers(web.load(url)) && web.load(url).body.Document?
    ensures var l := web.load(url);
      var title := PagePolicy.PageTitle(l.body.title, url);
      var o := PageResult(pages, web, url, save, paginate);
      o.tag == VerdictTag(PagePolicy.Classify(SeenEntries(pages), Facts(web, l.actualUrl, title), save, paginate))
      && o.title == title && o.actualUrl == l.actualUrl && o.status == l.status
  {
  }

  /** A page that fails reports the last status it was answered with and
      is recorded under the URL requested. */
  lemma FailedPage(pages: seq<Entry<PageRecord>>, web: Web, url: string, save: bool, paginate: bool)
    requires !PagePolicy.IsSkippedFile(web.path(url), web.query(url))
    requires !Answers(web.load(url))
    requires StartsWith(url, "http://") ==> !Answers(web.load(LinkCheck.HttpsVariant(url)))
    ensures PageResult(pages, web, url, save, paginate) == PageOutcome(Error, FailureStatus(web, url), [], "", url)
  {
  }

  // ---------------------------------------------------------------------
  // The external-link ledger.

  /** The first loop over the page's unique links: a link not yet in the
      ledger is entered with status 0 and this page as its source. */
  function RegisterLinks(ledger: seq<Entry<ExternalRecord>>, links: seq<string>, source: SourcePage): seq<Entry<ExternalRecord>>
  {
    if links == [] then ledger
    else
      var l := RegisterLinks(ledger, links[..|links| - 1], source);
      var x := links[|links| - 1];
      if HasKey(l, x) then l else Put(l, x, ExternalRecord(0, source))
  }

  /** `links_to_check`: the links that loop entered. */
  function NewLinks(ledger: seq<Entry<ExternalRecord>>, links: seq<string>, source: SourcePage): seq<string>
  {
    if links == [] then []
    else
      var n := NewLinks(ledger, links[..|links| - 1], source);
      var x := links[|links| - 1];
      if HasKey(RegisterLinks(ledger, links[..|links| - 1], source), x) then n else n + [x]
  }

  /** `external_link_results[link]["status"] = status`: the source stays. */
  function SetStatus(ledger: seq<Entry<ExternalRecord>>, link: string, status: int): seq<Entry<ExternalRecord>> {
    if HasKey(ledger, link) then Put(ledger, link, ExternalRecord(status, Lookup(ledger, link).value.source))
    else ledger
  }

  /** The statuses `check_link_status` reports, written in the order the
      links were checked. */
  function SetStatuses(ledger: seq<Entry<ExternalRecord>>, links: seq<string>, answers: string -> nat -> LinkCheck.Outcome): seq<Entry<ExternalRecord>>
  {
    if links == [] then ledger
    else
      var x := links[|links| - 1];
      SetStatus(SetStatuses(ledger, links[..|links| - 1], answers), x, LinkCheck.CheckLinkStatus(x, answers(x)).status)
  }

  function CheckedLedger(ledger: seq<Entry<ExternalRecord>>, links: seq<string>, source: SourcePage,
                         answers: string -> nat -> LinkCheck.Outcome): seq<Entry<ExternalRecord>> {
    SetStatuses(RegisterLinks(ledger, links, source), NewLinks(ledger, links, source), answers)
  }

  /** The per-page map `_extract_and_check_links` returns. */
  function LinkStatuses(ledger: seq<Entry<ExternalRecord>>, links: seq<string>): map<string, int> {
    map l | l in links && HasKey(ledger, l) :: Lookup(ledger, l).value.status
  }

  lemma {:induction false} RegisterLinksSpec(ledger: seq<Entry<ExternalRecord>>, links: seq<string>, source: SourcePage)
    requires DistinctKeys(ledger) && NoDuplicates(links)
    ensures var r := RegisterLinks(ledger, links, source);
      var n := NewLinks(ledger, links, source);
      DistinctKeys(r)
      && Keys(r) == Keys(ledger) + n
      && NoDuplicates(n)
      && (forall x :: x in n <==> x in links && !HasKey(ledger, x))
      && (forall k :: HasKey(ledger, k) ==> Lookup(r, k) == Lookup(ledger, k))
      && (forall k :: k in n ==> Lookup(r, k) == Some(ExternalRecord(0, source)))
      && (forall k :: !HasKey(ledger, k) && k !in links ==> !HasKey(r, k))
  {
    if links != [] {
      var init, x := links[..|links| - 1], links[|links| - 1];
      assert links == init + [x];
      NoDuplicatesInit(links);
      RegisterLinksSpec(ledger, init, source);
      var l := RegisterLinks(ledger, init, source);
      var n0 := NewLinks(ledger, init, source);
      if !HasKey(l, x) {
        PutSpec(l, x, ExternalRecord(0, source));
        assert x !in n0;
        NoDuplicatesSnoc(n0, x);
      } else {
        // x is already a key: since it is not among the earlier links, it
        // was a key of the ledger from the start.
        assert HasKey(ledger, x);
      }
    }
  }

  lemma PutKeys<V>(l: seq<Entry<V>>, key: string, value: V)
    requires DistinctKeys(l) && HasKey(l, key)
    ensures Keys(Put(l, key, value)) == Keys(l) && DistinctKeys(Put(l, key, value))
  {
    PutSpec(l, key, value);
  }

  lemma {:induction false} SetStatusesSpec(ledger: seq<Entry<ExternalRecord>>, links: seq<string>, answers: string -> nat -> LinkCheck.Outcome)
    requires DistinctKeys(ledger) && NoDuplicates(links)
    requires forall x :: x in links ==> HasKey(ledger, x)
    ensures var r := SetStatuses(ledger, links, answers);
      DistinctKeys(r) && Keys(r) == Keys(ledger)
      && (forall k :: k !in links ==> Lookup(r, k) == Lookup(ledger, k))
      && (forall k :: k in links ==>
            Lookup(r, k) == Some(ExternalRecord(LinkCheck.CheckLinkStatus(k, answers(k)).status, Lookup(ledger, k).value.source)))
  {
    if links != [] {
      var init, x := links[..|links| - 1], links[|links| - 1];
      assert links == init + [x];
      NoDuplicatesInit(links);
      SetStatusesSpec(ledger, init, answers);
      var l := SetStatuses(ledger, init, answers);
      assert Lookup(l, x) == Lookup(ledger, x);
      assert HasKey(l, x);
      var st := LinkCheck.CheckLinkStatus(x, answers(x)).status;
      PutSpec(l, x, ExternalRecord(st, Lookup(l, x).value.source));
    }
  }

  /** The external-link ledger after a page: the links already present keep
      their record (they are neither re-checked nor re-attributed), the new
      ones are appended in order, each with its checked status and this page
      as source, and no other key appears. */
  lemma CheckedLedgerSpec(ledger: seq<Entry<ExternalRecord>>, links: seq<string>, source: SourcePage,
                          answers: string -> nat -> LinkCheck.Outcome)
    requires DistinctKeys(ledger) && NoDuplicates(links)
    ensures var r := CheckedLedger(ledger, links, source, answers);
      var n := NewLinks(ledger, links, source);
      DistinctKeys(r)
      && Keys(r) == Keys(ledger) + n
      && (forall x :: x in n <==> x in links && !HasKey(ledger, x))
      && (forall k :: HasKey(ledger, k) ==> Lookup(r, k) == Lookup(ledger, k))
      && (forall k :: k in n ==> Lookup(r, k) == Some(ExternalRecord(LinkCheck.CheckLinkStatus(k, answers(k)).status, source)))
      && (forall k :: HasKey(r, k) <==> HasKey(ledger, k) || k in links)
  {
    var reg := RegisterLinks(ledger, links, source);
    var n := NewLinks(ledger, links, source);
    RegisterLinksSpec(ledger, links, source);
    forall x | x in n ensures HasKey(reg, x) {
      assert Lookup(reg, x).Some?;
    }
    SetStatusesSpec(reg, n, answers);
    var r := CheckedLedger(ledger, links, source, answers);
    forall k ensures HasKey(r, k) <==> HasKey(ledger, k) || k in links {
      assert Lookup(r, k).Some? <==> Lookup(reg, k).Some? || k in n;
    }
  }

  /** The map returned for the page covers every one of its external links,
      new or already known, with the status now in the ledger. */
  lemma LinkStatusesCover(ledger: seq<Entry<ExternalRecord>>, links: seq<string>, source: SourcePage,
                          answers: string -> nat -> LinkCheck.Outcome)
    requires DistinctKeys(ledger) && NoDuplicates(links)
    ensures var r := CheckedLedger(ledger, links, source, answers);
      var m := LinkStatuses(r, links);
      (forall l :: l in m <==> l in links)
      && (forall l :: l in links && HasKey(ledger, l) ==> m[l] == Lookup(ledger, l).value.status)
      && (forall l :: l in links && !HasKey(ledger, l) ==> m[l] == LinkCheck.CheckLinkStatus(l, answers(l)).status)
  {
    CheckedLedgerSpec(ledger, links, source, answers);
  }
}
