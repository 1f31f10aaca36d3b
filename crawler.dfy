/** The crawler agent (`WebCrawler`): it owns the two ledgers and updates
    them page by page, and `crawl_site` walks a site breadth first from its
    homepage (or from its sitemap) down to a maximum depth. */
module Crawler {
  import opened Text
  import opened Ledger
  import opened PageCrawl
  import LinkCheck
  import PagePolicy
  import DateExtraction

  // ---------------------------------------------------------------------
  // The traversal, as ghost history.

  /** A queue entry `(url, parent_url, depth)`. */
  datatype QItem = QItem(url: string, parent: string, depth: int)

  /** A page the crawl opened, and what came of it. */
  datatype Visit = Visit(item: QItem, outcome: PageOutcome)

  /** The URLs a sequence of visits adds to `visited`: each one requested
      and each one reached. */
  ghost function Touched(vs: seq<Visit>): set<string> {
    if vs == [] then {}
    else Touched(vs[..|vs| - 1]) + {vs[|vs| - 1].item.url, vs[|vs| - 1].outcome.actualUrl}
  }

  /** Every visit requests a URL no earlier visit requested or reached. */
  ghost predicate FreshVisits(vs: seq<Visit>) {
    vs == [] || (FreshVisits(vs[..|vs| - 1]) && vs[|vs| - 1].item.url !in Touched(vs[..|vs| - 1]))
  }

  /** `crawl_site` appends a page's status unless the page was a duplicate
      or a list page. */
  predicate Reports(t: Tag) {
    t != SkippedDuplicate && t != ListPagination
  }

  /** The statuses the loop appends to `all_results`. */
  ghost function Statuses(vs: seq<Visit>): seq<int> {
    if vs == [] then []
    else
      var last := vs[|vs| - 1];
      Statuses(vs[..|vs| - 1]) + (if Reports(last.outcome.tag) then [last.outcome.status] else [])
  }

  ghost function RootStatuses(roots: seq<Visit>): seq<int> {
    if roots == [] then [] else RootStatuses(roots[..|roots| - 1]) + [roots[|roots| - 1].outcome.status]
  }

  /** Visit `w` puts `q` on the queue: a list page passes its links on at
      its own depth and under its own parent, an ordinary, frameset or
      failed page under itself one level deeper, and only below the
      maximum depth. */
  ghost predicate Enqueues(w: Visit, q: QItem, maxDepth: int) {
    q.url in w.outcome.links && w.item.depth < maxDepth
    && ((w.outcome.tag == ListPagination && q.parent == w.item.parent && q.depth == w.item.depth)
        || ((w.outcome.tag == Ordinary || w.outcome.tag == FramesetContainer || w.outcome.tag == Error)
            && q.parent == w.item.url && q.depth == w.item.depth + 1))
  }

  /** A queue entry is one of the seed links at depth 1 under the start
      page, or was put on the queue by an earlier visit. */
  ghost predicate Derived(prior: seq<Visit>, q: QItem, start: string, seeds: seq<string>, maxDepth: int) {
    (q.depth == 1 && q.parent == start && q.url in seeds)
    || exists j :: 0 <= j < |prior| && Enqueues(prior[j], q, maxDepth)
  }

  /** The ledger holds a record for every ordinary page under the URL it
      reached, and for every failed page under the URL requested. */
  ghost predicate Recorded(pages: seq<Entry<PageRecord>>, v: Visit) {
    (v.outcome.tag == Ordinary ==> HasKey(pages, v.outcome.actualUrl))
    && (v.outcome.tag == Error ==> HasKey(pages, v.item.url))
  }

  /** Links the web can show: every link of every page body and of every
      sitemap lies in `universe`. */
  ghost predicate LinksWithin(web: Web, universe: set<string>) {
    (forall u, l :: l in BodyLinks(web.load(u)) ==> l in universe)
    && (forall u, l :: l in web.sitemapLinks(u) ==> l in universe)
  }

  function BodyLinks(l: Load): seq<string> {
    if l.Loaded? then
      match l.body
      case Frameset(frames) => frames
      case Document(_, _, internal, _) => internal
    else []
  }

  /** The entries `for link in links: if link not in visited:
      queue.append((link, parent, depth))` adds, in order. */
  function Enqueued(links: seq<string>, visited: set<string>, parent: string, depth: int): (r: seq<QItem>)
    ensures forall q :: q in r <==> q.url in links && q.url !in visited && q.parent == parent && q.depth == depth
    ensures |r| <= |links|
  {
    if links == [] then []
    else
      var x := links[|links| - 1];
      assert forall y :: y in links <==> y in links[..|links| - 1] || y == x;
      Enqueued(links[..|links| - 1], visited, parent, depth)
        + (if x !in visited then [QItem(x, parent, depth)] else [])
  }

  method EnqueueLinks(queue: seq<QItem>, links: seq<string>, visited: set<string>, parent: string, depth: int)
    returns (r: seq<QItem>)
    ensures r == queue + Enqueued(links, visited, parent, depth)
  {
    r := queue;
    for i := 0 to |links|
      invariant r == queue + Enqueued(links[..i], visited, parent, depth)
    {
      assert links[..i + 1][..i] == links[..i];
      if links[i] !in visited {
        r := r + [QItem(links[i], parent, depth)];
      }
    }
    assert links[..|links|] == links;
  }

  /** The first queue when there is a sitemap page: its seeds not yet
      visited, at depth 1 under the homepage, or the homepage's links when
      that leaves nothing. */
  method SeedQueue(web: Web, start: string, sitemap: Visit, homeLinks: seq<string>, visited: set<string>,
                   ghost universe: set<string>)
    returns (queue: seq<QItem>)
    requires LinksWithin(web, universe)
    requires forall l :: l in sitemap.outcome.links ==> l in universe
    requires forall l :: l in homeLinks ==> l in universe
    ensures var fromSitemap := Enqueued(SitemapSeeds(web, sitemap), visited, start, 1);
      queue == if fromSitemap != [] then fromSitemap else Enqueued(homeLinks, visited, start, 1)
    ensures forall q :: q in queue ==> q.url in universe && q.depth == 1 && q.parent == start
  {
    var sm := sitemap.item.url;
    var seeds: seq<string> := [];
    if sitemap.outcome.status < 400 {
      if sitemap.outcome.tag == Ordinary {
        seeds := Dedup(web.sitemapLinks(sm));
      } else {
        // A marker or an error text has no main content: the extraction
        // returns the sitemap itself.
        seeds := [sm];
      }
      if sm in seeds {
        seeds := sitemap.outcome.links;
      }
    }
    queue := EnqueueLinks([], seeds, visited, start, 1);
    if queue == [] {
      queue := EnqueueLinks([], homeLinks, visited, start, 1);
    }
  }

  // ---------------------------------------------------------------------
  // Lemmas about the history.

  lemma {:induction false} TouchedHas(vs: seq<Visit>, i: nat)
    requires i < |vs|
    ensures vs[i].item.url in Touched(vs) && vs[i].outcome.actualUrl in Touched(vs)
  {
    if i < |vs| - 1 {
      TouchedHas(vs[..|vs| - 1], i);
    }
  }

  /** At-most-once: no visit requests a URL an earlier visit requested or
      landed on. */
  lemma {:induction false} FreshDistinct(vs: seq<Visit>)
    requires FreshVisits(vs)
    ensures forall i, j :: 0 <= i < j < |vs| ==>
      vs[j].item.url != vs[i].item.url && vs[j].item.url != vs[i].outcome.actualUrl
  {
    if vs != [] {
      var init := vs[..|vs| - 1];
      FreshDistinct(init);
      forall i | 0 <= i < |init| ensures vs[|vs| - 1].item.url != vs[i].item.url && vs[|vs| - 1].item.url != vs[i].outcome.actualUrl {
        TouchedHas(init, i);
      }
    }
  }

  lemma DerivedGrows(prior: seq<Visit>, v: Visit, q: QItem, start: string, seeds: seq<string>, maxDepth: int)
    requires Derived(prior, q, start, seeds, maxDepth)
    ensures Derived(prior + [v], q, start, seeds, maxDepth)
  {
    if !(q.depth == 1 && q.parent == start && q.url in seeds) {
      var j :| 0 <= j < |prior| && Enqueues(prior[j], q, maxDepth);
      assert (prior + [v])[j] == prior[j];
    }
  }

  /** The links a page reports come from its body. */
  lemma OutcomeLinksWithin(pages: seq<Entry<PageRecord>>, web: Web, url: string, save: bool, paginate: bool, universe: set<string>)
    requires LinksWithin(web, universe)
    ensures forall l :: l in PageResult(pages, web, url, save, paginate).links ==> l in universe
  {
    var o := PageResult(pages, web, url, save, paginate);
    if !PagePolicy.IsSkippedFile(web.path(url), web.query(url)) && Land(web, url).Some? {
      var ld := Land(web, url).value;
      var load := web.load(ld.requested);
      assert load.Loaded? && load.body == ld.body;
      forall l | l in o.links ensures l in universe {
        assert l in BodyLinks(load);
      }
    }
  }

  /** A page never removes a key from the page ledger. */
  lemma PagesKeepKeys(pages: seq<Entry<PageRecord>>, external: seq<Entry<ExternalRecord>>, web: Web,
                      url: string, parent: string, depth: nat, titles: map<string, string>, save: bool, paginate: bool)
    requires DistinctKeys(pages) && DistinctKeys(external)
    ensures var s := CrawlPage(pages, external, web, url, parent, depth, titles, save, paginate);
      forall k :: HasKey(pages, k) ==> HasKey(s.pages, k)
  {
    var o := PageResult(pages, web, url, save, paginate);
    if o.tag == Error {
      PutKeepsKeys(pages, url, PageRecord("", CrawlFailed, "", o.status, depth, SourceOf(parent, titles)));
    } else if o.tag == Ordinary {
      match Land(web, url)
      case Some(Landing(_, _, _, _, Document(_, evidence, _, _))) =>
        PutKeepsKeys(pages, o.actualUrl, PageRecord(o.title, DateExtraction.LastUpdated(evidence, web.today),
          FilePath(save, o.title), o.status, depth, SourceOf(parent, titles)));
      case _ =>
    }
  }

  /** One more visit, to a URL not yet touched. */
  lemma Extend(history: seq<Visit>, v: Visit)
    requires FreshVisits(history) && v.item.url !in Touched(history)
    ensures FreshVisits(history + [v])
    ensures Touched(history + [v]) == Touched(history) + {v.item.url, v.outcome.actualUrl}
  {
    assert (history + [v])[..|history|] == history;
  }

  lemma StatusesStep(visits: seq<Visit>, v: Visit)
    ensures Statuses(visits + [v]) == Statuses(visits) + (if Reports(v.outcome.tag) then [v.outcome.status] else [])
  {
    assert (visits + [v])[..|visits|] == visits;
  }

  lemma RecordedKept(history: seq<Visit>, v: Visit, before: seq<Entry<PageRecord>>, after: seq<Entry<PageRecord>>)
    requires forall k :: 0 <= k < |history| ==> Recorded(before, history[k])
    requires forall key :: HasKey(before, key) ==> HasKey(after, key)
    requires Recorded(after, v)
    ensures forall k :: 0 <= k < |history + [v]| ==> Recorded(after, (history + [v])[k])
  {
    forall k | 0 <= k < |history + [v]| ensures Recorded(after, (history + [v])[k]) {
      if k < |history| {
        assert (history + [v])[k] == history[k];
      }
    }
  }

  /** Every visit of the loop took an entry derived from the visits before
      it. */
  ghost predicate Lineage(visits: seq<Visit>, start: string, seeds: seq<string>, maxDepth: int) {
    visits == []
    || (Lineage(visits[..|visits| - 1], start, seeds, maxDepth)
        && Derived(visits[..|visits| - 1], visits[|visits| - 1].item, start, seeds, maxDepth))
  }

  lemma {:induction false} LineageAll(visits: seq<Visit>, start: string, seeds: seq<string>, maxDepth: int)
    requires Lineage(visits, start, seeds, maxDepth)
    ensures forall k :: 0 <= k < |visits| ==> Derived(visits[..k], visits[k].item, start, seeds, maxDepth)
  {
    if visits != [] {
      var init := visits[..|visits| - 1];
      LineageAll(init, start, seeds, maxDepth);
      forall k | 0 <= k < |init| ensures Derived(visits[..k], visits[k].item, start, seeds, maxDepth) {
        assert visits[..k] == init[..k];
      }
    }
  }

  lemma QueueGrows(queue: seq<QItem>, visits: seq<Visit>, v: Visit, start: string, seeds: seq<string>, maxDepth: int)
    requires forall q :: q in queue ==> Derived(visits, q, start, seeds, maxDepth)
    ensures forall q :: q in queue ==> Derived(visits + [v], q, start, seeds, maxDepth)
  {
    forall q | q in queue ensures Derived(visits + [v], q, start, seeds, maxDepth) {
      DerivedGrows(visits, v, q, start, seeds, maxDepth);
    }
  }

  /** The entries a visit puts on the queue are derived from it. */
  lemma ChildrenDerived(visits: seq<Visit>, v: Visit, visited: set<string>, parent: string, depth: int, start: string, seeds: seq<string>, maxDepth: int)
    requires v.item.depth < maxDepth
    requires (v.outcome.tag == ListPagination && parent == v.item.parent && depth == v.item.depth)
      || ((v.outcome.tag == Ordinary || v.outcome.tag == FramesetContainer || v.outcome.tag == Error)
          && parent == v.item.url && depth == v.item.depth + 1)
    ensures forall q :: q in Enqueued(v.outcome.links, visited, parent, depth) ==> Derived(visits + [v], q, start, seeds, maxDepth)
  {
    forall q | q in Enqueued(v.outcome.links, visited, parent, depth) ensures Derived(visits + [v], q, start, seeds, maxDepth) {
      assert (visits + [v])[|visits|] == v && Enqueues(v, q, maxDepth);
    }
  }

  /** A page whose links the loop follows one level down. */
  predicate Spawns(t: Tag) {
    t == Ordinary || t == FramesetContainer || t == Error
  }

  /** The queue after visit `v`, with `rest` what was behind it. */
  ghost function QueueAfter(rest: seq<QItem>, v: Visit, visited: set<string>, maxDepth: int): seq<QItem> {
    if v.item.depth < maxDepth && v.outcome.tag == ListPagination then
      rest + Enqueued(v.outcome.links, visited, v.item.parent, v.item.depth)
    else if v.item.depth < maxDepth && Spawns(v.outcome.tag) then
      rest + Enqueued(v.outcome.links, visited, v.item.url, v.item.depth + 1)
    else rest
  }

  /** The queue after a visit (lines 990-1006): a list page passes its links
      on at its own level and under its own parent, the other pages that
      spawn one level down under themselves, and nothing is added at the
      depth limit. */
  method NextQueue(rest: seq<QItem>, v: Visit, visited: set<string>, maxDepth: int) returns (queue: seq<QItem>)
    ensures queue == QueueAfter(rest, v, visited, maxDepth)
  {
    if v.item.depth < maxDepth && v.outcome.tag == ListPagination {
      queue := EnqueueLinks(rest, v.outcome.links, visited, v.item.parent, v.item.depth);
    } else if v.item.depth < maxDepth && Spawns(v.outcome.tag) {
      queue := EnqueueLinks(rest, v.outcome.links, visited, v.item.url, v.item.depth + 1);
    } else {
      queue := rest;
    }
  }

  /** What holds of the crawl at the head of the loop. */
  ghost predicate Progress(start: string, seeds: seq<string>, maxDepth: int, universe: set<string>, roots: seq<Visit>, visits: seq<Visit>,
                           visited: set<string>, allResults: seq<int>, queue: seq<QItem>, pages: seq<Entry<PageRecord>>)
  {
    visited == Touched(roots + visits) && FreshVisits(roots + visits)
    && allResults == RootStatuses(roots) + Statuses(visits)
    && (forall q :: q in queue ==> q.url in universe && q.depth >= 1 && Derived(visits, q, start, seeds, maxDepth))
    && (forall k :: 0 <= k < |visits| ==> 1 <= visits[k].item.depth <= maxDepth)
    && Lineage(visits, start, seeds, maxDepth)
    && (forall k :: 0 <= k < |roots + visits| ==> Recorded(pages, (roots + visits)[k]))
  }

  /** An entry already visited, or too deep, is dropped. */
  lemma DropStep(start: string, seeds: seq<string>, maxDepth: int, universe: set<string>, roots: seq<Visit>, visits: seq<Visit>,
                 visited: set<string>, allResults: seq<int>, queue: seq<QItem>, pages: seq<Entry<PageRecord>>)
    requires queue != []
    requires Progress(start, seeds, maxDepth, universe, roots, visits, visited, allResults, queue, pages)
    ensures Progress(start, seeds, maxDepth, universe, roots, visits, visited, allResults, queue[1..], pages)
  {
    assert forall q :: q in queue[1..] ==> q in queue;
  }

  lemma QueueStep(start: string, seeds: seq<string>, maxDepth: int, universe: set<string>, visits: seq<Visit>,
                  visited': set<string>, queue: seq<QItem>, page: PageOutcome)
    requires queue != [] && queue[0].depth <= maxDepth
    requires forall q :: q in queue ==> q.url in universe && q.depth >= 1 && Derived(visits, q, start, seeds, maxDepth)
    requires forall l :: l in page.links ==> l in universe
    ensures var v := Visit(queue[0], page);
      forall q :: q in QueueAfter(queue[1..], v, visited', maxDepth) ==>
        q.url in universe && q.depth >= 1 && Derived(visits + [v], q, start, seeds, maxDepth)
  {
    var item := queue[0];
    assert item in queue;
    var v := Visit(item, page);
    QueueGrows(queue[1..], visits, v, start, seeds, maxDepth);
    assert forall q :: q in queue[1..] ==> q in queue;
    if v.item.depth < maxDepth && v.outcome.tag == ListPagination {
      ChildrenDerived(visits, v, visited', item.parent, item.depth, start, seeds, maxDepth);
    } else if v.item.depth < maxDepth && Spawns(v.outcome.tag) {
      ChildrenDerived(visits, v, visited', item.url, item.depth + 1, start, seeds, maxDepth);
    }
  }

  lemma LineageStep(start: string, seeds: seq<string>, maxDepth: int, visits: seq<Visit>, v: Visit)
    requires Lineage(visits, start, seeds, maxDepth) && Derived(visits, v.item, start, seeds, maxDepth)
    requires forall k :: 0 <= k < |visits| ==> 1 <= visits[k].item.depth <= maxDepth
    requires 1 <= v.item.depth <= maxDepth
    ensures Lineage(visits + [v], start, seeds, maxDepth)
    ensures forall k :: 0 <= k < |visits + [v]| ==> 1 <= (visits + [v])[k].item.depth <= maxDepth
  {
    assert (visits + [v])[..|visits|] == visits;
  }

  lemma HistoryStep(roots: seq<Visit>, visits: seq<Visit>, visited: set<string>, v: Visit,
                    before: seq<Entry<PageRecord>>, after: seq<Entry<PageRecord>>)
    requires visited == Touched(roots + visits) && FreshVisits(roots + visits) && v.item.url !in visited
    requires forall k :: 0 <= k < |roots + visits| ==> Recorded(before, (roots + visits)[k])
    requires forall k :: HasKey(before, k) ==> HasKey(after, k)
    requires Recorded(after, v)
    ensures visited + {v.item.url, v.outcome.actualUrl} == Touched(roots + (visits + [v]))
    ensures FreshVisits(roots + (visits + [v]))
    ensures forall k :: 0 <= k < |roots + (visits + [v])| ==> Recorded(after, (roots + (visits + [v]))[k])
  {
    assert (roots + visits) + [v] == roots + (visits + [v]);
    Extend(roots + visits, v);
    RecordedKept(roots + visits, v, before, after);
  }

  /** The loop starts from the pages opened before it. */
  lemma Begin(start: string, seeds: seq<string>, maxDepth: int, universe: set<string>, roots: seq<Visit>,
              visited: set<string>, allResults: seq<int>, queue: seq<QItem>, pages: seq<Entry<PageRecord>>)
    requires visited == Touched(roots) && FreshVisits(roots) && allResults == RootStatuses(roots)
    requires forall q :: q in queue ==> q.url in universe && q.depth == 1 && q.parent == start && q.url in seeds
    requires forall k :: 0 <= k < |roots| ==> Recorded(pages, roots[k])
    ensures Progress(start, seeds, maxDepth, universe, roots, [], visited, allResults, queue, pages)
  {
    assert roots + [] == roots;
  }

  /** What the loop's invariant gives once the queue is empty. */
  lemma Conclude(start: string, seeds: seq<string>, maxDepth: int, universe: set<string>, roots: seq<Visit>, visits: seq<Visit>,
                 visited: set<string>, allResults: seq<int>, queue: seq<QItem>, pages: seq<Entry<PageRecord>>)
    requires Progress(start, seeds, maxDepth, universe, roots, visits, visited, allResults, queue, pages)
    ensures allResults == RootStatuses(roots) + Statuses(visits)
    ensures forall i, j :: 0 <= i < j < |roots + visits| ==>
      (roots + visits)[j].item.url != (roots + visits)[i].item.url
      && (roots + visits)[j].item.url != (roots + visits)[i].outcome.actualUrl
    ensures forall k :: 0 <= k < |visits| ==> 1 <= visits[k].item.depth <= maxDepth
    ensures forall k :: 0 <= k < |visits| ==> Derived(visits[..k], visits[k].item, start, seeds, maxDepth)
    ensures forall k :: 0 <= k < |roots + visits| ==> Recorded(pages, (roots + visits)[k])
  {
    FreshDistinct(roots + visits);
    LineageAll(visits, start, seeds, maxDepth);
  }

  /** The homepage alone. */
  lemma HomeRoot(v: Visit)
    ensures FreshVisits([v]) && Touched([v]) == {v.item.url, v.outcome.actualUrl}
    ensures RootStatuses([v]) == [v.outcome.status]
  {
    assert [v][..0] == [];
  }

  /** The sitemap page after the homepage. */
  lemma RootStep(roots: seq<Visit>, v: Visit, before: seq<Entry<PageRecord>>, after: seq<Entry<PageRecord>>)
    requires FreshVisits(roots) && v.item.url !in Touched(roots)
    requires forall k :: 0 <= k < |roots| ==> Recorded(before, roots[k])
    requires forall k :: HasKey(before, k) ==> HasKey(after, k)
    requires Recorded(after, v)
    ensures Touched(roots + [v]) == Touched(roots) + {v.item.url, v.outcome.actualUrl} && FreshVisits(roots + [v])
    ensures RootStatuses(roots + [v]) == RootStatuses(roots) + [v.outcome.status]
    ensures forall k :: 0 <= k < |roots + [v]| ==> Recorded(after, (roots + [v])[k])
  {
    Extend(roots, v);
    RecordedKept(roots, v, before, after);
    assert (roots + [v])[..|roots|] == roots;
  }

  /** Visiting the head of the queue keeps the loop's invariant. */
  lemma VisitStep(start: string, seeds: seq<string>, maxDepth: int, universe: set<string>, roots: seq<Visit>, visits: seq<Visit>,
                  visited: set<string>, allResults: seq<int>, queue: seq<QItem>,
                  before: seq<Entry<PageRecord>>, after: seq<Entry<PageRecord>>, page: PageOutcome)
    requires queue != [] && queue[0].url !in visited && queue[0].depth <= maxDepth
    requires Progress(start, seeds, maxDepth, universe, roots, visits, visited, allResults, queue, before)
    requires forall k :: HasKey(before, k) ==> HasKey(after, k)
    requires Recorded(after, Visit(queue[0], page))
    requires forall l :: l in page.links ==> l in universe
    ensures var v := Visit(queue[0], page);
      var visited' := visited + {queue[0].url, page.actualUrl};
      Progress(start, seeds, maxDepth, universe, roots, visits + [v], visited',
               allResults + (if Reports(page.tag) then [page.status] else []),
               QueueAfter(queue[1..], v, visited', maxDepth), after)
  {
    var item := queue[0];
    assert item in queue;
    var v := Visit(item, page);
    HistoryStep(roots, visits, visited, v, before, after);
    StatusesStep(visits, v);
    LineageStep(start, seeds, maxDepth, visits, v);
    QueueStep(start, seeds, maxDepth, universe, visits, visited + {item.url, page.actualUrl}, queue, page);
  }

  /** A visit whose links the loop follows. */
  ghost predicate Feeds(w: Visit, maxDepth: int) {
    w.item.depth < maxDepth && (w.outcome.tag == ListPagination || Spawns(w.outcome.tag))
  }

  /** The entry a visit that feeds the queue makes of its link `l`. */
  ghost function ChildOf(w: Visit, l: string): QItem {
    if w.outcome.tag == ListPagination then QItem(l, w.item.parent, w.item.depth)
    else QItem(l, w.item.url, w.item.depth + 1)
  }

  /** Nothing is lost: every seed link, and every link of a visit that
      feeds the queue, was visited or still waits on the queue. */
  ghost predicate Closed(seeds: seq<string>, start: string, visits: seq<Visit>, visited: set<string>,
                         queue: seq<QItem>, maxDepth: int)
  {
    (maxDepth >= 1 ==> forall l :: l in seeds ==> l in visited || QItem(l, start, 1) in queue)
    && (forall k, l :: 0 <= k < |visits| && Feeds(visits[k], maxDepth) && l in visits[k].outcome.links ==>
          l in visited || ChildOf(visits[k], l) in queue)
  }

  /** The first queue, as `CrawlRoots` builds it, is made of the seed
      links. */
  lemma FirstQueue(web: Web, start: string, roots: seq<Visit>, visited: set<string>, queue: seq<QItem>)
    requires 1 <= |roots| <= 2 && visited == Touched(roots)
    requires |roots| == 1 ==> queue == Enqueued(roots[0].outcome.links, visited, start, 1)
    requires |roots| == 2 ==>
      var fromSitemap := Enqueued(SitemapSeeds(web, roots[1]), visited, start, 1);
      queue == if fromSitemap != [] then fromSitemap else Enqueued(roots[0].outcome.links, visited, start, 1)
    ensures queue == Enqueued(SeedLinks(web, start, roots), visited, start, 1)
  {
  }

  lemma ClosedBegin(seeds: seq<string>, start: string, visited: set<string>, queue: seq<QItem>, maxDepth: int)
    requires queue == Enqueued(seeds, visited, start, 1)
    ensures Closed(seeds, start, [], visited, queue, maxDepth)
  {
  }

  /** Dropping the head keeps nothing waiting that was not visited: the
      entries the closure relies on are never too deep. */
  lemma ClosedDrop(seeds: seq<string>, start: string, visits: seq<Visit>, visited: set<string>,
                   queue: seq<QItem>, maxDepth: int)
    requires queue != [] && (queue[0].url in visited || queue[0].depth > maxDepth)
    requires forall k :: 0 <= k < |visits| ==> visits[k].item.depth <= maxDepth
    requires Closed(seeds, start, visits, visited, queue, maxDepth)
    ensures Closed(seeds, start, visits, visited, queue[1..], maxDepth)
  {
    forall q | q in queue && q != queue[0] ensures q in queue[1..] {
      var i :| 0 <= i < |queue| && queue[i] == q;
      assert queue[1..][i - 1] == q;
    }
  }

  /** Visiting the head marks it visited and queues the links of the new
      visit that are not yet visited. */
  lemma ClosedVisit(seeds: seq<string>, start: string, visits: seq<Visit>, visited: set<string>,
                    queue: seq<QItem>, maxDepth: int, page: PageOutcome)
    requires queue != []
    requires Closed(seeds, start, visits, visited, queue, maxDepth)
    ensures var v := Visit(queue[0], page);
      var visited' := visited + {queue[0].url, page.actualUrl};
      Closed(seeds, start, visits + [v], visited', QueueAfter(queue[1..], v, visited', maxDepth), maxDepth)
  {
    var v := Visit(queue[0], page);
    var visited' := visited + {queue[0].url, page.actualUrl};
    var next := QueueAfter(queue[1..], v, visited', maxDepth);
    assert forall q :: q in queue[1..] ==> q in next;
    forall q | q in queue ensures q.url in visited' || q in next {
      if q != queue[0] {
        var i :| 0 <= i < |queue| && queue[i] == q;
        assert queue[1..][i - 1] == q;
      }
    }
    forall k, l | 0 <= k < |visits + [v]| && Feeds((visits + [v])[k], maxDepth) && l in (visits + [v])[k].outcome.links
      ensures l in visited' || ChildOf((visits + [v])[k], l) in next
    {
      if k < |visits| {
        assert (visits + [v])[k] == visits[k];
      } else {
        assert (visits + [v])[k] == v;
      }
    }
  }

  /** Once the queue is empty, every link the crawl was to follow was
      visited. */
  lemma ClosedEnd(seeds: seq<string>, start: string, visits: seq<Visit>, visited: set<string>, maxDepth: int)
    requires Closed(seeds, start, visits, visited, [], maxDepth)
    ensures maxDepth >= 1 ==> forall l :: l in seeds ==> l in visited
    ensures forall k, l :: 0 <= k < |visits| && Feeds(visits[k], maxDepth) && l in visits[k].outcome.links ==> l in visited
  {
  }

  /** What the traversal needs to know of one page: the ledgers stay
      dicts, no page key is lost, the page is recorded as `Recorded` says,
      and its links lie in the universe. */
  lemma StepFacts(pages: seq<Entry<PageRecord>>, external: seq<Entry<ExternalRecord>>, web: Web,
                  item: QItem, depth: nat, titles: map<string, string>, save: bool, paginate: bool, universe: set<string>)
    requires DistinctKeys(pages) && DistinctKeys(external) && LinksWithin(web, universe)
    ensures var s := CrawlPage(pages, external, web, item.url, item.parent, depth, titles, save, paginate);
      DistinctKeys(s.pages) && DistinctKeys(s.external)
      && (forall k :: HasKey(pages, k) ==> HasKey(s.pages, k))
      && Recorded(s.pages, Visit(item, s.outcome))
      && (forall l :: l in s.outcome.links ==> l in universe)
  {
    LedgerEffects(pages, external, web, item.url, item.parent, depth, titles, save, paginate);
    PagesKeepKeys(pages, external, web, item.url, item.parent, depth, titles, save, paginate);
    OutcomeLinksWithin(pages, web, item.url, save, paginate, universe);
  }

  /** The links the queue is seeded with from a sitemap page: those
      `_extract_links_from_sitemap` finds, or the page's own links when
      that result holds the sitemap itself, as it does for a page whose
      text is a marker or an error message; none if the page failed. */
  ghost function SitemapSeeds(web: Web, sitemap: Visit): seq<string> {
    if sitemap.outcome.status < 400 then
      var found := if sitemap.outcome.tag == Ordinary then Dedup(web.sitemapLinks(sitemap.item.url)) else [];
      if sitemap.outcome.tag != Ordinary || sitemap.item.url in found then sitemap.outcome.links else found
    else []
  }

  /** The links the first queue is made of: the sitemap's seeds when some
      of them are not yet visited, otherwise the homepage's links. */
  ghost function SeedLinks(web: Web, start: string, roots: seq<Visit>): seq<string>
    requires |roots| >= 1
  {
    if |roots| == 2 && Enqueued(SitemapSeeds(web, roots[1]), Touched(roots), start, 1) != [] then
      SitemapSeeds(web, roots[1])
    else roots[0].outcome.links
  }

  // ---------------------------------------------------------------------
  // The crawl as a function of the web.

  /** What `crawl_site` carries from one page to the next: `visited`,
      `all_results`, `url_to_title_map`, the queue, the two ledgers, and the
      pages opened so far with what came of each. */
  datatype CrawlState = CrawlState(visited: set<string>, allResults: seq<int>, titles: map<string, string>,
                                   queue: seq<QItem>, pages: seq<Entry<PageRecord>>,
                                   external: seq<Entry<ExternalRecord>>, history: seq<Visit>)

  /** `url_to_title_map` after the homepage: its title, when it has one. */
  function HomeTitles(start: string, home: PageOutcome): map<string, string> {
    if home.title != "" then map[start := home.title] else map[]
  }

  /** Whether the sitemap page is crawled after the homepage: the homepage
      is an ordinary page below 400 and links to a sitemap not yet visited. */
  predicate VisitsSitemap(web: Web, start: string, home: PageOutcome) {
    home.status < 400 && home.tag == Ordinary && web.sitemapLink(start).Some?
    && web.sitemapLink(start).value !in {start, home.actualUrl}
  }

  /** The state after the homepage `h` alone: its links not yet visited
      make the first queue. */
  ghost function HomeOnly(start: string, h: PageStep): CrawlState {
    var home := h.outcome;
    var visited := {start, home.actualUrl};
    CrawlState(visited, [home.status], HomeTitles(start, home), Enqueued(home.links, visited, start, 1),
               h.pages, h.external, [Visit(QItem(start, "", 0), home)])
  }

  /** The state after the homepage `h` and the sitemap page `sm`, crawled
      as `m`: the sitemap's seeds not yet visited make the first queue, or
      the homepage's links when that leaves nothing. */
  ghost function WithSitemap(web: Web, start: string, sm: string, h: PageStep, m: PageStep): CrawlState {
    var home := h.outcome;
    var smVisit := Visit(QItem(sm, "", 0), m.outcome);
    var visited := {start, home.actualUrl} + {sm, m.outcome.actualUrl};
    var fromSitemap := Enqueued(SitemapSeeds(web, smVisit), visited, start, 1);
    var titles := HomeTitles(start, home);
    CrawlState(visited, [home.status, m.outcome.status],
               if m.outcome.title != "" then titles[sm := m.outcome.title] else titles,
               if fromSitemap != [] then fromSitemap else Enqueued(home.links, visited, start, 1),
               m.pages, m.external, [Visit(QItem(start, "", 0), home), smVisit])
  }

  /** The state before the loop: the homepage crawled against empty
      ledgers, then, as `VisitsSitemap` says, the sitemap page crawled
      against the ledgers the homepage left. `universe` only bounds the
      links, as for `CrawlSite`. */
  ghost function StartState(web: Web, start: string, save: bool, paginate: bool, universe: set<string>): (r: CrawlState)
    requires LinksWithin(web, universe)
    ensures forall q :: q in r.queue ==> q.url in universe && q.depth == 1
  {
    var h := CrawlPage([], [], web, start, "", 0, map[], save, paginate);
    OutcomeLinksWithin([], web, start, save, paginate, universe);
    if VisitsSitemap(web, start, h.outcome) then
      var sm := web.sitemapLink(start).value;
      OutcomeLinksWithin(h.pages, web, sm, save, paginate, universe);
      WithSitemap(web, start, sm, h, CrawlPage(h.pages, h.external, web, sm, "", 0, HomeTitles(start, h.outcome), save, paginate))
    else HomeOnly(start, h)
  }

  /** One turn of the loop: the head of the queue is dropped when it was
      visited or is too deep; otherwise it is crawled against the ledgers as
      they stand, a page that reports adds its status and its title, and
      its links are queued as `QueueAfter` says. */
  ghost function Advance(web: Web, maxDepth: int, save: bool, paginate: bool, s: CrawlState): CrawlState
    requires s.queue != [] && s.queue[0].depth >= 0
  {
    var item := s.queue[0];
    if item.url in s.visited || item.depth > maxDepth then s.(queue := s.queue[1..])
    else
      var step := CrawlPage(s.pages, s.external, web, item.url, item.parent, item.depth, s.titles, save, paginate);
      var page := step.outcome;
      var v := Visit(item, page);
      var visited := s.visited + {item.url, page.actualUrl};
      CrawlState(visited, s.allResults + (if Reports(page.tag) then [page.status] else []),
                 if Reports(page.tag) && page.title != "" then s.titles[item.url := page.title] else s.titles,
                 QueueAfter(s.queue[1..], v, visited, maxDepth), step.pages, step.external, s.history + [v])
  }

  /** A turn that visits the head of the queue, in terms of the step that
      crawls it. */
  lemma VisitAdvance(web: Web, maxDepth: int, save: bool, paginate: bool, s: CrawlState,
                     page: PageOutcome, pages: seq<Entry<PageRecord>>, external: seq<Entry<ExternalRecord>>)
    requires s.queue != [] && s.queue[0].url !in s.visited && 0 <= s.queue[0].depth <= maxDepth
    requires PageStep(page, pages, external)
          == CrawlPage(s.pages, s.external, web, s.queue[0].url, s.queue[0].parent, s.queue[0].depth, s.titles, save, paginate)
    ensures var item := s.queue[0];
      var visited := s.visited + {item.url, page.actualUrl};
      Advance(web, maxDepth, save, paginate, s)
      == CrawlState(visited, s.allResults + (if Reports(page.tag) then [page.status] else []),
                    if Reports(page.tag) && page.title != "" then s.titles[item.url := page.title] else s.titles,
                    QueueAfter(s.queue[1..], Visit(item, page), visited, maxDepth), pages, external,
                    s.history + [Visit(item, page)])
  {
  }

  /** The loop run to the end: the state once the queue is empty. */
  ghost function Run(web: Web, maxDepth: int, save: bool, paginate: bool, universe: set<string>, s: CrawlState): CrawlState
    requires LinksWithin(web, universe)
    requires forall q :: q in s.queue ==> q.url in universe && q.depth >= 0
    decreases universe - s.visited, |s.queue|
  {
    if s.queue == [] then s
    else
      AdvanceWithin(web, maxDepth, save, paginate, universe, s);
      Run(web, maxDepth, save, paginate, universe, Advance(web, maxDepth, save, paginate, s))
  }

  /** A turn keeps the queue inside the universe and either visits a URL of
      the universe not visited before or shortens the queue. */
  lemma AdvanceWithin(web: Web, maxDepth: int, save: bool, paginate: bool, universe: set<string>, s: CrawlState)
    requires LinksWithin(web, universe)
    requires s.queue != [] && forall q :: q in s.queue ==> q.url in universe && q.depth >= 0
    ensures var n := Advance(web, maxDepth, save, paginate, s);
      (forall q :: q in n.queue ==> q.url in universe && q.depth >= 0)
      && (universe - n.visited < universe - s.visited || (n.visited == s.visited && |n.queue| < |s.queue|))
  {
    var item := s.queue[0];
    assert item in s.queue;
    assert forall q :: q in s.queue[1..] ==> q in s.queue;
    if !(item.url in s.visited || item.depth > maxDepth) {
      OutcomeLinksWithin(s.pages, web, item.url, save, paginate, universe);
      var n := Advance(web, maxDepth, save, paginate, s);
      assert item.url in universe - s.visited && item.url !in universe - n.visited;
    }
  }

  /** The loop's invariant: what is left to run ends where the whole crawl
      ends. */
  lemma RunStep(web: Web, maxDepth: int, save: bool, paginate: bool, universe: set<string>, s: CrawlState, n: CrawlState)
    requires LinksWithin(web, universe)
    requires s.queue != [] && forall q :: q in s.queue ==> q.url in universe && q.depth >= 0
    requires n == Advance(web, maxDepth, save, paginate, s)
    ensures forall q :: q in n.queue ==> q.url in universe && q.depth >= 0
    ensures Run(web, maxDepth, save, paginate, universe, n) == Run(web, maxDepth, save, paginate, universe, s)
  {
    AdvanceWithin(web, maxDepth, save, paginate, universe, s);
  }

  /** `StartState` once the homepage was crawled as `h` and, when it is
      visited, the sitemap page as `m`. */
  lemma StartStateIs(web: Web, start: string, save: bool, paginate: bool, universe: set<string>, h: PageStep, m: PageStep)
    requires LinksWithin(web, universe)
    requires h == CrawlPage([], [], web, start, "", 0, map[], save, paginate)
    requires VisitsSitemap(web, start, h.outcome) ==>
      m == CrawlPage(h.pages, h.external, web, web.sitemapLink(start).value, "", 0, HomeTitles(start, h.outcome), save, paginate)
    ensures StartState(web, start, save, paginate, universe)
         == if VisitsSitemap(web, start, h.outcome) then WithSitemap(web, start, web.sitemapLink(start).value, h, m)
            else HomeOnly(start, h)
  {
  }

  /** What the pages opened before the loop, and the first queue, are: the
      homepage crawled against empty ledgers; the sitemap page exactly when
      `VisitsSitemap` says, crawled against the ledgers the homepage left;
      the first queue made of the seed links not yet visited; and both
      pages recorded. */
  lemma StartFacts(web: Web, start: string, save: bool, paginate: bool, universe: set<string>,
                   visited: set<string>, allResults: seq<int>, titles: map<string, string>, queue: seq<QItem>,
                   pages: seq<Entry<PageRecord>>, external: seq<Entry<ExternalRecord>>, roots: seq<Visit>)
    requires LinksWithin(web, universe)
    requires CrawlState(visited, allResults, titles, queue, pages, external, roots)
          == StartState(web, start, save, paginate, universe)
    ensures DistinctKeys(pages) && DistinctKeys(external)
    ensures 1 <= |roots| <= 2
    ensures roots[0] == Visit(QItem(start, "", 0), PageResult([], web, start, save, paginate))
    ensures var home := roots[0].outcome;
      (|roots| == 2 <==>
        (home.status < 400 && home.tag == Ordinary && web.sitemapLink(start).Some?
         && web.sitemapLink(start).value !in {start, home.actualUrl}))
      && (|roots| == 2 ==> roots[1].item == QItem(web.sitemapLink(start).value, "", 0))
    ensures |roots| == 2 ==>
      roots[1].outcome == PageResult(CrawlPage([], [], web, start, "", 0, map[], save, paginate).pages,
                                     web, roots[1].item.url, save, paginate)
    ensures visited == Touched(roots) && FreshVisits(roots)
    ensures allResults == RootStatuses(roots)
    ensures |roots| == 1 ==> queue == Enqueued(roots[0].outcome.links, visited, start, 1)
    ensures |roots| == 2 ==>
      var fromSitemap := Enqueued(SitemapSeeds(web, roots[1]), visited, start, 1);
      queue == if fromSitemap != [] then fromSitemap else Enqueued(roots[0].outcome.links, visited, start, 1)
    ensures queue == Enqueued(SeedLinks(web, start, roots), visited, start, 1)
    ensures forall q :: q in queue ==> q.url in universe && q.depth == 1 && q.parent == start
    ensures forall k :: 0 <= k < |roots| ==> Recorded(pages, roots[k])
  {
    var h := CrawlPage([], [], web, start, "", 0, map[], save, paginate);
    var home := h.outcome;
    var hv := Visit(QItem(start, "", 0), home);
    StepFacts([], [], web, QItem(start, "", 0), 0, map[], save, paginate, universe);
    HomeRoot(hv);
    if VisitsSitemap(web, start, home) {
      var sm := web.sitemapLink(start).value;
      var m := CrawlPage(h.pages, h.external, web, sm, "", 0, HomeTitles(start, home), save, paginate);
      StartStateIs(web, start, save, paginate, universe, h, m);
      StepFacts(h.pages, h.external, web, QItem(sm, "", 0), 0, HomeTitles(start, home), save, paginate, universe);
      var sv := Visit(QItem(sm, "", 0), m.outcome);
      assert roots == [hv] + [sv];
      RootStep([hv], sv, h.pages, m.pages);
    } else {
      StartStateIs(web, start, save, paginate, universe, h, h);
      assert roots == [hv];
    }
    FirstQueue(web, start, roots, visited, queue);
  }

  /** What holds of every state of the loop whose history is `roots`
      followed by the visits of the loop: the ledgers stay dicts, and
      `Progress` and `Closed` hold. */
  ghost predicate Inv(start: string, seeds: seq<string>, maxDepth: int, universe: set<string>, roots: seq<Visit>,
                      s: CrawlState)
  {
    |roots| <= |s.history| && s.history[..|roots|] == roots
    && DistinctKeys(s.pages) && DistinctKeys(s.external)
    && Progress(start, seeds, maxDepth, universe, roots, s.history[|roots|..], s.visited, s.allResults, s.queue, s.pages)
    && Closed(seeds, start, s.history[|roots|..], s.visited, s.queue, maxDepth)
  }

  /** Dropping the head of the queue keeps `Inv`. */
  lemma DropKeeps(start: string, seeds: seq<string>, maxDepth: int, universe: set<string>, roots: seq<Visit>,
                  s: CrawlState)
    requires s.queue != [] && Inv(start, seeds, maxDepth, universe, roots, s)
    requires s.queue[0].url in s.visited || s.queue[0].depth > maxDepth
    ensures Inv(start, seeds, maxDepth, universe, roots, s.(queue := s.queue[1..]))
  {
    var visits := s.history[|roots|..];
    DropStep(start, seeds, maxDepth, universe, roots, visits, s.visited, s.allResults, s.queue, s.pages);
    ClosedDrop(seeds, start, visits, s.visited, s.queue, maxDepth);
  }

  /** Visiting the head of the queue keeps `Inv`, for any page step that
      keeps the ledgers dicts, keeps their keys, records the page and
      reports links of the universe only. */
  lemma VisitKeeps(start: string, seeds: seq<string>, maxDepth: int, universe: set<string>, roots: seq<Visit>,
                   s: CrawlState, page: PageOutcome, after: seq<Entry<PageRecord>>,
                   afterExt: seq<Entry<ExternalRecord>>, titles: map<string, string>)
    requires s.queue != [] && s.queue[0].url !in s.visited && s.queue[0].depth <= maxDepth
    requires Inv(start, seeds, maxDepth, universe, roots, s)
    requires DistinctKeys(after) && DistinctKeys(afterExt)
    requires forall k :: HasKey(s.pages, k) ==> HasKey(after, k)
    requires Recorded(after, Visit(s.queue[0], page))
    requires forall l :: l in page.links ==> l in universe
    ensures var v := Visit(s.queue[0], page);
      var visited := s.visited + {s.queue[0].url, page.actualUrl};
      Inv(start, seeds, maxDepth, universe, roots,
          CrawlState(visited, s.allResults + (if Reports(page.tag) then [page.status] else []), titles,
                     QueueAfter(s.queue[1..], v, visited, maxDepth), after, afterExt, s.history + [v]))
  {
    var visits := s.history[|roots|..];
    assert s.history == roots + visits;
    var v := Visit(s.queue[0], page);
    VisitStep(start, seeds, maxDepth, universe, roots, visits, s.visited, s.allResults, s.queue, s.pages, after, page);
    ClosedVisit(seeds, start, visits, s.visited, s.queue, maxDepth, page);
    var h := s.history + [v];
    assert h == roots + (visits + [v]);
    assert h[..|roots|] == roots && h[|roots|..] == visits + [v];
  }

  /** One turn of the loop keeps `Inv`. */
  lemma AdvanceKeeps(web: Web, save: bool, paginate: bool, start: string, seeds: seq<string>, maxDepth: int,
                     universe: set<string>, roots: seq<Visit>, s: CrawlState)
    requires LinksWithin(web, universe)
    requires s.queue != [] && Inv(start, seeds, maxDepth, universe, roots, s)
    ensures Inv(start, seeds, maxDepth, universe, roots, Advance(web, maxDepth, save, paginate, s))
  {
    var item := s.queue[0];
    if item.url in s.visited || item.depth > maxDepth {
      DropKeeps(start, seeds, maxDepth, universe, roots, s);
    } else {
      assert item in s.queue;
      var step := CrawlPage(s.pages, s.external, web, item.url, item.parent, item.depth, s.titles, save, paginate);
      StepFacts(s.pages, s.external, web, item, item.depth, s.titles, save, paginate, universe);
      VisitAdvance(web, maxDepth, save, paginate, s, step.outcome, step.pages, step.external);
      var page := step.outcome;
      VisitKeeps(start, seeds, maxDepth, universe, roots, s, page, step.pages, step.external,
                 if Reports(page.tag) && page.title != "" then s.titles[item.url := page.title] else s.titles);
    }
  }

  /** `Inv` holds of the state the loop ends in, whose queue is empty. */
  lemma {:induction false} RunKeeps(web: Web, save: bool, paginate: bool, start: string, seeds: seq<string>, maxDepth: int,
                                    universe: set<string>, roots: seq<Visit>, s: CrawlState)
    requires LinksWithin(web, universe)
    requires Inv(start, seeds, maxDepth, universe, roots, s)
    ensures Run(web, maxDepth, save, paginate, universe, s).queue == []
    ensures Inv(start, seeds, maxDepth, universe, roots, Run(web, maxDepth, save, paginate, universe, s))
    decreases universe - s.visited, |s.queue|
  {
    if s.queue != [] {
      AdvanceWithin(web, maxDepth, save, paginate, universe, s);
      AdvanceKeeps(web, save, paginate, start, seeds, maxDepth, universe, roots, s);
      RunKeeps(web, save, paginate, start, seeds, maxDepth, universe, roots, Advance(web, maxDepth, save, paginate, s));
    }
  }

  /** `Inv` holds of the state the crawl starts its loop in. */
  lemma StartInv(web: Web, start: string, maxDepth: int, save: bool, paginate: bool, universe: set<string>)
    requires LinksWithin(web, universe)
    ensures var first := StartState(web, start, save, paginate, universe);
      Inv(start, SeedLinks(web, start, first.history), maxDepth, universe, first.history, first)
  {
    var first := StartState(web, start, save, paginate, universe);
    var roots := first.history;
    StartFacts(web, start, save, paginate, universe, first.visited, first.allResults, first.titles, first.queue,
               first.pages, first.external, roots);
    var seeds := SeedLinks(web, start, roots);
    Begin(start, seeds, maxDepth, universe, roots, first.visited, first.allResults, first.queue, first.pages);
    ClosedBegin(seeds, start, first.visited, first.queue, maxDepth);
    assert first.history[..|roots|] == roots && first.history[|roots|..] == [];
  }

  /** What the whole crawl does, for every web: the pages before the loop
      are those `StartFacts` describes; no page is opened twice; every
      visit of the loop is at a depth from 1 to `maxDepth` and took an entry
      that is a seed link or was queued by an earlier visit; every page is
      recorded; every seed link, and every link of a visit that feeds the
      queue, was visited; and the statuses are those of the pages that
      report, in visiting order. */
  lemma CrawlFacts(web: Web, start: string, maxDepth: int, save: bool, paginate: bool, universe: set<string>,
                   roots: seq<Visit>, visits: seq<Visit>)
    requires LinksWithin(web, universe)
    requires roots == StartState(web, start, save, paginate, universe).history
    requires roots + visits == Run(web, maxDepth, save, paginate, universe, StartState(web, start, save, paginate, universe)).history
    ensures 1 <= |roots| <= 2
    ensures roots[0] == Visit(QItem(start, "", 0), PageResult([], web, start, save, paginate))
    ensures var home := roots[0].outcome;
      (|roots| == 2 <==>
        (home.status < 400 && home.tag == Ordinary && web.sitemapLink(start).Some?
         && web.sitemapLink(start).value !in {start, home.actualUrl}))
      && (|roots| == 2 ==> roots[1].item == QItem(web.sitemapLink(start).value, "", 0))
    ensures var final := Run(web, maxDepth, save, paginate, universe, StartState(web, start, save, paginate, universe));
      DistinctKeys(final.pages) && DistinctKeys(final.external)
      && final.allResults == RootStatuses(roots) + Statuses(visits)
      && (forall k :: 0 <= k < |roots + visits| ==> Recorded(final.pages, (roots + visits)[k]))
    ensures forall i, j :: 0 <= i < j < |roots + visits| ==>
      (roots + visits)[j].item.url != (roots + visits)[i].item.url
      && (roots + visits)[j].item.url != (roots + visits)[i].outcome.actualUrl
    ensures forall k :: 0 <= k < |visits| ==> 1 <= visits[k].item.depth <= maxDepth
    ensures forall k :: 0 <= k < |visits| ==>
      Derived(visits[..k], visits[k].item, start, SeedLinks(web, start, roots), maxDepth)
    ensures maxDepth >= 1 ==> forall l :: l in SeedLinks(web, start, roots) ==> l in Touched(roots + visits)
    ensures forall k, l :: 0 <= k < |visits| && Feeds(visits[k], maxDepth) && l in visits[k].outcome.links ==>
      l in Touched(roots + visits)
  {
    var first := StartState(web, start, save, paginate, universe);
    var seeds := SeedLinks(web, start, roots);
    StartFacts(web, start, save, paginate, universe, first.visited, first.allResults, first.titles, first.queue,
               first.pages, first.external, roots);
    StartInv(web, start, maxDepth, save, paginate, universe);
    RunKeeps(web, save, paginate, start, seeds, maxDepth, universe, roots, first);
    var final := Run(web, maxDepth, save, paginate, universe, first);
    assert final.history[|roots|..] == visits;
    Conclude(start, seeds, maxDepth, universe, roots, visits, final.visited, final.allResults, final.queue, final.pages);
    ClosedEnd(seeds, start, visits, final.visited, maxDepth);
  }

  // ---------------------------------------------------------------------
  // The agent.

  class CrawlerAgent {
    /** `page_info_dict`. */
    var pages: seq<Entry<PageRecord>>
    /** `external_link_results`. */
    var external: seq<Entry<ExternalRecord>>
    /** `save_html_files`. */
    const savePages: bool
    /** `enable_pagination`. */
    const enablePagination: bool

    /** Both ledgers are dicts: no key twice. */
    ghost predicate Valid()
      reads this
    {
      DistinctKeys(pages) && DistinctKeys(external)
    }

    constructor(savePages: bool, enablePagination: bool)
      ensures this.savePages == savePages && this.enablePagination == enablePagination
      ensures pages == [] && external == [] && Valid()
    {
      this.savePages := savePages;
      this.enablePagination := enablePagination;
      pages := [];
      external := [];
    }

    /** `_record_page_info`: the record under the URL reached, with the
        parent as its source page. */
    method RecordPageInfo(actualUrl: string, title: string, lastUpdated: string, filepath: string,
                          status: int, depth: nat, parent: string, titles: map<string, string>)
      modifies this
      ensures pages == Put(old(pages), actualUrl, PageRecord(title, lastUpdated, filepath, status, depth, SourceOf(parent, titles)))
      ensures external == old(external)
    {
      var source: Option<SourcePage> := None;
      if parent != "" {
        var parentTitle := if parent in titles then titles[parent] else "";
        source := Some(SourcePage(parentTitle, parent));
      }
      pages := Put(pages, actualUrl, PageRecord(title, lastUpdated, filepath, status, depth, source));
    }

    /** The external half of `_extract_and_check_links`: enter the page's
        unknown external links with status 0, check them, store their
        statuses, and return the status of each of the page's links. */
    method ExtractAndCheckLinks(links: seq<string>, title: string, url: string,
                                answers: string -> nat -> LinkCheck.Outcome)
      returns (statuses: map<string, int>)
      modifies this
      ensures pages == old(pages)
      ensures external == CheckedLedger(old(external), Dedup(links), SourcePage(title, url), answers)
      ensures statuses == LinkStatuses(external, Dedup(links))
    {
      var unique := Dedup(links);
      var source := SourcePage(title, url);
      var toCheck: seq<string> := [];
      for i := 0 to |unique|
        invariant pages == old(pages)
        invariant external == RegisterLinks(old(external), unique[..i], source)
        invariant toCheck == NewLinks(old(external), unique[..i], source)
      {
        assert unique[..i + 1][..i] == unique[..i];
        if !HasKey(external, unique[i]) {
          toCheck := toCheck + [unique[i]];
          external := Put(external, unique[i], ExternalRecord(0, source));
        }
      }
      assert unique[..|unique|] == unique;
      var registered := external;
      for j := 0 to |toCheck|
        invariant pages == old(pages)
        invariant external == SetStatuses(registered, toCheck[..j], answers)
      {
        assert toCheck[..j + 1][..j] == toCheck[..j];
        var status := LinkCheck.CheckLinkStatus(toCheck[j], answers(toCheck[j])).status;
        external := SetStatus(external, toCheck[j], status);
      }
      assert toCheck[..|toCheck|] == toCheck;
      statuses := LinkStatuses(external, unique);
    }

    /** What follows a successful navigation: a frameset returns its frame
        links; a document is scanned against the ledger (unless it was
        reached by the `https://` retry), and an ordinary page is recorded
        and has its external links checked. */
    method Landed(web: Web, ld: Landing, parent: string, depth: nat, titles: map<string, string>)
      returns (o: PageOutcome)
      modifies this
      ensures PageStep(o, pages, external)
           == LandedStep(old(pages), old(external), web, ld, parent, depth, titles, savePages, enablePagination)
    {
      match ld.body
      case Frameset(frames) =>
        o := PageOutcome(FramesetContainer, ld.status, Dedup(frames), "Frameset Container", ld.actualUrl);
      case Document(t, evidence, internal, externalLinks) =>
        var title := PagePolicy.PageTitle(t, ld.requested);
        var tag := Ordinary;
        if !ld.retried {
          var verdict := PagePolicy.ScanLedger(SeenEntries(pages), Facts(web, ld.actualUrl, title), savePages, enablePagination);
          tag := VerdictTag(verdict);
        }
        if tag == Ordinary {
          var lastUpdated := DateExtraction.ExtractLastUpdated(evidence, web.today);
          RecordPageInfo(ld.actualUrl, title, lastUpdated, FilePath(savePages, title), ld.status, depth, parent, titles);
          var _ := ExtractAndCheckLinks(externalLinks, title, ld.requested, web.linkAnswers);
          o := PageOutcome(Ordinary, ld.status, Dedup(internal), title, ld.actualUrl);
        } else if tag == ListPagination {
          o := PageOutcome(ListPagination, ld.status, Dedup(internal), title, ld.actualUrl);
        } else {
          o := PageOutcome(tag, ld.status, [], title, ld.actualUrl);
        }
    }

    /** `_crawl_single_page`. */
    method CrawlSinglePage(web: Web, url: string, parent: string, depth: nat, titles: map<string, string>)
      returns (o: PageOutcome)
      modifies this
      ensures PageStep(o, pages, external)
           == CrawlPage(old(pages), old(external), web, url, parent, depth, titles, savePages, enablePagination)
    {
      if PagePolicy.IsSkippedFile(web.path(url), web.query(url)) {
        return PageOutcome(SkippedFile, 200, [], SkippedFileName(url), url);
      }
      var status := 0;
      var first := web.load(url);
      if first.Loaded? {
        status := first.status;
      }
      if Answers(first) {
        var ld := Landing(false, url, first.status, first.actualUrl, first.body);
        assert Land(web, url) == Some(ld);
        o := Landed(web, ld, parent, depth, titles);
        return;
      }
      if StartsWith(url, "http://") {
        var https := LinkCheck.HttpsVariant(url);
        var second := web.load(https);
        if second.Loaded? {
          status := second.status;
        }
        if Answers(second) {
          var ld := Landing(true, https, second.status, second.actualUrl, second.body);
          assert Land(web, url) == Some(ld);
          o := Landed(web, ld, parent, depth, titles);
          return;
        }
      }
      assert Land(web, url) == None && status == FailureStatus(web, url);
      RecordPageInfo(url, "", CrawlFailed, "", status, depth, parent, titles);
      o := PageOutcome(Error, status, [], "", url);
    }

    /** A page as the traversal sees it: what `CrawlSinglePage` does, and
        the facts the traversal relies on. */
    method OpenPage(web: Web, item: QItem, titles: map<string, string>, ghost universe: set<string>)
      returns (page: PageOutcome)
      requires Valid() && LinksWithin(web, universe) && item.depth >= 0
      modifies this
      ensures Valid()
      ensures PageStep(page, pages, external)
           == CrawlPage(old(pages), old(external), web, item.url, item.parent, item.depth, titles, savePages, enablePagination)
      ensures page == PageResult(old(pages), web, item.url, savePages, enablePagination)
      ensures forall k :: HasKey(old(pages), k) ==> HasKey(pages, k)
      ensures Recorded(pages, Visit(item, page))
      ensures forall l :: l in page.links ==> l in universe
    {
      ghost var before, beforeExt := pages, external;
      page := CrawlSinglePage(web, item.url, item.parent, item.depth, titles);
      StepFacts(before, beforeExt, web, item, item.depth, titles, savePages, enablePagination, universe);
    }

    /** The first page of `crawl_site`: the homepage, crawled against empty
        ledgers. */
    method OpenHome(web: Web, start: string, ghost universe: set<string>) returns (home: PageOutcome)
      requires LinksWithin(web, universe)
      modifies this
      ensures Valid()
      ensures PageStep(home, pages, external) == CrawlPage([], [], web, start, "", 0, map[], savePages, enablePagination)
      ensures forall l :: l in home.links ==> l in universe
    {
      pages := [];
      external := [];
      home := OpenPage(web, QItem(start, "", 0), map[], universe);
    }

    /** The rest of the start of `crawl_site`, once the homepage was crawled
        as `h`: the sitemap page, crawled as `m`, when `VisitsSitemap` says
        so, and the first queue. */
    method SeedCrawl(web: Web, start: string, home: PageOutcome, ghost h: PageStep, ghost universe: set<string>)
      returns (visited: set<string>, allResults: seq<int>, titles: map<string, string>, queue: seq<QItem>,
               ghost roots: seq<Visit>, ghost m: PageStep)
      requires Valid() && LinksWithin(web, universe)
      requires h == PageStep(home, pages, external)
      requires forall l :: l in home.links ==> l in universe
      modifies this
      ensures Valid()
      ensures VisitsSitemap(web, start, home) ==>
        m == CrawlPage(h.pages, h.external, web, web.sitemapLink(start).value, "", 0, HomeTitles(start, home),
                       savePages, enablePagination)
      ensures CrawlState(visited, allResults, titles, queue, pages, external, roots)
           == if VisitsSitemap(web, start, home) then WithSitemap(web, start, web.sitemapLink(start).value, h, m)
              else HomeOnly(start, h)
    {
      visited := {start, home.actualUrl};
      allResults := [home.status];
      titles := map[];
      if home.title != "" {
        titles := titles[start := home.title];
      }
      assert titles == HomeTitles(start, home);
      roots := [Visit(QItem(start, "", 0), home)];
      m := h;
      var sitemap: Option<string> := None;
      if home.status < 400 && home.tag == Ordinary {
        sitemap := web.sitemapLink(start);
      }
      if sitemap.Some? && sitemap.value !in visited {
        var sm := sitemap.value;
        var smPage := OpenPage(web, QItem(sm, "", 0), titles, universe);
        m := PageStep(smPage, pages, external);
        var v := Visit(QItem(sm, "", 0), smPage);
        visited := visited + {sm, smPage.actualUrl};
        allResults := allResults + [smPage.status];
        if smPage.title != "" {
          titles := titles[sm := smPage.title];
        }
        roots := roots + [v];
        queue := SeedQueue(web, start, v, home.links, visited, universe);
        ghost var ws := WithSitemap(web, start, sm, h, m);
        assert visited == ws.visited && allResults == ws.allResults && titles == ws.titles;
        assert queue == ws.queue && pages == ws.pages && external == ws.external && roots == ws.history;
      } else {
        queue := EnqueueLinks([], home.links, visited, start, 1);
        ghost var ho := HomeOnly(start, h);
        assert visited == ho.visited && allResults == ho.allResults && titles == ho.titles;
        assert queue == ho.queue && pages == ho.pages && external == ho.external && roots == ho.history;
      }
    }

    /** The start of `crawl_site`: the homepage, then the sitemap page when
        the homepage is an ordinary page that answered and links to a
        sitemap not yet visited, and
        the first queue, at depth 1 under the homepage: the sitemap's links
        not yet visited, or when there are none the homepage's. */
    method CrawlRoots(web: Web, start: string, ghost universe: set<string>)
      returns (visited: set<string>, allResults: seq<int>, titles: map<string, string>, queue: seq<QItem>,
               ghost roots: seq<Visit>)
      requires LinksWithin(web, universe)
      modifies this
      ensures Valid()
      ensures CrawlState(visited, allResults, titles, queue, pages, external, roots)
           == StartState(web, start, savePages, enablePagination, universe)
      ensures 1 <= |roots| <= 2
      ensures roots[0] == Visit(QItem(start, "", 0), PageResult([], web, start, savePages, enablePagination))
      ensures var home := roots[0].outcome;
        (|roots| == 2 <==>
          (home.status < 400 && home.tag == Ordinary && web.sitemapLink(start).Some?
           && web.sitemapLink(start).value !in {start, home.actualUrl}))
        && (|roots| == 2 ==> roots[1].item == QItem(web.sitemapLink(start).value, "", 0))
      ensures |roots| == 2 ==>
        roots[1].outcome == PageResult(CrawlPage([], [], web, start, "", 0, map[], savePages, enablePagination).pages,
                                       web, roots[1].item.url, savePages, enablePagination)
      ensures visited == Touched(roots) && FreshVisits(roots)
      ensures allResults == RootStatuses(roots)
      ensures |roots| == 1 ==> queue == Enqueued(roots[0].outcome.links, visited, start, 1)
      ensures |roots| == 2 ==>
        var fromSitemap := Enqueued(SitemapSeeds(web, roots[1]), visited, start, 1);
        queue == if fromSitemap != [] then fromSitemap else Enqueued(roots[0].outcome.links, visited, start, 1)
      ensures queue == Enqueued(SeedLinks(web, start, roots), visited, start, 1)
      ensures forall q :: q in queue ==> q.url in universe && q.depth == 1 && q.parent == start
      ensures forall k :: 0 <= k < |roots| ==> Recorded(pages, roots[k])
    {
      var home := OpenHome(web, start, universe);
      ghost var h := PageStep(home, pages, external);
      ghost var m;
      visited, allResults, titles, queue, roots, m := SeedCrawl(web, start, home, h, universe);
      StartStateIs(web, start, savePages, enablePagination, universe, h, m);
      StartFacts(web, start, savePages, enablePagination, universe, visited, allResults, titles, queue, pages, external, roots);
    }

    /** One turn of the loop of `crawl_site` for a head of the queue not
        yet visited and not too deep: the page is crawled; a page that
        reports adds its status and, when it has one, its title; a list page
        passes its links on at its own level, the other pages one level
        down. */
    method VisitHead(web: Web, maxDepth: int, visited: set<string>, allResults: seq<int>,
                     titles: map<string, string>, queue: seq<QItem>, ghost history: seq<Visit>, ghost universe: set<string>)
      returns (visited': set<string>, allResults': seq<int>, titles': map<string, string>, queue': seq<QItem>,
               page: PageOutcome)
      requires Valid() && LinksWithin(web, universe)
      requires queue != [] && queue[0].url !in visited && 0 <= queue[0].depth <= maxDepth
      modifies this
      ensures Valid()
      ensures CrawlState(visited', allResults', titles', queue', pages, external, history + [Visit(queue[0], page)])
           == Advance(web, maxDepth, savePages, enablePagination,
                      CrawlState(visited, allResults, titles, queue, old(pages), old(external), history))
    {
      var item := queue[0];
      ghost var before, beforeExt := pages, external;
      page := OpenPage(web, item, titles, universe);
      VisitAdvance(web, maxDepth, savePages, enablePagination,
                   CrawlState(visited, allResults, titles, queue, before, beforeExt, history), page, pages, external);
      visited' := visited + {item.url, page.actualUrl};
      titles' := titles;
      if Reports(page.tag) && page.title != "" {
        titles' := titles[item.url := page.title];
      }
      allResults' := allResults + (if Reports(page.tag) then [page.status] else []);
      queue' := NextQueue(queue[1..], Visit(item, page), visited', maxDepth);
    }

    /** The loop of `crawl_site` (lines 949-1006): the queue is drained,
        and what it leaves is the state `Run` ends in from the state it
        started from. */
    method Drain(web: Web, maxDepth: int, visited: set<string>, allResults: seq<int>, titles: map<string, string>,
                 queue: seq<QItem>, ghost history: seq<Visit>, ghost universe: set<string>)
      returns (allResults': seq<int>, ghost visits: seq<Visit>)
      requires Valid() && LinksWithin(web, universe)
      requires forall q :: q in queue ==> q.url in universe && q.depth >= 0
      modifies this
      ensures Valid()
      ensures var final := Run(web, maxDepth, savePages, enablePagination, universe,
                               CrawlState(visited, allResults, titles, queue, old(pages), old(external), history));
        allResults' == final.allResults && pages == final.pages && external == final.external
        && history + visits == final.history
    {
      ghost var first := CrawlState(visited, allResults, titles, queue, pages, external, history);
      var visited, titles, queue := visited, titles, queue;
      allResults', visits := allResults, [];
      assert history + visits == history;
      while queue != []
        invariant Valid()
        invariant forall q :: q in queue ==> q.url in universe && q.depth >= 0
        invariant Run(web, maxDepth, savePages, enablePagination, universe,
                      CrawlState(visited, allResults', titles, queue, pages, external, history + visits))
               == Run(web, maxDepth, savePages, enablePagination, universe, first)
        decreases universe - visited, |queue|
      {
        ghost var now := CrawlState(visited, allResults', titles, queue, pages, external, history + visits);
        var item := queue[0];
        assert item in queue;
        if item.url in visited || item.depth > maxDepth {
          queue := queue[1..];
          RunStep(web, maxDepth, savePages, enablePagination, universe, now,
                  CrawlState(visited, allResults', titles, queue, pages, external, history + visits));
          continue;
        }
        var visited', allResults'', titles', queue', page :=
          VisitHead(web, maxDepth, visited, allResults', titles, queue, history + visits, universe);
        assert history + visits + [Visit(item, page)] == history + (visits + [Visit(item, page)]);
        RunStep(web, maxDepth, savePages, enablePagination, universe, now,
                CrawlState(visited', allResults'', titles', queue', pages, external, history + (visits + [Visit(item, page)])));
        visits := visits + [Visit(item, page)];
        visited, allResults', titles, queue := visited', allResults'', titles', queue';
      }
      ghost var last := CrawlState(visited, allResults', titles, queue, pages, external, history + visits);
      assert Run(web, maxDepth, savePages, enablePagination, universe, last) == last;
    }

    /** `crawl_site`: after the homepage and the sitemap, breadth first
        through the queue down to `maxDepth`, skipping what was visited.
        Returns the statuses collected: those `Run` gives from
        `StartState`, as do the ledgers. `roots` and `visits` are the pages
        opened before and in the loop, and what came of each. `universe`
        bounds the links the web can show, which makes the crawl finite. */
    method CrawlSite(web: Web, start: string, maxDepth: int, ghost universe: set<string>)
      returns (allResults: seq<int>, ghost roots: seq<Visit>, ghost visits: seq<Visit>)
      requires LinksWithin(web, universe)
      modifies this
      ensures Valid()
      ensures roots == StartState(web, start, savePages, enablePagination, universe).history
      ensures var final := Run(web, maxDepth, savePages, enablePagination, universe,
                               StartState(web, start, savePages, enablePagination, universe));
        allResults == final.allResults && pages == final.pages && external == final.external
        && roots + visits == final.history
      ensures 1 <= |roots| <= 2
      ensures roots[0] == Visit(QItem(start, "", 0), PageResult([], web, start, savePages, enablePagination))
      ensures var home := roots[0].outcome;
        (|roots| == 2 <==>
          (home.status < 400 && home.tag == Ordinary && web.sitemapLink(start).Some?
           && web.sitemapLink(start).value !in {start, home.actualUrl}))
        && (|roots| == 2 ==> roots[1].item == QItem(web.sitemapLink(start).value, "", 0))
      ensures allResults == RootStatuses(roots) + Statuses(visits)
      ensures forall i, j :: 0 <= i < j < |roots + visits| ==>
        (roots + visits)[j].item.url != (roots + visits)[i].item.url
        && (roots + visits)[j].item.url != (roots + visits)[i].outcome.actualUrl
      ensures forall k :: 0 <= k < |visits| ==> 1 <= visits[k].item.depth <= maxDepth
      ensures forall k :: 0 <= k < |visits| ==>
        Derived(visits[..k], visits[k].item, start, SeedLinks(web, start, roots), maxDepth)
      ensures forall k :: 0 <= k < |roots + visits| ==> Recorded(pages, (roots + visits)[k])
      ensures maxDepth >= 1 ==> forall l :: l in SeedLinks(web, start, roots) ==> l in Touched(roots + visits)
      ensures forall k, l :: 0 <= k < |visits| && Feeds(visits[k], maxDepth) && l in visits[k].outcome.links ==>
        l in Touched(roots + visits)
    {
      var visited, titles, queue;
      visited, allResults, titles, queue, roots := CrawlRoots(web, start, universe);
      allResults, visits := Drain(web, maxDepth, visited, allResults, titles, queue, roots, universe);
      CrawlFacts(web, start, maxDepth, savePages, enablePagination, universe, roots, visits);
    }
  }
}
