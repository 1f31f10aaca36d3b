/** The order in which `save_page_summary_to_json` writes the two ledgers.
    Pages fall into four groups, written one after the other: those whose
    `last_updated` is a date `strptime("%Y-%m-%d")` accepts, newest first;
    those with an empty or unreadable value; those marked `[無日期]`; and
    those marked `[爬取失敗]`. External links are written only when there
    are any, ordered by status class and then by URL. */
module SummaryOrder {
  import opened Text
  import opened Calendar
  import opened Sorting
  import opened Ledger
  import opened LinkCheck
  import DateExtraction

  /** The group a page's `last_updated` puts it in: 0 dated, 1 empty or
      unreadable, 2 `[無日期]`, 3 `[爬取失敗]`. */
  function SummaryGroup(lastUpdated: string): (g: nat)
    ensures g <= 3
    ensures g == 0 <==> ParseIso(lastUpdated).Some?
    ensures g == 2 <==> lastUpdated == DateExtraction.NoDate
    ensures g == 3 <==> lastUpdated == CrawlFailed
  {
    if lastUpdated == CrawlFailed then 3
    else if lastUpdated == DateExtraction.NoDate then 2
    else if lastUpdated != "" && ParseIso(lastUpdated).Some? then 0
    else 1
  }

  function GroupKey(): Entry<PageRecord> -> nat {
    (e: Entry<PageRecord>) => SummaryGroup(e.value.lastUpdated)
  }

  function InGroup(g: nat): Entry<PageRecord> -> bool {
    KeyIs(GroupKey(), g)
  }

  /** The key order of `sorted(..., key=last_updated, reverse=True)`. */
  function NewestFirst(): (Entry<PageRecord>, Entry<PageRecord>) -> bool {
    (a: Entry<PageRecord>, b: Entry<PageRecord>) => LexLe(b.value.lastUpdated, a.value.lastUpdated)
  }

  /** The `page_summary` object as written. */
  function OrderPages(pages: seq<Entry<PageRecord>>): (r: seq<Entry<PageRecord>>)
    ensures |r| == |pages|
  {
    GroupSizes(pages);
    Sort(Filter(pages, InGroup(0)), NewestFirst())
      + Filter(pages, InGroup(1)) + Filter(pages, InGroup(2)) + Filter(pages, InGroup(3))
  }

  lemma NewestFirstPreorder()
    ensures TotalPreorder(NewestFirst())
  {
    var le := NewestFirst();
    forall a, b ensures le(a, b) || le(b, a) {
      LexLeTotal(a.value.lastUpdated, b.value.lastUpdated);
    }
    forall a, b, c | le(a, b) && le(b, c) ensures le(a, c) {
      LexLeTransitive(c.value.lastUpdated, b.value.lastUpdated, a.value.lastUpdated);
    }
  }

  /** Every page lands in exactly one of the four groups. */
  lemma GroupsPartition(s: seq<Entry<PageRecord>>)
    ensures multiset(Filter(s, InGroup(0))) + multiset(Filter(s, InGroup(1)))
          + multiset(Filter(s, InGroup(2))) + multiset(Filter(s, InGroup(3))) == multiset(s)
  {
    PartitionByKey(s, GroupKey());
  }

  lemma GroupSizes(s: seq<Entry<PageRecord>>)
    ensures |Filter(s, InGroup(0))| + |Filter(s, InGroup(1))|
          + |Filter(s, InGroup(2))| + |Filter(s, InGroup(3))| == |s|
  {
    GroupsPartition(s);
    assert |multiset(s)| == |s|;
  }

  /** The written summary holds every page of the ledger, each once. */
  lemma OrderPagesPermutation(pages: seq<Entry<PageRecord>>)
    ensures multiset(OrderPages(pages)) == multiset(pages)
  {
    GroupsPartition(pages);
  }

  lemma InGroupMember(x: Entry<PageRecord>, s: seq<Entry<PageRecord>>, g: nat)
    requires x in Filter(s, InGroup(g))
    ensures SummaryGroup(x.value.lastUpdated) == g
  {
    FilterMembers(s, InGroup(g), x);
  }

  /** The group of the page at each position of the written summary: the
      four groups in a row, their sizes as in the ledger. */
  lemma PositionGroup(pages: seq<Entry<PageRecord>>, i: int)
    requires 0 <= i < |pages|
    ensures var n0 := |Filter(pages, InGroup(0))|;
      var n1 := n0 + |Filter(pages, InGroup(1))|;
      var n2 := n1 + |Filter(pages, InGroup(2))|;
      SummaryGroup(OrderPages(pages)[i].value.lastUpdated)
        == if i < n0 then 0 else if i < n1 then 1 else if i < n2 then 2 else 3
  {
    var dated := Sort(Filter(pages, InGroup(0)), NewestFirst());
    var f1, f2, f3 := Filter(pages, InGroup(1)), Filter(pages, InGroup(2)), Filter(pages, InGroup(3));
    var r := dated + f1 + f2 + f3;
    assert r == OrderPages(pages);
    var n0 := |dated|;
    var n1 := n0 + |f1|;
    var n2 := n1 + |f2|;
    if i < n0 {
      assert r[i] == dated[i];
      assert r[i] in multiset(Filter(pages, InGroup(0)));
      InGroupMember(r[i], pages, 0);
    } else if i < n1 {
      assert r[i] == f1[i - n0];
      InGroupMember(r[i], pages, 1);
    } else if i < n2 {
      assert r[i] == f2[i - n1];
      InGroupMember(r[i], pages, 2);
    } else {
      assert r[i] == f3[i - n2];
      InGroupMember(r[i], pages, 3);
    }
  }

  /** The groups follow one another: dated, unreadable, `[無日期]`,
      `[爬取失敗]`. */
  lemma OrderPagesGroups(pages: seq<Entry<PageRecord>>)
    ensures var r := OrderPages(pages);
      forall i, j :: 0 <= i < j < |r| ==>
        SummaryGroup(r[i].value.lastUpdated) <= SummaryGroup(r[j].value.lastUpdated)
  {
    var r := OrderPages(pages);
    forall i, j | 0 <= i < j < |r|
      ensures SummaryGroup(r[i].value.lastUpdated) <= SummaryGroup(r[j].value.lastUpdated)
    {
      PositionGroup(pages, i);
      PositionGroup(pages, j);
    }
  }

  /** The dated pages come first, newest date first. */
  lemma OrderPagesNewestFirst(pages: seq<Entry<PageRecord>>)
    ensures var r := OrderPages(pages);
      forall i, j :: 0 <= i < j < |r| && ParseIso(r[j].value.lastUpdated).Some? ==>
        ParseIso(r[i].value.lastUpdated).Some?
        && DateLe(ParseIso(r[j].value.lastUpdated).value, ParseIso(r[i].value.lastUpdated).value)
  {
    var r := OrderPages(pages);
    forall i, j | 0 <= i < j < |r| && ParseIso(r[j].value.lastUpdated).Some?
      ensures ParseIso(r[i].value.lastUpdated).Some?
      ensures DateLe(ParseIso(r[j].value.lastUpdated).value, ParseIso(r[i].value.lastUpdated).value)
    {
      DatedPair(pages, i, j);
    }
  }

  lemma DatedPair(pages: seq<Entry<PageRecord>>, i: int, j: int)
    requires 0 <= i < j < |pages|
    requires ParseIso(OrderPages(pages)[j].value.lastUpdated).Some?
    ensures var a, b := OrderPages(pages)[i].value.lastUpdated, OrderPages(pages)[j].value.lastUpdated;
      ParseIso(a).Some? && DateLe(ParseIso(b).value, ParseIso(a).value)
  {
    var r := OrderPages(pages);
    var a, b := r[i].value.lastUpdated, r[j].value.lastUpdated;
    PositionGroup(pages, j);
    PositionGroup(pages, i);
    DatedBlockOrder(pages, i, j);
    ParsedTextOrder(b, a);
  }

  lemma DatedBlockOrder(pages: seq<Entry<PageRecord>>, i: int, j: int)
    requires 0 <= i < j < |Filter(pages, InGroup(0))|
    ensures LexLe(OrderPages(pages)[j].value.lastUpdated, OrderPages(pages)[i].value.lastUpdated)
  {
    NewestFirstPreorder();
    SortSorted(Filter(pages, InGroup(0)), NewestFirst());
    var dated := Sort(Filter(pages, InGroup(0)), NewestFirst());
    var r := dated + Filter(pages, InGroup(1)) + Filter(pages, InGroup(2)) + Filter(pages, InGroup(3));
    assert r == OrderPages(pages);
    assert r[i] == dated[i] && r[j] == dated[j];
    assert NewestFirst()(dated[i], dated[j]);
  }

  /** Two texts `strptime` accepts compare as their dates. */
  lemma ParsedTextOrder(a: string, b: string)
    requires ParseIso(a).Some? && ParseIso(b).Some? && LexLe(a, b)
    ensures DateLe(ParseIso(a).value, ParseIso(b).value)
  {
    FormatParseIso(a);
    FormatParseIso(b);
    IsoTextOrder(ParseIso(a).value, ParseIso(b).value);
  }

  // ---------------------------------------------------------------------
  // External links.

  /** The key `(status class, url)`. */
  function ClassThenUrl(): (Entry<ExternalRecord>, Entry<ExternalRecord>) -> bool {
    (a: Entry<ExternalRecord>, b: Entry<ExternalRecord>) =>
      StatusRank(a.value.status) < StatusRank(b.value.status)
      || (StatusRank(a.value.status) == StatusRank(b.value.status) && LexLe(a.key, b.key))
  }

  /** The `external_links` object: absent when no link was checked. */
  function OrderExternal(links: seq<Entry<ExternalRecord>>): (r: Option<seq<Entry<ExternalRecord>>>)
    ensures r.Some? <==> links != []
  {
    if links == [] then None else Some(Sort(links, ClassThenUrl()))
  }

  lemma ClassThenUrlPreorder()
    ensures TotalPreorder(ClassThenUrl())
  {
    var le := ClassThenUrl();
    forall a, b ensures le(a, b) || le(b, a) {
      LexLeTotal(a.key, b.key);
    }
    forall a, b, c | le(a, b) && le(b, c) ensures le(a, c) {
      if StatusRank(a.value.status) == StatusRank(b.value.status) == StatusRank(c.value.status) {
        LexLeTransitive(a.key, b.key, c.key);
      }
    }
  }

  /** Written links are all the links, by status class, then by URL. */
  lemma OrderExternalSorted(links: seq<Entry<ExternalRecord>>)
    requires links != []
    ensures var r := OrderExternal(links).value;
      multiset(r) == multiset(links)
      && forall i, j :: 0 <= i < j < |r| ==>
           StatusRank(r[i].value.status) <= StatusRank(r[j].value.status)
           && (StatusRank(r[i].value.status) == StatusRank(r[j].value.status) ==> LexLe(r[i].key, r[j].key))
  {
    ClassThenUrlPreorder();
    SortSorted(links, ClassThenUrl());
  }

  // ---------------------------------------------------------------------
  // The partition loop.

  /** `save_page_summary_to_json` up to the file write: the partition loop
      over the page ledger, then the sorts. */
  method SavePageSummary(pages: seq<Entry<PageRecord>>, external: seq<Entry<ExternalRecord>>)
    returns (summary: seq<Entry<PageRecord>>, externalLinks: Option<seq<Entry<ExternalRecord>>>)
    ensures summary == OrderPages(pages)
    ensures externalLinks == OrderExternal(external)
  {
    var withDate, withoutDate, noDate, failed := [], [], [], [];
    for i := 0 to |pages|
      invariant withDate == Filter(pages[..i], InGroup(0))
      invariant withoutDate == Filter(pages[..i], InGroup(1))
      invariant noDate == Filter(pages[..i], InGroup(2))
      invariant failed == Filter(pages[..i], InGroup(3))
    {
      assert pages[..i + 1][..i] == pages[..i];
      var e := pages[i];
      var lu := e.value.lastUpdated;
      if lu == CrawlFailed {
        failed := failed + [e];
      } else if lu == DateExtraction.NoDate {
        noDate := noDate + [e];
      } else if lu != "" {
        if ParseIso(lu).Some? {
          withDate := withDate + [e];
        } else {
          withoutDate := withoutDate + [e];
        }
      } else {
        withoutDate := withoutDate + [e];
      }
    }
    assert pages[..|pages|] == pages;
    summary := Sort(withDate, NewestFirst()) + withoutDate + noDate + failed;
    externalLinks := if external == [] then None else Some(Sort(external, ClassThenUrl()));
  }
}
