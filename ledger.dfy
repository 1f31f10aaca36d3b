/** The crawler's two ledgers, `page_info_dict` and `external_link_results`,
    are Python dicts: keyed by URL, iterated in insertion order, and an
    assignment to an existing key replaces its value where it stands. This
    module models such a dict as a sequence of entries with distinct keys,
    and the records the crawler keeps in them. */
module Ledger {
  import opened Text

  /** The page a link was found on: its title and URL. */
  datatype SourcePage = SourcePage(title: string, url: string)

  /** The `last_updated` mark of a page whose crawl failed. */
  const CrawlFailed := "[爬取失敗]"

  /** One `page_info_dict` value. */
  datatype PageRecord = PageRecord(
    title: string,
    lastUpdated: string,
    filepath: string,
    status: int,
    depth: nat,
    source: Option<SourcePage>)

  /** One `external_link_results` value: the status (0 until checked) and
      the first page found linking there. */
  datatype ExternalRecord = ExternalRecord(status: int, source: SourcePage)

  datatype Entry<V> = Entry(key: string, value: V)

  function Keys<V>(l: seq<Entry<V>>): (ks: seq<string>)
    ensures |ks| == |l| && forall i :: 0 <= i < |l| ==> ks[i] == l[i].key
  {
    if l == [] then [] else Keys(l[..|l| - 1]) + [l[|l| - 1].key]
  }

  predicate DistinctKeys<V>(l: seq<Entry<V>>) {
    forall i, j :: 0 <= i < j < |l| ==> l[i].key != l[j].key
  }

  predicate HasKey<V>(l: seq<Entry<V>>, key: string) {
    exists i :: 0 <= i < |l| && l[i].key == key
  }

  /** `dict.get(key)`. */
  function Lookup<V>(l: seq<Entry<V>>, key: string): (r: Option<V>)
    ensures r.Some? <==> HasKey(l, key)
    ensures DistinctKeys(l) ==> forall i :: 0 <= i < |l| && l[i].key == key ==> r == Some(l[i].value)
  {
    if l == [] then None
    else if l[|l| - 1].key == key then Some(l[|l| - 1].value)
    else Lookup(l[..|l| - 1], key)
  }

  /** The position of a key that is present: its last occurrence, the one
      `Lookup` finds. */
  function IndexOfKey<V>(l: seq<Entry<V>>, key: string): (i: nat)
    requires HasKey(l, key)
    ensures i < |l| && l[i].key == key
    ensures forall j :: i < j < |l| ==> l[j].key != key
  {
    if l[|l| - 1].key == key then |l| - 1 else IndexOfKey(l[..|l| - 1], key)
  }

  /** `d[key] = value`: a key already present keeps its place, a new one
      goes last. PutSpec and PutOther state what the ledger then reads. */
  function Put<V>(l: seq<Entry<V>>, key: string, value: V): seq<Entry<V>> {
    if HasKey(l, key) then l[IndexOfKey(l, key) := Entry(key, value)] else l + [Entry(key, value)]
  }

  /** Replacing the last entry under a key changes what that key reads and
      nothing else. */
  lemma {:induction false} LookupReplaced<V>(l: seq<Entry<V>>, i: nat, e: Entry<V>)
    requires i < |l| && l[i].key == e.key
    requires forall j :: i < j < |l| ==> l[j].key != e.key
    ensures Lookup(l[i := e], e.key) == Some(e.value)
    ensures forall k :: k != e.key ==> Lookup(l[i := e], k) == Lookup(l, k)
  {
    var n := |l| - 1;
    assert l[i := e][..n] == if i == n then l[..n] else l[..n][i := e];
    if i < n {
      LookupReplaced(l[..n], i, e);
    }
  }

  lemma LookupAppended<V>(l: seq<Entry<V>>, e: Entry<V>)
    ensures Lookup(l + [e], e.key) == Some(e.value)
    ensures forall k :: k != e.key ==> Lookup(l + [e], k) == Lookup(l, k)
  {
    assert (l + [e])[..|l|] == l;
  }

  /** Assignment keeps keys distinct, stores the value, leaves every other
      key where and as it was, and adds a key only at the end. */
  lemma PutSpec<V>(l: seq<Entry<V>>, key: string, value: V)
    requires DistinctKeys(l)
    ensures var r := Put(l, key, value);
      DistinctKeys(r)
      && Lookup(r, key) == Some(value)
      && (forall k :: k != key ==> Lookup(r, k) == Lookup(l, k))
      && (HasKey(l, key) ==> Keys(r) == Keys(l))
      && (!HasKey(l, key) ==> Keys(r) == Keys(l) + [key])
  {
    var r := Put(l, key, value);
    PutDistinct(l, key, value);
    var at := if HasKey(l, key) then IndexOfKey(l, key) else |l|;
    assert r[at].key == key;
    forall k | k != key ensures Lookup(r, k) == Lookup(l, k) {
      PutOther(l, key, value, k);
    }
    if !HasKey(l, key) {
      assert Keys(r)[..|l|] == Keys(l);
    }
  }

  /** Assignment removes no key. */
  lemma PutKeepsKeys<V>(l: seq<Entry<V>>, key: string, value: V)
    ensures forall k :: HasKey(l, k) ==> HasKey(Put(l, key, value), k)
  {
    forall k | HasKey(l, k) ensures HasKey(Put(l, key, value), k) {
      var i := IndexOfKey(l, k);
      assert Put(l, key, value)[i].key == k;
    }
  }

  lemma PutDistinct<V>(l: seq<Entry<V>>, key: string, value: V)
    requires DistinctKeys(l)
    ensures DistinctKeys(Put(l, key, value))
  {
  }

  /** Every key but the one assigned reads as before. */
  lemma PutOther<V>(l: seq<Entry<V>>, key: string, value: V, k: string)
    requires k != key
    ensures Lookup(Put(l, key, value), k) == Lookup(l, k)
  {
    if HasKey(l, key) {
      LookupReplaced(l, IndexOfKey(l, key), Entry(key, value));
    } else {
      LookupAppended(l, Entry(key, value));
    }
  }
}
