/** Python's `sorted`: a stable sort under a key order. The order is given
    as `le(a, b)`, "a may come before b"; it must be total and transitive
    (a total preorder), and elements it cannot tell apart keep the order
    they had in the input. `sorted(..., reverse=True)` is the same sort
    under the reversed order, since Python keeps equal elements in input
    order in that case too. */
module Sorting {
  import opened Text

  /** `le` is a total preorder on T. */
  ghost predicate TotalPreorder<T(!new)>(le: (T, T) -> bool) {
    (forall a, b :: le(a, b) || le(b, a))
    && (forall a, b, c :: le(a, b) && le(b, c) ==> le(a, c))
  }

  predicate Sorted<T>(s: seq<T>, le: (T, T) -> bool) {
    forall i, j :: 0 <= i < j < |s| ==> le(s[i], s[j])
  }

  /** Places `x` after every element of `s` that may come before it. */
  function Insert<T>(s: seq<T>, x: T, le: (T, T) -> bool): (r: seq<T>)
    ensures |r| == |s| + 1
    ensures multiset(r) == multiset(s) + multiset{x}
  {
    if s == [] then [x]
    else if le(s[0], x) then
      assert s == [s[0]] + s[1..];
      [s[0]] + Insert(s[1..], x, le)
    else [x] + s
  }

  /** The sorted copy, built by inserting the elements in input order. */
  function Sort<T>(s: seq<T>, le: (T, T) -> bool): (r: seq<T>)
    ensures multiset(r) == multiset(s)
    ensures |r| == |s|
  {
    if s == [] then []
    else
      assert s == s[..|s| - 1] + [s[|s| - 1]];
      Insert(Sort(s[..|s| - 1], le), s[|s| - 1], le)
  }

  lemma {:induction false} InsertSorted<T(!new)>(s: seq<T>, x: T, le: (T, T) -> bool)
    requires TotalPreorder(le) && Sorted(s, le)
    ensures Sorted(Insert(s, x, le), le)
  {
    if s != [] && le(s[0], x) {
      InsertSorted(s[1..], x, le);
      InsertBounded(s[1..], x, le, s[0]);
      ConsSorted(s[0], Insert(s[1..], x, le), le);
    } else if s != [] {
      assert le(x, s[0]);
      ConsSorted(x, s, le);
    }
  }

  /** What may precede `x` and all of `s` may precede all of `Insert(s, x)`. */
  lemma {:induction false} InsertBounded<T>(s: seq<T>, x: T, le: (T, T) -> bool, a: T)
    requires le(a, x) && forall k :: 0 <= k < |s| ==> le(a, s[k])
    ensures var r := Insert(s, x, le); forall k :: 0 <= k < |r| ==> le(a, r[k])
  {
    if s != [] && le(s[0], x) {
      InsertBounded(s[1..], x, le, a);
      var r := Insert(s, x, le);
      assert r == [s[0]] + Insert(s[1..], x, le);
      forall k | 1 <= k < |r| ensures le(a, r[k]) {
        assert r[k] == Insert(s[1..], x, le)[k - 1];
      }
    }
  }

  lemma ConsSorted<T(!new)>(a: T, s: seq<T>, le: (T, T) -> bool)
    requires TotalPreorder(le) && Sorted(s, le)
    requires s != [] ==> le(a, s[0])
    ensures Sorted([a] + s, le)
  {
    var r := [a] + s;
    forall i, j | 0 <= i < j < |r| ensures le(r[i], r[j]) {
      if i == 0 && j > 1 {
        assert le(a, s[0]) && le(s[0], s[j - 1]);
      }
    }
  }

  /** The result is in order and is a rearrangement of the input. */
  lemma {:induction false} SortSorted<T(!new)>(s: seq<T>, le: (T, T) -> bool)
    requires TotalPreorder(le)
    ensures Sorted(Sort(s, le), le)
    ensures multiset(Sort(s, le)) == multiset(s)
  {
    if s != [] {
      SortSorted(s[..|s| - 1], le);
      InsertSorted(Sort(s[..|s| - 1], le), s[|s| - 1], le);
    }
  }

  // ---------------------------------------------------------------------
  // Stability.

  /** `a` and `b` cannot be told apart by the order. */
  predicate Tied<T>(le: (T, T) -> bool, a: T, b: T) {
    le(a, b) && le(b, a)
  }

  /** The test "tied with p", as a predicate value for `Filter`. */
  function TiedWith<T>(le: (T, T) -> bool, p: T): T -> bool {
    y => Tied(le, y, p)
  }

  lemma {:induction false} InsertTies<T(!new)>(s: seq<T>, x: T, le: (T, T) -> bool, p: T)
    requires TotalPreorder(le) && Sorted(s, le)
    ensures Filter(Insert(s, x, le), TiedWith(le, p))
         == Filter(s + [x], TiedWith(le, p))
  {
    var tp := TiedWith(le, p);
    if s == [] {
    } else if le(s[0], x) {
      var rest := s[1..];
      calc {
        Filter(Insert(s, x, le), tp);
        Filter([s[0]] + Insert(rest, x, le), tp);
        { FilterConcat([s[0]], Insert(rest, x, le), tp); }
        Filter([s[0]], tp) + Filter(Insert(rest, x, le), tp);
        { InsertTies(rest, x, le, p); }
        Filter([s[0]], tp) + Filter(rest + [x], tp);
        { FilterConcat([s[0]], rest + [x], tp); }
        Filter([s[0]] + (rest + [x]), tp);
        { assert [s[0]] + (rest + [x]) == s + [x]; }
        Filter(s + [x], tp);
      }
    } else {
      // x goes first; every element of s lies strictly after it, so when
      // x is in the tie class no element of s is.
      assert le(x, s[0]);
      FilterConcat([x], s, tp);
      FilterConcat(s, [x], tp);
      assert Filter([x], tp) == Filter([], tp) + (if tp(x) then [x] else []);
      if tp(x) {
        forall j | 0 <= j < |s| ensures !tp(s[j]) {
          var first, other := s[0], s[j];
          assert le(first, other);
          assert le(other, p) ==> le(first, p);
          assert le(first, p) ==> le(first, x);
        }
        FilterNone(s, tp);
      }
    }
  }

  lemma {:induction false} FilterNone<T(!new)>(s: seq<T>, p: T -> bool)
    requires forall j :: 0 <= j < |s| ==> !p(s[j])
    ensures Filter(s, p) == []
  {
    if s != [] {
      FilterNone(s[..|s| - 1], p);
    }
  }

  /** Stability: the elements tied with any `p` appear in the output in the
      same order as in the input. */
  lemma {:induction false} SortStable<T(!new)>(s: seq<T>, le: (T, T) -> bool, p: T)
    requires TotalPreorder(le)
    ensures Filter(Sort(s, le), TiedWith(le, p)) == Filter(s, TiedWith(le, p))
  {
    if s != [] {
      var tp := TiedWith(le, p);
      var init, last := s[..|s| - 1], s[|s| - 1];
      assert s == init + [last];
      SortSorted(init, le);
      calc {
        Filter(Sort(s, le), tp);
        Filter(Insert(Sort(init, le), last, le), tp);
        { InsertTies(Sort(init, le), last, le, p); }
        Filter(Sort(init, le) + [last], tp);
        { FilterConcat(Sort(init, le), [last], tp); }
        Filter(Sort(init, le), tp) + Filter([last], tp);
        { SortStable(init, le, p); }
        Filter(init, tp) + Filter([last], tp);
        { FilterConcat(init, [last], tp); }
        Filter(s, tp);
      }
    }
  }
}
