/** Character classes, decimal digits, and the small string operations the
    crawler's Python code gets from `str` (lower, strip, split, startswith,
    endswith, `in`, comparison). Whitespace is Python's whole whitespace set;
    letter case and digits are given their meaning for ASCII only. */
module Text {

  datatype Option<+T> = None | Some(value: T)

  predicate IsDigit(c: char) { '0' <= c <= '9' }

  /** Python's `s.isdigit()` for ASCII text: non-empty and all digits. */
  predicate IsDigits(s: string) {
    |s| > 0 && forall i :: 0 <= i < |s| ==> IsDigit(s[i])
  }

  /** The characters Python's `str.isspace()` accepts, which are also what
      `\s` matches in a `str` pattern and what `str.strip()` removes: the
      ASCII controls 9 to 13 and 28 to 31, the space, NEL, the no-break
      space, the Ogham space mark, the spaces U+2000 to U+200A, the line and
      paragraph separators, the narrow no-break space, the medium
      mathematical space and the ideographic space. */
  predicate IsSpace(c: char) {
    ('\t' <= c <= '\r') || ('\U{001C}' <= c <= ' ') || c == '\U{0085}' || c == '\U{00A0}'
    || c == '\U{1680}' || ('\U{2000}' <= c <= '\U{200A}') || c == '\U{2028}' || c == '\U{2029}'
    || c == '\U{202F}' || c == '\U{205F}' || c == '\U{3000}'
  }

  function LowerChar(c: char): (r: char)
    ensures 'A' <= c <= 'Z' ==> 'a' <= r <= 'z'
    ensures !('A' <= c <= 'Z') ==> r == c
  {
    if 'A' <= c <= 'Z' then (c as int + 32) as char else c
  }

  /** `s.lower()` on ASCII letters. */
  function Lower(s: string): (r: string)
    ensures |r| == |s|
    ensures forall i :: 0 <= i < |s| ==> r[i] == LowerChar(s[i])
  {
    if s == [] then [] else [LowerChar(s[0])] + Lower(s[1..])
  }

  function DigitValue(c: char): nat
    requires IsDigit(c)
  {
    c as int - '0' as int
  }

  function DigitChar(d: nat): (c: char)
    requires d < 10
    ensures IsDigit(c) && DigitValue(c) == d
  {
    ('0' as int + d) as char
  }

  /** `int(s)` for a string of ASCII digits, read left to right. */
  function ParseNat(s: string): nat
    requires forall i :: 0 <= i < |s| ==> IsDigit(s[i])
  {
    if s == [] then 0 else ParseNat(s[..|s| - 1]) * 10 + DigitValue(s[|s| - 1])
  }

  /** Python's `f"{n:0{width}d}"` for a non-negative `n`: the decimal digits
      of `n`, with leading zeros up to `width` characters. */
  function PadNat(n: nat, width: nat): (r: string)
    ensures |r| >= 1 && |r| >= width
    ensures forall i :: 0 <= i < |r| ==> IsDigit(r[i])
    decreases n + width
  {
    (if n < 10 && width <= 1 then [] else PadNat(n / 10, if width > 0 then width - 1 else 0))
      + [DigitChar(n % 10)]
  }

  /** Python's `str(n)` for an integer. */
  function IntText(n: int): (r: string)
    ensures r != []
  {
    if n < 0 then "-" + PadNat(-n, 1) else PadNat(n, 1)
  }

  /** The digits written are the number's own. */
  lemma {:induction false} ParsePad(n: nat, width: nat)
    ensures ParseNat(PadNat(n, width)) == n
    decreases n + width
  {
    var r := PadNat(n, width);
    if !(n < 10 && width <= 1) {
      ParsePad(n / 10, if width > 0 then width - 1 else 0);
    }
    assert r[..|r| - 1] == if n < 10 && width <= 1 then [] else PadNat(n / 10, if width > 0 then width - 1 else 0);
  }

  /** A number below 10^width fills exactly `width` characters. */
  lemma {:induction false} PadWidth(n: nat, width: nat)
    requires width >= 1 && n < Pow10(width)
    ensures |PadNat(n, width)| == width
    decreases width
  {
    if width > 1 {
      PadWidth(n / 10, width - 1);
    }
  }

  lemma DivMod10(q: nat, d: nat)
    requires d < 10
    ensures (q * 10 + d) / 10 == q && (q * 10 + d) % 10 == d
  {
  }

  /** A digit string is the padded spelling of the number it denotes. */
  lemma {:induction false} PadParse(s: string)
    requires |s| >= 1 && forall i :: 0 <= i < |s| ==> IsDigit(s[i])
    ensures PadNat(ParseNat(s), |s|) == s
    decreases |s|
  {
    var init := s[..|s| - 1];
    var last := s[|s| - 1];
    var n := ParseNat(s);
    DivMod10(ParseNat(init), DigitValue(last));
    assert DigitChar(n % 10) == last;
    if |s| > 1 {
      PadParse(init);
      assert PadNat(n, |s|) == init + [last];
    } else {
      assert PadNat(n, |s|) == [last];
    }
    assert s == init + [last];
  }

  function Pow10(k: nat): (r: nat)
    ensures r >= 1
  {
    if k == 0 then 1 else 10 * Pow10(k - 1)
  }

  lemma {:induction false} ParseBound(s: string)
    requires forall i :: 0 <= i < |s| ==> IsDigit(s[i])
    ensures ParseNat(s) < Pow10(|s|)
  {
    if s != [] {
      ParseBound(s[..|s| - 1]);
    }
  }

  lemma ShiftDigit(a: int, q: int, b: int, d: int)
    ensures (a * q + b) * 10 + d == a * (q * 10) + (b * 10 + d)
  {
  }

  /** `ParseNat` read from the front: the first digit weighs 10^(|s|-1). */
  lemma {:induction false} ParseFront(s: string)
    requires |s| > 0 && forall i :: 0 <= i < |s| ==> IsDigit(s[i])
    ensures ParseNat(s) == DigitValue(s[0]) * Pow10(|s| - 1) + ParseNat(s[1..])
  {
    if |s| > 1 {
      var p := s[..|s| - 1];
      ParseFront(p);
      assert p[1..] == s[1..][..|s[1..]| - 1];
      assert ParseNat(s[1..]) == ParseNat(p[1..]) * 10 + DigitValue(s[|s| - 1]);
      assert ParseNat(s) == ParseNat(p) * 10 + DigitValue(s[|s| - 1]);
      assert Pow10(|s| - 1) == Pow10(|s| - 2) * 10;
      ShiftDigit(DigitValue(s[0]), Pow10(|s| - 2), ParseNat(p[1..]), DigitValue(s[|s| - 1]));
    } else {
      assert s[1..] == [];
      assert s[..0] == [];
    }
  }

  // ---------------------------------------------------------------------
  // Lexicographic order on strings (Python's `<` on `str`: code points).

  /** `a <= b` for Python strings. */
  predicate LexLe(a: string, b: string)
    decreases |a|
  {
    if a == [] then true
    else if b == [] then false
    else if a[0] < b[0] then true
    else if a[0] > b[0] then false
    else LexLe(a[1..], b[1..])
  }

  /** `a < b` for Python strings. */
  predicate LexLt(a: string, b: string) { LexLe(a, b) && a != b }

  lemma {:induction false} LexLeTotal(a: string, b: string)
    ensures LexLe(a, b) || LexLe(b, a)
    decreases |a|
  {
    if a != [] && b != [] && a[0] == b[0] {
      LexLeTotal(a[1..], b[1..]);
    }
  }

  lemma {:induction false} LexLeAntisymmetric(a: string, b: string)
    requires LexLe(a, b) && LexLe(b, a)
    ensures a == b
    decreases |a|
  {
    if a != [] && b != [] {
      LexLeAntisymmetric(a[1..], b[1..]);
      assert a == [a[0]] + a[1..];
      assert b == [b[0]] + b[1..];
    }
  }

  lemma {:induction false} LexLeTransitive(a: string, b: string, c: string)
    requires LexLe(a, b) && LexLe(b, c)
    ensures LexLe(a, c)
    decreases |a|
  {
    if a != [] && b != [] && c != [] && a[0] == b[0] && b[0] == c[0] {
      LexLeTransitive(a[1..], b[1..], c[1..]);
    }
  }

  lemma LexLeReflexive(a: string)
    ensures LexLe(a, a)
  {
  }

  /** For digit strings of one length, string order is numeric order. */
  lemma {:induction false} LexLeDigits(a: string, b: string)
    requires |a| == |b|
    requires forall i :: 0 <= i < |a| ==> IsDigit(a[i])
    requires forall i :: 0 <= i < |b| ==> IsDigit(b[i])
    ensures LexLe(a, b) <==> ParseNat(a) <= ParseNat(b)
    decreases |a|
  {
    if a != [] {
      ParseFront(a);
      ParseFront(b);
      ParseBound(a[1..]);
      ParseBound(b[1..]);
      var k := Pow10(|a| - 1);
      if a[0] < b[0] {
        LeadingDigitDecides(DigitValue(a[0]), DigitValue(b[0]), k, ParseNat(a[1..]), ParseNat(b[1..]));
      } else if a[0] > b[0] {
        LeadingDigitDecides(DigitValue(b[0]), DigitValue(a[0]), k, ParseNat(b[1..]), ParseNat(a[1..]));
      } else {
        LexLeDigits(a[1..], b[1..]);
      }
    }
  }

  lemma LeadingDigitDecides(d1: nat, d2: nat, k: nat, r1: nat, r2: nat)
    requires d1 < d2 && r1 < k && r2 < k
    ensures d1 * k + r1 < d2 * k + r2
  {
    var e := d2 - d1;
    assert d2 * k == d1 * k + e * k;
    assert e * k == k + (e - 1) * k;
    assert (e - 1) * k >= 0;
  }

  /** Comparing two strings that share a first part comes down to the rest. */
  lemma {:induction false} LexLeCommonPrefix(p: string, a: string, b: string)
    ensures LexLe(p + a, p + b) <==> LexLe(a, b)
    decreases |p|
  {
    if p != [] {
      assert (p + a)[0] == p[0] && (p + b)[0] == p[0];
      assert (p + a)[1..] == p[1..] + a;
      assert (p + b)[1..] == p[1..] + b;
      assert LexLe(p + a, p + b) == LexLe(p[1..] + a, p[1..] + b);
      LexLeCommonPrefix(p[1..], a, b);
    } else {
      assert p + a == a && p + b == b;
    }
  }

  /** When the first parts have one length and differ, they decide. */
  lemma {:induction false} LexLeDifferentPrefix(p: string, q: string, a: string, b: string)
    requires |p| == |q| && p != q
    ensures LexLe(p + a, q + b) <==> LexLe(p, q)
    decreases |p|
  {
    assert p != [];
    if p[0] == q[0] {
      assert p == [p[0]] + p[1..] && q == [q[0]] + q[1..];
      assert p[1..] != q[1..];
      assert (p + a)[1..] == p[1..] + a;
      assert (q + b)[1..] == q[1..] + b;
      LexLeDifferentPrefix(p[1..], q[1..], a, b);
    }
  }

  // ---------------------------------------------------------------------
  // Python `str` methods.

  predicate StartsWith(s: string, prefix: string) {
    |prefix| <= |s| && s[..|prefix|] == prefix
  }

  predicate EndsWith(s: string, suffix: string) {
    |suffix| <= |s| && s[|s| - |suffix|..] == suffix
  }

  /** Python's `sub in s`. */
  predicate Contains(s: string, sub: string) {
    StartsWith(s, sub) || (s != [] && Contains(s[1..], sub))
  }

  /** Python's `s.strip()`: what is left of `s` once the whitespace at
      both ends is removed (StripSlice and StripCutsSpace below say it is
      the slice between the two whitespace runs). */
  function Strip(s: string): (r: string)
    ensures |r| <= |s|
    ensures r != [] ==> !IsSpace(r[0]) && !IsSpace(r[|r| - 1])
    ensures forall i :: 0 <= i < |s| && !IsSpace(s[i]) ==> r != []
  {
    StripRight(StripLeft(s))
  }

  /** What `strip()` returns is a slice of the text: it starts where the
      leading whitespace ends. */
  lemma {:induction false} StripSlice(s: string)
    ensures |s| - |StripLeft(s)| + |Strip(s)| <= |s|
    ensures forall k :: 0 <= k < |Strip(s)| ==> Strip(s)[k] == s[|s| - |StripLeft(s)| + k]
  {
    var left := StripLeft(s);
    var r := StripRight(left);
    assert r == Strip(s);
    PrefixOfSuffix(s, left, r);
  }

  lemma PrefixOfSuffix(s: string, left: string, r: string)
    requires |left| <= |s| && left == s[|s| - |left|..]
    requires |r| <= |left| && r == left[..|r|]
    ensures |s| - |left| + |r| <= |s|
    ensures forall k :: 0 <= k < |r| ==> r[k] == s[|s| - |left| + k]
  {
    forall k | 0 <= k < |r| ensures r[k] == s[|s| - |left| + k] {
      assert r[k] == left[k];
    }
  }

  /** Everything `strip()` cuts off, at either end, is whitespace. */
  lemma {:induction false} StripCutsSpace(s: string)
    ensures |s| - |StripLeft(s)| + |Strip(s)| <= |s|
    ensures forall i :: 0 <= i < |s| - |StripLeft(s)| ==> IsSpace(s[i])
    ensures forall i :: |s| - |StripLeft(s)| + |Strip(s)| <= i < |s| ==> IsSpace(s[i])
  {
    var left := StripLeft(s);
    var r := StripRight(left);
    assert r == Strip(s);
    SliceOfSlice(s, left, r);
  }

  lemma SliceOfSlice(s: string, left: string, r: string)
    requires |left| <= |s| && left == s[|s| - |left|..]
    requires |r| <= |left| && r == left[..|r|]
    requires forall i :: |r| <= i < |left| ==> IsSpace(left[i])
    ensures |s| - |left| + |r| <= |s|
    ensures r == s[|s| - |left|..|s| - |left| + |r|]
    ensures forall i :: |s| - |left| + |r| <= i < |s| ==> IsSpace(s[i])
  {
    var lo := |s| - |left|;
    forall i | lo + |r| <= i < |s| ensures IsSpace(s[i]) {
      assert s[i] == left[i - lo];
    }
  }

  function StripLeft(s: string): (r: string)
    ensures |r| <= |s| && r == s[|s| - |r|..]
    ensures r != [] ==> !IsSpace(r[0])
    ensures forall i :: 0 <= i < |s| - |r| ==> IsSpace(s[i])
  {
    if s != [] && IsSpace(s[0]) then StripLeft(s[1..]) else s
  }

  function StripRight(s: string): (r: string)
    ensures |r| <= |s| && r == s[..|r|]
    ensures r != [] ==> !IsSpace(r[|r| - 1])
    ensures forall i :: |r| <= i < |s| ==> IsSpace(s[i])
  {
    if s != [] && IsSpace(s[|s| - 1]) then StripRight(s[..|s| - 1]) else s
  }

  /** Text with no whitespace at either end is left as it is. */
  lemma StripKeeps(s: string)
    requires s != [] && !IsSpace(s[0]) && !IsSpace(s[|s| - 1])
    ensures Strip(s) == s
  {
  }

  /** Python's `s.split(sep)` for a one-character separator. */
  function Split(s: string, sep: char): (parts: seq<string>)
    ensures |parts| >= 1
    ensures forall i :: 0 <= i < |parts| ==> sep !in parts[i]
  {
    if sep !in s then [s]
    else
      var i := IndexOf(s, sep);
      [s[..i]] + Split(s[i + 1..], sep)
  }

  function IndexOf(s: string, c: char): (i: nat)
    requires c in s
    ensures i < |s| && s[i] == c && c !in s[..i]
  {
    if s[0] == c then 0 else 1 + IndexOf(s[1..], c)
  }

  lemma {:induction false} IndexOfFirst(a: string, sep: char, b: string)
    requires sep !in a
    ensures IndexOf(a + [sep] + b, sep) == |a|
  {
    if a != [] {
      assert (a + [sep] + b)[1..] == a[1..] + [sep] + b;
      IndexOfFirst(a[1..], sep, b);
    }
  }

  /** Splitting at the first separator. */
  lemma SplitFirst(a: string, sep: char, b: string)
    requires sep !in a
    ensures Split(a + [sep] + b, sep) == [a] + Split(b, sep)
  {
    var s := a + [sep] + b;
    IndexOfFirst(a, sep, b);
    assert s[..|a|] == a && s[|a| + 1..] == b;
  }

  /** `s.split('/')[-1]`: what follows the last slash. */
  function LastSegment(s: string): (r: string)
    ensures '/' !in r
  {
    var parts := Split(s, '/');
    parts[|parts| - 1]
  }

  // ---------------------------------------------------------------------
  // First-seen de-duplication: what `if x not in out: out.append(x)` builds.

  function Dedup<T(==,!new)>(s: seq<T>): (r: seq<T>)
    ensures forall x :: x in r <==> x in s
    ensures NoDuplicates(r)
    ensures |r| <= |s|
  {
    if s == [] then []
    else
      var prefix := Dedup(s[..|s| - 1]);
      assert forall x :: x in s <==> x in s[..|s| - 1] || x == s[|s| - 1];
      if s[|s| - 1] in prefix then prefix else prefix + [s[|s| - 1]]
  }

  predicate NoDuplicates<T(==)>(s: seq<T>) {
    forall i, j :: 0 <= i < j < |s| ==> s[i] != s[j]
  }

  /** Without its last element, a sequence without repetitions still has
      none, and does not hold that element. */
  lemma NoDuplicatesInit<T>(s: seq<T>)
    requires NoDuplicates(s) && s != []
    ensures NoDuplicates(s[..|s| - 1]) && s[|s| - 1] !in s[..|s| - 1]
  {
    var init := s[..|s| - 1];
    forall i, j | 0 <= i < j < |init| ensures init[i] != init[j] {
      assert init[i] == s[i] && init[j] == s[j];
    }
    forall i | 0 <= i < |init| ensures init[i] != s[|s| - 1] {
      assert init[i] == s[i];
    }
  }

  /** Appending a new element keeps a sequence without repetitions. */
  lemma NoDuplicatesSnoc<T>(s: seq<T>, x: T)
    requires NoDuplicates(s) && x !in s
    ensures NoDuplicates(s + [x])
  {
    forall i, j | 0 <= i < j < |s + [x]| ensures (s + [x])[i] != (s + [x])[j] {
      assert (s + [x])[i] == s[i];
    }
  }

  /** A sequence without repetitions is its own de-duplication. */
  lemma {:induction false} DedupDistinct<T(!new)>(s: seq<T>)
    requires NoDuplicates(s)
    ensures Dedup(s) == s
  {
    if s != [] {
      DedupDistinct(s[..|s| - 1]);
      assert s[|s| - 1] !in s[..|s| - 1];
      assert s == s[..|s| - 1] + [s[|s| - 1]];
    }
  }

  /** Where `x` first occurs in `s`. */
  function FirstIndex<T(==)>(s: seq<T>, x: T): (i: nat)
    requires x in s
    ensures i < |s| && s[i] == x && x !in s[..i]
  {
    if s[0] == x then 0
    else
      assert s[1..][..FirstIndex(s[1..], x)] == s[1..FirstIndex(s[1..], x) + 1];
      1 + FirstIndex(s[1..], x)
  }

  lemma FirstIndexSnoc<T>(s: seq<T>, y: T, x: T)
    requires x in s
    ensures x in s + [y] && FirstIndex(s + [y], x) == FirstIndex(s, x)
  {
    var i := FirstIndex(s, x);
    var t := s + [y];
    assert t[..i] == s[..i];
    FirstIndexUnique(t, x, i);
  }

  lemma FirstIndexUnique<T>(s: seq<T>, x: T, i: nat)
    requires i < |s| && s[i] == x && x !in s[..i]
    ensures FirstIndex(s, x) == i
  {
  }

  /** De-duplication keeps the first occurrences in the order they occur:
      an element comes before another in the result exactly when it first
      occurs earlier in the input. */
  lemma {:induction false} DedupFirstSeen<T(!new)>(s: seq<T>)
    ensures forall i, j :: 0 <= i < j < |Dedup(s)| ==> FirstIndex(s, Dedup(s)[i]) < FirstIndex(s, Dedup(s)[j])
  {
    if s != [] {
      var init, last := s[..|s| - 1], s[|s| - 1];
      var prev := Dedup(init);
      DedupFirstSeen(init);
      assert s == init + [last];
      forall x | x in prev ensures FirstIndex(s, x) == FirstIndex(init, x) && FirstIndex(init, x) < |init| {
        FirstIndexSnoc(init, last, x);
      }
      if last !in prev {
        FirstIndexUnique(s, last, |s| - 1);
        var r := Dedup(s);
        assert r == prev + [last];
        forall i, j | 0 <= i < j < |r| ensures FirstIndex(s, r[i]) < FirstIndex(s, r[j]) {
          assert r[i] == prev[i] && r[i] in prev;
          if j < |prev| {
            assert r[j] == prev[j] && r[j] in prev;
          }
        }
      } else {
        forall i, j | 0 <= i < j < |prev| ensures FirstIndex(s, prev[i]) < FirstIndex(s, prev[j]) {
          assert prev[i] in prev && prev[j] in prev;
        }
      }
    }
  }

  // ---------------------------------------------------------------------
  // Filtering.

  /** `[x for x in s if p(x)]`. */
  function Filter<T>(s: seq<T>, p: T -> bool): (r: seq<T>)
    ensures |r| <= |s|
  {
    if s == [] then []
    else
      var prefix := Filter(s[..|s| - 1], p);
      if p(s[|s| - 1]) then prefix + [s[|s| - 1]] else prefix
  }

  /** The kept elements are exactly the elements that pass the test. */
  lemma {:induction false} FilterMembers<T>(s: seq<T>, p: T -> bool, x: T)
    ensures x in Filter(s, p) <==> x in s && p(x)
  {
    if s != [] {
      FilterMembers(s[..|s| - 1], p, x);
      assert s == s[..|s| - 1] + [s[|s| - 1]];
    }
  }

  /** Every element either passes a test or fails it: the counts of both
      add up to the length. */
  lemma {:induction false} FilterComplement<T>(s: seq<T>, p: T -> bool, q: T -> bool)
    requires forall x :: q(x) == !p(x)
    ensures |Filter(s, p)| + |Filter(s, q)| == |s|
  {
    if s != [] {
      FilterComplement(s[..|s| - 1], p, q);
    }
  }

  lemma {:induction false} FilterConcat<T>(a: seq<T>, b: seq<T>, p: T -> bool)
    ensures Filter(a + b, p) == Filter(a, p) + Filter(b, p)
    decreases |b|
  {
    if b == [] {
      assert a + b == a;
    } else {
      assert (a + b)[..|a + b| - 1] == a + b[..|b| - 1];
      FilterConcat(a, b[..|b| - 1], p);
    }
  }

  /** The test "has key k", as a predicate value for `Filter`. */
  function KeyIs<T>(key: T -> nat, k: nat): T -> bool {
    x => key(x) == k
  }

  /** Filtering by a key of at most 3 splits a sequence into four parts. */
  lemma {:induction false} PartitionByKey<T>(s: seq<T>, key: T -> nat)
    requires forall x :: key(x) <= 3
    ensures multiset(Filter(s, KeyIs(key, 0))) + multiset(Filter(s, KeyIs(key, 1)))
          + multiset(Filter(s, KeyIs(key, 2))) + multiset(Filter(s, KeyIs(key, 3))) == multiset(s)
  {
    if s != [] {
      var init, last := s[..|s| - 1], s[|s| - 1];
      PartitionByKey(init, key);
      assert s == init + [last];
      var f0, f1, f2, f3 := Filter(init, KeyIs(key, 0)), Filter(init, KeyIs(key, 1)),
        Filter(init, KeyIs(key, 2)), Filter(init, KeyIs(key, 3));
      assert multiset(s) == multiset(init) + multiset{last};
      FilterSnocCount(init, last, KeyIs(key, 0));
      FilterSnocCount(init, last, KeyIs(key, 1));
      FilterSnocCount(init, last, KeyIs(key, 2));
      FilterSnocCount(init, last, KeyIs(key, 3));
    }
  }

  lemma FilterSnocCount<T>(s: seq<T>, x: T, p: T -> bool)
    ensures multiset(Filter(s + [x], p)) == multiset(Filter(s, p)) + if p(x) then multiset{x} else multiset{}
  {
    FilterSnoc(s, x, p);
  }

  lemma FilterSnoc<T>(s: seq<T>, x: T, p: T -> bool)
    ensures Filter(s + [x], p) == Filter(s, p) + (if p(x) then [x] else [])
  {
    assert (s + [x])[..|s + [x]| - 1] == s;
  }
}
