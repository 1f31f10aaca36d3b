/** The last-updated date of a page: capture groups from the date patterns
    are normalised to `YYYY-MM-DD`, keyword matches take priority over
    generic ones, `<meta>` dates are consulted only when the generic
    patterns were used, and the most recent date before today wins.

    The HTML side (noise stripping, text nodes, the regular expressions
    and the `<meta>` lookup) is an input: a page is given as the capture
    groups each pattern matched in each text element, and the `content`
    values of the `<meta>` tags found, in property order. */
module DateExtraction {
  import opened Text
  import opened Calendar

  /** The answer when no date can be chosen. */
  const NoDate := "[無日期]"

  /** The capture groups of one match, in order; a group that took no part
      in the match is the empty string. */
  type Groups = seq<string>

  /** `[int(g) for g in groups if g and g.isdigit()]`. */
  function Numbers(groups: Groups): (nums: seq<nat>)
    ensures |nums| <= |groups|
  {
    if groups == [] then []
    else (if IsDigits(groups[0]) then [ParseNat(groups[0])] else []) + Numbers(groups[1..])
  }

  /** The test `g and g.isdigit()`, as a predicate value for `Filter`. */
  function DigitGroup(): string -> bool {
    g => IsDigits(g)
  }

  /** The numbers are the digit groups, read in order: the filter, then the
      conversion. */
  lemma {:induction false} NumbersOfGroups(groups: Groups)
    ensures |Numbers(groups)| == |Filter(groups, DigitGroup())|
    ensures forall i :: 0 <= i < |Numbers(groups)| ==>
      IsDigits(Filter(groups, DigitGroup())[i]) && Numbers(groups)[i] == ParseNat(Filter(groups, DigitGroup())[i])
  {
    if groups != [] {
      var g, tail := groups[0], groups[1..];
      var p := DigitGroup();
      NumbersOfGroups(tail);
      assert [g] + tail == groups;
      FilterConcat([g], tail, p);
      assert [g][..0] == [];
      assert Filter([g], p) == if IsDigits(g) then [g] else [];
      var ft := Filter(tail, p);
      assert Filter(groups, p) == (if IsDigits(g) then [g] else []) + ft;
      assert Numbers(groups) == (if IsDigits(g) then [ParseNat(g)] else []) + Numbers(tail);
    }
  }

  /** How the normaliser reads two or three numbers: a trailing number of
      1900 or more is a common-era year written last (day-month-year or
      month-year); otherwise the first number is the year, and a year below
      200 is a Minguo year (79 and later, i.e. 1990 and later). Dates before
      1990 are rejected. Month and day are not range-checked. */
  function ReadNumbers(nums: seq<nat>): (r: Option<Ymd>)
    ensures r.Some? ==> r.value.year >= 1990 && r.value.month >= 0 && r.value.day >= 0
    ensures r.Some? ==> |nums| == 2 || |nums| == 3
    ensures r.Some? && |nums| == 2 ==> r.value.day == 1
  {
    if |nums| == 3 then
      var a, b, c := nums[0], nums[1], nums[2];
      if c >= 1900 then (if c < 1990 then None else Some(Ymd(c, b, a)))
      else if a < 200 then (if a < 79 then None else Some(Ymd(a + 1911, b, c)))
      else if a < 1990 then None else Some(Ymd(a, b, c))
    else if |nums| == 2 then
      var a, b := nums[0], nums[1];
      if b >= 1900 then (if b < 1990 then None else Some(Ymd(b, a, 1)))
      else if a < 200 then (if a < 79 then None else Some(Ymd(a + 1911, b, 1)))
      else if a < 1990 then None else Some(Ymd(a, b, 1))
    else None
  }

  /** `_normalize_date_string`: the `YYYY-MM-DD` text of a match, or "". */
  function NormalizeDateString(groups: Groups): (r: string)
    ensures ParseIso(r).Some? ==> ParseIso(r).value.year >= 1990
  {
    if groups == [] then ""
    else match ReadNumbers(Numbers(groups))
      case None => ""
      case Some(t) =>
        assert ParseIso(FormatIso(t)).Some? ==> ParseIso(FormatIso(t)) == Some(t) by {
          if ParseIso(FormatIso(t)).Some? { ParseFormatAny(t); }
        }
        FormatIso(t)
  }

  /** The three numbers of a date, as a pattern would capture them. */
  function DateGroups(y: nat, m: nat, d: nat): Groups {
    [PadNat(y, 4), PadNat(m, 2), PadNat(d, 2)]
  }

  lemma NumbersOfDigits(a: string, b: string, c: string)
    requires IsDigits(a) && IsDigits(b) && IsDigits(c)
    ensures Numbers([a, b, c]) == [ParseNat(a), ParseNat(b), ParseNat(c)]
  {
    assert [a, b, c][1..] == [b, c];
    assert [b, c][1..] == [c];
    assert [c][1..] == [];
    assert Numbers([c]) == [ParseNat(c)] + Numbers([]);
    assert Numbers([b, c]) == [ParseNat(b)] + Numbers([c]);
    assert Numbers([a, b, c]) == [ParseNat(a)] + Numbers([b, c]);
  }

  lemma PadIsDigits(n: nat, w: nat)
    ensures IsDigits(PadNat(n, w)) && ParseNat(PadNat(n, w)) == n
  {
    ParsePad(n, w);
  }

  lemma NumbersOfDateGroups(y: nat, m: nat, d: nat)
    ensures Numbers(DateGroups(y, m, d)) == [y, m, d]
  {
    PadIsDigits(y, 4);
    PadIsDigits(m, 2);
    PadIsDigits(d, 2);
    NumbersOfDigits(PadNat(y, 4), PadNat(m, 2), PadNat(d, 2));
  }

  /** A date written year first and the same date written day first
      normalise to the same text. */
  lemma YearFirstDayFirstAgree(y: nat, m: nat, d: nat)
    requires y >= 1990 && d < 1900
    ensures NormalizeDateString(DateGroups(y, m, d)) == NormalizeDateString([PadNat(d, 2), PadNat(m, 2), PadNat(y, 4)])
    ensures NormalizeDateString(DateGroups(y, m, d)) == FormatIso(Ymd(y, m, d))
  {
    NumbersOfDateGroups(y, m, d);
    PadIsDigits(y, 4);
    PadIsDigits(m, 2);
    PadIsDigits(d, 2);
    NumbersOfDigits(PadNat(d, 2), PadNat(m, 2), PadNat(y, 4));
    assert ReadNumbers([y, m, d]) == Some(Ymd(y, m, d));
    assert ReadNumbers([d, m, y]) == Some(Ymd(y, m, d));
    NormalizeOfNumbers(DateGroups(y, m, d), Ymd(y, m, d));
    NormalizeOfNumbers([PadNat(d, 2), PadNat(m, 2), PadNat(y, 4)], Ymd(y, m, d));
  }

  lemma NormalizeOfNumbers(groups: Groups, t: Ymd)
    requires groups != [] && ReadNumbers(Numbers(groups)) == Some(t)
    ensures NormalizeDateString(groups) == FormatIso(t)
  {
  }

  /** A Minguo year and its common-era year give the same date. */
  lemma MinguoAgreesWithCommonEra(y: nat, m: nat, d: nat)
    requires 1990 <= y < 2111 && m < 1900 && d < 1900
    ensures ReadNumbers([y - 1911, m, d]) == ReadNumbers([y, m, d]) == Some(Ymd(y, m, d))
    ensures ReadNumbers([y - 1911, m]) == ReadNumbers([y, m]) == Some(Ymd(y, m, 1))
  {
  }

  /** The year a reading of two or three numbers settles on: a trailing
      number of 1900 or more, otherwise the first number, shifted by 1911
      when it is below 200. */
  function YearRead(nums: seq<nat>): int
    requires |nums| == 2 || |nums| == 3
  {
    var last := nums[|nums| - 1];
    if last >= 1900 then last else if nums[0] < 200 then nums[0] + 1911 else nums[0]
  }

  /** A reading is rejected exactly when its year is before 1990, and an
      accepted one carries that year. */
  lemma ReadNumbersYear(nums: seq<nat>)
    requires |nums| == 2 || |nums| == 3
    ensures ReadNumbers(nums).None? <==> YearRead(nums) < 1990
    ensures ReadNumbers(nums).Some? ==> ReadNumbers(nums).value.year == YearRead(nums)
  {
  }

  /** Years before 1990 are rejected, however they are written. */
  lemma RejectsBefore1990(nums: seq<nat>)
    requires |nums| == 2 || |nums| == 3
    requires forall i :: 0 <= i < |nums| ==> nums[i] < 79 || 1900 <= nums[i] < 1990
    ensures ReadNumbers(nums) == None
  {
  }

  /** Normalising a date's own `YYYY-MM-DD` text gives it back. */
  lemma NormalizeWrittenDate(t: Ymd)
    requires ValidDate(t) && t.year >= 1990
    ensures NormalizeDateString(Split(FormatIso(t), '-')) == FormatIso(t)
  {
    SplitWrittenDate(t);
    YearFirstDayFirstAgree(t.year, t.month, t.day);
  }

  lemma SplitWrittenDate(t: Ymd)
    requires t.year >= 0 && t.month >= 0 && t.day >= 0
    ensures Split(FormatIso(t), '-') == DateGroups(t.year, t.month, t.day)
  {
    var y, m, d := PadNat(t.year, 4), PadNat(t.month, 2), PadNat(t.day, 2);
    assert '-' !in y && '-' !in m && '-' !in d by {
      assert !IsDigit('-');
    }
    assert FormatIso(t) == y + ['-'] + (m + ['-'] + d);
    SplitFirst(y, '-', m + ['-'] + d);
    SplitFirst(m, '-', d);
  }

  // ---------------------------------------------------------------------
  // Searching one scope.

  /** The normalised dates of a run of matches, rejected ones left out. */
  function MatchedDates(matches: seq<Groups>): (r: seq<string>)
    ensures forall i :: 0 <= i < |r| ==> r[i] != ""
  {
    if matches == [] then []
    else
      var s := NormalizeDateString(matches[|matches| - 1]);
      MatchedDates(matches[..|matches| - 1]) + (if s != "" then [s] else [])
  }

  method CollectMatches(matches: seq<Groups>) returns (dates: seq<string>)
    ensures dates == MatchedDates(matches)
  {
    dates := [];
    for j := 0 to |matches|
      invariant dates == MatchedDates(matches[..j])
    {
      var s := NormalizeDateString(matches[j]);
      if s != "" {
        dates := dates + [s];
      }
      assert matches[..j + 1][..j] == matches[..j];
    }
    assert matches[..|matches|] == matches;
  }

  /** The matches of one text element: every keyword pattern's, then every
      generic pattern's, in pattern order. */
  datatype TextMatches = TextMatches(keyword: seq<Groups>, generic: seq<Groups>)

  function KeywordDates(texts: seq<TextMatches>): (r: seq<string>)
    ensures forall i :: 0 <= i < |r| ==> r[i] != ""
  {
    if texts == [] then []
    else KeywordDates(texts[..|texts| - 1]) + MatchedDates(texts[|texts| - 1].keyword)
  }

  function GenericDates(texts: seq<TextMatches>): (r: seq<string>)
    ensures forall i :: 0 <= i < |r| ==> r[i] != ""
  {
    if texts == [] then []
    else GenericDates(texts[..|texts| - 1]) + MatchedDates(texts[|texts| - 1].generic)
  }

  /** What `_search_for_date_in_scope` finds: the keyword dates when there
      are any, otherwise the generic ones (and the flag saying so), each
      once, in the order first met. */
  function ScopeDates(texts: seq<TextMatches>): (seq<string>, bool) {
    var keyword := KeywordDates(texts);
    if keyword != [] then (Dedup(keyword), false) else (Dedup(GenericDates(texts)), true)
  }

  /** Keyword matches take priority; each date is reported once. */
  lemma ScopeDatesPriority(texts: seq<TextMatches>)
    ensures ScopeDates(texts).1 <==> KeywordDates(texts) == []
    ensures NoDuplicates(ScopeDates(texts).0)
    ensures forall x :: x in ScopeDates(texts).0 <==>
      if KeywordDates(texts) != [] then x in KeywordDates(texts) else x in GenericDates(texts)
    ensures "" !in ScopeDates(texts).0
  {
  }

  method SearchForDateInScope(texts: seq<TextMatches>) returns (found: seq<string>, usedGeneric: bool)
    ensures (found, usedGeneric) == ScopeDates(texts)
  {
    var keywordMatches: seq<string> := [];
    var genericMatches: seq<string> := [];
    for i := 0 to |texts|
      invariant keywordMatches == KeywordDates(texts[..i])
      invariant genericMatches == GenericDates(texts[..i])
    {
      var keyword := CollectMatches(texts[i].keyword);
      var generic := CollectMatches(texts[i].generic);
      keywordMatches := keywordMatches + keyword;
      genericMatches := genericMatches + generic;
      assert texts[..i + 1][..i] == texts[..i];
    }
    assert texts[..|texts|] == texts;
    found := [];
    if keywordMatches != [] {
      usedGeneric := false;
      found := AppendFirstSeen(found, keywordMatches);
    } else {
      usedGeneric := true;
      found := AppendFirstSeen(found, genericMatches);
    }
    assert keywordMatches == [] + keywordMatches && genericMatches == [] + genericMatches;
    DedupAppend(keywordMatches);
    DedupAppend(genericMatches);
  }

  /** `for x in xs: if x and x not in acc: acc.append(x)`. */
  function AppendNew(acc: seq<string>, xs: seq<string>): (r: seq<string>)
    ensures forall x :: x in r <==> x in acc || (x in xs && x != "")
    ensures NoDuplicates(acc) ==> NoDuplicates(r)
    ensures |acc| <= |r| && r[..|acc|] == acc
  {
    if xs == [] then acc
    else
      var prefix := AppendNew(acc, xs[..|xs| - 1]);
      var x := xs[|xs| - 1];
      assert forall y :: y in xs <==> y in xs[..|xs| - 1] || y == x;
      if x != "" && x !in prefix then prefix + [x] else prefix
  }

  /** With no empty texts, appending what is new is de-duplication. */
  lemma {:induction false} DedupAppend(xs: seq<string>)
    requires "" !in xs
    ensures AppendNew([], xs) == Dedup(xs)
  {
    if xs != [] {
      DedupAppend(xs[..|xs| - 1]);
    }
  }

  method AppendFirstSeen(acc: seq<string>, xs: seq<string>) returns (r: seq<string>)
    ensures r == AppendNew(acc, xs)
  {
    r := acc;
    for i := 0 to |xs|
      invariant r == AppendNew(acc, xs[..i])
    {
      if xs[i] != "" && xs[i] !in r {
        r := r + [xs[i]];
      }
      assert xs[..i + 1][..i] == xs[..i];
    }
    assert xs[..|xs|] == xs;
  }

  // ---------------------------------------------------------------------
  // `<meta>` dates.

  /** The date a `<meta>` `content` value gives: split at '-', the first
      part four digits and the second digits, the first three parts taken as
      the groups of a match; otherwise "". */
  function MetaDate(content: string): string {
    var parts := Split(Strip(content), '-');
    if |parts| >= 2 && |parts[0]| == 4 && IsDigits(parts[0]) && IsDigits(parts[1])
    then NormalizeDateString(parts[..if |parts| < 3 then |parts| else 3])
    else ""
  }

  function MetaDates(contents: seq<string>): (r: seq<string>)
    ensures |r| == |contents|
  {
    if contents == [] then []
    else MetaDates(contents[..|contents| - 1]) + [MetaDate(contents[|contents| - 1])]
  }

  /** A date read from a `<meta>` tag is never before 1990. */
  lemma MetaDateYear(content: string)
    ensures var r := MetaDate(content);
      ParseIso(r).Some? ==> ParseIso(r).value.year >= 1990
  {
  }

  /** A `<meta>` value holding a plain date yields that date. */
  lemma MetaPlainDate(t: Ymd)
    requires ValidDate(t) && t.year >= 1990
    ensures MetaDate(FormatIso(t)) == FormatIso(t)
  {
    PlainDateParts(t);
    NormalizeWrittenDate(t);
    SplitWrittenDate(t);
    MetaDateOfThree(FormatIso(t), DateGroups(t.year, t.month, t.day), FormatIso(t));
  }

  /** `MetaDate` on a value of exactly three parts is the normalised parts. */
  lemma MetaDateOfThree(content: string, parts: seq<string>, r: string)
    requires Split(Strip(content), '-') == parts && |parts| == 3
    requires |parts[0]| == 4 && IsDigits(parts[0]) && IsDigits(parts[1])
    requires NormalizeDateString(parts) == r
    ensures MetaDate(content) == r
  {
    MetaDateOf(content, parts);
    assert parts[..3] == parts;
  }

  lemma PlainDateParts(t: Ymd)
    requires ValidDate(t)
    ensures var parts := DateGroups(t.year, t.month, t.day);
      Split(Strip(FormatIso(t)), '-') == parts && |parts| == 3
      && |parts[0]| == 4 && IsDigits(parts[0]) && IsDigits(parts[1])
  {
    IsoStripped(t);
    SplitWrittenDate(t);
    IsoPieces(t);
    PadIsDigits(t.year, 4);
    PadIsDigits(t.month, 2);
  }

  /** A written date has no surrounding space. */
  lemma IsoStripped(t: Ymd)
    requires ValidDate(t)
    ensures Strip(FormatIso(t)) == FormatIso(t)
  {
    var s := FormatIso(t);
    IsoPieces(t);
    assert s[0] == PadNat(t.year, 4)[0] && s[|s| - 1] == PadNat(t.day, 2)[1];
    StripKeeps(s);
  }

  /** `MetaDate` on a value that splits into three or more parts, the first
      two of them numbers and the first four digits long. */
  lemma MetaDateOf(content: string, parts: seq<string>)
    requires Split(Strip(content), '-') == parts && |parts| >= 3
    requires |parts[0]| == 4 && IsDigits(parts[0]) && IsDigits(parts[1])
    ensures MetaDate(content) == NormalizeDateString(parts[..3])
  {
  }

  /** A `<meta>` value holding a date and a time (`2024-03-15T10:00:00Z`)
      keeps only year and month: the third part is not all digits, so the
      day reads as the first of the month. */
  lemma MetaDateTimeKeepsMonthOnly(t: Ymd, time: string)
    requires ValidDate(t) && t.year >= 1990
    requires |time| > 0 && time[0] == 'T' && '-' !in time && !IsSpace(time[|time| - 1])
    ensures MetaDate(FormatIso(t) + time) == FormatIso(Ymd(t.year, t.month, 1))
  {
    var parts := [PadNat(t.year, 4), PadNat(t.month, 2), PadNat(t.day, 2) + time];
    DateTimeParts(t, time);
    DateTimeNormalized(t, time);
    MetaDateOfThree(FormatIso(t) + time, parts, FormatIso(Ymd(t.year, t.month, 1)));
  }

  lemma DateTimeParts(t: Ymd, time: string)
    requires ValidDate(t)
    requires |time| > 0 && '-' !in time && !IsSpace(time[|time| - 1])
    ensures var parts := [PadNat(t.year, 4), PadNat(t.month, 2), PadNat(t.day, 2) + time];
      Split(Strip(FormatIso(t) + time), '-') == parts
      && |parts[0]| == 4 && IsDigits(parts[0]) && IsDigits(parts[1])
  {
    var y, m, d := PadNat(t.year, 4), PadNat(t.month, 2), PadNat(t.day, 2);
    var s := FormatIso(t) + time;
    IsoPieces(t);
    PadIsDigits(t.year, 4);
    PadIsDigits(t.month, 2);
    PadIsDigits(t.day, 2);
    assert s[0] == y[0];
    StripKeeps(s);
    var p := SplitDateTime(y, m, d, time);
  }

  lemma DateTimeNormalized(t: Ymd, time: string)
    requires ValidDate(t) && t.year >= 1990
    requires |time| > 0 && time[0] == 'T'
    ensures var d := PadNat(t.day, 2);
      NormalizeDateString([PadNat(t.year, 4), PadNat(t.month, 2), d + time]) == FormatIso(Ymd(t.year, t.month, 1))
  {
    var y, m, d := PadNat(t.year, 4), PadNat(t.month, 2), PadNat(t.day, 2);
    IsoPieces(t);
    PadIsDigits(t.year, 4);
    PadIsDigits(t.month, 2);
    NumbersOfDateTime(y, m, d + time);
    assert ReadNumbers([t.year, t.month]) == Some(Ymd(t.year, t.month, 1));
  }


  lemma SplitDateTime(y: string, m: string, d: string, time: string) returns (parts: seq<string>)
    requires IsDigits(y) && IsDigits(m) && IsDigits(d) && '-' !in time
    ensures parts == [y, m, d + time]
    ensures Split(y + "-" + m + "-" + d + time, '-') == parts
  {
    assert '-' !in y && '-' !in m && '-' !in d + time by {
      assert !IsDigit('-');
    }
    assert y + "-" + m + "-" + d + time == y + ['-'] + (m + ['-'] + (d + time));
    SplitFirst(y, '-', m + ['-'] + (d + time));
    SplitFirst(m, '-', d + time);
    parts := [y, m, d + time];
  }

  lemma NumbersOfDateTime(a: string, b: string, c: string)
    requires IsDigits(a) && IsDigits(b) && |c| > 2 && c[2] == 'T'
    ensures Numbers([a, b, c]) == [ParseNat(a), ParseNat(b)]
  {
    assert !IsDigits(c);
    assert [a, b, c][1..] == [b, c];
    assert [b, c][1..] == [c];
    assert [c][1..] == [];
    assert Numbers([c]) == Numbers([]);
    assert Numbers([b, c]) == [ParseNat(b)] + Numbers([c]);
    assert Numbers([a, b, c]) == [ParseNat(a)] + Numbers([b, c]);
  }

  // ---------------------------------------------------------------------
  // Choosing among several dates.

  /** `strptime` reads `s` as a date strictly before today. */
  predicate IsPast(s: string, today: Ymd) {
    ParseIso(s).Some? && Ordinal(ParseIso(s).value) < Ordinal(today)
  }

  /** `abs((date_obj - current_obj).days)`. */
  function DayDistance(s: string, today: Ymd): nat
    requires ParseIso(s).Some?
  {
    var n := Ordinal(ParseIso(s).value) - Ordinal(today);
    if n < 0 then -n else n
  }

  /** The dates kept as candidates: readable and before today. */
  function PastDates(dates: seq<string>, today: Ymd): (r: seq<string>)
    ensures forall x :: x in r <==> x in dates && IsPast(x, today)
  {
    if dates == [] then []
    else
      var init := PastDates(dates[..|dates| - 1], today);
      var x := dates[|dates| - 1];
      assert forall y :: y in dates <==> y in dates[..|dates| - 1] || y == x;
      if IsPast(x, today) then init + [x] else init
  }

  /** The readable date nearest today; among equally near ones, the first. */
  function Closest(dates: seq<string>, today: Ymd): (r: Option<string>)
    ensures r.Some? ==> r.value in dates && ParseIso(r.value).Some?
    ensures r.None? ==> forall x :: x in dates ==> ParseIso(x).None?
  {
    if dates == [] then None
    else
      var init := Closest(dates[..|dates| - 1], today);
      var x := dates[|dates| - 1];
      assert forall y :: y in dates <==> y in dates[..|dates| - 1] || y == x;
      if ParseIso(x).Some? && (init.None? || DayDistance(x, today) < DayDistance(init.value, today))
      then Some(x) else init
  }

  /** Python's `max` on strings: the first of the greatest. */
  function MaxText(s: seq<string>): (r: string)
    requires |s| > 0
    ensures r in s
  {
    if |s| == 1 then s[0]
    else
      var m := MaxText(s[..|s| - 1]);
      if LexLt(m, s[|s| - 1]) then s[|s| - 1] else m
  }

  /** `_select_best_date`. */
  function BestDate(dates: seq<string>, today: Ymd): string {
    if |dates| == 0 then NoDate
    else if |dates| == 1 then dates[0]
    else
      var past := PastDates(dates, today);
      if past != [] then MaxText(past)
      else match Closest(dates, today)
        case Some(c) => c
        case None => NoDate
  }

  lemma {:induction false} MaxTextIsGreatest(s: seq<string>)
    requires |s| > 0
    ensures forall x :: x in s ==> LexLe(x, MaxText(s))
  {
    if |s| > 1 {
      var init := s[..|s| - 1];
      MaxTextIsGreatest(init);
      var m := MaxText(init);
      var last := s[|s| - 1];
      assert forall x :: x in s <==> x in init || x == last;
      LexLeTotal(m, last);
      LexLeReflexive(m);
      LexLeReflexive(last);
      if LexLt(m, last) {
        forall x | x in init ensures LexLe(x, last) {
          LexLeTransitive(x, m, last);
        }
      }
    } else {
      LexLeReflexive(s[0]);
    }
  }

  /** Among readable dates, the greatest text is the latest date. */
  lemma LatestText(s: seq<string>, x: string)
    requires |s| > 0 && forall y :: y in s ==> ParseIso(y).Some?
    requires x in s
    ensures DateLe(ParseIso(x).value, ParseIso(MaxText(s)).value)
  {
    MaxTextIsGreatest(s);
    var m := MaxText(s);
    FormatParseIso(x);
    FormatParseIso(m);
    IsoTextOrder(ParseIso(x).value, ParseIso(m).value);
  }

  lemma {:induction false} ClosestIsNearest(dates: seq<string>, today: Ymd)
    requires Closest(dates, today).Some?
    ensures forall x :: x in dates && ParseIso(x).Some? ==>
      DayDistance(Closest(dates, today).value, today) <= DayDistance(x, today)
  {
    var init := dates[..|dates| - 1];
    assert forall y :: y in dates <==> y in init || y == dates[|dates| - 1];
    if Closest(init, today).Some? {
      ClosestIsNearest(init, today);
    }
  }

  /** When several dates are found: the latest one before today if there is
      one; otherwise the readable one nearest today (today or later);
      otherwise the no-date marker. A single date is taken as it is. */
  lemma BestDateChoice(dates: seq<string>, today: Ymd)
    ensures |dates| == 0 ==> BestDate(dates, today) == NoDate
    ensures |dates| == 1 ==> BestDate(dates, today) == dates[0]
    ensures |dates| >= 2 && (exists x :: x in dates && IsPast(x, today)) ==>
      var r := BestDate(dates, today);
      r in dates && IsPast(r, today)
      && forall x :: x in dates && IsPast(x, today) ==> DateLe(ParseIso(x).value, ParseIso(r).value)
    ensures (|dates| >= 2 && (forall x :: x in dates ==> !IsPast(x, today))
             && (exists x :: x in dates && ParseIso(x).Some?)) ==>
      var r := BestDate(dates, today);
      r in dates && ParseIso(r).Some? && Ordinal(ParseIso(r).value) >= Ordinal(today)
      && forall x :: x in dates && ParseIso(x).Some? ==> DayDistance(r, today) <= DayDistance(x, today)
    ensures |dates| >= 2 && (forall x :: x in dates ==> ParseIso(x).None?) ==>
      BestDate(dates, today) == NoDate
  {
    if |dates| >= 2 {
      var past := PastDates(dates, today);
      if past != [] {
        forall x | x in past {
          LatestText(past, x);
        }
      } else if Closest(dates, today).Some? {
        ClosestIsNearest(dates, today);
      }
    }
  }

  method SelectBestDate(dates: seq<string>, today: Ymd) returns (best: string)
    ensures best == BestDate(dates, today)
  {
    if |dates| == 0 {
      return NoDate;
    }
    if |dates| == 1 {
      return dates[0];
    }
    var valid: seq<string> := [];
    var closest: Option<string> := None;
    var closestDiff := 0;
    for i := 0 to |dates|
      invariant valid == PastDates(dates[..i], today)
      invariant closest == Closest(dates[..i], today)
      invariant closest.Some? ==> closestDiff == DayDistance(closest.value, today)
    {
      var date := dates[i];
      assert dates[..i + 1][..i] == dates[..i];
      var parsed := ParseIso(date);
      if parsed.Some? {
        var n := Ordinal(parsed.value) - Ordinal(today);
        var diff := if n < 0 then -n else n;
        if closest.None? || diff < closestDiff {
          closestDiff := diff;
          closest := Some(date);
        }
        if Ordinal(parsed.value) < Ordinal(today) {
          valid := valid + [date];
        }
      }
    }
    assert dates[..|dates|] == dates;
    if valid == [] {
      best := if closest.Some? then closest.value else NoDate;
    } else {
      best := MaxText(valid);
    }
  }

  // ---------------------------------------------------------------------
  // The whole extraction.

  /** What a page offers: the matches of each text element of the scope
      searched (the cleaned body, or the whole cleaned document when there
      is no body) and the `content` of each date `<meta>` tag present. */
  datatype DateEvidence = DateEvidence(texts: seq<TextMatches>, meta: seq<string>)

  /** The dates `_select_best_date` chooses among. */
  function Candidates(e: DateEvidence): seq<string> {
    var (scope, usedGeneric) := ScopeDates(e.texts);
    var found := AppendNew([], scope);
    if usedGeneric then AppendNew(found, MetaDates(e.meta)) else found
  }

  /** `extract_last_updated`. */
  function LastUpdated(e: DateEvidence, today: Ymd): string {
    BestDate(Candidates(e), today)
  }

  /** Candidates are distinct, non-empty, and come from the scope's keyword
      matches when there are any (the `<meta>` tags are then ignored), and
      otherwise from its generic matches and the `<meta>` tags. */
  lemma CandidatesOrigin(e: DateEvidence)
    ensures NoDuplicates(Candidates(e)) && "" !in Candidates(e)
    ensures KeywordDates(e.texts) != [] ==>
      forall x :: x in Candidates(e) <==> x in KeywordDates(e.texts)
    ensures KeywordDates(e.texts) == [] ==>
      forall x :: x in Candidates(e) <==> x in GenericDates(e.texts) || (x in MetaDates(e.meta) && x != "")
  {
    ScopeDatesPriority(e.texts);
  }

  /** The date reported is one of the candidates, or the no-date marker. */
  lemma LastUpdatedIsCandidate(e: DateEvidence, today: Ymd)
    ensures LastUpdated(e, today) == NoDate || LastUpdated(e, today) in Candidates(e)
  {
    var c := Candidates(e);
    if |c| >= 2 && PastDates(c, today) != [] {
      assert MaxText(PastDates(c, today)) in PastDates(c, today);
    }
  }

  /** The `<meta>` loop: one date (possibly "") per tag, in order. */
  method ReadMetaDates(meta: seq<string>) returns (dates: seq<string>)
    ensures dates == MetaDates(meta)
  {
    dates := [];
    for i := 0 to |meta|
      invariant dates == MetaDates(meta[..i])
    {
      assert meta[..i + 1][..i] == meta[..i];
      dates := dates + [MetaDate(meta[i])];
    }
    assert meta[..|meta|] == meta;
  }

  method ExtractLastUpdated(e: DateEvidence, today: Ymd) returns (result: string)
    ensures result == LastUpdated(e, today)
  {
    var scopeDates, usedGeneric := SearchForDateInScope(e.texts);
    assert (scopeDates, usedGeneric) == ScopeDates(e.texts);
    var allFound := AppendFirstSeen([], scopeDates);
    if usedGeneric {
      var metaDates := ReadMetaDates(e.meta);
      allFound := AppendFirstSeen(allFound, metaDates);
    }
    assert allFound == Candidates(e);
    result := SelectBestDate(allFound, today);
  }
}
