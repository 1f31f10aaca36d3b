/** Proleptic Gregorian dates as Python's `datetime` module knows them, the
    strict `YYYY-MM-DD` form the crawler writes and reads back with
    `strptime("%Y-%m-%d")`, and day numbers for "how many days apart". */
module Calendar {
  import opened Text

  datatype Ymd = Ymd(year: int, month: int, day: int)

  predicate IsLeap(y: int) {
    y % 4 == 0 && (y % 100 != 0 || y % 400 == 0)
  }

  function DaysInYear(y: int): nat {
    if IsLeap(y) then 366 else 365
  }

  function DaysInMonth(y: int, m: int): (n: nat)
    ensures 28 <= n <= 31
  {
    if m == 2 then (if IsLeap(y) then 29 else 28)
    else if m == 4 || m == 6 || m == 9 || m == 11 then 30
    else 31
  }

  /** `datetime.date(year, month, day)` would accept these numbers. */
  predicate ValidDate(d: Ymd) {
    1 <= d.year <= 9999 && 1 <= d.month <= 12 && 1 <= d.day <= DaysInMonth(d.year, d.month)
  }

  /** Days in the years before `y` (year 1 starts at day 1). */
  function DaysBeforeYear(y: int): nat
    decreases y
  {
    if y <= 1 then 0 else DaysBeforeYear(y - 1) + DaysInYear(y - 1)
  }

  /** Days in the months of year `y` before month `m`. */
  function DaysBeforeMonth(y: int, m: int): nat
    decreases m
  {
    if m <= 1 then 0 else DaysBeforeMonth(y, m - 1) + DaysInMonth(y, m - 1)
  }

  /** `date.toordinal()`: 1 for 0001-01-01, one more for each later day. */
  function Ordinal(d: Ymd): int {
    DaysBeforeYear(d.year) + DaysBeforeMonth(d.year, d.month) + d.day
  }

  /** Calendar order: by year, then month, then day. */
  predicate DateLe(a: Ymd, b: Ymd) {
    a.year < b.year
    || (a.year == b.year && (a.month < b.month || (a.month == b.month && a.day <= b.day)))
  }

  lemma MonthsFillYear(y: int)
    ensures DaysBeforeMonth(y, 13) == DaysInYear(y)
  {
  }

  lemma {:induction false} DaysBeforeMonthGrows(y: int, m1: int, m2: int)
    requires 1 <= m1 < m2
    ensures DaysBeforeMonth(y, m2) >= DaysBeforeMonth(y, m1) + DaysInMonth(y, m1)
    decreases m2
  {
    if m2 - 1 > m1 {
      DaysBeforeMonthGrows(y, m1, m2 - 1);
    }
  }

  lemma {:induction false} DaysBeforeYearGrows(y1: int, y2: int)
    requires 1 <= y1 < y2
    ensures DaysBeforeYear(y2) >= DaysBeforeYear(y1) + DaysInYear(y1)
    decreases y2
  {
    if y2 - 1 > y1 {
      DaysBeforeYearGrows(y1, y2 - 1);
    }
  }

  /** A valid date lies within its own year's days. */
  lemma DayOfYearBound(d: Ymd)
    requires ValidDate(d)
    ensures 1 <= DaysBeforeMonth(d.year, d.month) + d.day <= DaysInYear(d.year)
  {
    MonthsFillYear(d.year);
    if d.month < 12 {
      DaysBeforeMonthGrows(d.year, d.month, 13);
    }
  }

  /** Day numbers follow calendar order, in both directions. */
  lemma OrdinalOrder(a: Ymd, b: Ymd)
    requires ValidDate(a) && ValidDate(b)
    ensures DateLe(a, b) <==> Ordinal(a) <= Ordinal(b)
  {
    DayOfYearBound(a);
    DayOfYearBound(b);
    if a.year < b.year {
      DaysBeforeYearGrows(a.year, b.year);
    } else if b.year < a.year {
      DaysBeforeYearGrows(b.year, a.year);
    } else if a.month < b.month {
      DaysBeforeMonthGrows(a.year, a.month, b.month);
    } else if b.month < a.month {
      DaysBeforeMonthGrows(a.year, b.month, a.month);
    }
  }

  /** Two valid dates with one day number are the same date. */
  lemma OrdinalInjective(a: Ymd, b: Ymd)
    requires ValidDate(a) && ValidDate(b) && Ordinal(a) == Ordinal(b)
    ensures a == b
  {
    OrdinalOrder(a, b);
    OrdinalOrder(b, a);
  }

  // ---------------------------------------------------------------------
  // The `YYYY-MM-DD` text form.

  /** `f"{y:04d}-{m:02d}-{d:02d}"`. */
  function FormatIso(d: Ymd): (s: string)
    requires d.year >= 0 && d.month >= 0 && d.day >= 0
  {
    PadNat(d.year, 4) + "-" + PadNat(d.month, 2) + "-" + PadNat(d.day, 2)
  }

  /** The digits-and-dashes shape `DDDD-DD-DD`. */
  predicate IsoShape(s: string) {
    |s| == 10 && s[4] == '-' && s[7] == '-'
    && (forall i :: 0 <= i < 4 ==> IsDigit(s[i]))
    && IsDigit(s[5]) && IsDigit(s[6]) && IsDigit(s[8]) && IsDigit(s[9])
  }

  /** `datetime.strptime(s, "%Y-%m-%d")` read strictly: four year digits,
      two month digits, two day digits, and a real calendar date. */
  function ParseIso(s: string): (r: Option<Ymd>)
    ensures r.Some? ==> ValidDate(r.value) && IsoShape(s)
  {
    if !IsoShape(s) then None
    else
      var d := Ymd(ParseNat(s[..4]), ParseNat(s[5..7]), ParseNat(s[8..]));
      if ValidDate(d) then Some(d) else None
  }

  lemma IsoPieces(d: Ymd)
    requires ValidDate(d)
    ensures |PadNat(d.year, 4)| == 4 && |PadNat(d.month, 2)| == 2 && |PadNat(d.day, 2)| == 2
  {
    PadWidth(d.year, 4);
    PadWidth(d.month, 2);
    PadWidth(d.day, 2);
  }

  /** Writing a valid date and reading it back gives the same date. */
  lemma ParseFormatIso(d: Ymd)
    requires ValidDate(d)
    ensures ParseIso(FormatIso(d)) == Some(d)
  {
    IsoPieces(d);
    var s := FormatIso(d);
    IsoSlices(PadNat(d.year, 4), PadNat(d.month, 2), PadNat(d.day, 2), s);
    IsoShaped(s);
    ParsePad(d.year, 4);
    ParsePad(d.month, 2);
    ParsePad(d.day, 2);
  }

  /** Digits in every field and dashes between them: the written shape. */
  lemma IsoShaped(s: string)
    requires |s| == 10 && s[4] == '-' && s[7] == '-'
    requires forall i :: 0 <= i < |s| && i != 4 && i != 7 ==> IsDigit(s[i])
    ensures IsoShape(s)
  {
  }

  /** Any text `strptime` accepts is exactly how the date is written back. */
  lemma FormatParseIso(s: string)
    requires ParseIso(s).Some?
    ensures FormatIso(ParseIso(s).value) == s
  {
    var v := ParseIso(s).value;
    assert v == Ymd(ParseNat(s[..4]), ParseNat(s[5..7]), ParseNat(s[8..]));
    PadParse(s[..4]);
    PadParse(s[5..7]);
    PadParse(s[8..]);
    IsoRejoin(s);
  }

  lemma IsoRejoin(s: string)
    requires |s| == 10 && s[4] == '-' && s[7] == '-'
    ensures s == s[..4] + "-" + s[5..7] + "-" + s[8..]
  {
  }

  /** Whatever numbers were written, text that `strptime` accepts reads back
      as those very numbers. */
  lemma ParseFormatAny(t: Ymd)
    requires t.year >= 0 && t.month >= 0 && t.day >= 0
    requires ParseIso(FormatIso(t)).Some?
    ensures ParseIso(FormatIso(t)) == Some(t)
  {
    var s := FormatIso(t);
    IsoSlices(PadNat(t.year, 4), PadNat(t.month, 2), PadNat(t.day, 2), s);
    ParsePad(t.year, 4);
    ParsePad(t.month, 2);
    ParsePad(t.day, 2);
  }

  /** Ten characters written as year, dash, month, dash, day, each at least
      its field's width, are exactly those fields. */
  lemma IsoSlices(y: string, m: string, d: string, s: string)
    requires |y| >= 4 && |m| >= 2 && |d| >= 2
    requires s == y + "-" + m + "-" + d && |s| == 10
    ensures s[..4] == y && s[5..7] == m && s[8..] == d
  {
    assert |y| == 4 && |m| == 2 && |d| == 2;
  }

  /** What follows the year in the written form. */
  function MonthDayText(d: Ymd): string
    requires d.month >= 0 && d.day >= 0
  {
    "-" + PadNat(d.month, 2) + "-" + PadNat(d.day, 2)
  }

  lemma {:induction false} DigitsOrder(x: nat, y: nat, w: nat)
    requires w >= 1 && x < Pow10(w) && y < Pow10(w)
    ensures |PadNat(x, w)| == w && |PadNat(y, w)| == w
    ensures LexLe(PadNat(x, w), PadNat(y, w)) <==> x <= y
    ensures PadNat(x, w) == PadNat(y, w) <==> x == y
  {
    PadWidth(x, w);
    PadWidth(y, w);
    ParsePad(x, w);
    ParsePad(y, w);
    LexLeDigits(PadNat(x, w), PadNat(y, w));
  }

  lemma MonthDayTextOrder(a: Ymd, b: Ymd)
    requires ValidDate(a) && ValidDate(b)
    ensures LexLe(MonthDayText(a), MonthDayText(b))
        <==> a.month < b.month || (a.month == b.month && a.day <= b.day)
  {
    DigitsOrder(a.month, b.month, 2);
    DigitsOrder(a.day, b.day, 2);
    DashFieldsOrder(PadNat(a.month, 2), PadNat(b.month, 2), PadNat(a.day, 2), PadNat(b.day, 2));
  }

  lemma DashFieldsOrder(ma: string, mb: string, da: string, db: string)
    requires |ma| == |mb|
    ensures LexLe("-" + ma + "-" + da, "-" + mb + "-" + db)
        <==> (ma != mb && LexLe(ma, mb)) || (ma == mb && LexLe(da, db))
  {
    assert "-" + ma + "-" + da == "-" + (ma + ("-" + da));
    assert "-" + mb + "-" + db == "-" + (mb + ("-" + db));
    LexLeCommonPrefix("-", ma + ("-" + da), mb + ("-" + db));
    FieldsOrder(ma, mb, "-" + da, "-" + db);
    LexLeCommonPrefix("-", da, db);
  }

  /** For written dates, comparing the text compares the dates: the string
      maximum of such texts is the latest date. */
  lemma IsoTextOrder(a: Ymd, b: Ymd)
    requires ValidDate(a) && ValidDate(b)
    ensures LexLe(FormatIso(a), FormatIso(b)) <==> DateLe(a, b)
  {
    var ya, yb := PadNat(a.year, 4), PadNat(b.year, 4);
    DigitsOrder(a.year, b.year, 4);
    MonthDayTextOrder(a, b);
    IsoYearThenRest(a);
    IsoYearThenRest(b);
    FieldsOrder(ya, yb, MonthDayText(a), MonthDayText(b));
  }

  lemma IsoYearThenRest(d: Ymd)
    requires d.year >= 0 && d.month >= 0 && d.day >= 0
    ensures FormatIso(d) == PadNat(d.year, 4) + MonthDayText(d)
  {
  }

  /** Two texts that open with fields of one width compare by the first
      field, and by the rest when the first fields agree. */
  lemma FieldsOrder(p: string, q: string, a: string, b: string)
    requires |p| == |q|
    ensures LexLe(p + a, q + b) <==> (p != q && LexLe(p, q)) || (p == q && LexLe(a, b))
  {
    if p != q {
      LexLeDifferentPrefix(p, q, a, b);
    } else {
      LexLeCommonPrefix(p, a, b);
    }
  }
}
