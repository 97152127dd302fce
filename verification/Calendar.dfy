/** The proleptic Gregorian calendar: month lengths, the order of dates, the
    ordinal of a day, and ISO text. */
module Calendar {
  import opened Decimal
  import opened Text

  datatype Date = Date(year: int, month: int, day: int)

  predicate IsLeap(y: int) { y % 4 == 0 && (y % 100 != 0 || y % 400 == 0) }

  function MonthLength(y: int, m: int): int
    requires 1 <= m <= 12
  {
    if m == 2 then (if IsLeap(y) then 29 else 28)
    else if m == 4 || m == 6 || m == 9 || m == 11 then 30
    else 31
  }

  /** A day of the calendar; years are not bounded here. */
  predicate IsDay(d: Date) {
    1 <= d.month <= 12 && 1 <= d.day <= MonthLength(d.year, d.month)
  }

  /** The years a date value can carry. */
  predicate InRange(d: Date) { 1 <= d.year <= 9999 }

  predicate Before(a: Date, b: Date) {
    || a.year < b.year
    || (a.year == b.year && a.month < b.month)
    || (a.year == b.year && a.month == b.month && a.day < b.day)
  }

  /** Months counted from year nought. */
  function MonthIndex(d: Date): int { 12 * d.year + d.month - 1 }

  function DaysBeforeYear(y: int): int { 365 * (y - 1) + (y - 1) / 4 - (y - 1) / 100 + (y - 1) / 400 }

  function DaysBeforeMonth(y: int, m: int): int
    requires 1 <= m <= 13
  {
    if m == 1 then 0 else DaysBeforeMonth(y, m - 1) + MonthLength(y, m - 1)
  }

  /** The number of a day, 1 January of year 1 being 1. */
  function Ordinal(d: Date): int
    requires 1 <= d.month <= 12
  {
    DaysBeforeYear(d.year) + DaysBeforeMonth(d.year, d.month) + d.day
  }

  function YearLength(y: int): int { if IsLeap(y) then 366 else 365 }

  function NextDay(d: Date): Date
    requires IsDay(d)
  {
    if d.day < MonthLength(d.year, d.month) then Date(d.year, d.month, d.day + 1)
    else if d.month < 12 then Date(d.year, d.month + 1, 1)
    else Date(d.year + 1, 1, 1)
  }

  function AddDays(d: Date, n: nat): (r: Date)
    requires IsDay(d)
    ensures IsDay(r)
  {
    if n == 0 then d else NextDay(AddDays(d, n - 1))
  }

  /** January to December by number of days. */
  lemma {:induction false} MonthsAddUp(y: int)
    ensures DaysBeforeMonth(y, 13) == YearLength(y)
  {
    assert DaysBeforeMonth(y, 4) == 59 + (if IsLeap(y) then 1 else 0) + 31 by {
      assert DaysBeforeMonth(y, 2) == 31;
      assert DaysBeforeMonth(y, 3) == 59 + (if IsLeap(y) then 1 else 0);
    }
    assert DaysBeforeMonth(y, 7) == DaysBeforeMonth(y, 4) + 91 by {
      assert DaysBeforeMonth(y, 5) == DaysBeforeMonth(y, 4) + 30;
      assert DaysBeforeMonth(y, 6) == DaysBeforeMonth(y, 5) + 31;
    }
    assert DaysBeforeMonth(y, 10) == DaysBeforeMonth(y, 7) + 92 by {
      assert DaysBeforeMonth(y, 8) == DaysBeforeMonth(y, 7) + 31;
      assert DaysBeforeMonth(y, 9) == DaysBeforeMonth(y, 8) + 31;
    }
    assert DaysBeforeMonth(y, 13) == DaysBeforeMonth(y, 10) + 92 by {
      assert DaysBeforeMonth(y, 11) == DaysBeforeMonth(y, 10) + 31;
      assert DaysBeforeMonth(y, 12) == DaysBeforeMonth(y, 11) + 30;
    }
  }

  /** Months but February alternate between 31 days and 30, twice over: at August
      the count begins again. */
  lemma {:induction false} MonthsAlternate(y: int, m: int)
    requires 1 <= m <= 12
    ensures m != 2 ==> MonthLength(y, m) == 30 + (if m < 8 then m else m + 1) % 2
    ensures m == 2 ==> MonthLength(y, m) == if IsLeap(y) then 29 else 28
  {
  }

  /** Every fourth year is a leap year, but of the centuries only every fourth. */
  lemma {:induction false} LeapYears(k: int, c: int, r: int)
    requires 0 <= c < 4 && 0 <= r < 100
    ensures IsLeap(400 * k + 100 * c + r) <==> if r == 0 then c == 0 else r % 4 == 0
  {
    Remainders(k, c, r, 400 * k + 100 * c + r);
  }

  lemma {:induction false} Remainders(k: int, c: int, r: int, y: int)
    requires 0 <= c < 4 && 0 <= r < 100 && y == 400 * k + 100 * c + r
    ensures y % 4 == r % 4 && y % 100 == r && y % 400 == 100 * c + r
  {
    ByFour(100 * k + 25 * c, r, y);
    ByHundred(4 * k + c, r, y);
    ByFourHundred(k, 100 * c + r, y);
  }

  lemma {:induction false} ByFour(q: int, r: int, y: int)
    requires y == 4 * q + r
    ensures y % 4 == r % 4
  {
    assert y == 4 * (q + r / 4) + r % 4;
  }

  lemma {:induction false} ByHundred(q: int, r: int, y: int)
    requires y == 100 * q + r && 0 <= r < 100
    ensures y % 100 == r
  {
  }

  lemma {:induction false} ByFourHundred(q: int, r: int, y: int)
    requires y == 400 * q + r && 0 <= r < 400
    ensures y % 400 == r
  {
  }

  lemma {:induction false} FourHundredYears(y: int)
    ensures DaysBeforeYear(y + 400) == DaysBeforeYear(y) + 146097 && IsLeap(y + 400) == IsLeap(y)
  {
    var n := y - 1;
    assert (n + 400) / 4 == n / 4 + 100 && (n + 400) / 100 == n / 100 + 4 && (n + 400) / 400 == n / 400 + 1;
  }

  /** The calendar comes round every four hundred years, a whole number of weeks. */
  lemma {:induction false} FourCenturies(d: Date)
    requires IsDay(d)
    ensures var later := d.(year := d.year + 400); IsDay(later) && Ordinal(later) == Ordinal(d) + 7 * 20871
  {
    FourHundredYears(d.year);
    SameMonthsBefore(d.year, d.year + 400, d.month);
  }

  lemma {:induction false} SameMonthsBefore(y: int, z: int, m: int)
    requires 1 <= m <= 13 && IsLeap(y) == IsLeap(z)
    ensures DaysBeforeMonth(y, m) == DaysBeforeMonth(z, m)
  {
    if m > 1 {
      SameMonthsBefore(y, z, m - 1);
    }
  }

  lemma {:induction false} EndsOfYear(y: int)
    ensures Ordinal(Date(y, 1, 1)) == DaysBeforeYear(y) + 1
    ensures Ordinal(Date(y, 12, 31)) == DaysBeforeYear(y) + YearLength(y)
  {
    MonthsAddUp(y);
    var december := 12;
    assert DaysBeforeMonth(y, december + 1) == DaysBeforeMonth(y, december) + MonthLength(y, december);
  }

  lemma {:induction false} YearStarts(y: int, days: int)
    requires DaysBeforeYear(y) == days
    ensures Ordinal(Date(y, 1, 1)) == days + 1 && Ordinal(Date(y, 12, 31)) == days + YearLength(y)
  {
    EndsOfYear(y);
  }

  lemma {:induction false} YearsBefore()
    ensures DaysBeforeYear(1) == 0 && DaysBeforeYear(1970) == 719162 && DaysBeforeYear(9999) == 3651694
  {
  }

  /** Days are numbered from the first of January of the year one. */
  lemma {:induction false} FirstDay(y: int)
    requires y == 1
    ensures Ordinal(Date(y, 1, 1)) == 1
  {
    YearStarts(y, 0);
  }

  /** The number of the last day a date can be. */
  lemma {:induction false} LastDay(y: int)
    requires y == 9999
    ensures Ordinal(Date(y, 12, 31)) == 3652059
  {
    YearsBefore();
    YearStarts(y, 3651694);
  }

  lemma {:induction false} OneMultiple(y: int, k: int)
    requires k == 4 || k == 100 || k == 400
    ensures y / k - (y - 1) / k == if y % k == 0 then 1 else 0
  {
  }

  lemma {:induction false} YearSteps(y: int)
    ensures DaysBeforeYear(y + 1) == DaysBeforeYear(y) + YearLength(y)
    ensures DaysBeforeMonth(y, 13) == YearLength(y)
  {
    MonthsAddUp(y);
    OneMultiple(y, 4);
    OneMultiple(y, 100);
    OneMultiple(y, 400);
    LeapMultiples(y);
  }

  lemma {:induction false} HundredFold(q: int)
    ensures (100 * q) % 100 == 0
  {
  }

  lemma {:induction false} FourFold(q: int)
    ensures (4 * q) % 4 == 0
  {
  }

  lemma {:induction false} LeapMultiples(y: int)
    ensures y % 400 == 0 ==> y % 100 == 0
    ensures y % 100 == 0 ==> y % 4 == 0
  {
    if y % 400 == 0 {
      HundredFold(4 * (y / 400));
      assert y == 100 * (4 * (y / 400));
    }
    if y % 100 == 0 {
      FourFold(25 * (y / 100));
      assert y == 4 * (25 * (y / 100));
    }
  }

  lemma {:induction false} MonthsAscend(y: int, m: int, n: int)
    requires 1 <= m < n <= 13
    ensures DaysBeforeMonth(y, m) + MonthLength(y, m) <= DaysBeforeMonth(y, n)
    decreases n - m
  {
    if m + 1 < n {
      MonthsAscend(y, m, n - 1);
    }
  }

  lemma {:induction false} YearsAscend(y: int, z: int)
    requires y < z
    ensures DaysBeforeYear(y) + YearLength(y) <= DaysBeforeYear(z)
    decreases z - y
  {
    if y + 1 == z {
      YearSteps(y);
    } else {
      YearsAscend(y, z - 1);
      YearSteps(z - 1);
    }
  }

  /** The day's place in its year. */
  lemma {:induction false} WithinYear(d: Date)
    requires IsDay(d)
    ensures DaysBeforeYear(d.year) < Ordinal(d) <= DaysBeforeYear(d.year) + YearLength(d.year)
  {
    MonthsAscend(d.year, d.month, 13);
    YearSteps(d.year);
    if d.month > 1 {
      MonthsAscend(d.year, 1, d.month);
    }
  }

  lemma {:induction false} BeforeMeansEarlier(a: Date, b: Date)
    requires IsDay(a) && IsDay(b) && Before(a, b)
    ensures Ordinal(a) < Ordinal(b)
  {
    if a.year < b.year {
      WithinYear(a);
      WithinYear(b);
      YearsAscend(a.year, b.year);
    } else if a.month < b.month {
      MonthsAscend(a.year, a.month, b.month);
    }
  }

  /** Dates are ordered as their ordinals are, and no two days share one. */
  lemma {:induction false} OrdinalOrder(a: Date, b: Date)
    requires IsDay(a) && IsDay(b)
    ensures Before(a, b) <==> Ordinal(a) < Ordinal(b)
    ensures a == b <==> Ordinal(a) == Ordinal(b)
  {
    if Before(a, b) {
      BeforeMeansEarlier(a, b);
    } else if Before(b, a) {
      BeforeMeansEarlier(b, a);
    }
  }

  /** The next day is numbered one more: adding days and numbering them agree. */
  lemma {:induction false} AddDaysAddsToOrdinal(d: Date, n: nat)
    requires IsDay(d)
    ensures Ordinal(AddDays(d, n)) == Ordinal(d) + n
  {
    if n > 0 {
      AddDaysAddsToOrdinal(d, n - 1);
      var e := AddDays(d, n - 1);
      if e.day == MonthLength(e.year, e.month) && e.month == 12 {
        YearSteps(e.year);
      }
    }
  }

  // ---- ISO text ---------------------------------------------------------------------

  function TwoDigits(n: int): string
    requires 0 <= n <= 99
  {
    [Digit(n / 10), Digit(n % 10)]
  }

  /** `YYYY-MM-DD`. */
  function Iso(d: Date): string
    requires IsDay(d) && InRange(d)
  {
    TwoDigits(d.year / 100) + TwoDigits(d.year % 100) + "-" + TwoDigits(d.month) + "-" + TwoDigits(d.day)
  }

  lemma {:induction false} LessConcat(a: string, b: string, x: string, y: string)
    requires |a| == |b|
    ensures Less(a + x, b + y) <==> Less(a, b) || (a == b && Less(x, y))
  {
    if a == [] {
      assert a + x == x && b + y == y;
    } else {
      assert (a + x)[1..] == a[1..] + x && (b + y)[1..] == b[1..] + y;
      assert a == [a[0]] + a[1..] && b == [b[0]] + b[1..];
      LessConcat(a[1..], b[1..], x, y);
    }
  }

  lemma {:induction false} OneCharOrder(a: char, b: char)
    ensures Less([a], [b]) <==> a < b
  {
    assert [a][1..] == [] && [b][1..] == [];
  }

  lemma {:induction false} TwoDigitsOrder(m: int, n: int)
    requires 0 <= m <= 99 && 0 <= n <= 99
    ensures Less(TwoDigits(m), TwoDigits(n)) <==> m < n
    ensures TwoDigits(m) == TwoDigits(n) <==> m == n
  {
    var t, u := Digit(m / 10), Digit(n / 10);
    var v, w := Digit(m % 10), Digit(n % 10);
    DigitOrder(m / 10, n / 10);
    DigitOrder(m % 10, n % 10);
    FieldsOrder([t], [u], [v], [w]);
    OneCharOrder(t, u);
    OneCharOrder(v, w);
    assert [t] + [v] == TwoDigits(m) && [u] + [w] == TwoDigits(n);
    assert [t] == [u] <==> t == u by {
      if [t] == [u] {
        assert [t][0] == [u][0];
      }
    }
    assert [v] == [w] <==> v == w by {
      if [v] == [w] {
        assert [v][0] == [w][0];
      }
    }
    assert m == 10 * (m / 10) + m % 10 && n == 10 * (n / 10) + n % 10;
  }

  /** The year part, then month and day: what `Iso` joins. */
  function YearText(y: int): string
    requires 0 <= y <= 9999
  {
    TwoDigits(y / 100) + TwoDigits(y % 100)
  }

  lemma {:induction false} YearTextOrder(y: int, z: int)
    requires 0 <= y <= 9999 && 0 <= z <= 9999
    ensures Less(YearText(y), YearText(z)) <==> y < z
    ensures YearText(y) == YearText(z) <==> y == z
  {
    TwoDigitsOrder(y / 100, z / 100);
    TwoDigitsOrder(y % 100, z % 100);
    FieldsOrder(TwoDigits(y / 100), TwoDigits(z / 100), TwoDigits(y % 100), TwoDigits(z % 100));
    assert y == 100 * (y / 100) + y % 100 && z == 100 * (z / 100) + z % 100;
  }

  /** A dash before both sides changes nothing. */
  lemma {:induction false} DashOrder(x: string, y: string)
    ensures Less("-" + x, "-" + y) <==> Less(x, y)
    ensures "-" + x == "-" + y <==> x == y
  {
    FieldsOrder("-", "-", x, y);
    LessIrreflexive("-");
  }

  lemma {:induction false} MonthDayOrder(m: int, d: int, n: int, e: int)
    requires 0 <= m <= 99 && 0 <= d <= 99 && 0 <= n <= 99 && 0 <= e <= 99
    ensures Less(TwoDigits(m) + ("-" + TwoDigits(d)), TwoDigits(n) + ("-" + TwoDigits(e))) <==>
            m < n || (m == n && d < e)
    ensures TwoDigits(m) + ("-" + TwoDigits(d)) == TwoDigits(n) + ("-" + TwoDigits(e)) <==> m == n && d == e
  {
    TwoDigitsOrder(m, n);
    TwoDigitsOrder(d, e);
    DashOrder(TwoDigits(d), TwoDigits(e));
    FieldsOrder(TwoDigits(m), TwoDigits(n), "-" + TwoDigits(d), "-" + TwoDigits(e));
  }

  lemma {:induction false} IsoParts(d: Date)
    requires IsDay(d) && InRange(d)
    ensures Iso(d) == YearText(d.year) + ("-" + (TwoDigits(d.month) + ("-" + TwoDigits(d.day))))
  {
  }

  /** ISO dates compare as text exactly as their days do. */
  lemma {:induction false} IsoOrder(a: Date, b: Date)
    requires IsDay(a) && InRange(a) && IsDay(b) && InRange(b)
    ensures Less(Iso(a), Iso(b)) <==> Ordinal(a) < Ordinal(b)
    ensures Iso(a) == Iso(b) <==> a == b
  {
    IsoParts(a);
    IsoParts(b);
    var p, q := TwoDigits(a.month) + ("-" + TwoDigits(a.day)), TwoDigits(b.month) + ("-" + TwoDigits(b.day));
    YearTextOrder(a.year, b.year);
    MonthDayOrder(a.month, a.day, b.month, b.day);
    DashOrder(p, q);
    FieldsOrder(YearText(a.year), YearText(b.year), "-" + p, "-" + q);
    OrdinalOrder(a, b);
  }

  lemma {:induction false} FieldsOrder(a: string, b: string, x: string, y: string)
    requires |a| == |b|
    ensures Less(a + x, b + y) <==> Less(a, b) || (a == b && Less(x, y))
    ensures a + x == b + y <==> a == b && x == y
  {
    LessConcat(a, b, x, y);
    if a + x == b + y {
      assert a == (a + x)[..|a|] && b == (b + y)[..|b|];
      assert x == (a + x)[|a|..] && y == (b + y)[|b|..];
    }
  }
}
