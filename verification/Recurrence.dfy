/** When a recurring thing next falls due (apps/api/domain/recurrence.py). */
module Recurrence {
  import opened Text
  import opened Calendar

  datatype Frequency = Weekly | Monthly | Quarterly | HalfYearly | Yearly | Unsupported(word: string)

  /** What a call gives: a value, the refusal of an unknown cadence, or the
      error raised when a date would fall past the year 9999. */
  datatype Outcome<+T> = Found(value: T) | BadFrequency | PastCalendar

  const MAX_CATCHUP_PER_RUN: nat := 120

  predicate Known(f: Frequency) { !f.Unsupported? }

  /** How many months `n` steps of a monthly cadence come to. */
  function Span(f: Frequency, n: nat): nat {
    match f
    case Monthly => n
    case Quarterly => 3 * n
    case HalfYearly => 6 * n
    case Yearly => 12 * n
    case _ => 0
  }

  /** How many whole steps of a monthly cadence fit in `months`. */
  function StepsIn(f: Frequency, months: int): int {
    match f
    case Quarterly => months / 3
    case HalfYearly => months / 6
    case Yearly => months / 12
    case _ => months
  }

  function Least(a: int, b: int): int { if a < b then a else b }

  /** `months` later, the day cut to the length of the month it lands in. */
  function AddMonthsClamped(d: Date, months: nat): (r: Date)
    requires IsDay(d)
    ensures IsDay(r)
    ensures MonthIndex(r) == MonthIndex(d) + months
    ensures r.day == Least(d.day, MonthLength(r.year, r.month))
  {
    var m := d.month - 1 + months;
    var y := d.year + m / 12;
    var month := m % 12 + 1;
    Date(y, month, Least(d.day, MonthLength(y, month)))
  }

  /** The `n`-th member of the series, on a calendar without a last year. */
  function Nth(f: Frequency, start: Date, n: nat): (d: Date)
    requires Known(f) && IsDay(start)
    ensures IsDay(d)
  {
    if f.Weekly? then AddDays(start, 7 * n) else AddMonthsClamped(start, Span(f, n))
  }

  function Dated(d: Date): Outcome<Date> {
    if InRange(d) then Found(d) else PastCalendar
  }

  function Occurrence(f: Frequency, start: Date, n: nat): Outcome<Date>
    requires IsDay(start)
  {
    if Known(f) then Dated(Nth(f, start, n)) else BadFrequency
  }

  /** The estimate the searches begin from. */
  function IndexFloor(f: Frequency, start: Date, ref: Date): nat
    requires Known(f) && IsDay(start) && IsDay(ref)
  {
    var q := if f.Weekly? then (Ordinal(ref) - Ordinal(start)) / 7 else StepsIn(f, MonthIndex(ref) - MonthIndex(start));
    if q < 0 then 0 else q
  }

  /** Whether `d` is far enough: past `ref`, or merely at it. */
  predicate Reaches(d: Date, ref: Date, past: bool) {
    match past
    case true => Before(ref, d)
    case false => !Before(d, ref)
  }

  /** The series as a function of the index. */
  ghost function Series(f: Frequency, start: Date): nat -> Date
    requires Known(f) && IsDay(start)
  {
    (n: nat) => Nth(f, start, n)
  }

  ghost predicate IsFirst(s: nat -> Date, ref: Date, past: bool, n: nat) {
    && Reaches(s(n), ref, past)
    && forall k: nat :: k < n ==> !Reaches(s(k), ref, past)
  }

  // ---- the series -------------------------------------------------------------------

  lemma {:induction false} LaterMonthIsLater(a: Date, b: Date)
    requires IsDay(a) && IsDay(b) && MonthIndex(a) < MonthIndex(b)
    ensures Before(a, b)
  {
  }

  lemma {:induction false} NthPlaced(f: Frequency, start: Date, n: nat)
    requires Known(f) && IsDay(start)
    ensures f.Weekly? ==> Ordinal(Nth(f, start, n)) == Ordinal(start) + 7 * n
    ensures !f.Weekly? ==> MonthIndex(Nth(f, start, n)) == MonthIndex(start) + Span(f, n)
  {
    if f.Weekly? {
      AddDaysAddsToOrdinal(start, 7 * n);
    }
  }

  /** The series starts at its start date, strictly increases, and never drifts:
      every member of a monthly series falls on the start's own day, or on the
      last day of a month too short to have it. */
  lemma {:induction false} SeriesIncreases(f: Frequency, start: Date, m: nat, n: nat)
    requires Known(f) && IsDay(start) && m < n
    ensures Nth(f, start, 0) == start
    ensures Before(Nth(f, start, m), Nth(f, start, n))
    ensures !f.Weekly? ==>
              Nth(f, start, n).day == Least(start.day, MonthLength(Nth(f, start, n).year, Nth(f, start, n).month))
  {
    NthPlaced(f, start, m);
    NthPlaced(f, start, n);
    if f.Weekly? {
      OrdinalOrder(Nth(f, start, m), Nth(f, start, n));
    } else {
      LaterMonthIsLater(Nth(f, start, m), Nth(f, start, n));
    }
  }

  /** What the cadences are: seven days, and one, three, six and twelve months, with
      a year counting twelve months of the calendar. */
  lemma {:induction false} CadencesAre(start: Date, n: nat)
    requires IsDay(start)
    ensures Ordinal(Nth(Weekly, start, n)) == Ordinal(start) + 7 * n
    ensures var d := Nth(Monthly, start, n); 12 * d.year + d.month == 12 * start.year + start.month + n
    ensures var d := Nth(Quarterly, start, n); 12 * d.year + d.month == 12 * start.year + start.month + 3 * n
    ensures var d := Nth(HalfYearly, start, n); 12 * d.year + d.month == 12 * start.year + start.month + 6 * n
    ensures var d := Nth(Yearly, start, n); d.year == start.year + n && d.month == start.month
  {
    NthPlaced(Weekly, start, n);
    NthPlaced(Monthly, start, n);
    NthPlaced(Quarterly, start, n);
    NthPlaced(HalfYearly, start, n);
    NthPlaced(Yearly, start, n);
  }

  /** So a quarter is every third month of the monthly series, a half-year every
      sixth and a year every twelfth, to the very day. */
  lemma {:induction false} CoarserSeries(start: Date, n: nat)
    requires IsDay(start)
    ensures Nth(Quarterly, start, n) == Nth(Monthly, start, 3 * n)
    ensures Nth(HalfYearly, start, n) == Nth(Monthly, start, 6 * n) == Nth(Quarterly, start, 2 * n)
    ensures Nth(Yearly, start, n) == Nth(Monthly, start, 12 * n) == Nth(HalfYearly, start, 2 * n)
  {
  }

  /** How far along the series a date lies: in days when weekly, else in months. */
  function Along(f: Frequency, start: Date, d: Date): int
    requires IsDay(start) && IsDay(d)
  {
    if f.Weekly? then Ordinal(d) - Ordinal(start) else MonthIndex(d) - MonthIndex(start)
  }

  function StepOf(f: Frequency, n: nat): nat
    requires Known(f)
  {
    if f.Weekly? then 7 * n else Span(f, n)
  }

  lemma {:induction false} NthIsAlong(f: Frequency, start: Date, n: nat)
    requires Known(f) && IsDay(start)
    ensures Along(f, start, Nth(f, start, n)) == StepOf(f, n)
  {
    NthPlaced(f, start, n);
  }

  /** A date further along is later; one not further along is in no later year. */
  lemma {:induction false} FurtherIsLater(f: Frequency, start: Date, a: Date, b: Date)
    requires IsDay(start) && IsDay(a) && IsDay(b)
    ensures Along(f, start, a) < Along(f, start, b) ==> Before(a, b)
    ensures Along(f, start, a) <= Along(f, start, b) ==> a.year <= b.year
  {
    if f.Weekly? {
      OrdinalOrder(a, b);
      OrdinalOrder(b, a);
    } else if Along(f, start, a) < Along(f, start, b) {
      LaterMonthIsLater(a, b);
    }
  }

  lemma {:induction false} FloorIsBelow(f: Frequency, start: Date, ref: Date)
    requires Known(f) && IsDay(start) && IsDay(ref) && !Before(ref, start)
    ensures var k := IndexFloor(f, start, ref);
            && StepOf(f, k) <= Along(f, start, ref) < StepOf(f, k + 1)
            && (k > 0 ==> StepOf(f, k - 1) < StepOf(f, k))
  {
    OrdinalOrder(ref, start);
  }

  lemma {:induction false} PastTheFloor(f: Frequency, start: Date, ref: Date)
    requires Known(f) && IsDay(start) && IsDay(ref) && !Before(ref, start)
    ensures Before(ref, Nth(f, start, IndexFloor(f, start, ref) + 1))
  {
    var n := IndexFloor(f, start, ref) + 1;
    FloorIsBelow(f, start, ref);
    NthIsAlong(f, start, n);
    FurtherIsLater(f, start, ref, Nth(f, start, n));
  }

  lemma {:induction false} ShortOfTheFloor(f: Frequency, start: Date, ref: Date)
    requires Known(f) && IsDay(start) && IsDay(ref) && !Before(ref, start) && IndexFloor(f, start, ref) > 0
    ensures Before(Nth(f, start, IndexFloor(f, start, ref) - 1), ref)
  {
    var n := IndexFloor(f, start, ref) - 1;
    FloorIsBelow(f, start, ref);
    NthIsAlong(f, start, n);
    FurtherIsLater(f, start, Nth(f, start, n), ref);
  }

  /** The estimate is never too high and at most one too low: the member before
      it lies before the reference, the member after it lies past it. */
  lemma {:induction false} FloorIsClose(f: Frequency, start: Date, ref: Date)
    requires Known(f) && IsDay(start) && IsDay(ref) && !Before(ref, start)
    ensures var k := IndexFloor(f, start, ref);
            && Before(ref, Nth(f, start, k + 1))
            && (k > 0 ==> Before(Nth(f, start, k - 1), ref))
            && Nth(f, start, k).year <= ref.year
  {
    var k := IndexFloor(f, start, ref);
    FloorIsBelow(f, start, ref);
    NthIsAlong(f, start, k);
    FurtherIsLater(f, start, Nth(f, start, k), ref);
    PastTheFloor(f, start, ref);
    if k > 0 {
      ShortOfTheFloor(f, start, ref);
    }
  }

  lemma {:induction false} AfterTheFloor(f: Frequency, start: Date, ref: Date, past: bool)
    requires Known(f) && IsDay(start) && IsDay(ref) && !Before(ref, start)
    ensures Reaches(Nth(f, start, IndexFloor(f, start, ref) + 1), ref, past)
  {
    FloorIsClose(f, start, ref);
  }

  ghost predicate Rising(s: nat -> Date) {
    forall i: nat, j: nat :: i < j ==> Before(s(i), s(j))
  }

  ghost predicate RisingDays(s: nat -> Date) { Rising(s) && forall n: nat :: IsDay(s(n)) }

  ghost function DaysShort(ref: Date, d: Date): nat
    requires IsDay(ref) && IsDay(d)
  {
    if Ordinal(d) > Ordinal(ref) then 0 else Ordinal(ref) - Ordinal(d) + 1
  }

  lemma {:induction false} Climbs(s: nat -> Date, ref: Date, past: bool, n: nat)
    requires RisingDays(s) && IsDay(ref) && !Reaches(s(n), ref, past)
    ensures DaysShort(ref, s(n + 1)) < DaysShort(ref, s(n))
  {
    var m := n + 1;
    assert Before(s(n), s(m));
    OrdinalOrder(s(n), s(m));
    OrdinalOrder(ref, s(n));
  }

  /** The index of the first member, from the `n`-th on, that reaches the
      reference: found by trying them in turn. */
  ghost function FirstFrom(s: nat -> Date, ref: Date, past: bool, n: nat): (k: nat)
    requires RisingDays(s) && IsDay(ref)
    ensures n <= k
    decreases DaysShort(ref, s(n))
  {
    if Reaches(s(n), ref, past) then n
    else
      Climbs(s, ref, past, n);
      FirstFrom(s, ref, past, n + 1)
  }

  lemma {:induction false} FirstFromIsFirst(s: nat -> Date, ref: Date, past: bool, n: nat, k: nat)
    requires RisingDays(s) && IsDay(ref) && n <= k && IsFirst(s, ref, past, k)
    ensures FirstFrom(s, ref, past, n) == k
    decreases k - n
  {
    if n < k {
      FirstFromIsFirst(s, ref, past, n + 1, k);
    }
  }

  lemma {:induction false} SeriesAt(f: Frequency, start: Date, n: nat)
    requires Known(f) && IsDay(start)
    ensures Series(f, start)(n) == Nth(f, start, n)
  {
  }

  lemma {:induction false} SeriesIsRising(f: Frequency, start: Date)
    requires Known(f) && IsDay(start)
    ensures RisingDays(Series(f, start))
  {
    forall i: nat, j: nat | i < j ensures Before(Series(f, start)(i), Series(f, start)(j)) {
      SeriesIncreases(f, start, i, j);
    }
    forall n: nat ensures IsDay(Series(f, start)(n)) {
      SeriesAt(f, start, n);
    }
  }

  ghost function FirstIndex(f: Frequency, start: Date, ref: Date, past: bool): nat
    requires Known(f) && IsDay(start) && IsDay(ref)
  {
    SeriesIsRising(f, start);
    FirstFrom(Series(f, start), ref, past, 0)
  }

  lemma {:induction false} FirstNear(s: nat -> Date, k: nat, ref: Date, past: bool)
    requires Rising(s) && Before(ref, s(k + 1)) && (k > 0 ==> Before(s(k - 1), ref))
    ensures IsFirst(s, ref, past, if Reaches(s(k), ref, past) then k else k + 1)
  {
    forall j: nat | j < k ensures !Reaches(s(j), ref, past) {
      if j < k - 1 {
        assert Before(s(j), s(k - 1));
      }
    }
  }

  lemma {:induction false} FirstIndexIsFirst(f: Frequency, start: Date, ref: Date, past: bool)
    requires Known(f) && IsDay(start) && IsDay(ref) && !Before(ref, start)
    ensures var k := IndexFloor(f, start, ref);
            FirstIndex(f, start, ref, past) == if Reaches(Nth(f, start, k), ref, past) then k else k + 1
    ensures IsFirst(Series(f, start), ref, past, FirstIndex(f, start, ref, past))
  {
    var k := IndexFloor(f, start, ref);
    FloorIsClose(f, start, ref);
    SeriesIsRising(f, start);
    var s := Series(f, start);
    SeriesAt(f, start, k);
    SeriesAt(f, start, k + 1);
    if k > 0 {
      SeriesAt(f, start, k - 1);
    }
    FirstNear(s, k, ref, past);
    FirstFromIsFirst(s, ref, past, 0, if Reaches(s(k), ref, past) then k else k + 1);
  }

  /** No member below the estimate reaches the reference. */
  lemma {:induction false} BackStopsAtOnce(f: Frequency, start: Date, ref: Date, past: bool, n: nat)
    requires Known(f) && IsDay(start) && IsDay(ref) && !Before(ref, start)
    requires n == IndexFloor(f, start, ref) || (n < IndexFloor(f, start, ref) && Reaches(Nth(f, start, n), ref, past))
    ensures n == IndexFloor(f, start, ref)
  {
    FirstIndexIsFirst(f, start, ref, past);
    assert Series(f, start)(n) == Nth(f, start, n);
  }

  // ---- the searches -----------------------------------------------------------------

  /** The first member at or after `ref`. A reference not past the start is
      answered with the start before the cadence is looked at. */
  ghost function OnOrAfter(f: Frequency, start: Date, ref: Date): Outcome<Date>
    requires IsDay(start) && IsDay(ref)
  {
    if !Before(start, ref) then Found(start)
    else if !Known(f) then BadFrequency
    else Dated(Nth(f, start, FirstIndex(f, start, ref, false)))
  }

  /** The first member after `after`; the start when `after` is absent or precedes it. */
  ghost function Next(f: Frequency, start: Date, after: Option<Date>): Outcome<Date>
    requires IsDay(start) && (after.Some? ==> IsDay(after.value))
  {
    if after.None? || Before(after.value, start) then Found(start)
    else if !Known(f) then BadFrequency
    else Dated(Nth(f, start, FirstIndex(f, start, after.value, true)))
  }

  method WalkBack(f: Frequency, start: Date, ref: Date, past: bool, floor: nat) returns (n: nat)
    requires Known(f) && IsDay(start) && IsDay(ref)
    ensures n == floor || (n < floor && Reaches(Nth(f, start, n), ref, past))
    ensures n == 0 || !Reaches(Nth(f, start, n - 1), ref, past)
  {
    n := floor;
    while n > 0 && Reaches(Nth(f, start, n - 1), ref, past)
      invariant n == floor || (n < floor && Reaches(Nth(f, start, n), ref, past))
    {
      n := n - 1;
    }
  }

  /** The index stopped at; an occurrence past the calendar ends the walk. */
  method WalkForward(f: Frequency, start: Date, ref: Date, past: bool, from: nat)
    returns (r: Outcome<Date>, n: nat)
    requires Known(f) && IsDay(start) && IsDay(ref) && Reaches(Nth(f, start, from + 1), ref, past)
    ensures n == from || (n == from + 1 && !Reaches(Nth(f, start, from), ref, past))
    ensures r == Occurrence(f, start, n) && (r.Found? ==> Reaches(r.value, ref, past))
  {
    n := from;
    r := Occurrence(f, start, n);
    while r.Found? && !Reaches(r.value, ref, past)
      invariant r == Occurrence(f, start, n)
      invariant n == from || (n == from + 1 && !Reaches(Nth(f, start, from), ref, past))
      decreases from + 1 - n
    {
      n := n + 1;
      r := Occurrence(f, start, n);
    }
  }

  /** Where the walk forward stops is the first member that reaches the reference. */
  lemma {:induction false} SearchStopsRight(f: Frequency, start: Date, ref: Date, past: bool, n: nat, r: Outcome<Date>)
    requires Known(f) && IsDay(start) && InRange(start) && IsDay(ref) && InRange(ref) && !Before(ref, start)
    requires var k := IndexFloor(f, start, ref); n == k || (n == k + 1 && !Reaches(Nth(f, start, k), ref, past))
    requires r == Occurrence(f, start, n) && (r.Found? ==> Reaches(r.value, ref, past))
    ensures r == Dated(Nth(f, start, FirstIndex(f, start, ref, past)))
  {
    YearsFrom(f, start, IndexFloor(f, start, ref));
    FloorIsClose(f, start, ref);
    FirstIndexIsFirst(f, start, ref, past);
  }

  /** The walk forward from the estimate. */
  method SearchForward(f: Frequency, start: Date, ref: Date, past: bool, n: nat)
    returns (r: Outcome<Date>, ghost forward: nat)
    requires Known(f) && IsDay(start) && InRange(start) && IsDay(ref) && InRange(ref) && !Before(ref, start)
    requires n == IndexFloor(f, start, ref)
    ensures r == Dated(Nth(f, start, FirstIndex(f, start, ref, past))) && forward <= 1
  {
    AfterTheFloor(f, start, ref, past);
    var at;
    r, at := WalkForward(f, start, ref, past, n);
    SearchStopsRight(f, start, ref, past, at, r);
    forward := at - n;
  }

  /** Estimate, walk back, walk forward. The walk back never runs and the walk
      forward runs at most once. */
  method Search(f: Frequency, start: Date, ref: Date, past: bool)
    returns (r: Outcome<Date>, ghost back: nat, ghost forward: nat)
    requires Known(f) && IsDay(start) && InRange(start) && IsDay(ref) && InRange(ref) && !Before(ref, start)
    ensures r == Dated(Nth(f, start, FirstIndex(f, start, ref, past)))
    ensures back == 0 && forward <= 1
  {
    var floor := IndexFloor(f, start, ref);
    var n := WalkBack(f, start, ref, past, floor);
    back := floor - n;
    BackStopsAtOnce(f, start, ref, past, n);
    r, forward := SearchForward(f, start, ref, past, n);
  }

  lemma {:induction false} YearsFrom(f: Frequency, start: Date, n: nat)
    requires Known(f) && IsDay(start)
    ensures start.year <= Nth(f, start, n).year
  {
    if n > 0 {
      SeriesIncreases(f, start, 0, n);
    } else {
      SeriesIncreases(f, start, 0, 1);
    }
  }

  method OccurrenceOnOrAfter(f: Frequency, start: Date, ref: Date) returns (r: Outcome<Date>)
    requires IsDay(start) && InRange(start) && IsDay(ref) && InRange(ref)
    ensures r == OnOrAfter(f, start, ref)
  {
    if !Before(start, ref) {
      return Found(start);
    }
    if !Known(f) {
      return BadFrequency;
    }
    ghost var back, forward;
    r, back, forward := Search(f, start, ref, false);
  }

  method NextOccurrence(f: Frequency, start: Date, after: Option<Date>) returns (r: Outcome<Date>)
    requires IsDay(start) && InRange(start) && (after.Some? ==> IsDay(after.value) && InRange(after.value))
    ensures r == Next(f, start, after)
    // fed the start itself, one step of the cadence on
    ensures after == Some(start) && Known(f) ==> r == Dated(Nth(f, start, 1))
    ensures after == Some(start) && r.Found? ==> IsDay(r.value) && IsOneStepOn(f, start, r.value)
  {
    if after == Some(start) && Known(f) {
      FirstStep(f, start);
    }
    if after.None? || Before(after.value, start) {
      return Found(start);
    }
    if !Known(f) {
      return BadFrequency;
    }
    ghost var back, forward;
    r, back, forward := Search(f, start, after.value, true);
  }

  lemma {:induction false} FirstStep(f: Frequency, start: Date)
    requires Known(f) && IsDay(start)
    ensures Next(f, start, Some(start)) == Dated(Nth(f, start, 1)) && IsOneStepOn(f, start, Nth(f, start, 1))
  {
    SeriesIncreases(f, start, 0, 1);
    NextOfMember(f, start, 0);
    CadencesAre(start, 1);
  }

  lemma {:induction false} FirstIsLeastOf(s: nat -> Date, ref: Date, past: bool, k: nat, n: nat)
    requires Rising(s) && IsFirst(s, ref, past, k) && Reaches(s(n), ref, past)
    ensures k <= n && !Before(s(n), s(k))
  {
    if k < n {
      assert Before(s(k), s(n));
    }
  }

  lemma {:induction false} FirstIsLeast(f: Frequency, start: Date, ref: Date, past: bool, n: nat)
    requires Known(f) && IsDay(start) && IsDay(ref) && !Before(ref, start)
    requires Reaches(Nth(f, start, n), ref, past)
    ensures FirstIndex(f, start, ref, past) <= n
    ensures !Before(Nth(f, start, n), Nth(f, start, FirstIndex(f, start, ref, past)))
    ensures Reaches(Nth(f, start, FirstIndex(f, start, ref, past)), ref, past)
  {
    FirstIndexIsFirst(f, start, ref, past);
    SeriesIsRising(f, start);
    FirstIsLeastOf(Series(f, start), ref, past, FirstIndex(f, start, ref, past), n);
  }

  lemma {:induction false} StartIsLeast(f: Frequency, start: Date, n: nat)
    requires Known(f) && IsDay(start)
    ensures !Before(Nth(f, start, n), start) && Nth(f, start, 0) == start
  {
    SeriesIncreases(f, start, 0, n + 1);
    if n > 0 {
      SeriesIncreases(f, start, 0, n);
    }
  }

  /** The answer is a member, and the least one at or past the reference; the
      search fails exactly when that member lies past the calendar. */
  lemma {:induction false} OnOrAfterIsLeast(f: Frequency, start: Date, ref: Date, n: nat)
    requires Known(f) && IsDay(start) && InRange(start) && IsDay(ref)
    requires !Before(Nth(f, start, n), ref)
    ensures exists k: nat :: OnOrAfter(f, start, ref) == Dated(Nth(f, start, k)) && k <= n
    ensures match OnOrAfter(f, start, ref)
            case Found(d) => !Before(d, ref) && !Before(Nth(f, start, n), d)
            case PastCalendar => !InRange(Nth(f, start, n))
            case BadFrequency => false
  {
    StartIsLeast(f, start, n);
    if Before(start, ref) {
      FirstIsLeast(f, start, ref, false, n);
      var k := FirstIndex(f, start, ref, false);
      YearsFrom(f, start, k);
      assert OnOrAfter(f, start, ref) == Dated(Nth(f, start, k));
    } else {
      assert OnOrAfter(f, start, ref) == Dated(Nth(f, start, 0));
    }
  }

  /** After a member comes the next member, whatever the months in between. */
  lemma {:induction false} NextOfMember(f: Frequency, start: Date, n: nat)
    requires Known(f) && IsDay(start)
    ensures Next(f, start, Some(Nth(f, start, n))) == Dated(Nth(f, start, n + 1))
  {
    StartIsLeast(f, start, n);
    FirstAfterMember(f, start, n);
  }

  /** And that is one step of the cadence on, counted on the calendar. */
  lemma {:induction false} NextIsOneStepOn(f: Frequency, start: Date, n: nat)
    requires Known(f) && IsDay(start) && Next(f, start, Some(Nth(f, start, n))).Found?
    ensures var d, next := Nth(f, start, n), Next(f, start, Some(Nth(f, start, n))).value;
            IsOneStepOn(f, d, next) && (!f.Weekly? ==> next.day == Least(start.day, MonthLength(next.year, next.month)))
  {
    NextOfMember(f, start, n);
    CadencesAre(start, n);
    CadencesAre(start, n + 1);
  }

  predicate IsOneStepOn(f: Frequency, d: Date, next: Date)
    requires IsDay(d) && IsDay(next)
  {
    match f
    case Weekly => Ordinal(next) == Ordinal(d) + 7
    case Monthly => 12 * next.year + next.month == 12 * d.year + d.month + 1
    case Quarterly => 12 * next.year + next.month == 12 * d.year + d.month + 3
    case HalfYearly => 12 * next.year + next.month == 12 * d.year + d.month + 6
    case Yearly => next.year == d.year + 1 && next.month == d.month
    case Unsupported(_) => false
  }

  lemma {:induction false} FirstAfterMember(f: Frequency, start: Date, n: nat)
    requires Known(f) && IsDay(start) && !Before(Nth(f, start, n), start)
    ensures FirstIndex(f, start, Nth(f, start, n), true) == n + 1
  {
    var d := Nth(f, start, n);
    var k := FirstIndex(f, start, d, true);
    SeriesIncreases(f, start, n, n + 1);
    FirstIsLeast(f, start, d, true, n + 1);
    if k < n {
      SeriesIncreases(f, start, k, n);
    }
  }

  /** Stepping from the start with `next_occurrence`, each step fed the date the
      last one gave, visits exactly the members of the series in order. */
  lemma {:induction false} SteppingDoesNotDrift(f: Frequency, start: Date, run: seq<Date>, i: nat)
    requires Known(f) && IsDay(start) && InRange(start)
    requires forall k :: 0 <= k < |run| ==> IsDay(run[k])
    requires i < |run| && run[0] == start
    requires forall k :: 0 < k < |run| ==> Next(f, start, Some(run[k - 1])) == Found(run[k])
    ensures run[i] == Nth(f, start, i)
  {
    if i == 0 {
      SeriesIncreases(f, start, 0, 1);
    } else {
      SteppingDoesNotDrift(f, start, run, i - 1);
      AnswerIsNextMember(f, start, i - 1, run[i - 1], run[i]);
    }
  }

  lemma {:induction false} AnswerIsNextMember(f: Frequency, start: Date, n: nat, d: Date, e: Date)
    requires Known(f) && IsDay(start) && IsDay(d) && d == Nth(f, start, n) && Next(f, start, Some(d)) == Found(e)
    ensures e == Nth(f, start, n + 1)
  {
    NextOfMember(f, start, n);
  }

  /** Why every member is measured from the start: clamping in two steps loses
      the day exactly when the month stepped on is shorter than both the day and
      the month aimed at. */
  lemma {:induction false} TwoStepsAgreeWhen(d: Date, a: nat, b: nat)
    requires IsDay(d)
    ensures var half, whole := AddMonthsClamped(d, a), AddMonthsClamped(d, a + b);
            AddMonthsClamped(half, b) == whole <==>
            MonthLength(half.year, half.month) >= Least(d.day, MonthLength(whole.year, whole.month))
  {
    var half, whole, twice :=
      AddMonthsClamped(d, a), AddMonthsClamped(d, a + b), AddMonthsClamped(AddMonthsClamped(d, a), b);
    assert MonthIndex(twice) == MonthIndex(whole);
    assert twice.year == whole.year && twice.month == whole.month;
  }

  // ---- the preview ------------------------------------------------------------------

  datatype Template = Template(frequency: Frequency, startDate: Date, endDate: Option<Date>, nextRunDate: Option<Date>)

  ghost predicate GoodTemplate(t: Template) {
    && IsDay(t.startDate) && InRange(t.startDate)
    && (t.endDate.Some? ==> IsDay(t.endDate.value))
    && (t.nextRunDate.Some? ==> IsDay(t.nextRunDate.value) && InRange(t.nextRunDate.value))
  }

  predicate Over(d: Date, end: Option<Date>) { end.Some? && Before(end.value, d) }

  /** One step of the preview, as a function of the date stepped from. */
  ghost function Stepper(f: Frequency, start: Date): Date -> Outcome<Date>
    requires IsDay(start)
  {
    (d: Date) => if IsDay(d) then Next(f, start, Some(d)) else PastCalendar
  }

  /** What the preview lists from `cur` on. The date after each one listed is
      worked out even when it is not wanted, so its error ends the listing. */
  ghost function Listing(next: Date -> Outcome<Date>, cur: Date, end: Option<Date>, left: nat): Outcome<seq<Date>>
    decreases left
  {
    if left == 0 || Over(cur, end) then Found([])
    else
      match next(cur)
      case BadFrequency => BadFrequency
      case PastCalendar => PastCalendar
      case Found(d) => Prefixed([cur], Listing(next, d, end, left - 1))
  }

  lemma {:induction false} NextIsDay(f: Frequency, start: Date, after: Date)
    requires IsDay(start) && IsDay(after) && InRange(start)
    ensures var r := Next(f, start, Some(after));
            && r == Stepper(f, start)(after)
            && (r.Found? ==> IsDay(r.value) && InRange(r.value) && Before(after, r.value))
  {
    if !Before(after, start) && Known(f) {
      FirstIndexIsFirst(f, start, after, true);
      YearsFrom(f, start, FirstIndex(f, start, after, true));
    }
  }

  method StepOn(f: Frequency, start: Date, cur: Date) returns (next: Outcome<Date>)
    requires IsDay(start) && InRange(start) && IsDay(cur) && InRange(cur)
    ensures next == Stepper(f, start)(cur)
    ensures next.Found? ==> IsDay(next.value) && InRange(next.value) && Before(cur, next.value)
  {
    next := NextOccurrence(f, start, Some(cur));
    NextIsDay(f, start, cur);
  }

  function Limit(count: int): nat {
    if count < 0 then 0 else if count < MAX_CATCHUP_PER_RUN then count else MAX_CATCHUP_PER_RUN
  }

  ghost function FirstListed(t: Template, from: Option<Date>): Outcome<Date>
    requires GoodTemplate(t) && (from.Some? ==> IsDay(from.value))
  {
    match from
    case Some(d) => OnOrAfter(t.frequency, t.startDate, if Before(d, t.startDate) then t.startDate else d)
    case None => Found(if t.nextRunDate.Some? then t.nextRunDate.value else t.startDate)
  }

  lemma {:induction false} ListingStep(step: Date -> Outcome<Date>, cur: Date, end: Option<Date>, left: nat,
                                       out: seq<Date>)
    requires left > 0 && !Over(cur, end)
    ensures Prefixed(out, Listing(step, cur, end, left)) ==
            match step(cur)
            case BadFrequency => BadFrequency
            case PastCalendar => PastCalendar
            case Found(d) => Prefixed(out + [cur], Listing(step, d, end, left - 1))
  {
    match step(cur)
    case BadFrequency =>
    case PastCalendar =>
    case Found(d) => PrefixedTwice(out, [cur], Listing(step, d, end, left - 1));
  }

  lemma {:induction false} ListingStops(step: Date -> Outcome<Date>, cur: Date, end: Option<Date>, left: nat,
                                        out: seq<Date>)
    requires left == 0 || Over(cur, end)
    ensures Prefixed(out, Listing(step, cur, end, left)) == Found(out)
  {
    assert out + [] == out;
  }

  /** What is still to be listed once `out` is. */
  ghost predicate StillToList(all: Outcome<seq<Date>>, f: Frequency, start: Date, out: seq<Date>, cur: Date,
                              end: Option<Date>, left: nat)
    requires IsDay(start)
  {
    all == Prefixed(out, Listing(Stepper(f, start), cur, end, left))
  }

  /** One date of the preview, and the one after it. */
  method ListOne(f: Frequency, start: Date, cur: Date, ghost all: Outcome<seq<Date>>, ghost out: seq<Date>,
                 ghost end: Option<Date>, ghost left: nat)
    returns (next: Outcome<Date>)
    requires IsDay(start) && InRange(start) && IsDay(cur) && InRange(cur) && left > 0 && !Over(cur, end)
    requires StillToList(all, f, start, out, cur, end, left)
    ensures match next
            case BadFrequency => all == BadFrequency
            case PastCalendar => all == PastCalendar
            case Found(d) =>
              && IsDay(d) && InRange(d) && Before(cur, d)
              && StillToList(all, f, start, out + [cur], d, end, left - 1)
  {
    next := StepOn(f, start, cur);
    ListingStep(Stepper(f, start), cur, end, left, out);
  }

  /** The preview's loop, from its first date. */
  method ListFrom(f: Frequency, start: Date, first: Date, end: Option<Date>, count: int, ghost all: Outcome<seq<Date>>)
    returns (r: Outcome<seq<Date>>)
    requires IsDay(start) && InRange(start) && IsDay(first) && InRange(first)
    requires StillToList(all, f, start, [], first, end, Limit(count))
    ensures r == all
  {
    ghost var left: nat := Limit(count);
    var cur := first;
    var out: seq<Date> := [];
    var n := 0;
    var wanted := if count < 0 then 0 else count;
    while |out| < wanted && n < MAX_CATCHUP_PER_RUN
      invariant |out| == n && n + left == Limit(count)
      invariant IsDay(cur) && InRange(cur)
      invariant StillToList(all, f, start, out, cur, end, left)
      decreases MAX_CATCHUP_PER_RUN - n
    {
      if Over(cur, end) {
        break;
      }
      var next := ListOne(f, start, cur, all, out, end, left);
      if next.BadFrequency? {
        return BadFrequency;
      }
      if next.PastCalendar? {
        return PastCalendar;
      }
      out, left := out + [cur], left - 1;
      if !Before(cur, next.value) {
        break;
      }
      cur := next.value;
      n := n + 1;
    }
    ListingStops(Stepper(f, start), cur, end, left, out);
    r := Found(out);
  }

  /** Where a preview begins: at the stored next run, or the start where there is
      none; asked from a day, at the first member on or after it. A cadence nobody
      knows has no members but its start. */
  ghost predicate Begins(t: Template, from: Option<Date>, first: Date)
    requires GoodTemplate(t) && (from.Some? ==> IsDay(from.value))
  {
    match from
    case None => if t.nextRunDate.Some? then first == t.nextRunDate.value else first == t.startDate
    case Some(day) =>
      if !Known(t.frequency) then first == t.startDate && !Before(t.startDate, day)
      else
        && !Before(first, day)
        && (exists n: nat :: first == Nth(t.frequency, t.startDate, n))
        && forall n: nat :: !Before(Nth(t.frequency, t.startDate, n), day) ==>
             !Before(Nth(t.frequency, t.startDate, n), first)
  }

  /** `stop` is where a listing that ends early would have gone on. */
  ghost predicate WouldGoOn(next: Date -> Outcome<Date>, first: Date, out: seq<Date>, stop: Date) {
    if out == [] then stop == first else next(out[|out| - 1]) == Found(stop)
  }

  /** The dates a preview may show: never more than asked for or than a run
      catches up on, each the one after the one before, none past the end date,
      and fewer than that only because the next one is past the end date. */
  ghost predicate IsPreview(t: Template, count: int, from: Option<Date>, out: seq<Date>)
    requires GoodTemplate(t) && (from.Some? ==> IsDay(from.value))
  {
    && |out| <= 120 && (count < 0 ==> out == []) && (0 <= count ==> |out| <= count)
    && (forall i :: 0 <= i < |out| ==> t.endDate == None || !Before(t.endDate.value, out[i]))
    && exists first ::
         && Begins(t, from, first) && (out != [] ==> out[0] == first)
         && Chained(Stepper(t.frequency, t.startDate), out)
         && (|out| < count && |out| < 120 ==>
               exists stop :: WouldGoOn(Stepper(t.frequency, t.startDate), first, out, stop)
                              && t.endDate.Some? && Before(t.endDate.value, stop))
  }

  ghost predicate Chained(next: Date -> Outcome<Date>, out: seq<Date>) {
    forall i, j :: 0 <= i && j == i + 1 < |out| ==> next(out[i]) == Found(out[j])
  }

  lemma {:induction false} ListingIs(next: Date -> Outcome<Date>, cur: Date, end: Option<Date>, left: nat)
    requires Listing(next, cur, end, left).Found?
    ensures var out := Listing(next, cur, end, left).value;
            && |out| <= left && (out != [] ==> out[0] == cur) && Chained(next, out)
            && (forall i :: 0 <= i < |out| ==> end == None || !Before(end.value, out[i]))
            && (|out| < left ==>
                  exists stop :: WouldGoOn(next, cur, out, stop) && end.Some? && Before(end.value, stop))
    decreases left
  {
    var out := Listing(next, cur, end, left).value;
    if left > 0 && !Over(cur, end) {
      var d := next(cur).value;
      ListingIs(next, d, end, left - 1);
      var rest := Listing(next, d, end, left - 1).value;
      assert out == [cur] + rest;
      forall i, j | 0 <= i && j == i + 1 < |out| ensures next(out[i]) == Found(out[j]) {
        if i > 0 {
          var h := i - 1;
          assert out[i] == rest[h] && out[j] == rest[i];
        }
      }
      if |rest| < left - 1 {
        var stop :| WouldGoOn(next, d, rest, stop) && end.Some? && Before(end.value, stop);
        assert WouldGoOn(next, cur, out, stop);
      }
    } else if left > 0 {
      assert WouldGoOn(next, cur, out, cur);
    }
  }

  lemma {:induction false} FirstListedBegins(t: Template, from: Option<Date>)
    requires GoodTemplate(t) && (from.Some? ==> IsDay(from.value) && InRange(from.value))
    requires FirstListed(t, from).Found?
    ensures Begins(t, from, FirstListed(t, from).value)
  {
    if from.Some? && Known(t.frequency) {
      var f, start, day := t.frequency, t.startDate, from.value;
      var ref := if Before(day, start) then start else day;
      var first := FirstListed(t, from).value;
      StartIsLeast(f, start, 0);
      forall n: nat | !Before(Nth(f, start, n), day) ensures !Before(Nth(f, start, n), first) {
        StartIsLeast(f, start, n);
        OnOrAfterIsLeast(f, start, ref, n);
      }
      FirstListedIsMember(f, start, ref);
    }
  }

  lemma {:induction false} FirstListedIsMember(f: Frequency, start: Date, ref: Date)
    requires Known(f) && IsDay(start) && IsDay(ref) && OnOrAfter(f, start, ref).Found?
    ensures var d := OnOrAfter(f, start, ref).value; !Before(d, ref) && exists n: nat :: d == Nth(f, start, n)
  {
    StartIsLeast(f, start, 0);
    if Before(start, ref) {
      FirstIndexIsFirst(f, start, ref, false);
      SeriesAt(f, start, FirstIndex(f, start, ref, false));
    }
  }

  lemma {:induction false} PreviewIs(t: Template, count: int, from: Option<Date>, first: Date)
    requires GoodTemplate(t) && (from.Some? ==> IsDay(from.value) && InRange(from.value))
    requires FirstListed(t, from) == Found(first)
    requires Listing(Stepper(t.frequency, t.startDate), first, t.endDate, Limit(count)).Found?
    ensures IsPreview(t, count, from, Listing(Stepper(t.frequency, t.startDate), first, t.endDate, Limit(count)).value)
  {
    FirstListedBegins(t, from);
    ListingIs(Stepper(t.frequency, t.startDate), first, t.endDate, Limit(count));
  }

  method PreviewOccurrences(t: Template, count: int, from: Option<Date>) returns (r: Outcome<seq<Date>>)
    requires GoodTemplate(t) && (from.Some? ==> IsDay(from.value) && InRange(from.value))
    ensures r.Found? ==> IsPreview(t, count, from, r.value)
    ensures match FirstListed(t, from)
            case BadFrequency => r == BadFrequency
            case PastCalendar => r == PastCalendar
            case Found(d) => r == Listing(Stepper(t.frequency, t.startDate), d, t.endDate, Limit(count))
  {
    var f, start := t.frequency, t.startDate;
    var cur := if t.nextRunDate.Some? then t.nextRunDate.value else start;
    if from.Some? {
      var begin := OccurrenceOnOrAfter(f, start, if Before(from.value, start) then start else from.value);
      match begin
      case BadFrequency => return BadFrequency;
      case PastCalendar => return PastCalendar;
      case Found(d) => cur := d;
    }
    ghost var all := Listing(Stepper(f, start), cur, t.endDate, Limit(count));
    PrefixedTwice([], [], all);
    if all.Found? {
      PreviewIs(t, count, from, cur);
    }
    r := ListFrom(f, start, cur, t.endDate, count, all);
  }

  ghost function Prefixed(out: seq<Date>, r: Outcome<seq<Date>>): Outcome<seq<Date>> {
    if r.Found? then Found(out + r.value) else r
  }

  lemma {:induction false} PrefixedTwice(out: seq<Date>, more: seq<Date>, r: Outcome<seq<Date>>)
    ensures Prefixed(out, Prefixed(more, r)) == Prefixed(out + more, r)
    ensures Prefixed([], r) == r
  {
    if r.Found? {
      assert out + (more + r.value) == out + more + r.value;
      assert [] + r.value == r.value;
    }
  }

  ghost predicate Steps(next: Date -> Outcome<Date>, s: nat -> Date) {
    forall n: nat :: next(s(n)) == Dated(s(n + 1))
  }

  lemma {:induction false} StepperStep(f: Frequency, start: Date, n: nat)
    requires Known(f) && IsDay(start)
    ensures Stepper(f, start)(Nth(f, start, n)) == Dated(Nth(f, start, n + 1))
  {
    NextOfMember(f, start, n);
  }

  /** At a member the stepper gives the next member. */
  lemma {:induction false} StepperAt(step: Date -> Outcome<Date>, s: nat -> Date, a: Date, b: Date, n: nat)
    requires step(a) == Dated(b) && s(n) == a && s(n + 1) == b
    ensures step(s(n)) == Dated(s(n + 1))
  {
  }

  lemma {:induction false} StepperSteps(f: Frequency, start: Date)
    requires Known(f) && IsDay(start)
    ensures Steps(Stepper(f, start), Series(f, start))
  {
    var step, s := Stepper(f, start), Series(f, start);
    forall n: nat ensures step(s(n)) == Dated(s(n + 1)) {
      SeriesAt(f, start, n);
      SeriesAt(f, start, n + 1);
      StepperStep(f, start, n);
      StepperAt(step, s, Nth(f, start, n), Nth(f, start, n + 1), n);
    }
  }

  /** Members `from` to `last` are listed and the one after `last` has no date. */
  ghost predicate LastOnCalendar(s: nat -> Date, from: nat, last: nat, end: Option<Date>) {
    && from <= last
    && (forall k: nat :: from <= k <= last ==> end == None || !Before(end.value, s(k)))
    && !InRange(s(last + 1))
  }

  lemma {:induction false} ListingLists(next: Date -> Outcome<Date>, s: nat -> Date, n: nat, end: Option<Date>,
                                        left: nat)
    requires Steps(next, s)
    ensures var r := Listing(next, s(n), end, left);
            r.Found? ==>
            && |r.value| <= left
            && (forall i :: 0 <= i < |r.value| ==> r.value[i] == s(n + i) && !Over(r.value[i], end))
            && (|r.value| < left ==> Over(s(n + |r.value|), end))
    decreases left
  {
    assert next(s(n)) == Dated(s(n + 1));
    if left > 0 && !Over(s(n), end) && InRange(s(n + 1)) {
      ListingLists(next, s, n + 1, end, left - 1);
      var r, rest := Listing(next, s(n), end, left), Listing(next, s(n + 1), end, left - 1);
      if rest.Found? {
        forall i | 0 <= i < |r.value|
          ensures r.value[i] == s(n + i) && !Over(r.value[i], end)
        {
          if i > 0 {
            assert r.value[i] == rest.value[i - 1] == s(n + 1 + (i - 1));
          }
        }
      }
    }
  }

  lemma {:induction false} ListingFails(next: Date -> Outcome<Date>, s: nat -> Date, n: nat, end: Option<Date>,
                                        left: nat)
    requires Steps(next, s)
    ensures Listing(next, s(n), end, left) != BadFrequency
    ensures Listing(next, s(n), end, left) == PastCalendar <==>
            exists k: nat :: n <= k < n + left && LastOnCalendar(s, n, k, end)
    decreases left
  {
    assert next(s(n)) == Dated(s(n + 1));
    if left > 0 && !Over(s(n), end) {
      if InRange(s(n + 1)) {
        var m := n + 1;
        ListingFails(next, s, m, end, left - 1);
        forall k: nat | n <= k < n + left
          ensures LastOnCalendar(s, n, k, end) <==> k > n && LastOnCalendar(s, m, k, end)
        {
        }
        if k: nat :| m <= k < n + left && LastOnCalendar(s, m, k, end) {
          assert LastOnCalendar(s, n, k, end);
        }
      } else {
        assert LastOnCalendar(s, n, n, end);
      }
    }
  }

  /** From a member of the series the preview lists consecutive members, as many
      as asked for or up to the end date, or it fails as a whole: exactly when
      some member it lists is the last one on the calendar, even if that is the
      last one asked for. */
  lemma {:induction false} PreviewIsTheSeries(f: Frequency, start: Date, n: nat, end: Option<Date>, left: nat)
    requires Known(f) && IsDay(start)
    ensures var r, s := Listing(Stepper(f, start), Nth(f, start, n), end, left), Series(f, start);
            match r
            case BadFrequency => false
            case PastCalendar => exists k: nat :: n <= k < n + left && LastOnCalendar(s, n, k, end)
            case Found(out) =>
              && |out| <= left
              && (forall i :: 0 <= i < |out| ==> out[i] == s(n + i) && (end == None || !Before(end.value, out[i])))
              && (|out| < left ==> end.Some? && Before(end.value, s(n + |out|)))
              && forall k: nat :: n <= k < n + left ==> !LastOnCalendar(s, n, k, end)
  {
    StepperSteps(f, start);
    ListingLists(Stepper(f, start), Series(f, start), n, end, left);
    ListingFails(Stepper(f, start), Series(f, start), n, end, left);
  }

  lemma {:induction false} NothingAfterDecember(d: Date)
    requires IsDay(d) && d.year == 9999 && d.month == 12
    ensures Nth(Monthly, d, 0) == d && !InRange(Nth(Monthly, d, 1))
  {
    SeriesIncreases(Monthly, d, 0, 1);
    NthPlaced(Monthly, d, 1);
  }

  lemma {:induction false} OneDateFails(next: Date -> Outcome<Date>, d: Date, end: Option<Date>)
    requires next(d) == PastCalendar && !Over(d, end)
    ensures Listing(next, d, end, 1) == PastCalendar
  {
  }

  /** Inputs at which it does: a monthly template starting in the last December,
      asked for the one date it has. */
  lemma {:induction false} LastDateCannotBePreviewed(d: Date)
    requires IsDay(d) && d.year == 9999 && d.month == 12
    ensures OnOrAfter(Monthly, d, d) == Found(d) && Listing(Stepper(Monthly, d), d, None, 1) == PastCalendar
  {
    NothingAfterDecember(d);
    StepperStep(Monthly, d, 0);
    OneDateFails(Stepper(Monthly, d), d, None);
  }

  /** A stored next run off the series is listed as it stands; from then on the
      preview lists members of the series. */
  lemma {:induction false} PreviewRejoinsTheSeries(f: Frequency, start: Date, cur: Date, end: Option<Date>, left: nat)
    requires Known(f) && IsDay(start) && InRange(start) && IsDay(cur) && left > 0
    ensures exists n: nat :: Listing(Stepper(f, start), cur, end, left) ==
                             if Over(cur, end) then Found([])
                             else if !InRange(Nth(f, start, n)) then PastCalendar
                             else Prefixed([cur], Listing(Stepper(f, start), Nth(f, start, n), end, left - 1))
  {
    var n := if Before(cur, start) then 0 else FirstIndex(f, start, cur, true);
    StartIsLeast(f, start, 0);
    assert Stepper(f, start)(cur) == Dated(Nth(f, start, n));
  }
}
