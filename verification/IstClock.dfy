/** The Indian day and the Indian financial year (apps/api/core/ist_clock.py). */
module IstClock {
  import opened Calendar
  import opened Decimal
  import opened Text

  // ---- instants and days ------------------------------------------------------------

  /** Seconds on the UTC clock, counted so that the day numbered n begins at n * DAY. */
  type Instant = int

  const DAY := 86400

  /** Five hours and a half: the offset the window's bounds are written with. */
  const IST_OFFSET := 19800

  const LAST_DAY := Ordinal(Date(9999, 12, 31))

  /** The number of the day an instant falls on where the clock is `offset` ahead of UTC. */
  function DayAt(t: Instant, offset: int): int { (t + offset) / DAY }

  /** The day an instant falls on, or none for one too close to an end of the calendar. */
  function IstDateOf(t: Instant, offset: int): Option<int> {
    var n := DayAt(t, offset);
    if 1 <= n <= LAST_DAY then Some(n) else None
  }

  /** Whether the Indian day of an instant lies between two days, either of them open. */
  predicate InIstWindow(t: Instant, offset: int, from: Option<Date>, to: Option<Date>)
    requires (from.Some? ==> IsDay(from.value)) && (to.Some? ==> IsDay(to.value))
  {
    var day := IstDateOf(t, offset);
    && day.Some?
    && (from.Some? ==> Ordinal(from.value) <= day.value)
    && (to.Some? ==> day.value <= Ordinal(to.value))
  }

  /** Midnight at the beginning of the first day and at the end of the last. There
      is no end when the last day is the last on the calendar: that call fails. */
  function IstDayWindow(from: Option<Date>, to: Option<Date>): Option<(Option<Instant>, Option<Instant>)>
    requires (from.Some? ==> IsDay(from.value)) && (to.Some? ==> IsDay(to.value))
  {
    if to.Some? && Ordinal(to.value) >= LAST_DAY then None
    else
      var start := if from.Some? then Some(Ordinal(from.value) * DAY - IST_OFFSET) else None;
      var end := if to.Some? then Some((Ordinal(to.value) + 1) * DAY - IST_OFFSET) else None;
      Some((start, end))
  }

  predicate Between(t: Instant, window: (Option<Instant>, Option<Instant>)) {
    (window.0.Some? ==> window.0.value <= t) && (window.1.Some? ==> t < window.1.value)
  }

  lemma {:induction false} DayStarts(t: Instant, n: int)
    ensures n <= DayAt(t, IST_OFFSET) <==> n * DAY - IST_OFFSET <= t
    ensures DayAt(t, IST_OFFSET) <= n <==> t < (n + 1) * DAY - IST_OFFSET
  {
    var s := t + IST_OFFSET;
    assert s == DAY * (s / DAY) + s % DAY;
  }

  /** The filter in the database and its twin in memory agree: a readable instant
      is in the window exactly when it lies between the bounds. */
  lemma {:induction false} WindowIsTheTwin(t: Instant, from: Option<Date>, to: Option<Date>)
    requires (from.Some? ==> IsDay(from.value)) && (to.Some? ==> IsDay(to.value))
    requires IstDateOf(t, IST_OFFSET).Some? && IstDayWindow(from, to).Some?
    ensures InIstWindow(t, IST_OFFSET, from, to) <==> Between(t, IstDayWindow(from, to).value)
  {
    if from.Some? {
      DayStarts(t, Ordinal(from.value));
    }
    if to.Some? {
      DayStarts(t, Ordinal(to.value));
    }
  }

  /** The twin reads the day from the zone's own offset at that instant, and the
      bounds are written with five hours and a half always. At an instant where
      the zone kept another offset they agree on every window exactly when both
      put it on the same day. */
  lemma {:induction false} OtherOffsetsAgreeWhen(t: Instant, offset: int, day: Date)
    requires IsDay(day) && InRange(day) && Ordinal(day) < LAST_DAY && Ordinal(day) == DayAt(t, IST_OFFSET)
    requires IstDateOf(t, offset).Some?
    ensures (forall from, to :: ValidWindow(from, to) ==> Agree(t, offset, from, to)) <==>
            DayAt(t, offset) == DayAt(t, IST_OFFSET)
  {
    if DayAt(t, offset) == DayAt(t, IST_OFFSET) {
      forall from, to | ValidWindow(from, to) ensures Agree(t, offset, from, to) {
        WindowIsTheTwin(t, from, to);
      }
    } else {
      WithinYear(day);
      assert DaysBeforeYear(day.year) >= 0;
      WindowIsTheTwin(t, Some(day), Some(day));
      assert !Agree(t, offset, Some(day), Some(day)) && ValidWindow(Some(day), Some(day));
    }
  }

  /** Six hours and a half: another offset a zone may have kept. */
  const OTHER_OFFSET := 23400

  /** An instant where they do not agree: 23:15 by the bounds' offset and a quarter
      past midnight of the next day by the other. It is within the day's own
      window and the twin says it is not. */
  lemma {:induction false} LateEveningInstant(day: Date)
    requires IsDay(day) && InRange(day) && Ordinal(day) < LAST_DAY
    ensures var t := Ordinal(day) * DAY + 63900;
            && DayAt(t, IST_OFFSET) == Ordinal(day) && DayAt(t, OTHER_OFFSET) == Ordinal(day) + 1
            && ValidWindow(Some(day), Some(day)) && !Agree(t, OTHER_OFFSET, Some(day), Some(day))
  {
    var n := Ordinal(day);
    var t := n * DAY + 63900;
    DayStarts(t, n);
    assert t + OTHER_OFFSET == DAY * (n + 1) + 900;
  }

  ghost predicate ValidWindow(from: Option<Date>, to: Option<Date>) {
    && (from.Some? ==> IsDay(from.value)) && (to.Some? ==> IsDay(to.value))
    && IstDayWindow(from, to).Some?
  }

  ghost predicate Agree(t: Instant, offset: int, from: Option<Date>, to: Option<Date>)
    requires ValidWindow(from, to)
  {
    InIstWindow(t, offset, from, to) <==> Between(t, IstDayWindow(from, to).value)
  }

  /** The Indian day of an instant, where the clock is five hours and thirty minutes
      ahead: it begins and ends at Indian midnight. */
  lemma {:induction false} IndianDay(t: Instant, n: int)
    ensures DayAt(t, IST_OFFSET) == n <==> 86400 * n <= t + 5 * 3600 + 30 * 60 < 86400 * (n + 1)
  {
    DayStarts(t, n);
  }

  lemma {:induction false} CalendarEnds()
    ensures LAST_DAY == 3652059
  {
    LastDay(9999);
  }

  /** An instant has a day exactly when that day is on the calendar, of which the
      last is the 3652059th, and it is the day the instant lies in. */
  lemma {:induction false} InstantHasDayWhen(t: Instant, offset: int)
    ensures var day := IstDateOf(t, offset);
            && (day.Some? <==> 86400 <= t + offset < 86400 * 3652060)
            && (day.Some? ==> 86400 * day.value <= t + offset < 86400 * (day.value + 1))
  {
    CalendarEnds();
    var s := t + offset;
    assert s == DAY * (s / DAY) + s % DAY;
  }

  /** The window runs from Indian midnight at the start of the first day to Indian
      midnight at the end of the last, open where a day is not given; there is none
      exactly when the last day is the last there is. */
  lemma {:induction false} WindowIs(from: Option<Date>, to: Option<Date>)
    requires (from.Some? ==> IsDay(from.value)) && (to.Some? ==> IsDay(to.value) && InRange(to.value))
    ensures IstDayWindow(from, to).None? <==> to == Some(Date(9999, 12, 31))
    ensures IstDayWindow(from, to).Some? ==>
              var (start, end) := IstDayWindow(from, to).value;
              && (match from
                  case Some(d) => start.Some? && start.value + 5 * 3600 + 30 * 60 == 86400 * Ordinal(d)
                  case None => start.None?)
              && (match to
                  case Some(d) => end.Some? && end.value + 5 * 3600 + 30 * 60 == 86400 * (Ordinal(d) + 1)
                  case None => end.None?)
  {
    if to.Some? {
      var last := Date(9999, 12, 31);
      OrdinalOrder(to.value, last);
      OrdinalOrder(last, to.value);
    }
  }

  // ---- financial years --------------------------------------------------------------

  /** The year a date's financial year begins in. */
  function StartOfFy(d: Date): int { if d.month >= 4 then d.year else d.year - 1 }

  function Tail2(s: string): string { if |s| >= 2 then s[2..] else [] }

  /** `2026-27` for 2026. */
  function Label(start: nat): string { Digits(start) + "-" + Tail2(Digits(start + 1)) }

  function IstFyLabel(d: Date): string
    requires InRange(d)
  {
    Label(StartOfFy(d))
  }

  /** The years a financial year may begin in. */
  predicate LabelYear(y: int) { 1900 <= y <= 2999 }

  function UpToDash(s: string): string { if s == [] || s[0] == '-' then [] else [s[0]] + UpToDash(s[1..]) }

  /** The number before the first dash. */
  function StartYear(text: string): Option<nat> {
    var head := Strip(UpToDash(text));
    if head != [] && AllDigits(head) then Some(Value(head)) else None
  }

  function FyBounds(text: string): Option<(Date, Date)> {
    var y := StartYear(text);
    if y.Some? && LabelYear(y.value) then Some((Date(y.value, 4, 1), Date(y.value + 1, 3, 31))) else None
  }

  function FyQuarters(text: string): Option<seq<(Date, Date)>> {
    var b := FyBounds(text);
    if b.None? then None
    else
      var y := b.value.0.year;
      Some([(Date(y, 4, 1), Date(y, 6, 30)), (Date(y, 7, 1), Date(y, 9, 30)),
            (Date(y, 10, 1), Date(y, 12, 31)), (Date(y + 1, 1, 1), Date(y + 1, 3, 31))])
  }

  /** Four digits, a dash or a slash, and two digits or four that name the next
      year; blanks around each. */
  function NormaliseFyLabel(text: string): Option<string> {
    var s := Strip(text);
    if |s| < 4 || !AllDigits(s[..4]) then None
    else
      var rest := StripLeft(s[4..]);
      if rest == [] || (rest[0] != '-' && rest[0] != '/') then None
      else
        var tail := StripLeft(rest[1..]);
        var start := Value(s[..4]);
        if !((|tail| == 2 || |tail| == 4) && AllDigits(tail)) || !LabelYear(start) then None
        else if tail != (if |tail| == 4 then Digits(start + 1) else Tail2(Digits(start + 1))) then None
        else Some(Label(start))
  }

  function PrecedingFy(text: string): Option<string> {
    var y := StartYear(text);
    if y.Some? && y.value > 0 then Some(Label(y.value - 1)) else None
  }

  function AssessmentYearFor(text: string): Option<string> {
    var s := Strip(text);
    if |s| < 4 || !AllDigits(s[..4]) then None else Some(Label(Value(s[..4]) + 1))
  }

  // ---- labels read back -------------------------------------------------------------

  lemma {:induction false} FourDigits(y: nat)
    requires 1000 <= y <= 9999
    ensures |Digits(y)| == 4
  {
    assert |Digits(y / 10 / 10 / 10)| == 1;
    assert |Digits(y / 10 / 10)| == 2;
    assert |Digits(y / 10)| == 3;
  }

  lemma {:induction false} UpToDashOf(a: string, b: string)
    requires forall i :: 0 <= i < |a| ==> a[i] != '-'
    ensures UpToDash(a + "-" + b) == a
  {
    var s := a + "-" + b;
    if a == [] {
      assert s[0] == '-';
    } else {
      assert s[0] == a[0] && s[1..] == a[1..] + "-" + b;
      UpToDashOf(a[1..], b);
      assert [a[0]] + a[1..] == a;
    }
  }

  lemma {:induction false} DigitsAreNotBlank(s: string)
    requires AllDigits(s)
    ensures Strip(s) == s && StripLeft(s) == s
    ensures forall i :: 0 <= i < |s| ==> s[i] != '-' && !Blank(s[i])
  {
    assert forall i :: 0 <= i < |s| ==> IsDigit(s[i]);
    StripFixed(s);
  }

  /** The parts of a label: four digits, a dash, two digits. */
  lemma {:induction false} LabelParts(y: nat)
    requires 1000 <= y < 9999
    ensures var s := Label(y);
            && |s| == 7 && s[..4] == Digits(y) && AllDigits(s[..4]) && Value(s[..4]) == y
            && s[4..] == "-" + s[5..] && s[5..] == Tail2(Digits(y + 1)) && |s[5..]| == 2 && AllDigits(s[5..])
            && Strip(s) == s && StartYear(s) == Some(y)
  {
    var a, b := Digits(y), Tail2(Digits(y + 1));
    FourDigits(y);
    FourDigits(y + 1);
    ValueOfDigits(y);
    DashedParts(a, b);
  }

  lemma {:induction false} DashedParts(a: string, b: string)
    requires |a| == 4 && |b| == 2 && AllDigits(a) && AllDigits(b)
    ensures var s := a + "-" + b;
            && |s| == 7 && s[..4] == a && s[4..] == "-" + s[5..] && s[5..] == b
            && Strip(s) == s && Strip(UpToDash(s)) == a
  {
    var s := a + "-" + b;
    assert s[4] == '-';
    DigitsAreNotBlank(a);
    DigitsAreNotBlank(b);
    StripFixed(s);
    UpToDashOf(a, b);
  }

  /** A label reads as its year, a dash, and the last two digits of the next. */
  lemma {:induction false} LabelReads(y: nat)
    requires 1000 <= y < 9999
    ensures var s := Label(y);
            && |s| == 7 && AllDigits(s[..4]) && Value(s[..4]) == y && s[4] == '-'
            && AllDigits(s[5..]) && Value(s[5..]) == (y + 1) % 100
  {
    LabelParts(y);
    FourDigits(y + 1);
    LastTwoDigits(y + 1);
  }

  lemma {:induction false} LastTwoDigits(n: nat)
    requires n >= 100 && |Digits(n)| == 4
    ensures AllDigits(Digits(n)[2..]) && Value(Digits(n)[2..]) == n % 100
  {
    var q, tens, ones := TwoCut(n);
    TwoDigitsMore(q, tens, ones);
    TwoDigitsRead(tens, ones);
    EndsIn(Digits(n), Digits(q), [Digit(tens), Digit(ones)], n % 100);
  }

  lemma {:induction false} EndsIn(d: string, front: string, s: string, v: nat)
    requires d == front + s && |d| == 4 && |s| == 2 && AllDigits(s) && Value(s) == v
    ensures AllDigits(d[2..]) && Value(d[2..]) == v
  {
    assert d[2..] == s;
  }

  lemma {:induction false} TwoDigitsMore(q: nat, tens: nat, ones: nat)
    requires q >= 1 && tens <= 9 && ones <= 9
    ensures Digits(10 * (10 * q + tens) + ones) == Digits(q) + [Digit(tens), Digit(ones)]
  {
    OneDigitMore(10 * q + tens, ones);
    OneDigitMore(q, tens);
  }

  lemma {:induction false} TwoCut(n: nat) returns (q: nat, tens: nat, ones: nat)
    ensures tens <= 9 && ones <= 9 && n == 10 * (10 * q + tens) + ones && n % 100 == 10 * tens + ones
    ensures n >= 100 ==> q >= 1
  {
    q, tens, ones := n / 100, n % 100 / 10, n % 10;
  }

  lemma {:induction false} OneDigitMore(m: nat, ones: nat)
    requires m >= 1 && ones <= 9
    ensures Digits(10 * m + ones) == Digits(m) + [Digit(ones)]
  {
    var n := 10 * m + ones;
    assert n / 10 == m && n % 10 == ones;
  }

  lemma {:induction false} TwoDigitsRead(tens: nat, ones: nat)
    requires tens <= 9 && ones <= 9
    ensures var s := [Digit(tens), Digit(ones)]; AllDigits(s) && Value(s) == 10 * tens + ones
  {
    DigitCode(tens);
    DigitCode(ones);
    var s := [Digit(tens), Digit(ones)];
    assert s[..1] == [Digit(tens)] && s[..1][..0] == [];
    assert Value([]) == 0 && Value(s[..1]) == tens;
  }

  /** The years known are 1900 to 2999; each runs from its first of April to the
      thirty-first of March. */
  lemma {:induction false} BoundsWhen(y: nat)
    requires 1000 <= y < 9999
    ensures FyBounds(Label(y)) ==
            if 1900 <= y && y <= 2999 then Some((Date(y, 4, 1), Date(y + 1, 3, 31))) else None
  {
    LabelParts(y);
  }

  /** A spelling of a financial year: its four digits, a dash or a slash, and the
      next year whole or by its last two digits; blanks around each part. */
  ghost predicate IsSpelling(text: string, y: nat) {
    exists head, before, mark, behind, tail ::
      IsSpelt(Strip(text), head, before, mark, behind, tail)
      && Value(head) == y && (tail == Digits(y + 1) || tail == Tail2(Digits(y + 1)))
  }

  ghost predicate IsSpelt(s: string, head: string, before: string, mark: char, behind: string, tail: string) {
    && s == head + before + [mark] + behind + tail
    && |head| == 4 && AllDigits(head) && AllBlank(before) && (mark == '-' || mark == '/') && AllBlank(behind)
  }

  lemma {:induction false} BlanksComeOff(w: string, r: string)
    requires AllBlank(w) && r != [] && !Blank(r[0])
    ensures StripLeft(w + r) == r
  {
    if w == [] {
      assert w + r == r;
    } else {
      assert (w + r)[1..] == w[1..] + r;
      BlanksComeOff(w[1..], r);
    }
  }

  /** The parts as the normaliser cuts them. */
  ghost predicate IsCut(s: string, head: string, mark: char, tail: string) {
    && |s| >= 4 && s[..4] == head && AllDigits(head) && (mark == '-' || mark == '/')
    && var rest := StripLeft(s[4..]);
    && rest != [] && rest[0] == mark && StripLeft(rest[1..]) == tail
  }

  lemma {:induction false} SpeltIsCut(s: string, head: string, before: string, mark: char, behind: string, tail: string)
    requires IsSpelt(s, head, before, mark, behind, tail) && tail != [] && !Blank(tail[0])
    ensures IsCut(s, head, mark, tail)
  {
    var rest := [mark] + (behind + tail);
    assert s[4..] == before + rest;
    BlanksComeOff(before, rest);
    assert rest[1..] == behind + tail;
    BlanksComeOff(behind, tail);
  }

  lemma {:induction false} CutIsSpelt(s: string, head: string, mark: char, tail: string)
    returns (before: string, behind: string)
    requires IsCut(s, head, mark, tail)
    ensures IsSpelt(s, head, before, mark, behind, tail)
  {
    var rest := StripLeft(s[4..]);
    before := BlanksTakenOff(s[4..]);
    behind := BlanksTakenOff(rest[1..]);
    assert rest == [mark] + behind + tail;
    assert s == head + s[4..];
  }

  lemma {:induction false} CutIsNormalised(text: string, y: nat, head: string, mark: char, tail: string)
    requires 1900 <= y <= 2999 && IsCut(Strip(text), head, mark, tail)
    requires Value(head) == y && (tail == Digits(y + 1) || tail == Tail2(Digits(y + 1)))
    ensures NormaliseFyLabel(text) == Some(Label(y))
  {
    FourDigits(y + 1);
    DigitsAreNotBlank(Digits(y + 1));
  }

  lemma {:induction false} NormalisedIsCut(text: string, y: nat) returns (head: string, mark: char, tail: string)
    requires 1900 <= y <= 2999 && NormaliseFyLabel(text) == Some(Label(y))
    ensures IsCut(Strip(text), head, mark, tail)
    ensures Value(head) == y && (tail == Digits(y + 1) || tail == Tail2(Digits(y + 1)))
  {
    var s := Strip(text);
    var rest := StripLeft(s[4..]);
    head, mark, tail := s[..4], rest[0], StripLeft(rest[1..]);
    LabelsApart(Value(head), y);
  }

  lemma {:induction false} LabelsApart(x: nat, y: nat)
    requires LabelYear(x) && LabelYear(y) && Label(x) == Label(y)
    ensures x == y
  {
    LabelParts(x);
    LabelParts(y);
  }

  /** What the normaliser answers with a year's label for is the spellings of that
      year, and nothing else. */
  lemma {:induction false} NormalisesSpellings(text: string, y: nat)
    requires 1900 <= y <= 2999
    ensures NormaliseFyLabel(text) == Some(Label(y)) <==> IsSpelling(text, y)
  {
    if NormaliseFyLabel(text) == Some(Label(y)) {
      var head, mark, tail := NormalisedIsCut(text, y);
      var before, behind := CutIsSpelt(Strip(text), head, mark, tail);
    }
    if IsSpelling(text, y) {
      var head, before, mark, behind, tail :|
        IsSpelt(Strip(text), head, before, mark, behind, tail)
        && Value(head) == y && (tail == Digits(y + 1) || tail == Tail2(Digits(y + 1)));
      TailIsDigits(y + 1, tail);
      SpeltIsCut(Strip(text), head, before, mark, behind, tail);
      CutIsNormalised(text, y, head, mark, tail);
    }
  }

  lemma {:induction false} TailIsDigits(z: nat, tail: string)
    requires 1000 <= z < 9999 && (tail == Digits(z) || tail == Tail2(Digits(z)))
    ensures tail != [] && !Blank(tail[0])
  {
    FourDigits(z);
    DigitsAreNotBlank(Digits(z));
  }

  /** A bare year is assessed in the year after it too. */
  lemma {:induction false} AssessmentOfBareYear(y: nat)
    requires 1000 <= y < 9998
    ensures AssessmentYearFor(Digits(y)) == Some(Label(y + 1)) == AssessmentYearFor(Label(y))
  {
    FourDigits(y);
    DigitsAreNotBlank(Digits(y));
    ValueOfDigits(y);
    assert Digits(y)[..4] == Digits(y);
    AssessedIn(Digits(y), y);
    LabelParts(y);
    AssessedIn(Label(y), y);
  }

  lemma {:induction false} AssessedIn(text: string, y: nat)
    requires Strip(text) == text && |text| >= 4 && AllDigits(text[..4]) && Value(text[..4]) == y
    ensures AssessmentYearFor(text) == Some(Label(y + 1))
  {
  }

  /** A date lies in the financial year its label names. */
  lemma {:induction false} DateIsInItsYear(d: Date)
    requires IsDay(d) && InRange(d) && LabelYear(StartOfFy(d))
    ensures FyBounds(IstFyLabel(d)).Some?
    ensures var b := FyBounds(IstFyLabel(d)).value; !Before(d, b.0) && !Before(b.1, d)
  {
    LabelParts(StartOfFy(d));
  }

  predicate Within(d: Date, span: (Date, Date)) { !Before(d, span.0) && !Before(span.1, d) }

  /** The quarters tile the year: they run from its first day to its last, each
      begins the day after the one before it ends, and a date of the year lies in
      exactly one of them. */
  lemma {:induction false} QuartersTile(y: nat, d: Date)
    requires LabelYear(y) && IsDay(d)
    ensures FyQuarters(Label(y)).Some? && FyBounds(Label(y)).Some?
    ensures var q, b := FyQuarters(Label(y)).value, FyBounds(Label(y)).value;
            && |q| == 4 && q[0].0 == b.0 && q[3].1 == b.1
            && (forall i :: 0 <= i < 4 ==> IsDay(q[i].0) && IsDay(q[i].1))
            && NextDay(q[0].1) == q[1].0 && NextDay(q[1].1) == q[2].0 && NextDay(q[2].1) == q[3].0
    ensures var q, b := FyQuarters(Label(y)).value, FyBounds(Label(y)).value;
            && (Within(d, b) <==> exists i :: 0 <= i < 4 && Within(d, q[i]))
            && forall i, j :: 0 <= i < j < 4 ==> !(Within(d, q[i]) && Within(d, q[j]))
  {
    QuartersOfLabel(y);
    var q, b := FyQuarters(Label(y)).value, FyBounds(Label(y)).value;
    InOneQuarter(y, d);
    assert Within(d, b) ==> Within(d, q[0]) || Within(d, q[1]) || Within(d, q[2]) || Within(d, q[3]);
  }

  lemma {:induction false} QuartersOfLabel(y: nat)
    requires LabelYear(y)
    ensures FyBounds(Label(y)) == Some((Date(y, 4, 1), Date(y + 1, 3, 31)))
    ensures FyQuarters(Label(y)) ==
            Some([(Date(y, 4, 1), Date(y, 6, 30)), (Date(y, 7, 1), Date(y, 9, 30)),
                  (Date(y, 10, 1), Date(y, 12, 31)), (Date(y + 1, 1, 1), Date(y + 1, 3, 31))])
  {
    LabelParts(y);
  }

  lemma {:induction false} InOneQuarter(y: nat, d: Date)
    requires IsDay(d)
    ensures Within(d, (Date(y, 4, 1), Date(y + 1, 3, 31))) <==>
            || Within(d, (Date(y, 4, 1), Date(y, 6, 30))) || Within(d, (Date(y, 7, 1), Date(y, 9, 30)))
            || Within(d, (Date(y, 10, 1), Date(y, 12, 31))) || Within(d, (Date(y + 1, 1, 1), Date(y + 1, 3, 31)))
  {
  }

  /** Cut at its dash, as the normaliser cuts it. */
  lemma {:induction false} CutAtDash(s: string, b: string)
    requires |s| == 7 && s[4..] == "-" + b
    ensures StripLeft(s[4..]) == s[4..] && s[4..][0] == '-' && s[4..][1..] == b
  {
    assert ("-" + b)[1..] == b;
  }

  lemma {:induction false} NormalisesItself(y: nat)
    requires LabelYear(y)
    ensures NormaliseFyLabel(Label(y)) == Some(Label(y))
  {
    var s := Label(y);
    LabelParts(y);
    DigitsAreNotBlank(s[5..]);
    CutAtDash(s, s[5..]);
  }

  /** What is accepted is exactly the labels: the fixed points of the
      normaliser are the labels of the years it knows, and it only ever answers
      with one of them. */
  lemma {:induction false} LabelsAreFixedPoints(text: string)
    ensures NormaliseFyLabel(text).Some? ==>
            exists y: nat :: LabelYear(y) && NormaliseFyLabel(text) == Some(Label(y))
    ensures NormaliseFyLabel(text).Some? ==> NormaliseFyLabel(NormaliseFyLabel(text).value) == NormaliseFyLabel(text)
    ensures NormaliseFyLabel(text) == Some(text) <==> exists y: nat :: LabelYear(y) && text == Label(y)
  {
    if NormaliseFyLabel(text).Some? {
      var y := Value(Strip(text)[..4]);
      assert LabelYear(y) && NormaliseFyLabel(text) == Some(Label(y));
      NormalisesItself(y);
    }
    if y: nat :| LabelYear(y) && text == Label(y) {
      NormalisesItself(y);
    }
  }

  /** The assessment year of the year before is the year itself. */
  lemma {:induction false} AssessmentOfPreceding(y: nat)
    requires 1000 < y < 9999
    ensures PrecedingFy(Label(y)).Some?
    ensures AssessmentYearFor(PrecedingFy(Label(y)).value) == Some(Label(y))
  {
    LabelParts(y);
    LabelParts(y - 1);
  }
}
