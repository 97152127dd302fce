/** The date a person typed into a cell, and why one was not read
    (apps/api/domain/spreadsheet_cells.py). Texts are taken as already stripped. */
module CellDates {
  import opened Calendar
  import opened Decimal
  import opened Text

  // ---- runs of characters -----------------------------------------------------------

  datatype Kind = DigitKind | LetterKind | GapKind

  predicate IsLetter(c: char) { 'a' <= c <= 'z' || 'A' <= c <= 'Z' }

  /** A separator between two numbers; a gap after a month's name also takes commas. */
  predicate IsSeparator(c: char) { c == '/' || c == '-' || c == '.' }

  predicate In(k: Kind, c: char) {
    match k
    case DigitKind => IsDigit(c)
    case LetterKind => IsLetter(c)
    case GapKind => IsSeparator(c) || c == ' ' || c == ','
  }

  /** Where the run of such characters that begins at `i` ends. */
  function RunEnd(s: string, i: nat, k: Kind): (j: nat)
    requires i <= |s|
    ensures i <= j <= |s|
    ensures forall m :: i <= m < j ==> In(k, s[m])
    ensures j < |s| ==> !In(k, s[j])
    decreases |s| - i
  {
    if i < |s| && In(k, s[i]) then RunEnd(s, i + 1, k) else i
  }

  lemma {:induction false} RunEndIs(s: string, i: nat, j: nat, k: Kind)
    requires i <= j <= |s| && (forall m :: i <= m < j ==> In(k, s[m])) && (j < |s| ==> !In(k, s[j]))
    ensures RunEnd(s, i, k) == j
    decreases j - i
  {
    if i < j {
      RunEndIs(s, i + 1, j, k);
    }
  }

  function NumberAt(s: string, i: nat): nat
    requires i <= |s|
  {
    Value(s[i..RunEnd(s, i, DigitKind)])
  }

  // ---- the shapes -------------------------------------------------------------------

  datatype Fields = Fields(year: nat, month: nat, day: nat)

  /** Nothing, or a time of day after a blank or a T. */
  predicate IsClock(t: string) {
    t == [] || (
      (t[0] == ' ' || t[0] == 'T') &&
      var h := RunEnd(t, 1, DigitKind);
      1 <= h - 1 <= 2 && h < |t| && t[h] == ':' &&
      var m := RunEnd(t, h + 1, DigitKind);
      m - (h + 1) == 2 && (m == |t| || (
        t[m] == ':' &&
        var n := RunEnd(t, m + 1, DigitKind);
        n - (m + 1) == 2 && (n == |t| || (
          t[n] == '.' &&
          var e := RunEnd(t, n + 1, DigitKind);
          e > n + 1 && e == |t|)))))
  }

  /** `yyyy-mm-dd`, with a time of day or without. */
  function MatchIso(s: string): Option<Fields> {
    var a := RunEnd(s, 0, DigitKind);
    if a != 4 || a == |s| || s[a] != '-' then None
    else
      var b := RunEnd(s, a + 1, DigitKind);
      if !(1 <= b - (a + 1) <= 2) || b == |s| || s[b] != '-' then None
      else
        var c := RunEnd(s, b + 1, DigitKind);
        if !(1 <= c - (b + 1) <= 2) || !IsClock(s[c..]) then None
        else Some(Fields(NumberAt(s, 0), NumberAt(s, a + 1), NumberAt(s, b + 1)))
  }

  /** Day, month and a year of `width` digits. */
  function MatchDayFirst(s: string, width: nat): Option<Fields> {
    var a := RunEnd(s, 0, DigitKind);
    if !(1 <= a <= 2) || a == |s| || !IsSeparator(s[a]) then None
    else
      var b := RunEnd(s, a + 1, DigitKind);
      if !(1 <= b - (a + 1) <= 2) || b == |s| || !IsSeparator(s[b]) then None
      else
        var c := RunEnd(s, b + 1, DigitKind);
        if c - (b + 1) != width || c != |s| then None
        else Some(Fields(NumberAt(s, b + 1), NumberAt(s, a + 1), NumberAt(s, 0)))
  }

  datatype NamedFields = NamedFields(year: nat, word: string, day: nat)

  /** Day, a word of three to nine letters, and a year of `width` digits. */
  function MatchNamed(s: string, width: nat): Option<NamedFields> {
    var a := RunEnd(s, 0, DigitKind);
    if !(1 <= a <= 2) || a == |s| || !(IsSeparator(s[a]) || s[a] == ' ') then None
    else
      var b := RunEnd(s, a + 1, LetterKind);
      if !(3 <= b - (a + 1) <= 9) then None
      else
        var c := RunEnd(s, b, GapKind);
        if c == b then None
        else
          var e := RunEnd(s, c, DigitKind);
          if e - c != width || e != |s| then None
          else Some(NamedFields(NumberAt(s, c), s[a + 1..b], NumberAt(s, 0)))
  }

  // ---- months by name ---------------------------------------------------------------

  const MONTH_NAMES: seq<string> := [
    "january", "february", "march", "april", "may", "june", "july", "august", "september", "october", "november",
    "december"]

  /** In full, by its first three letters, and September also by four. */
  predicate NamesMonth(word: string, m: int)
    requires 1 <= m <= 12
  {
    var name := MONTH_NAMES[m - 1];
    word == name || word == name[..3] || (m == 9 && word == name[..4])
  }

  function MonthFrom(word: string, m: int): (r: Option<int>)
    requires 1 <= m <= 13
    ensures r.Some? ==> m <= r.value <= 12 && NamesMonth(word, r.value)
    decreases 13 - m
  {
    if m == 13 then None else if NamesMonth(word, m) then Some(m) else MonthFrom(word, m + 1)
  }

  function MonthOf(word: string): (r: Option<int>)
    ensures r.Some? ==> 1 <= r.value <= 12
  {
    MonthFrom(Lower(word), 1)
  }

  // ---- the reader and its explainer -------------------------------------------------

  function DateOf(year: int, month: int, day: int): Option<Date> {
    var d := Date(year, month, day);
    if IsDay(d) && InRange(d) then Some(d) else None
  }

  /** A date a person typed, or none where it cannot be read with certainty. */
  function ParseCellDate(s: string): Option<Date> {
    var iso, first, named := MatchIso(s), MatchDayFirst(s, 4), MatchNamed(s, 4);
    if iso.Some? then DateOf(iso.value.year, iso.value.month, iso.value.day)
    else if first.Some? then DateOf(first.value.year, first.value.month, first.value.day)
    else if named.Some? && MonthOf(named.value.word).Some?
    then DateOf(named.value.year, MonthOf(named.value.word).value, named.value.day)
    else None
  }

  /** Which part of a date is not on the calendar. `swapped`: the day and the
      month look the wrong way round. */
  datatype Fault = NoMonth(swapped: bool) | NoYear | NoDay | ShorterMonth(days: int)

  function ImpossiblePart(year: int, month: int, day: int, dayFirst: bool): Option<Fault> {
    if !(1 <= month <= 12) then Some(NoMonth(dayFirst && 1 <= day <= 12))
    else if year < 1 then Some(NoYear)
    else if day < 1 then Some(NoDay)
    else if day > MonthLength(year, month) then Some(ShorterMonth(MonthLength(year, month)))
    else None
  }

  datatype Reason = TwoDigitYear | Impossible(fault: Fault) | NotAShape

  function Blamed(f: Option<Fault>): Reason { if f.Some? then Impossible(f.value) else NotAShape }

  function WhyNotADate(s: string): Reason {
    var iso, first, named := MatchIso(s), MatchDayFirst(s, 4), MatchNamed(s, 4);
    if MatchDayFirst(s, 2).Some? || MatchNamed(s, 2).Some? then TwoDigitYear
    else if iso.Some? then Blamed(ImpossiblePart(iso.value.year, iso.value.month, iso.value.day, false))
    else if first.Some? then Blamed(ImpossiblePart(first.value.year, first.value.month, first.value.day, true))
    else if named.Some? && MonthOf(named.value.word).Some?
    then Blamed(ImpossiblePart(named.value.year, MonthOf(named.value.word).value, named.value.day, false))
    else NotAShape
  }

  /** The shape decides: no text has two of the five. */
  lemma {:induction false} OneShape(s: string, w: nat)
    ensures MatchIso(s).Some? ==> MatchDayFirst(s, w).None? && MatchNamed(s, w).None?
    ensures MatchDayFirst(s, w).Some? ==> forall v :: MatchNamed(s, v).None?
    ensures MatchDayFirst(s, w).Some? ==> forall v :: v != w ==> MatchDayFirst(s, v).None?
    ensures MatchNamed(s, w).Some? ==> forall v :: v != w ==> MatchNamed(s, v).None?
  {
    var a := RunEnd(s, 0, DigitKind);
    if MatchDayFirst(s, w).Some? {
      assert a + 1 < |s| && In(DigitKind, s[a + 1]);
      assert !In(LetterKind, s[a + 1]);
      RunEndIs(s, a + 1, a + 1, LetterKind);
    }
  }

  lemma {:induction false} YearAtMost(s: string, i: nat, width: nat)
    requires i <= |s| && RunEnd(s, i, DigitKind) - i == width
    ensures NumberAt(s, i) < Pow10(width)
  {
    ValueBelow(s[i..RunEnd(s, i, DigitKind)]);
  }

  lemma {:induction false} ValueBelow(s: string)
    requires AllDigits(s)
    ensures Value(s) < Pow10(|s|)
  {
    if s != [] {
      ValueBelow(s[..|s| - 1]);
    }
  }

  lemma {:induction false} PartsAgree(year: int, month: int, day: int, dayFirst: bool)
    requires year <= 9999
    ensures ImpossiblePart(year, month, day, dayFirst).None? <==> DateOf(year, month, day).Some?
  {
  }

  lemma {:induction false} FourIsTenThousand()
    ensures Pow10(4) == 10000
  {
    assert Pow10(2) == 100;
  }

  /** The reader and its explainer agree. A date that is read is blamed for
      nothing; and text that is not read is blamed for its two-digit year exactly
      when it has that shape, for an impossible part exactly when it has a whole
      shape whose parts are no date, and otherwise for its shape. */
  lemma {:induction false} ReaderAndExplainerAgree(s: string)
    ensures ParseCellDate(s).Some? ==> WhyNotADate(s) == NotAShape
    ensures WhyNotADate(s) == TwoDigitYear <==> MatchDayFirst(s, 2).Some? || MatchNamed(s, 2).Some?
    ensures WhyNotADate(s).Impossible? <==>
            && ParseCellDate(s).None?
            && (MatchIso(s).Some? || MatchDayFirst(s, 4).Some?
                || (MatchNamed(s, 4).Some? && MonthOf(MatchNamed(s, 4).value.word).Some?))
  {
    OneShape(s, 2);
    OneShape(s, 4);
    FourIsTenThousand();
    var a := RunEnd(s, 0, DigitKind);
    if MatchIso(s).Some? {
      var f := MatchIso(s).value;
      YearAtMost(s, 0, 4);
      PartsAgree(f.year, f.month, f.day, false);
    } else if MatchDayFirst(s, 4).Some? {
      var f := MatchDayFirst(s, 4).value;
      YearAtMost(s, RunEnd(s, a + 1, DigitKind) + 1, 4);
      PartsAgree(f.year, f.month, f.day, true);
    } else if MatchNamed(s, 4).Some? && MonthOf(MatchNamed(s, 4).value.word).Some? {
      var f := MatchNamed(s, 4).value;
      YearAtMost(s, RunEnd(s, RunEnd(s, a + 1, LetterKind), GapKind), 4);
      PartsAgree(f.year, MonthOf(f.word).value, f.day, false);
    }
  }

  // ---- printed and read back --------------------------------------------------------

  lemma {:induction false} Laid(a: string, b: string, c: string)
    ensures var s, j := a + "-" + b + "-" + c, |a| + 1 + |b|;
            && |s| == j + 1 + |c| && s[|a|] == '-' && s[j] == '-'
            && s[0..|a|] == a && s[|a| + 1..j] == b && s[j + 1..|s|] == c
  {
  }

  lemma {:induction false} RunOver(s: string, i: nat, j: nat, piece: string, k: Kind)
    requires i <= j <= |s| && s[i..j] == piece && (j < |s| ==> !In(k, s[j]))
    requires forall m :: 0 <= m < |piece| ==> In(k, piece[m])
    ensures RunEnd(s, i, k) == j
  {
    assert forall m :: i <= m < j ==> s[m] == piece[m - i];
    RunEndIs(s, i, j, k);
  }

  lemma {:induction false} ThreeRuns(a: string, b: string, c: string)
    requires AllDigits(a) && AllDigits(b) && AllDigits(c)
    ensures var s, j := a + "-" + b + "-" + c, |a| + 1 + |b|;
            && |s| == j + 1 + |c| && s[|a|] == '-' && s[j] == '-'
            && RunEnd(s, 0, DigitKind) == |a| && NumberAt(s, 0) == Value(a)
            && RunEnd(s, |a| + 1, DigitKind) == j && NumberAt(s, |a| + 1) == Value(b)
            && RunEnd(s, j + 1, DigitKind) == |s| && NumberAt(s, j + 1) == Value(c)
  {
    var s, j := a + "-" + b + "-" + c, |a| + 1 + |b|;
    Laid(a, b, c);
    RunOver(s, 0, |a|, a, DigitKind);
    RunOver(s, |a| + 1, j, b, DigitKind);
    RunOver(s, j + 1, |s|, c, DigitKind);
  }

  lemma {:induction false} TwoDigitsRead(n: int)
    requires 0 <= n <= 99
    ensures AllDigits(TwoDigits(n)) && |TwoDigits(n)| == 2 && Value(TwoDigits(n)) == n
  {
    DigitCode(n / 10);
    DigitCode(n % 10);
    var t := TwoDigits(n);
    assert t[..1] == [Digit(n / 10)] && t[..1][..0] == [];
    assert Value(t[..1]) == n / 10;
  }

  lemma {:induction false} HundredTimes(a: string, b: string)
    requires AllDigits(a) && AllDigits(b) && |b| == 2
    ensures AllDigits(a + b) && Value(a + b) == 100 * Value(a) + Value(b)
  {
    ValueOfJoin(a, b);
    assert Pow10(2) == 100 by {
      assert Pow10(1) == 10;
    }
  }

  lemma {:induction false} YearReads(y: int)
    requires 0 <= y <= 9999
    ensures AllDigits(YearText(y)) && |YearText(y)| == 4 && Value(YearText(y)) == y
  {
    TwoDigitsRead(y / 100);
    TwoDigitsRead(y % 100);
    HundredTimes(TwoDigits(y / 100), TwoDigits(y % 100));
  }

  /** A date written yyyy-mm-dd is read as itself. */
  lemma {:induction false} IsoReadsBack(d: Date)
    requires IsDay(d) && InRange(d)
    ensures ParseCellDate(Iso(d)) == Some(d)
  {
    var y, m, n := YearText(d.year), TwoDigits(d.month), TwoDigits(d.day);
    YearReads(d.year);
    TwoDigitsRead(d.month);
    TwoDigitsRead(d.day);
    ThreeRuns(y, m, n);
    assert Iso(d) == y + "-" + m + "-" + n;
    assert Iso(d)[|Iso(d)|..] == [];
  }

  function DayFirstText(d: Date): string
    requires IsDay(d) && InRange(d)
  {
    TwoDigits(d.day) + "-" + TwoDigits(d.month) + "-" + YearText(d.year)
  }

  /** So is one written dd-mm-yyyy. */
  lemma {:induction false} DayFirstReadsBack(d: Date)
    requires IsDay(d) && InRange(d)
    ensures ParseCellDate(DayFirstText(d)) == Some(d)
  {
    var y, m, n := YearText(d.year), TwoDigits(d.month), TwoDigits(d.day);
    YearReads(d.year);
    TwoDigitsRead(d.month);
    TwoDigitsRead(d.day);
    ThreeRuns(n, m, y);
  }

  const SHORT_NAMES: seq<string> := ["Jan", "Feb", "Mar", "Apr", "May", "Jun", "Jul", "Aug", "Sep", "Oct", "Nov", "Dec"]

  function NamedText(d: Date): string
    requires IsDay(d) && InRange(d)
  {
    TwoDigits(d.day) + "-" + SHORT_NAMES[d.month - 1] + "-" + YearText(d.year)
  }

  lemma {:induction false} ShortNames(m: int)
    requires 1 <= m <= 12
    ensures var w := SHORT_NAMES[m - 1];
            |w| == 3 && (forall i :: 0 <= i < 3 ==> IsLetter(w[i])) && Lower(w) == MONTH_NAMES[m - 1][..3]
  {
  }

  /** No two months begin with the same three letters. */
  lemma {:induction false} NamesApart(m: int, n: int)
    requires 1 <= m <= 12 && 1 <= n <= 12 && m != n
    ensures !NamesMonth(MONTH_NAMES[m - 1][..3], n)
  {
    var w, v := MONTH_NAMES[m - 1], MONTH_NAMES[n - 1];
    assert w[..3][0] == w[0] && w[..3][1] == w[1] && w[..3][2] == w[2];
    assert v[..3][0] == v[0] && v[..3][1] == v[1] && v[..3][2] == v[2];
    assert w[0] != v[0] || w[1] != v[1] || w[2] != v[2];
  }

  lemma {:induction false} ShortNameFound(m: int, from: int)
    requires 1 <= from <= m <= 12
    ensures MonthFrom(MONTH_NAMES[m - 1][..3], from) == Some(m)
    decreases m - from
  {
    if from < m {
      NamesApart(m, from);
      ShortNameFound(m, from + 1);
    }
  }

  lemma {:induction false} NamedRuns(a: string, w: string, c: string)
    requires AllDigits(a) && AllDigits(c) && w != [] && c != [] && forall i :: 0 <= i < |w| ==> IsLetter(w[i])
    ensures var s, j := a + "-" + w + "-" + c, |a| + 1 + |w|;
            && |s| == j + 1 + |c| && s[|a|] == '-'
            && RunEnd(s, 0, DigitKind) == |a| && NumberAt(s, 0) == Value(a)
            && RunEnd(s, |a| + 1, LetterKind) == j && s[|a| + 1..j] == w
            && RunEnd(s, j, GapKind) == j + 1
            && RunEnd(s, j + 1, DigitKind) == |s| && NumberAt(s, j + 1) == Value(c)
            && RunEnd(s, |a| + 1, DigitKind) == |a| + 1
  {
    var s, j := a + "-" + w + "-" + c, |a| + 1 + |w|;
    Laid(a, w, c);
    assert s[|a| + 1] == s[|a| + 1..j][0] && s[j + 1] == s[j + 1..|s|][0];
    RunOver(s, 0, |a|, a, DigitKind);
    RunOver(s, |a| + 1, j, w, LetterKind);
    RunOver(s, |a| + 1, |a| + 1, [], DigitKind);
    RunOver(s, j, j + 1, "-", GapKind);
    RunOver(s, j + 1, |s|, c, DigitKind);
  }

  lemma {:induction false} NamedMatches(a: string, w: string, c: string)
    requires AllDigits(a) && AllDigits(c) && |a| == 2 && |w| == 3 && |c| == 4
    requires forall i :: 0 <= i < |w| ==> IsLetter(w[i])
    ensures var s := a + "-" + w + "-" + c;
            && MatchIso(s).None? && MatchDayFirst(s, 4).None?
            && MatchNamed(s, 4) == Some(NamedFields(Value(c), w, Value(a)))
  {
    NamedRuns(a, w, c);
  }

  /** And one written dd-Mon-yyyy. */
  lemma {:induction false} NamedReadsBack(d: Date)
    requires IsDay(d) && InRange(d)
    ensures ParseCellDate(NamedText(d)) == Some(d)
  {
    YearReads(d.year);
    TwoDigitsRead(d.day);
    ShortNames(d.month);
    ShortNameFound(d.month, 1);
    NamedMatches(TwoDigits(d.day), SHORT_NAMES[d.month - 1], YearText(d.year));
  }
}
