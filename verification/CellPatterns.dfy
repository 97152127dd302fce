/** The patterns a cell's text is held against (apps/api/domain/spreadsheet_cells.py),
    written as what a text is made of, and the reader told by them: the runs it takes
    one after another find exactly the texts the patterns describe. */
module CellPatterns {
  import opened Calendar
  import opened CellDates
  import opened Decimal
  import opened Text

  // ---- what a text is made of -------------------------------------------------------

  /** So many digits, `least` to `most`. */
  ghost predicate IsNumber(s: string, least: nat, most: nat) {
    least <= |s| <= most && forall i :: 0 <= i < |s| ==> '0' <= s[i] <= '9'
  }

  /** Part of a second: a point and at least one digit, or nothing. */
  ghost predicate IsFraction(t: string, f: string) { t == [] || (t == "." + f && IsNumber(f, 1, |f|)) }

  ghost predicate IsSeconds(t: string, n: string, f: string) {
    t == [] || (|t| >= 3 && t[0] == ':' && t[1..3] == n && IsNumber(n, 2, 2) && IsFraction(t[3..], f))
  }

  /** A time of day, after a blank or a T; or nothing. */
  ghost predicate IsTime(t: string, h: string, m: string, rest: string, n: string, f: string) {
    t == [] || (
      && t != [] && (t[0] == ' ' || t[0] == 'T') && t[1..] == h + ":" + m + rest
      && IsNumber(h, 1, 2) && IsNumber(m, 2, 2) && IsSeconds(rest, n, f))
  }

  ghost predicate IsClockText(t: string) { exists h, m, rest, n, f :: IsTime(t, h, m, rest, n, f) }

  ghost predicate IsIsoText(s: string, y: string, m: string, d: string, t: string) {
    && s == y + "-" + m + "-" + d + t
    && IsNumber(y, 4, 4) && IsNumber(m, 1, 2) && IsNumber(d, 1, 2) && IsClockText(t)
  }

  ghost predicate IsMark(c: char) { c == '/' || c == '-' || c == '.' }

  ghost predicate IsDayFirstText(s: string, d: string, p: char, m: string, q: char, y: string, width: nat) {
    && s == d + [p] + m + [q] + y && IsMark(p) && IsMark(q)
    && IsNumber(d, 1, 2) && IsNumber(m, 1, 2) && IsNumber(y, width, width)
  }

  ghost predicate IsWord(w: string) {
    3 <= |w| <= 9 && forall i :: 0 <= i < |w| ==> 'A' <= w[i] <= 'Z' || 'a' <= w[i] <= 'z'
  }

  ghost predicate IsGap(g: string) {
    g != [] && forall i :: 0 <= i < |g| ==> IsMark(g[i]) || g[i] == ' ' || g[i] == ','
  }

  ghost predicate IsNamedText(s: string, d: string, p: char, w: string, g: string, y: string, width: nat) {
    && s == d + [p] + w + g + y && (IsMark(p) || p == ' ')
    && IsNumber(d, 1, 2) && IsWord(w) && IsGap(g) && IsNumber(y, width, width)
  }

  // ---- runs -------------------------------------------------------------------------

  /** A piece and what is left, cut where the piece's characters stop. */
  lemma {:induction false} RunCut(s: string, i: nat, piece: string, rest: string, k: Kind)
    requires i <= |s| && s[i..] == piece + rest
    requires forall m :: 0 <= m < |piece| ==> In(k, piece[m])
    requires rest != [] ==> !In(k, rest[0])
    ensures RunEnd(s, i, k) == i + |piece| <= |s|
    ensures s[i..i + |piece|] == piece && s[i + |piece|..] == rest
  {
    var j := i + |piece|;
    assert forall m :: i <= m < j ==> s[m] == s[i..][m - i];
    assert j < |s| ==> s[j] == s[i..][j - i];
    RunEndIs(s, i, j, k);
  }

  /** A run of digits read off the text. */
  lemma {:induction false} RunTaken(s: string, i: nat) returns (piece: string, j: nat)
    requires i <= |s|
    ensures i <= j == RunEnd(s, i, DigitKind) <= |s| && piece == s[i..j] && IsNumber(piece, j - i, j - i)
    ensures s[i..] == piece + s[j..] && NumberAt(s, i) == Value(piece)
  {
    j := RunEnd(s, i, DigitKind);
    piece := s[i..j];
  }

  /** A number and the mark behind it. */
  lemma {:induction false} MarkCut(s: string, i: nat, piece: string, mark: char, behind: string, k: Kind)
    requires i <= |s| && s[i..] == piece + ([mark] + behind)
    requires (forall m :: 0 <= m < |piece| ==> In(k, piece[m])) && !In(k, mark)
    ensures var j := i + |piece|;
            RunEnd(s, i, k) == j < |s| && s[i..j] == piece && s[j] == mark && s[j + 1..] == behind
  {
    var j := i + |piece|;
    RunCut(s, i, piece, [mark] + behind, k);
    assert s[j] == s[j..][0] && s[j + 1..] == s[j..][1..];
  }

  lemma {:induction false} LastCut(s: string, i: nat, piece: string, k: Kind)
    requires i <= |s| && s[i..] == piece && forall m :: 0 <= m < |piece| ==> In(k, piece[m])
    ensures RunEnd(s, i, k) == |s| == i + |piece|
  {
    assert s[i..] == piece + [];
    RunCut(s, i, piece, [], k);
  }

  lemma {:induction false} Joined(a: string, p: char, b: string, q: char, c: string)
    ensures (a + [p] + b + [q] + c)[0..] == a + ([p] + (b + ([q] + c)))
  {
    assert a + [p] + b + [q] + c == a + ([p] + (b + ([q] + c)));
  }

  lemma {:induction false} CutTwice(s: string, a: nat, b: nat)
    requires a < b < |s|
    ensures s == s[0..a] + [s[a]] + s[a + 1..b] + [s[b]] + s[b + 1..]
  {
  }

  // ---- the time of day --------------------------------------------------------------

  /** The end of a time, read from `n` on. */
  ghost predicate FractionFrom(t: string, n: nat)
    requires n <= |t|
  {
    n == |t| || (
      t[n] == '.' &&
      var e := RunEnd(t, n + 1, DigitKind);
      e > n + 1 && e == |t|)
  }

  lemma {:induction false} FractionReads(t: string, n: nat) returns (f: string)
    requires n <= |t| && FractionFrom(t, n)
    ensures IsFraction(t[n..], f)
  {
    f := [];
    if n < |t| {
      var e;
      f, e := RunTaken(t, n + 1);
      assert t[n..] == "." + f;
    }
  }

  lemma {:induction false} FractionIsRead(t: string, n: nat, f: string)
    requires n <= |t| && IsFraction(t[n..], f)
    ensures FractionFrom(t, n)
  {
    if n < |t| {
      assert t[n] == t[n..][0];
      assert t[n + 1..] == f + [];
      RunCut(t, n + 1, f, [], DigitKind);
    }
  }

  ghost predicate SecondsFrom(t: string, m: nat)
    requires m <= |t|
  {
    m == |t| || (
      t[m] == ':' &&
      var n := RunEnd(t, m + 1, DigitKind);
      n - (m + 1) == 2 && FractionFrom(t, n))
  }

  lemma {:induction false} SecondsRead(t: string, m: nat) returns (n: string, f: string)
    requires m <= |t| && SecondsFrom(t, m)
    ensures IsSeconds(t[m..], n, f)
  {
    n, f := [], [];
    if m < |t| {
      var e;
      n, e := RunTaken(t, m + 1);
      f := FractionReads(t, e);
      assert t[m..][1..3] == n && t[m..][3..] == t[e..];
    }
  }

  lemma {:induction false} SecondsAreRead(t: string, m: nat, n: string, f: string)
    requires m <= |t| && IsSeconds(t[m..], n, f)
    ensures SecondsFrom(t, m)
  {
    if m < |t| {
      assert t[m] == t[m..][0];
      var rest := t[m..][3..];
      assert t[m + 1..] == n + rest;
      RunCut(t, m + 1, n, rest, DigitKind);
      FractionIsRead(t, m + 3, f);
    }
  }

  /** The clock taken run by run is the time of day described. */
  lemma {:induction false} ClockIs(t: string)
    ensures IsClock(t) <==> IsClockText(t)
  {
    if IsClock(t) {
      ClockReads(t);
    }
    if IsClockText(t) {
      var h, m, rest, n, f :| IsTime(t, h, m, rest, n, f);
      ClockIsRead(t, h, m, rest, n, f);
    }
  }

  lemma {:induction false} ClockReads(t: string)
    requires IsClock(t)
    ensures IsClockText(t)
  {
    if t == [] {
      assert IsTime(t, [], [], [], [], []);
    } else {
      var i, j := ClockRuns(t);
      var n, f := SecondsRead(t, j);
      ClockCut(t, i, j);
      assert IsTime(t, t[1..i], t[i + 1..j], t[j..], n, f);
    }
  }

  /** Where the hours and the minutes end. */
  lemma {:induction false} ClockRuns(t: string) returns (i: nat, j: nat)
    requires IsClock(t) && t != []
    ensures 1 < i < j <= |t| && (t[0] == ' ' || t[0] == 'T') && t[i] == ':' && SecondsFrom(t, j)
    ensures IsNumber(t[1..i], 1, 2) && IsNumber(t[i + 1..j], 2, 2)
  {
    var h, m;
    h, i := RunTaken(t, 1);
    m, j := RunTaken(t, i + 1);
  }

  lemma {:induction false} ClockCut(t: string, i: nat, j: nat)
    requires 1 < i < j <= |t| && t[i] == ':'
    ensures t[1..] == t[1..i] + ":" + t[i + 1..j] + t[j..]
  {
  }

  lemma {:induction false} ClockIsRead(t: string, h: string, m: string, rest: string, n: string, f: string)
    requires IsTime(t, h, m, rest, n, f)
    ensures IsClock(t)
  {
    if t != [] {
      assert t[1..] == h + (":" + m + rest);
      RunCut(t, 1, h, ":" + m + rest, DigitKind);
      var i := 1 + |h|;
      assert t[i] == t[i..][0];
      assert t[i + 1..] == m + rest;
      RunCut(t, i + 1, m, rest, DigitKind);
      SecondsAreRead(t, i + 1 + |m|, n, f);
      assert SecondsFrom(t, i + 1 + |m|);
    }
  }

  // ---- the three shapes -------------------------------------------------------------

  lemma {:induction false} IsoRead(s: string) returns (y: string, m: string, d: string, t: string)
    requires MatchIso(s).Some?
    ensures IsIsoText(s, y, m, d, t) && MatchIso(s) == Some(Fields(Value(y), Value(m), Value(d)))
  {
    var a, b, c;
    y, a := RunTaken(s, 0);
    m, b := RunTaken(s, a + 1);
    d, c := RunTaken(s, b + 1);
    t := s[c..];
    ClockIs(t);
    CutTwice(s, a, b);
    IsoJoined(s, y, m, d, t);
  }

  lemma {:induction false} IsoJoined(s: string, y: string, m: string, d: string, t: string)
    ensures s == y + "-" + m + "-" + d + t <==> s == y + ['-'] + m + ['-'] + (d + t)
  {
  }

  /** Two numbers, each with a mark behind it, found as runs. */
  ghost predicate TwoMarks(s: string, x: string, p: char, m: string, q: char, rest: string) {
    var a, b := |x|, |x| + 1 + |m|;
    && b < |s| && RunEnd(s, 0, DigitKind) == a && s[0..a] == x && s[a] == p
    && RunEnd(s, a + 1, DigitKind) == b && s[a + 1..b] == m && s[b] == q && s[b + 1..] == rest
  }

  lemma {:induction false} TwoMarksCut(s: string, x: string, p: char, m: string, q: char, rest: string)
    requires s == x + [p] + m + [q] + rest && AllDigits(x) && AllDigits(m) && !IsDigit(p) && !IsDigit(q)
    ensures TwoMarks(s, x, p, m, q, rest)
  {
    Joined(x, p, m, q, rest);
    MarkCut(s, 0, x, p, m + ([q] + rest), DigitKind);
    MarkCut(s, |x| + 1, m, q, rest, DigitKind);
  }

  lemma {:induction false} IsoIsRead(s: string, y: string, m: string, d: string, t: string)
    requires IsIsoText(s, y, m, d, t)
    ensures MatchIso(s) == Some(Fields(Value(y), Value(m), Value(d)))
  {
    ClockIs(t);
    IsoJoined(s, y, m, d, t);
    IsoCut(s, y, m, d, t, d + t);
    IsoFound(s, y, m, d, t, d + t);
  }

  lemma {:induction false} IsoCut(s: string, y: string, m: string, d: string, t: string, rest: string)
    requires s == y + ['-'] + m + ['-'] + rest && rest == d + t && IsClock(t)
    requires IsNumber(y, 4, 4) && AllDigits(m) && AllDigits(d)
    ensures TwoMarks(s, y, '-', m, '-', rest)
    ensures var i, j := 6 + |m|, 6 + |m| + |d|;
            j <= |s| && RunEnd(s, i, DigitKind) == j && s[i..j] == d && s[j..] == t
  {
    TwoMarksCut(s, y, '-', m, '-', rest);
    RunCut(s, 6 + |m|, d, t, DigitKind);
  }

  lemma {:induction false} IsoFound(s: string, y: string, m: string, d: string, t: string, rest: string)
    requires IsNumber(y, 4, 4) && IsNumber(m, 1, 2) && IsNumber(d, 1, 2) && IsClock(t)
    requires TwoMarks(s, y, '-', m, '-', rest)
    requires var i, j := 6 + |m|, 6 + |m| + |d|;
             j <= |s| && RunEnd(s, i, DigitKind) == j && s[i..j] == d && s[j..] == t
    ensures MatchIso(s) == Some(Fields(Value(y), Value(m), Value(d)))
  {
  }

  lemma {:induction false} DayFirstRead(s: string, width: nat)
    returns (d: string, p: char, m: string, q: char, y: string)
    requires MatchDayFirst(s, width).Some?
    ensures IsDayFirstText(s, d, p, m, q, y, width)
    ensures MatchDayFirst(s, width) == Some(Fields(Value(y), Value(m), Value(d)))
  {
    var a, b := DayFirstMarks(s, width);
    d, m, y := s[0..a], s[a + 1..b], s[b + 1..];
    p, q := s[a], s[b];
    CutTwice(s, a, b);
  }

  lemma {:induction false} DayFirstMarks(s: string, width: nat) returns (a: nat, b: nat)
    requires MatchDayFirst(s, width).Some?
    ensures 1 <= a <= 2 && 1 <= b - (a + 1) <= 2 && |s| == b + 1 + width && IsMark(s[a]) && IsMark(s[b])
    ensures AllDigits(s[0..a]) && AllDigits(s[a + 1..b]) && AllDigits(s[b + 1..])
    ensures MatchDayFirst(s, width) == Some(Fields(Value(s[b + 1..]), Value(s[a + 1..b]), Value(s[0..a])))
  {
    a := RunEnd(s, 0, DigitKind);
    b := RunEnd(s, a + 1, DigitKind);
    assert RunEnd(s, b + 1, DigitKind) == |s| && s[b + 1..|s|] == s[b + 1..];
  }

  lemma {:induction false} DayFirstIsRead(s: string, d: string, p: char, m: string, q: char, y: string, width: nat)
    requires IsDayFirstText(s, d, p, m, q, y, width)
    ensures MatchDayFirst(s, width) == Some(Fields(Value(y), Value(m), Value(d)))
  {
    TwoMarksCut(s, d, p, m, q, y);
    LastCut(s, |d| + |m| + 2, y, DigitKind);
    DayFirstFound(s, d, p, m, q, y);
  }

  lemma {:induction false} DayFirstFound(s: string, d: string, p: char, m: string, q: char, y: string)
    requires IsNumber(d, 1, 2) && IsNumber(m, 1, 2) && AllDigits(y) && IsMark(p) && IsMark(q)
    requires TwoMarks(s, d, p, m, q, y) && RunEnd(s, |d| + |m| + 2, DigitKind) == |s|
    ensures MatchDayFirst(s, |y|) == Some(Fields(Value(y), Value(m), Value(d)))
  {
    assert s[|d| + |m| + 2..|s|] == y;
  }

  lemma {:induction false} NamedRead(s: string, width: nat)
    returns (d: string, p: char, w: string, g: string, y: string)
    requires MatchNamed(s, width).Some?
    ensures IsNamedText(s, d, p, w, g, y, width)
    ensures MatchNamed(s, width) == Some(NamedFields(Value(y), w, Value(d)))
  {
    var a, b, c := NamedRuns(s, width);
    d, p, w, g, y := s[0..a], s[a], s[a + 1..b], s[b..c], s[c..];
    CutThrice(s, a, b, c);
  }

  lemma {:induction false} NamedRuns(s: string, width: nat) returns (a: nat, b: nat, c: nat)
    requires MatchNamed(s, width).Some?
    ensures 1 <= a <= 2 && 3 <= b - (a + 1) <= 9 && b < c && |s| == c + width && (IsMark(s[a]) || s[a] == ' ')
    ensures AllDigits(s[0..a]) && IsWord(s[a + 1..b]) && IsGap(s[b..c]) && AllDigits(s[c..])
    ensures MatchNamed(s, width) == Some(NamedFields(Value(s[c..]), s[a + 1..b], Value(s[0..a])))
  {
    a, b, c := NamedEnds(s, width);
    WordRun(s, a + 1, b);
    GapRun(s, b, c);
    NamedFound(s, s[0..a], s[a], s[a + 1..b], s[b..c], s[c..], a, b, c);
  }

  lemma {:induction false} NamedEnds(s: string, width: nat) returns (a: nat, b: nat, c: nat)
    requires MatchNamed(s, width).Some?
    ensures 1 <= a <= 2 && 3 <= b - (a + 1) <= 9 && b < c && |s| == c + width && (IsMark(s[a]) || s[a] == ' ')
    ensures a == RunEnd(s, 0, DigitKind) && b == RunEnd(s, a + 1, LetterKind) && c == RunEnd(s, b, GapKind)
    ensures RunEnd(s, c, DigitKind) == |s| && AllDigits(s[0..a]) && AllDigits(s[c..])
  {
    a := RunEnd(s, 0, DigitKind);
    b := RunEnd(s, a + 1, LetterKind);
    c := RunEnd(s, b, GapKind);
  }

  lemma {:induction false} WordRun(s: string, i: nat, j: nat)
    requires i + 3 <= j <= i + 9 && j <= |s| && RunEnd(s, i, LetterKind) == j
    ensures IsWord(s[i..j])
  {
  }

  lemma {:induction false} GapRun(s: string, i: nat, j: nat)
    requires i < j <= |s| && RunEnd(s, i, GapKind) == j
    ensures IsGap(s[i..j])
  {
  }

  lemma {:induction false} CutThrice(s: string, a: nat, b: nat, c: nat)
    requires a < b <= c <= |s|
    ensures s == s[0..a] + [s[a]] + s[a + 1..b] + s[b..c] + s[c..]
  {
  }

  lemma {:induction false} NamedJoined(d: string, p: char, w: string, g: string, y: string)
    ensures (d + [p] + w + g + y)[0..] == d + ([p] + (w + (g + y)))
  {
    assert d + [p] + w + g + y == d + ([p] + (w + (g + y)));
  }

  lemma {:induction false} NamedIsRead(s: string, d: string, p: char, w: string, g: string, y: string, width: nat)
    requires IsNamedText(s, d, p, w, g, y, width) && width > 0
    ensures MatchNamed(s, width) == Some(NamedFields(Value(y), w, Value(d)))
  {
    NamedJoined(d, p, w, g, y);
    var a, b, c := NamedCut(s, d, p, w, g, y, g + y, w + (g + y));
    NamedFound(s, d, p, w, g, y, a, b, c);
  }

  ghost predicate FourRuns(s: string, d: string, p: char, w: string, g: string, y: string, a: nat, b: nat, c: nat) {
    && a < |s| && a + 1 <= b <= c <= |s| && a == |d| && c > b
    && RunEnd(s, 0, DigitKind) == a && s[0..a] == d && s[a] == p
    && RunEnd(s, a + 1, LetterKind) == b && s[a + 1..b] == w
    && RunEnd(s, b, GapKind) == c && RunEnd(s, c, DigitKind) == |s| && s[c..] == y
  }

  lemma {:induction false} NamedFound(s: string, d: string, p: char, w: string, g: string, y: string, a: nat,
                                      b: nat, c: nat)
    requires FourRuns(s, d, p, w, g, y, a, b, c)
    requires (IsMark(p) || p == ' ') && IsNumber(d, 1, 2) && IsWord(w) && AllDigits(y)
    ensures MatchNamed(s, |y|) == Some(NamedFields(Value(y), w, Value(d)))
  {
    assert s[c..|s|] == y;
  }

  lemma {:induction false} NamedCut(s: string, d: string, p: char, w: string, g: string, y: string, tail: string,
                                    body: string) returns (a: nat, b: nat, c: nat)
    requires s[0..] == d + ([p] + body) && body == w + tail && tail == g + y
    requires AllDigits(d) && !IsDigit(p) && IsWord(w) && IsGap(g) && AllDigits(y)
    ensures FourRuns(s, d, p, w, g, y, a, b, c)
  {
    a := |d|;
    MarkCut(s, 0, d, p, body, DigitKind);
    b, c := WordCut(s, a + 1, w, g, y, tail);
  }

  lemma {:induction false} WordCut(s: string, i: nat, w: string, g: string, y: string, tail: string)
    returns (b: nat, c: nat)
    requires i <= |s| && s[i..] == w + tail && tail == g + y && IsWord(w) && IsGap(g) && AllDigits(y)
    ensures i <= b < c <= |s| && RunEnd(s, i, LetterKind) == b && s[i..b] == w
    ensures RunEnd(s, b, GapKind) == c && RunEnd(s, c, DigitKind) == |s| && s[c..] == y
  {
    b, c := i + |w|, i + |w| + |g|;
    RunCut(s, i, w, tail, LetterKind);
    RunCut(s, b, g, y, GapKind);
    LastCut(s, c, y, DigitKind);
  }

  // ---- a date written ---------------------------------------------------------------

  ghost predicate WrittenIso(s: string, year: int, month: int, day: int) {
    exists y, m, d, t :: IsIsoText(s, y, m, d, t) && Value(y) == year && Value(m) == month && Value(d) == day
  }

  ghost predicate WrittenDayFirst(s: string, year: int, month: int, day: int) {
    exists d, p, m, q, y ::
      IsDayFirstText(s, d, p, m, q, y, 4) && Value(y) == year && Value(m) == month && Value(d) == day
  }

  ghost predicate WrittenNamed(s: string, year: int, month: int, day: int) {
    exists d, p, w, g, y ::
      IsNamedText(s, d, p, w, g, y, 4) && Value(y) == year && Spells(Lower(w), month) && Value(d) == day
  }

  /** The names of the months, as a person may write them. */
  ghost predicate Spells(w: string, month: int) {
    match month
    case 1 => w == "jan" || w == "january"
    case 2 => w == "feb" || w == "february"
    case 3 => w == "mar" || w == "march"
    case 4 => w == "apr" || w == "april"
    case 5 => w == "may"
    case 6 => w == "jun" || w == "june"
    case 7 => w == "jul" || w == "july"
    case 8 => w == "aug" || w == "august"
    case 9 => w == "sep" || w == "sept" || w == "september"
    case 10 => w == "oct" || w == "october"
    case 11 => w == "nov" || w == "november"
    case 12 => w == "dec" || w == "december"
    case _ => false
  }

  lemma {:induction false} SpellsWhen(w: string, m: int)
    requires 1 <= m <= 12
    ensures NamesMonth(w, m) <==> Spells(w, m)
  {
    var name := MONTH_NAMES[m - 1];
    assert |name| > 3 ==> name[..3] == [name[0], name[1], name[2]];
    assert m == 9 ==> name[..4] == [name[0], name[1], name[2], name[3]];
  }

  lemma {:induction false} FirstThree(w: string, m: int)
    requires 1 <= m <= 12 && NamesMonth(w, m)
    ensures |w| >= 3 && w[..3] == MONTH_NAMES[m - 1][..3]
  {
  }

  lemma {:induction false} OneMonth(w: string, m: int, n: int)
    requires 1 <= m <= 12 && 1 <= n <= 12 && NamesMonth(w, m) && NamesMonth(w, n)
    ensures m == n
  {
    FirstThree(w, m);
    FirstThree(w, n);
    if m != n {
      NamesApart(m, n);
    }
  }

  lemma {:induction false} FoundFrom(w: string, m: int, from: int)
    requires 1 <= from <= m <= 12 && NamesMonth(w, m)
    ensures MonthFrom(w, from) == Some(m)
    decreases m - from
  {
    if NamesMonth(w, from) {
      OneMonth(w, m, from);
    } else {
      FoundFrom(w, m, from + 1);
    }
  }

  /** A word is a month's name in that month's spellings, whatever its case. */
  lemma {:induction false} MonthOfWhen(word: string, m: int)
    ensures MonthOf(word) == Some(m) <==> Spells(Lower(word), m)
  {
    var w := Lower(word);
    if 1 <= m <= 12 {
      SpellsWhen(w, m);
      if NamesMonth(w, m) {
        FoundFrom(w, m, 1);
      }
    }
  }

  lemma {:induction false} IsoWhen(s: string, f: Fields)
    ensures MatchIso(s) == Some(f) <==> WrittenIso(s, f.year, f.month, f.day)
  {
    if MatchIso(s) == Some(f) {
      var y, m, d, t := IsoRead(s);
    }
    if WrittenIso(s, f.year, f.month, f.day) {
      var y, m, d, t :|
        IsIsoText(s, y, m, d, t) && Value(y) == f.year && Value(m) == f.month && Value(d) == f.day;
      IsoIsRead(s, y, m, d, t);
    }
  }

  lemma {:induction false} DayFirstWhen(s: string, f: Fields)
    ensures MatchDayFirst(s, 4) == Some(f) <==> WrittenDayFirst(s, f.year, f.month, f.day)
  {
    if MatchDayFirst(s, 4) == Some(f) {
      var d, p, m, q, y := DayFirstRead(s, 4);
    }
    if WrittenDayFirst(s, f.year, f.month, f.day) {
      var d, p, m, q, y :|
        IsDayFirstText(s, d, p, m, q, y, 4) && Value(y) == f.year && Value(m) == f.month && Value(d) == f.day;
      DayFirstIsRead(s, d, p, m, q, y, 4);
    }
  }

  lemma {:induction false} NamedWhen(s: string, year: int, month: int, day: int)
    ensures WrittenNamed(s, year, month, day) <==>
            && MatchNamed(s, 4).Some?
            && var f := MatchNamed(s, 4).value;
               f.year == year && MonthOf(f.word) == Some(month) && f.day == day
  {
    if MatchNamed(s, 4).Some? {
      var d, p, w, g, y := NamedRead(s, 4);
      MonthOfWhen(w, month);
    }
    if WrittenNamed(s, year, month, day) {
      var d, p, w, g, y :|
        IsNamedText(s, d, p, w, g, y, 4) && Value(y) == year && Spells(Lower(w), month) && Value(d) == day;
      NamedIsRead(s, d, p, w, g, y, 4);
      MonthOfWhen(w, month);
    }
  }

  /** The reader answers with a date exactly when the text is that date, written one
      of the three ways, and the date is on the calendar. */
  lemma {:induction false} ReadsWhen(s: string, x: Date)
    ensures ParseCellDate(s) == Some(x) <==>
            && IsDay(x) && InRange(x)
            && (WrittenIso(s, x.year, x.month, x.day) || WrittenDayFirst(s, x.year, x.month, x.day)
                || WrittenNamed(s, x.year, x.month, x.day))
  {
    OneShape(s, 4);
    if x.year >= 0 && x.month >= 0 && x.day >= 0 {
      IsoWhen(s, Fields(x.year, x.month, x.day));
      DayFirstWhen(s, Fields(x.year, x.month, x.day));
    }
    NamedWhen(s, x.year, x.month, x.day);
  }

  // ---- why one was not read ---------------------------------------------------------

  /** What each fault says of the parts. */
  ghost predicate IsFault(f: Fault, year: int, month: int, day: int, dayFirst: bool) {
    match f
    case NoMonth(swapped) => (month < 1 || month > 12) && (swapped <==> dayFirst && 1 <= day <= 12)
    case NoYear => 1 <= month <= 12 && year < 1
    case NoDay => 1 <= month <= 12 && year >= 1 && day < 1
    case ShorterMonth(days) => 1 <= month <= 12 && year >= 1 && day > days == MonthLength(year, month)
  }

  lemma {:induction false} FaultWhen(f: Fault, year: int, month: int, day: int, dayFirst: bool)
    ensures ImpossiblePart(year, month, day, dayFirst) == Some(f) <==> IsFault(f, year, month, day, dayFirst)
  {
  }

  /** A year is called short exactly when the text is a date but for its two digits. */
  lemma {:induction false} ShortYearWhen(s: string)
    ensures WhyNotADate(s) == TwoDigitYear <==>
            || (exists d, p, m, q, y :: IsDayFirstText(s, d, p, m, q, y, 2))
            || (exists d, p, w, g, y :: IsNamedText(s, d, p, w, g, y, 2))
  {
    if MatchDayFirst(s, 2).Some? {
      var d, p, m, q, y := DayFirstRead(s, 2);
    }
    if MatchNamed(s, 2).Some? {
      var d, p, w, g, y := NamedRead(s, 2);
    }
    if d, p, m, q, y :| IsDayFirstText(s, d, p, m, q, y, 2) {
      DayFirstIsRead(s, d, p, m, q, y, 2);
    }
    if d, p, w, g, y :| IsNamedText(s, d, p, w, g, y, 2) {
      NamedIsRead(s, d, p, w, g, y, 2);
    }
  }

  /** The text writes a date with that fault. */
  ghost predicate Faulty(s: string, f: Fault, year: int, month: int, day: int) {
    || (WrittenDayFirst(s, year, month, day) && IsFault(f, year, month, day, true))
    || (WrittenIso(s, year, month, day) && IsFault(f, year, month, day, false))
    || (WrittenNamed(s, year, month, day) && IsFault(f, year, month, day, false))
  }

  /** A part is blamed exactly when the text writes a date with that fault. */
  lemma {:induction false} BlamedWhen(s: string, f: Fault)
    ensures WhyNotADate(s) == Impossible(f) <==> exists year, month, day :: Faulty(s, f, year, month, day)
  {
    if WhyNotADate(s) == Impossible(f) {
      BlameIsTrue(s, f);
    }
    if year, month, day :| Faulty(s, f, year, month, day) {
      FaultIsBlamed(s, f, year, month, day);
    }
  }

  lemma {:induction false} FaultIsBlamed(s: string, f: Fault, year: int, month: int, day: int)
    requires Faulty(s, f, year, month, day)
    ensures WhyNotADate(s) == Impossible(f)
  {
    OneShape(s, 2);
    OneShape(s, 4);
    if WrittenDayFirst(s, year, month, day) && IsFault(f, year, month, day, true) {
      DayFirstWhen(s, Fields(year, month, day));
      FaultWhen(f, year, month, day, true);
    } else if WrittenIso(s, year, month, day) {
      IsoWhen(s, Fields(year, month, day));
      FaultWhen(f, year, month, day, false);
    } else {
      NamedWhen(s, year, month, day);
      FaultWhen(f, year, month, day, false);
    }
  }

  lemma {:induction false} BlameIsTrue(s: string, f: Fault)
    requires WhyNotADate(s) == Impossible(f)
    ensures exists year, month, day :: Faulty(s, f, year, month, day)
  {
    if MatchIso(s).Some? {
      var x := MatchIso(s).value;
      IsoWhen(s, x);
      FaultWhen(f, x.year, x.month, x.day, false);
      assert Faulty(s, f, x.year, x.month, x.day);
    } else if MatchDayFirst(s, 4).Some? {
      var x := MatchDayFirst(s, 4).value;
      DayFirstWhen(s, x);
      FaultWhen(f, x.year, x.month, x.day, true);
      assert Faulty(s, f, x.year, x.month, x.day);
    } else {
      var x := MatchNamed(s, 4).value;
      var month := MonthOf(x.word).value;
      NamedWhen(s, x.year, month, x.day);
      FaultWhen(f, x.year, month, x.day, false);
      assert Faulty(s, f, x.year, month, x.day);
    }
  }
}
