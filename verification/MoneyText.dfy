/** How an amount is written for a person to read (apps/api/domain/money_text.py). */
module MoneyText {
  import opened Decimal
  import opened Text

  // ---- grouping ---------------------------------------------------------------------

  /** Twos, counted from the right. */
  function Twos(s: string): string {
    if |s| <= 2 then s else Twos(s[..|s| - 2]) + "," + s[|s| - 2..]
  }

  /** The last three digits, then twos. */
  function Grouped(s: string): string {
    if |s| <= 3 then s else Twos(s[..|s| - 3]) + "," + s[|s| - 3..]
  }

  function Join(groups: seq<string>): string {
    if groups == [] then [] else if |groups| == 1 then groups[0] else groups[0] + "," + Join(groups[1..])
  }

  function Reverse(groups: seq<string>): seq<string> {
    if groups == [] then [] else [groups[|groups| - 1]] + Reverse(groups[..|groups| - 1])
  }

  /** What has been cut off so far, put back behind what is left. */
  function Tail(groups: seq<string>): string {
    if groups == [] then [] else "," + Join(Reverse(groups))
  }

  lemma {:induction false} CutOne(groups: seq<string>, g: string)
    ensures Join(Reverse(groups + [g])) == g + Tail(groups)
  {
    assert (groups + [g])[..|groups|] == groups;
    assert Reverse(groups + [g]) == [g] + Reverse(groups);
    if groups == [] {
      assert g + [] == g;
    } else {
      assert ([g] + Reverse(groups))[1..] == Reverse(groups);
    }
  }

  lemma {:induction false} CutMore(rest: string, groups: seq<string>)
    requires |rest| > 2
    ensures Twos(rest) + Tail(groups) == Twos(rest[..|rest| - 2]) + Tail(groups + [rest[|rest| - 2..]])
  {
    CutOne(groups, rest[|rest| - 2..]);
  }

  method GroupIndian(digits: string) returns (text: string)
    ensures text == Grouped(digits)
  {
    if |digits| <= 3 {
      return digits;
    }
    var last3, rest := digits[|digits| - 3..], digits[..|digits| - 3];
    ghost var all := rest;
    var groups: seq<string> := [];
    assert Twos(rest) + [] == Twos(rest);
    while |rest| > 2
      invariant rest != [] && Twos(all) == Twos(rest) + Tail(groups)
    {
      CutMore(rest, groups);
      groups := groups + [rest[|rest| - 2..]];
      rest := rest[..|rest| - 2];
    }
    if rest != [] {
      CutOne(groups, rest);
      groups := groups + [rest];
    }
    text := Join(Reverse(groups)) + "," + last3;
  }

  lemma {:induction false} FromTheRight(a: string, b: string, k: nat)
    requires k < |a| + |b|
    ensures (a + b)[|a + b| - 1 - k] == if k < |b| then b[|b| - 1 - k] else a[|a| - 1 - (k - |b|)]
  {
  }

  /** Read from the right the commas stand after three digits and then after
      every two: at every third place but the first. Nothing else is a comma. */
  lemma {:induction false} CommasStand(s: string, k: nat)
    requires AllDigits(s) && k < |Grouped(s)|
    ensures var t := Grouped(s); t[|t| - 1 - k] == ',' <==> k >= 3 && k % 3 == 0
  {
    if |s| > 3 {
      var twos := Twos(s[..|s| - 3]);
      FromTheRight(twos + ",", s[|s| - 3..], k);
      if k >= 3 {
        FromTheRight(twos, ",", k - 3);
        if k > 3 {
          TwosStand(s[..|s| - 3], k - 4);
        }
      }
    }
  }

  lemma {:induction false} TwosStand(s: string, k: nat)
    requires AllDigits(s) && k < |Twos(s)|
    ensures var t := Twos(s); t[|t| - 1 - k] == ',' <==> k % 3 == 2
  {
    if |s| > 2 {
      var twos := Twos(s[..|s| - 2]);
      FromTheRight(twos + ",", s[|s| - 2..], k);
      if k >= 2 {
        FromTheRight(twos, ",", k - 2);
        if k > 2 {
          TwosStand(s[..|s| - 2], k - 3);
        }
      }
    }
  }

  function DropCommas(s: string): string {
    if s == [] then [] else (if s[0] == ',' then [] else [s[0]]) + DropCommas(s[1..])
  }

  lemma {:induction false} DropJoins(a: string, b: string)
    ensures DropCommas(a + b) == DropCommas(a) + DropCommas(b)
  {
    if a == [] {
      assert a + b == b;
    } else {
      assert (a + b)[1..] == a[1..] + b;
      DropJoins(a[1..], b);
    }
  }

  lemma {:induction false} DropNothing(s: string)
    requires forall i :: 0 <= i < |s| ==> s[i] != ','
    ensures DropCommas(s) == s
  {
    if s != [] {
      DropNothing(s[1..]);
    }
  }

  lemma {:induction false} DropAround(a: string, g: string)
    requires AllDigits(g)
    ensures DropCommas(a + "," + g) == DropCommas(a) + g
  {
    DropNothing(g);
    DropJoins(a + ",", g);
    DropJoins(a, ",");
    assert DropCommas(",") == [];
    assert DropCommas(a) + [] == DropCommas(a);
  }

  lemma {:induction false} DropFromTwos(s: string)
    requires AllDigits(s)
    ensures DropCommas(Twos(s)) == s
  {
    if |s| <= 2 {
      DropNothing(s);
    } else {
      var rest, g := s[..|s| - 2], s[|s| - 2..];
      DropFromTwos(rest);
      DropAround(Twos(rest), g);
      assert Twos(s) == Twos(rest) + "," + g;
      assert rest + g == s;
    }
  }

  /** Dropping the commas gives the digits back, all of them, in order. */
  lemma {:induction false} GroupingLosesNothing(s: string)
    requires AllDigits(s)
    ensures DropCommas(Grouped(s)) == s
  {
    if |s| <= 3 {
      DropNothing(s);
    } else {
      var rest, g := s[..|s| - 3], s[|s| - 3..];
      DropFromTwos(rest);
      DropAround(Twos(rest), g);
      assert rest + g == s;
    }
  }

  // ---- amounts ----------------------------------------------------------------------

  function Magnitude(p: int): nat { if p < 0 then -p else p }

  function Sign(negative: bool): string { if negative then "-" else "" }

  function MagnitudeText(m: nat, unit: nat): string {
    if unit == 0 then Grouped(Digits(m))
    else Grouped(Digits(Whole(m, Pow10(unit)))) + "." + Padded(Digits(Over(m, Pow10(unit))), unit)
  }

  /** `amount` minor units of a currency with `unit` decimals; a missing amount is nil. */
  function MinorUnitsText(amount: Option<int>, unit: int): string {
    var value := if amount.Some? then amount.value else 0;
    Sign(value < 0) + MagnitudeText(Magnitude(value), if unit < 0 then 0 else unit)
  }

  function RupeesPaise(paise: Option<int>): string {
    var p := if paise.Some? then paise.value else 0;
    var m := Magnitude(p);
    Sign(p < 0) + (Grouped(Digits(m / 100)) + "." + Padded(Digits(m % 100), 2))
  }

  function WholeRupees(paise: Option<int>): string {
    var p := if paise.Some? then paise.value else 0;
    var whole := Magnitude(p) / 100;
    Sign(p < 0 && whole != 0) + Grouped(Digits(whole))
  }

  /** A reader: a minus sign if there is one, the digits before the point with
      their commas dropped, and `unit` decimals after it. */
  function ReadAmount(s: string, unit: nat): Option<int> {
    if s != [] && s[0] == '-' then
      var r := ReadMagnitude(s[1..], unit);
      if r.Some? then Some(-r.value) else None
    else ReadMagnitude(s, unit)
  }

  function ReadMagnitude(s: string, unit: nat): Option<int> {
    var cut := if unit == 0 then |s| else |s| - unit - 1;
    if cut < 0 || (unit > 0 && s[cut] != '.') then None
    else
      var whole, decimals := DropCommas(s[..cut]), if unit == 0 then [] else s[cut + 1..];
      if AllDigits(whole) && AllDigits(decimals) then Some(Value(whole + decimals)) else None
  }

  lemma {:induction false} ReadsGrouped(s: string)
    requires AllDigits(s)
    ensures ReadMagnitude(Grouped(s), 0) == Some(Value(s))
  {
    var t := Grouped(s);
    GroupingLosesNothing(s);
    assert t[..|t|] == t && s + [] == s;
  }

  lemma {:induction false} ReadsWhole(m: nat)
    ensures ReadMagnitude(Grouped(Digits(m)), 0) == Some(m)
    ensures Grouped(Digits(m)) != [] && Grouped(Digits(m))[0] != '-'
  {
    ReadsGrouped(Digits(m));
    ValueOfDigits(m);
    GroupedIsPlain(Digits(m));
  }

  lemma {:induction false} GroupedIsPlain(s: string)
    requires AllDigits(s) && s != []
    ensures Grouped(s) != [] && Grouped(s)[0] != '-'
  {
    if |s| > 3 {
      TwosArePlain(s[..|s| - 3]);
    }
  }

  lemma {:induction false} TwosArePlain(s: string)
    requires AllDigits(s) && s != []
    ensures Twos(s) != [] && Twos(s)[0] != '-'
  {
    if |s| > 2 {
      TwosArePlain(s[..|s| - 2]);
    }
  }

  lemma {:induction false} PaddedReads(n: nat, unit: nat)
    requires unit > 0 && n < Pow10(unit)
    ensures var d := Padded(Digits(n), unit); |d| == unit && AllDigits(d) && Value(d) == n
  {
    DigitsFit(n, unit);
    ValueOfDigits(n);
    PaddedIs(Digits(n), unit);
  }

  lemma {:induction false} PaddedIs(s: string, unit: nat)
    requires AllDigits(s) && |s| <= unit
    ensures var d := Padded(s, unit); |d| == unit && AllDigits(d) && Value(d) == Value(s)
  {
    if |s| < unit {
      ZerosAddNothing(unit - |s|, s);
    }
  }

  lemma {:induction false} CutAtPoint(w: string, d: string)
    ensures var t := w + "." + d; |t| == |w| + 1 + |d| && t[|w|] == '.' && t[..|w|] == w && t[|w| + 1..] == d
  {
  }

  lemma {:induction false} ReadsCut(w: string, d: string, unit: nat)
    requires unit > 0 && |d| == unit && AllDigits(d) && AllDigits(DropCommas(w))
    ensures ReadMagnitude(w + "." + d, unit) == Some(Value(DropCommas(w) + d))
  {
    CutAtPoint(w, d);
  }

  lemma {:induction false} ReadsSplit(m: nat, unit: nat)
    requires unit > 0
    ensures ReadMagnitude(MagnitudeText(m, unit), unit) == Some(m)
  {
    var p := Pow10(unit);
    var w, d := Digits(Whole(m, p)), Padded(Digits(Over(m, p)), unit);
    PaddedReads(Over(m, p), unit);
    GroupingLosesNothing(w);
    ValueOfDigits(Whole(m, p));
    ReadsCut(Grouped(w), d, unit);
    ValueOfJoin(w, d);
  }

  lemma {:induction false} ReadsSigned(negative: bool, t: string, unit: nat)
    requires t != [] && t[0] != '-' && ReadMagnitude(t, unit).Some?
    ensures ReadAmount(Sign(negative) + t, unit) ==
            Some(if negative then -ReadMagnitude(t, unit).value else ReadMagnitude(t, unit).value)
  {
    if negative {
      assert ("-" + t)[1..] == t;
    } else {
      assert "" + t == t;
    }
  }

  lemma {:induction false} MagnitudeReadsBack(m: nat, unit: nat)
    ensures var t := MagnitudeText(m, unit); t != [] && t[0] != '-' && ReadMagnitude(t, unit) == Some(m)
  {
    if unit == 0 {
      ReadsWhole(m);
    } else {
      ReadsSplit(m, unit);
      GroupedIsPlain(Digits(Whole(m, Pow10(unit))));
    }
  }

  lemma {:induction false} SignedReadsBack(amount: int, t: string, unit: nat)
    requires t != [] && t[0] != '-' && ReadMagnitude(t, unit) == Some(Magnitude(amount))
    ensures ReadAmount(Sign(amount < 0) + t, unit) == Some(amount)
  {
    ReadsSigned(amount < 0, t, unit);
  }

  lemma {:induction false} TwosHaveNoPoint(s: string)
    requires AllDigits(s)
    ensures '.' !in Twos(s)
  {
    if |s| > 2 {
      TwosHaveNoPoint(s[..|s| - 2]);
    }
  }

  lemma {:induction false} GroupedHasNoPoint(s: string)
    requires AllDigits(s)
    ensures '.' !in Grouped(s)
  {
    if |s| > 3 {
      TwosHaveNoPoint(s[..|s| - 3]);
    }
  }

  /** A missing amount is nil; a point is printed exactly for a currency that has
      decimals, and then as many digits follow it as the currency has. */
  lemma {:induction false} NilAndPoint(amount: int, unit: int)
    ensures MinorUnitsText(None, unit) == MinorUnitsText(Some(0), unit)
    ensures '.' in MinorUnitsText(Some(amount), unit) <==> unit > 0
    ensures unit > 0 ==> var t := MinorUnitsText(Some(amount), unit); |t| > unit && t[|t| - unit - 1] == '.'
  {
    if unit <= 0 {
      GroupedHasNoPoint(Digits(Magnitude(amount)));
    } else {
      PointPlaced(amount, unit);
    }
  }

  lemma {:induction false} PointPlaced(amount: int, unit: nat)
    requires unit > 0
    ensures var t := MinorUnitsText(Some(amount), unit); |t| > unit && t[|t| - unit - 1] == '.' && '.' in t
  {
    var m := Magnitude(amount);
    var w, d := Grouped(Digits(Whole(m, Pow10(unit)))), Padded(Digits(Over(m, Pow10(unit))), unit);
    PaddedReads(Over(m, Pow10(unit)), unit);
    PointAfterSign(Sign(amount < 0), w, d, MinorUnitsText(Some(amount), unit));
  }

  lemma {:induction false} PointAfterSign(sign: string, w: string, d: string, t: string)
    requires t == sign + (w + "." + d)
    ensures |t| > |d| && t[|t| - |d| - 1] == '.' && '.' in t
  {
    assert t == sign + w + "." + d;
    LastPoint(sign + w, d);
  }

  lemma {:induction false} LastPoint(w: string, d: string)
    ensures var t := w + "." + d; |t| > |d| && t[|t| - |d| - 1] == '.' && '.' in t
  {
    var t := w + "." + d;
    assert t[|t| - |d| - 1] == '.';
  }

  /** Nothing of an amount is lost in print, whatever its sign and however many
      decimals its currency has. */
  lemma {:induction false} MinorUnitsReadBack(amount: int, unit: nat)
    ensures ReadAmount(MinorUnitsText(Some(amount), unit), unit) == Some(amount)
  {
    var t := MagnitudeText(Magnitude(amount), unit);
    MagnitudeReadsBack(Magnitude(amount), unit);
    SignedReadsBack(amount, t, unit);
    assert MinorUnitsText(Some(amount), unit) == Sign(amount < 0) + t;
  }

  /** Rupees and paise are the two-decimal case, for every integer. */
  lemma {:induction false} PaiseReadBack(p: int)
    ensures RupeesPaise(Some(p)) == MinorUnitsText(Some(p), 2)
    ensures ReadAmount(RupeesPaise(Some(p)), 2) == Some(p)
    ensures RupeesPaise(None) == RupeesPaise(Some(0))
  {
    assert Pow10(2) == 100 by {
      assert Pow10(1) == 10;
    }
    MinorUnitsReadBack(p, 2);
  }

  /** Two amounts print alike only if they are equal. */
  lemma {:induction false} PaiseAreTold(p: int, q: int)
    requires RupeesPaise(Some(p)) == RupeesPaise(Some(q))
    ensures p == q
  {
    PaiseReadBack(p);
    PaiseReadBack(q);
  }

  /** Whole rupees are cut toward nil: what is read back is the whole part of the
      magnitude under the amount's own sign, and a minus stands only before a
      whole rupee or more. */
  lemma {:induction false} WholeRupeesCutTowardNil(p: int)
    ensures ReadAmount(WholeRupees(Some(p)), 0) == Some(if p < 0 then -(-p / 100) else p / 100)
    ensures WholeRupees(None) == WholeRupees(Some(0))
    ensures WholeRupees(Some(p)) != [] && (WholeRupees(Some(p))[0] == '-' <==> p <= -100)
  {
    var whole := Magnitude(p) / 100;
    var t := Grouped(Digits(whole));
    ReadsWhole(whole);
    SignedReadsBack(if p < 0 then -whole else whole, t, 0);
    assert p < 0 && whole != 0 <==> p <= -100;
    SignFirst(p <= -100, t);
    assert WholeRupees(Some(p)) == Sign(p <= -100) + t;
  }

  lemma {:induction false} SignFirst(negative: bool, t: string)
    requires t != [] && t[0] != '-'
    ensures Sign(negative) + t != [] && ((Sign(negative) + t)[0] == '-' <==> negative)
  {
  }
}
