/** Decimal text: what `str` prints of a count, and what it reads as. */
module Decimal {

  function Digit(n: int): char
    requires 0 <= n <= 9
  {
    ['0', '1', '2', '3', '4', '5', '6', '7', '8', '9'][n]
  }

  predicate IsDigit(c: char) { '0' <= c <= '9' }

  predicate AllDigits(s: string) { forall i :: 0 <= i < |s| ==> IsDigit(s[i]) }

  function DigitValue(c: char): nat
    requires IsDigit(c)
  {
    c as int - '0' as int
  }

  lemma {:induction false} DigitCode(n: int)
    requires 0 <= n <= 9
    ensures Digit(n) as int == '0' as int + n == 48 + n
    ensures IsDigit(Digit(n)) && DigitValue(Digit(n)) == n
  {
  }

  lemma {:induction false} DigitWhen(c: char)
    ensures IsDigit(c) <==> exists n :: 0 <= n <= 9 && c == Digit(n)
  {
    if IsDigit(c) {
      DigitCode(c as int - 48);
    }
    if n :| 0 <= n <= 9 && c == Digit(n) {
      DigitCode(n);
    }
  }

  lemma {:induction false} DigitOrder(m: int, n: int)
    requires 0 <= m <= 9 && 0 <= n <= 9
    ensures Digit(m) < Digit(n) <==> m < n
    ensures Digit(m) == Digit(n) <==> m == n
  {
    DigitCode(m);
    DigitCode(n);
  }

  /** The decimal digits of a count, no leading zero but for nought itself. */
  function Digits(n: nat): (s: string)
    ensures s != [] && AllDigits(s)
  {
    DigitCode(n % 10);
    if n < 10 then [Digit(n)] else Digits(n / 10) + [Digit(n % 10)]
  }

  function Value(s: string): nat
    requires AllDigits(s)
  {
    if s == [] then 0 else 10 * Value(s[..|s| - 1]) + DigitValue(s[|s| - 1])
  }

  lemma {:induction false} ValueOfDigits(n: nat)
    ensures Value(Digits(n)) == n
    ensures n > 0 ==> Digits(n)[0] != '0'
  {
    DigitCode(n % 10);
    if n >= 10 {
      ValueOfDigits(n / 10);
      assert Digits(n)[..|Digits(n)| - 1] == Digits(n / 10);
    } else {
      assert Digits(n)[..0] == [];
      assert Value([]) == 0;
    }
  }

  function Zeros(k: nat): (s: string)
    ensures |s| == k && AllDigits(s)
  {
    if k == 0 then [] else ['0'] + Zeros(k - 1)
  }

  /** Filled on the left with noughts to `width`, as `:0{width}d` does. */
  function Padded(s: string, width: nat): string {
    if |s| >= width then s else Zeros(width - |s|) + s
  }

  lemma {:induction false} ZerosAddNothing(k: nat, s: string)
    requires AllDigits(s)
    ensures AllDigits(Zeros(k) + s) && Value(Zeros(k) + s) == Value(s)
    decreases k + |s|
  {
    if s == [] {
      assert Zeros(k) + s == Zeros(k);
      ZerosAreNought(k);
    } else {
      ZerosAddNothing(k, s[..|s| - 1]);
      assert (Zeros(k) + s)[..k + |s| - 1] == Zeros(k) + s[..|s| - 1];
    }
  }

  lemma {:induction false} ZerosAreNought(k: nat)
    ensures Value(Zeros(k)) == 0
  {
    if k > 0 {
      ZerosAreNought(k - 1);
      assert Zeros(k)[..k - 1] == Zeros(k - 1) by {
        ZerosAre(k);
        ZerosAre(k - 1);
      }
      ZerosAre(k);
    }
  }

  lemma {:induction false} ZerosAre(k: nat)
    ensures forall i :: 0 <= i < k ==> Zeros(k)[i] == '0'
  {
    if k > 0 {
      ZerosAre(k - 1);
    }
  }

  function Pow10(k: nat): (p: nat)
    ensures p >= 1
  {
    if k == 0 then 1 else 10 * Pow10(k - 1)
  }

  /** A count below a power of ten prints within as many digits. */
  lemma {:induction false} DigitsFit(n: nat, k: nat)
    requires n < Pow10(k) && k > 0
    ensures |Digits(n)| <= k
  {
    if n >= 10 {
      assert n / 10 < Pow10(k - 1);
      DigitsFit(n / 10, k - 1);
    }
  }

  /** Whole parts and what is over, for any positive divisor. */
  function Whole(m: nat, p: nat): nat
    requires p > 0
  {
    m / p
  }

  function Over(m: nat, p: nat): (r: nat)
    requires p > 0
    ensures r < p && m == Whole(m, p) * p + r
  {
    assert m == p * (m / p) + m % p;
    m % p
  }

  /** Digits put after digits. */
  lemma {:induction false} ValueOfJoin(w: string, d: string)
    requires AllDigits(w) && AllDigits(d)
    ensures AllDigits(w + d) && Value(w + d) == Value(w) * Pow10(|d|) + Value(d)
  {
    if d == [] {
      assert w + d == w;
    } else {
      var e := d[..|d| - 1];
      ValueOfJoin(w, e);
      assert (w + d)[..|w + d| - 1] == w + e;
      assert Value(w + d) == 10 * (Value(w) * Pow10(|e|) + Value(e)) + DigitValue(d[|d| - 1]);
      TenTimes(Value(w), Pow10(|e|));
    }
  }

  lemma {:induction false} TenTimes(a: nat, p: nat)
    ensures 10 * (a * p) == a * (10 * p)
  {
  }
}
