/** Strings as Python compares, strips and lower-cases them, and what every
    component shares: optional values and identifiers. */
module Text {

  datatype Option<+T> = None | Some(value: T)

  datatype Id = Id(text: string)

  /** Strings compare lexicographically, one code point at a time. */
  predicate Less(a: string, b: string) {
    b != [] && (a == [] || a[0] < b[0] || (a[0] == b[0] && Less(a[1..], b[1..])))
  }

  predicate AtMost(a: string, b: string) {
    !Less(b, a)
  }

  lemma {:induction false} LessIrreflexive(a: string)
    ensures !Less(a, a)
  {
    if a != [] {
      LessIrreflexive(a[1..]);
    }
  }

  lemma {:induction false} LessTransitive(a: string, b: string, c: string)
    requires Less(a, b) && Less(b, c)
    ensures Less(a, c)
  {
    if a != [] && a[0] == b[0] == c[0] {
      LessTransitive(a[1..], b[1..], c[1..]);
    }
  }

  lemma {:induction false} LessConnected(a: string, b: string)
    ensures a == b || Less(a, b) || Less(b, a)
  {
    if a != [] && b != [] && a[0] == b[0] {
      LessConnected(a[1..], b[1..]);
      assert a == [a[0]] + a[1..] && b == [b[0]] + b[1..];
    }
  }

  lemma {:induction false} AtMostTransitive(a: string, b: string, c: string)
    requires AtMost(a, b) && AtMost(b, c)
    ensures AtMost(a, c)
  {
    if Less(c, a) {
      LessConnected(a, b);
      if a != b {
        LessTransitive(c, a, b);
      }
    }
  }

  lemma {:induction false} AtMostIsTotal(a: string, b: string)
    ensures AtMost(a, b) || AtMost(b, a)
    ensures AtMost(a, b) && AtMost(b, a) ==> a == b
    ensures AtMost(a, a)
  {
    LessConnected(a, b);
    LessIrreflexive(a);
    if Less(a, b) && Less(b, a) {
      LessTransitive(a, b, a);
    }
  }

  /** Up to some place the two are alike, and there the one that comes first ends, or
      has the smaller code. */
  ghost predicate PartAt(a: string, b: string, k: nat) {
    && k <= |a| && k < |b| && a[..k] == b[..k]
    && (k == |a| || a[k] as int < b[k] as int)
  }

  lemma {:induction false} LessWhen(a: string, b: string)
    ensures Less(a, b) <==> exists k: nat :: PartAt(a, b, k)
  {
    if Less(a, b) {
      var k := LessParts(a, b);
    }
    if k: nat :| PartAt(a, b, k) {
      PartedIsLess(a, b, k);
    }
  }

  lemma {:induction false} LessParts(a: string, b: string) returns (k: nat)
    requires Less(a, b)
    ensures PartAt(a, b, k)
  {
    if a == [] || a[0] < b[0] {
      k := 0;
    } else {
      k := LessParts(a[1..], b[1..]);
      assert a[..k + 1] == [a[0]] + a[1..][..k] && b[..k + 1] == [b[0]] + b[1..][..k];
      k := k + 1;
    }
  }

  lemma {:induction false} PartedIsLess(a: string, b: string, k: nat)
    requires PartAt(a, b, k)
    ensures Less(a, b)
  {
    if k > 0 {
      assert a[0] == a[..k][0] == b[..k][0] == b[0];
      assert a[1..][..k - 1] == a[..k][1..] && b[1..][..k - 1] == b[..k][1..];
      PartedIsLess(a[1..], b[1..], k - 1);
    }
  }

  /** What Python's `strip` takes off: white space of every kind. */
  predicate Blank(c: char) {
    var n := c as int;
    || n == 0x20 || 0x09 <= n <= 0x0d || 0x1c <= n <= 0x1f || n == 0x85 || n == 0xa0 || n == 0x1680
    || 0x2000 <= n <= 0x200a || n == 0x2028 || n == 0x2029 || n == 0x202f || n == 0x205f || n == 0x3000
  }

  function StripLeft(s: string): string { if s != [] && Blank(s[0]) then StripLeft(s[1..]) else s }

  function StripRight(s: string): string { if s != [] && Blank(s[|s| - 1]) then StripRight(s[..|s| - 1]) else s }

  function Strip(s: string): string { StripRight(StripLeft(s)) }

  lemma {:induction false} StripFixed(s: string)
    requires s != [] ==> !Blank(s[0]) && !Blank(s[|s| - 1])
    ensures Strip(s) == s && StripLeft(s) == s
  {
  }

  /** The tab to the carriage return, the four separators, the blank, and the blanks
      of other scripts. */
  lemma {:induction false} BlankWhen(c: char)
    ensures Blank(c) <==>
            var n := c as int;
            || (n >= 9 && n <= 13) || (n >= 28 && n <= 32) || n == 133 || n == 160 || n == 5760
            || (n >= 8192 && n <= 8202) || n == 8232 || n == 8233 || n == 8239 || n == 8287 || n == 12288
  {
  }

  ghost predicate AllBlank(s: string) { forall i :: 0 <= i < |s| ==> Blank(s[i]) }

  /** Taken off the front: blanks, and all there are. */
  lemma {:induction false} BlanksTakenOff(s: string) returns (w: string)
    ensures AllBlank(w) && s == w + StripLeft(s)
    ensures StripLeft(s) != [] ==> !Blank(StripLeft(s)[0])
  {
    if s != [] && Blank(s[0]) {
      var v := BlanksTakenOff(s[1..]);
      w := [s[0]] + v;
    } else {
      w := [];
    }
  }

  lemma {:induction false} BlanksTakenOffEnd(s: string) returns (w: string)
    ensures AllBlank(w) && s == StripRight(s) + w
    ensures StripRight(s) != [] ==> !Blank(StripRight(s)[|StripRight(s)| - 1]) && StripRight(s)[0] == s[0]
  {
    if s != [] && Blank(s[|s| - 1]) {
      var v := BlanksTakenOffEnd(s[..|s| - 1]);
      w := v + [s[|s| - 1]];
    } else {
      w := [];
    }
  }

  /** A text is what `strip` leaves, between blanks; and what it leaves neither begins
      nor ends with one. */
  lemma {:induction false} StripIs(s: string) returns (before: string, behind: string)
    ensures AllBlank(before) && AllBlank(behind) && s == before + Strip(s) + behind
    ensures Strip(s) != [] ==> !Blank(Strip(s)[0]) && !Blank(Strip(s)[|Strip(s)| - 1])
  {
    before := BlanksTakenOff(s);
    behind := BlanksTakenOffEnd(StripLeft(s));
    assert s == before + (Strip(s) + behind);
  }

  /** Lower case, of ASCII letters. */
  function LowerChar(c: char): char { if 'A' <= c <= 'Z' then c - 'A' + 'a' else c }

  function Lower(s: string): string { seq(|s|, i requires 0 <= i < |s| => LowerChar(s[i])) }

  /** A capital's code goes up by thirty-two; nothing else changes. */
  lemma {:induction false} LowerIs(s: string, i: nat)
    requires i < |s|
    ensures |Lower(s)| == |s|
    ensures Lower(s)[i] as int == s[i] as int + (if 65 <= s[i] as int <= 90 then 32 else 0)
  {
  }

  /** `sorted` of a set of strings: each once, ascending. */
  ghost predicate InTextOrder(w: seq<string>) {
    forall i, j :: 0 <= i < j < |w| ==> Less(w[i], w[j])
  }

  /** Puts a value in its place, once. */
  function Include(v: string, w: seq<string>): seq<string> {
    if w == [] || Less(v, w[0]) then [v] + w
    else if v == w[0] then w
    else [w[0]] + Include(v, w[1..])
  }

  lemma {:induction false} IncludeKeepsOrder(v: string, w: seq<string>)
    requires InTextOrder(w)
    ensures InTextOrder(Include(v, w))
    ensures forall x :: x in Include(v, w) <==> x == v || x in w
  {
    if w == [] {
    } else if Less(v, w[0]) {
      forall j | 1 <= j < |w| ensures Less(v, w[j]) {
        LessTransitive(v, w[0], w[j]);
      }
    } else if v != w[0] {
      LessConnected(v, w[0]);
      var t := Include(v, w[1..]);
      IncludeKeepsOrder(v, w[1..]);
      assert w == [w[0]] + w[1..];
      forall j | 0 <= j < |t| ensures Less(w[0], t[j]) {
        assert t[j] in t;
        if t[j] != v {
          var k :| 0 <= k < |w[1..]| && w[1..][k] == t[j];
          assert Less(w[0], w[k + 1]);
        }
      }
    }
  }
}
