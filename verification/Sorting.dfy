/** Stable sorting, the meaning of Python's `sorted` and `list.sort` with a key:
    what every report and every eviction in this project is put in order by. */
module Sorting {

  /** `le` compares the sort keys of two elements: total and transitive. */
  ghost predicate Preorder<T(!new)>(le: (T, T) -> bool) {
    && (forall x, y :: le(x, y) || le(y, x))
    && (forall x, y, z :: le(x, y) && le(y, z) ==> le(x, z))
  }

  ghost predicate Distinct<T>(s: seq<T>) { forall i, j :: 0 <= i < j < |s| ==> s[i] != s[j] }

  /** A list without repeats is as long as the set of what is in it. */
  lemma {:induction false} DistinctCount<T>(s: seq<T>, elements: set<T>)
    requires Distinct(s) && forall x :: x in s <==> x in elements
    ensures |s| == |elements|
  {
    if s != [] {
      var n := |s| - 1;
      var front := s[..n];
      forall x ensures x in front <==> x in elements - {s[n]} {
        assert x in s <==> x in front || x == s[n];
      }
      DistinctCount(front, elements - {s[n]});
    } else {
      assert elements == {};
    }
  }

  lemma {:induction false} TwiceCounts<T>(s: seq<T>, i: nat, j: nat)
    requires i < j < |s| && s[i] == s[j]
    ensures multiset(s)[s[i]] >= 2
  {
    assert s == s[..j] + s[j..] && s[..j][i] == s[i] && s[j..][0] == s[i];
    assert multiset(s) == multiset(s[..j]) + multiset(s[j..]);
    assert s[i] in multiset(s[..j]) && s[i] in multiset(s[j..]);
  }

  lemma {:induction false} OnceCounts<T>(s: seq<T>, x: T)
    requires Distinct(s)
    ensures multiset(s)[x] <= 1
  {
    if s != [] {
      var n := |s| - 1;
      OnceCounts(s[..n], x);
      assert s == s[..n] + [s[n]];
      if s[n] == x {
        assert x !in s[..n];
        assert x !in multiset(s[..n]);
      }
    }
  }

  /** Another arrangement of elements that do not repeat does not repeat either. */
  lemma {:induction false} DistinctStays<T>(a: seq<T>, b: seq<T>)
    requires Distinct(a) && multiset(a) == multiset(b)
    ensures Distinct(b)
  {
    forall i, j | 0 <= i < j < |b| ensures b[i] != b[j] {
      if b[i] == b[j] {
        TwiceCounts(b, i, j);
        OnceCounts(a, b[i]);
        assert false;
      }
    }
  }

  ghost predicate Sorted<T>(s: seq<T>, le: (T, T) -> bool) {
    forall i, j :: 0 <= i < j < |s| ==> le(s[i], s[j])
  }

  function Insert<T>(x: T, s: seq<T>, le: (T, T) -> bool): seq<T> {
    if s == [] || le(x, s[0]) then [x] + s else [s[0]] + Insert(x, s[1..], le)
  }

  function Sort<T>(s: seq<T>, le: (T, T) -> bool): seq<T> {
    if s == [] then [] else Insert(s[0], Sort(s[1..], le), le)
  }

  /** Whether `x` ties with `y`, as the piece of a list it makes. */
  function Tied<T>(x: T, y: T, le: (T, T) -> bool): seq<T> {
    if le(x, y) && le(y, x) then [x] else []
  }

  /** The elements of `s` whose key ties with that of `x`, in their order. */
  function Ties<T>(s: seq<T>, x: T, le: (T, T) -> bool): seq<T> {
    if s == [] then []
    else Tied(s[0], x, le) + Ties(s[1..], x, le)
  }

  /** `r` is `s` put in order: the same elements, ascending, ties as they came.
      At most one sequence is (`StableIsUnique`). */
  ghost predicate StableOrder<T(!new)>(r: seq<T>, s: seq<T>, le: (T, T) -> bool) {
    && multiset(r) == multiset(s)
    && Sorted(r, le)
    && forall x :: Ties(r, x, le) == Ties(s, x, le)
  }

  lemma {:induction false} InsertElements<T>(x: T, s: seq<T>, le: (T, T) -> bool)
    ensures multiset(Insert(x, s, le)) == multiset(s) + multiset{x}
  {
    if s != [] && !le(x, s[0]) {
      InsertElements(x, s[1..], le);
      assert s == [s[0]] + s[1..];
    }
  }

  lemma {:induction false} SortElements<T>(s: seq<T>, le: (T, T) -> bool)
    ensures multiset(Sort(s, le)) == multiset(s)
  {
    if s != [] {
      SortElements(s[1..], le);
      InsertElements(s[0], Sort(s[1..], le), le);
      assert s == [s[0]] + s[1..];
    }
  }

  lemma {:induction false} SameElements<T>(a: seq<T>, b: seq<T>)
    requires multiset(a) == multiset(b)
    ensures |a| == |b|
    ensures forall x :: x in a <==> x in b
  {
    assert |multiset(a)| == |a| && |multiset(b)| == |b|;
    forall x ensures x in a <==> x in b {
      assert x in a <==> x in multiset(a);
      assert x in b <==> x in multiset(b);
    }
  }

  lemma {:induction false} MultisetOfJoin<T>(a: seq<T>, b: seq<T>)
    ensures multiset(a + b) == multiset(a) + multiset(b)
  {
  }

  lemma {:induction false} MultisetWithout<T>(s: seq<T>, left: seq<T>, x: T, right: seq<T>)
    requires s == left + ([x] + right)
    ensures multiset(s) == multiset(left + right) + multiset{x}
  {
    MultisetOfJoin(left, [x] + right);
    MultisetOfJoin([x], right);
    MultisetOfJoin(left, right);
  }

  /** Two arrangements of the same elements stay so when each loses the same one. */
  lemma {:induction false} WithoutOne<T>(a: seq<T>, b: seq<T>, k: nat)
    requires a != [] && multiset(a) == multiset(b) && k < |b| && b[k] == a[|a| - 1]
    ensures multiset(a[..|a| - 1]) == multiset(b[..k] + b[k + 1..])
  {
    var x, front, left, right := b[k], a[..|a| - 1], b[..k], b[k + 1..];
    assert front + [] == front;
    MultisetWithout(a, front, x, []);
    MultisetWithout(b, left, x, right);
    Cancelled(multiset(front), multiset(left + right), multiset{x});
  }

  lemma {:induction false} Cancelled<T>(m: multiset<T>, n: multiset<T>, x: multiset<T>)
    requires m + x == n + x
    ensures m == n
  {
    assert m == (m + x) - x && n == (n + x) - x;
  }

  lemma {:induction false} Prepend<T>(x: T, s: seq<T>, le: (T, T) -> bool)
    requires Sorted(s, le) && forall y :: y in s ==> le(x, y)
    ensures Sorted([x] + s, le)
  {
    forall i, j | 0 <= i < j < |s| + 1 ensures le(([x] + s)[i], ([x] + s)[j]) {
      assert s[j - 1] in s;
    }
  }

  lemma {:induction false} HeadIsLeast<T(!new)>(x: T, s: seq<T>, le: (T, T) -> bool)
    requires Preorder(le) && Sorted(s, le) && (s != [] ==> le(x, s[0]))
    ensures forall y :: y in s ==> le(x, y)
  {
    forall y | y in s ensures le(x, y) {
      var k :| 0 <= k < |s| && s[k] == y;
      assert k > 0 ==> le(s[0], s[k]);
    }
  }

  lemma {:induction false} HeadIsLeastBehind<T(!new)>(x: T, s: seq<T>, le: (T, T) -> bool)
    requires Preorder(le) && Sorted(s, le) && s != [] && !le(x, s[0])
    ensures forall y :: y in Insert(x, s[1..], le) ==> le(s[0], y)
  {
    var t := Insert(x, s[1..], le);
    InsertElements(x, s[1..], le);
    SameElements(t, [x] + s[1..]);
    HeadIsLeast(s[0], s, le);
    forall y | y in t ensures le(s[0], y) {
      assert y == x || y in s[1..];
    }
  }

  lemma {:induction false} InsertSorted<T(!new)>(x: T, s: seq<T>, le: (T, T) -> bool)
    requires Preorder(le) && Sorted(s, le)
    ensures Sorted(Insert(x, s, le), le)
  {
    if s == [] {
    } else if le(x, s[0]) {
      HeadIsLeast(x, s, le);
      Prepend(x, s, le);
    } else {
      InsertSorted(x, s[1..], le);
      HeadIsLeastBehind(x, s, le);
      Prepend(s[0], Insert(x, s[1..], le), le);
    }
  }

  /** The result is in key order. */
  lemma {:induction false} SortSorts<T(!new)>(s: seq<T>, le: (T, T) -> bool)
    requires Preorder(le)
    ensures Sorted(Sort(s, le), le)
  {
    if s != [] {
      SortSorts(s[1..], le);
      InsertSorted(s[0], Sort(s[1..], le), le);
    }
  }

  /** Two elements that tie with a third tie with each other. */
  lemma {:induction false} TiesShare<T(!new)>(x: T, z: T, y: T, le: (T, T) -> bool)
    requires Preorder(le) && !le(x, z)
    ensures !(le(x, y) && le(y, x) && le(z, y) && le(y, z))
  {
  }

  lemma {:induction false} TiesOfCons<T>(x: T, s: seq<T>, y: T, le: (T, T) -> bool)
    ensures Ties([x] + s, y, le) == Tied(x, y, le) + Ties(s, y, le)
  {
    assert ([x] + s)[1..] == s;
  }

  /** Of two elements that do not tie, at most one ties with a third. */
  lemma {:induction false} TiedApart<T(!new)>(x: T, z: T, y: T, le: (T, T) -> bool, rest: seq<T>)
    requires Preorder(le) && !le(x, z)
    ensures Tied(z, y, le) + (Tied(x, y, le) + rest) == Tied(x, y, le) + (Tied(z, y, le) + rest)
  {
    TiesShare(x, z, y, le);
    assert [] + rest == rest;
    assert [] + (Tied(x, y, le) + rest) == Tied(x, y, le) + rest
           && [] + (Tied(z, y, le) + rest) == Tied(z, y, le) + rest;
  }

  lemma {:induction false} InsertTies<T(!new)>(x: T, s: seq<T>, y: T, le: (T, T) -> bool)
    requires Preorder(le)
    ensures Ties(Insert(x, s, le), y, le) == Tied(x, y, le) + Ties(s, y, le)
  {
    if s == [] || le(x, s[0]) {
      TiesOfCons(x, s, y, le);
    } else {
      InsertTies(x, s[1..], y, le);
      TiesOfCons(s[0], Insert(x, s[1..], le), y, le);
      TiedApart(x, s[0], y, le, Ties(s[1..], y, le));
    }
  }

  /** The sort is stable: elements that tie keep the order they came in. */
  lemma {:induction false} SortIsStable<T(!new)>(s: seq<T>, y: T, le: (T, T) -> bool)
    requires Preorder(le)
    ensures Ties(Sort(s, le), y, le) == Ties(s, y, le)
  {
    if s != [] {
      SortIsStable(s[1..], y, le);
      InsertTies(s[0], Sort(s[1..], le), y, le);
    }
  }

  /** With no two distinct elements tied there is only one sorted arrangement. */
  lemma {:induction false} SortedIsUnique<T>(a: seq<T>, b: seq<T>, le: (T, T) -> bool)
    requires multiset(a) == multiset(b) && Sorted(a, le) && Sorted(b, le)
    requires forall x, y :: x in a && y in a && le(x, y) && le(y, x) ==> x == y
    ensures a == b
  {
    SameElements(a, b);
    if a != [] {
      var n := |a| - 1;
      assert a[n] in b && b[n] in a;
      var i :| 0 <= i < |b| && b[i] == a[n];
      var j :| 0 <= j < |a| && a[j] == b[n];
      assert (i == n || le(b[i], b[n])) && (j == n || le(a[j], a[n]));
      assert a[n] == b[n];
      WithoutOne(a, b, n);
      assert b[..n] + b[n + 1..] == b[..n];
      assert forall x :: x in a[..n] ==> x in a;
      SortedIsUnique(a[..n], b[..n], le);
      assert a == a[..n] + [a[n]] && b == b[..n] + [b[n]];
    }
  }

  lemma {:induction false} HeadsTie<T(!new)>(a: seq<T>, b: seq<T>, le: (T, T) -> bool)
    requires Preorder(le) && multiset(a) == multiset(b) && Sorted(a, le) && Sorted(b, le) && a != []
    ensures b != [] && le(a[0], b[0])
  {
    SameElements(a, b);
    assert b[0] in b;
    var i :| 0 <= i < |a| && a[i] == b[0];
    assert le(a[0], a[0]);
    assert i > 0 ==> le(a[0], a[i]);
  }

  lemma {:induction false} WithoutHead<T>(s: seq<T>)
    requires s != []
    ensures multiset(s) == multiset(s[1..]) + multiset{s[0]}
  {
    assert s == [s[0]] + s[1..];
  }

  lemma {:induction false} TiesOfTail<T>(s: seq<T>, x: T, le: (T, T) -> bool)
    requires s != []
    ensures Ties(s[1..], x, le) == Ties(s, x, le)[|Tied(s[0], x, le)|..]
  {
  }

  /** A stable order has one solution: two arrangements of the same elements that
      are sorted and leave ties in the same order are one arrangement. */
  lemma {:induction false} StableIsUnique<T(!new)>(a: seq<T>, b: seq<T>, s: seq<T>, le: (T, T) -> bool)
    requires Preorder(le) && StableOrder(a, s, le) && StableOrder(b, s, le)
    ensures a == b
  {
    TiesDecide(a, b, le);
  }

  lemma {:induction false} TiesDecide<T(!new)>(a: seq<T>, b: seq<T>, le: (T, T) -> bool)
    requires Preorder(le) && multiset(a) == multiset(b) && Sorted(a, le) && Sorted(b, le)
    requires forall x :: Ties(a, x, le) == Ties(b, x, le)
    ensures a == b
  {
    if a == [] {
      SameElements(a, b);
    } else {
      HeadsTie(a, b, le);
      HeadsTie(b, a, le);
      var x := a[0];
      assert Ties(a, x, le)[0] == x && Ties(b, x, le)[0] == b[0];
      WithoutHead(a);
      WithoutHead(b);
      Cancelled(multiset(a[1..]), multiset(b[1..]), multiset{x});
      forall y ensures Ties(a[1..], y, le) == Ties(b[1..], y, le) {
        TiesOfTail(a, y, le);
        TiesOfTail(b, y, le);
      }
      assert Sorted(a[1..], le) && Sorted(b[1..], le);
      TiesDecide(a[1..], b[1..], le);
      assert a == [x] + a[1..] && b == [x] + b[1..];
    }
  }

  method SortBy<T(!new)>(s: seq<T>, le: (T, T) -> bool) returns (r: seq<T>)
    requires Preorder(le)
    ensures StableOrder(r, s, le)
  {
    SortElements(s, le);
    SortSorts(s, le);
    forall x ensures Ties(Sort(s, le), x, le) == Ties(s, x, le) {
      SortIsStable(s, x, le);
    }
    r := Sort(s, le);
  }
}
