/** Reading every matching row from a server that truncates in silence: keyset
    pages over a table that may change between requests, an ordered window, and
    an `IN` list sent in chunks. */
module Paging {
  import opened Text
  import Sorting

  /** `key` is the unique, sortable key; `column` the one an IN list filters on;
      `rank` the field a window is ordered by. */
  datatype Row = Row(key: int, column: Option<string>, rank: int)

  /** The matching rows at one instant, in key order; keys are unique. */
  ghost predicate IsTable(t: seq<Row>) {
    forall i, j :: 0 <= i < j < |t| ==> t[i].key < t[j].key
  }

  ghost predicate HasKey(t: seq<Row>, key: int) {
    exists i :: 0 <= i < |t| && t[i].key == key
  }

  /** The largest page the client asks for, and the most pages it will ask for. */
  const PAGE: nat := 1000
  const MAX_PAGES: nat := 1000

  function Min(a: int, b: int): int { if a < b then a else b }

  /** The place of the first row past the cursor, looking from `k` on. */
  function Seek(t: seq<Row>, cursor: Option<int>, k: nat): (r: nat)
    requires k <= |t|
    ensures k <= r <= |t|
    decreases |t| - k
  {
    if k == |t| || cursor == None || cursor.value < t[k].key then k else Seek(t, cursor, k + 1)
  }

  lemma {:induction false} SeekFinds(t: seq<Row>, cursor: Option<int>, k: nat)
    requires IsTable(t) && k <= |t|
    ensures forall i :: k <= i < Seek(t, cursor, k) ==> cursor.Some? && t[i].key <= cursor.value
    ensures forall i :: Seek(t, cursor, k) <= i < |t| ==> cursor.Some? ==> cursor.value < t[i].key
    decreases |t| - k
  {
    if k < |t| && cursor.Some? && t[k].key <= cursor.value {
      SeekFinds(t, cursor, k + 1);
      assert Seek(t, cursor, k) == Seek(t, cursor, k + 1);
    } else {
      assert Seek(t, cursor, k) == k;
    }
  }

  /** One request: rows past the cursor in key order, at most `limit` of them and
      never more than the server's own cap, which it does not mention. */
  function Serve(t: seq<Row>, cursor: Option<int>, limit: nat, cap: nat): seq<Row> {
    var k := Seek(t, cursor, 0);
    t[k..Min(k + Min(limit, cap), |t|)]
  }

  /** Why the loop stopped; the last two are logged as errors. */
  datatype Stop = ShortPage | PageCap | NoKey

  // ---- What a read of a changing table must satisfy --------------------------------

  /** The table at the time of each of the first `n` requests. */
  ghost predicate PresentThroughout(tableAt: nat -> seq<Row>, n: nat, key: int) {
    forall j :: 0 <= j < n ==> HasKey(tableAt(j), key)
  }

  ghost predicate SeenAtSomeRequest(tableAt: nat -> seq<Row>, n: nat, r: Row) {
    exists j :: 0 <= j < n && r in tableAt(j)
  }

  /** Strictly increasing keys, and nothing that was in the table at no request. */
  ghost predicate Sound(out: seq<Row>, tableAt: nat -> seq<Row>, n: nat) {
    && IsTable(out)
    && forall i :: 0 <= i < |out| ==> SeenAtSomeRequest(tableAt, n, out[i])
  }

  /** Every key that was there at every request. */
  ghost predicate Complete(out: seq<Row>, tableAt: nat -> seq<Row>, n: nat) {
    forall key :: PresentThroughout(tableAt, n, key) ==> HasKey(out, key)
  }

  /** What has been read reaches up to the cursor and misses no key that far. */
  ghost predicate CompleteUpTo(out: seq<Row>, tableAt: nat -> seq<Row>, n: nat, cursor: Option<int>) {
    && (forall i :: 0 <= i < |out| ==> cursor.Some? && out[i].key <= cursor.value)
    && (cursor.Some? ==>
          forall key :: key <= cursor.value && PresentThroughout(tableAt, n, key) ==> HasKey(out, key))
  }

  ghost predicate Unchanging(tableAt: nat -> seq<Row>) {
    forall j: nat :: tableAt(j) == tableAt(0)
  }

  /** How much of a table that never changes a read returns. */
  function StaticCount(size: nat, cap: nat, keyed: bool): nat {
    if cap < PAGE then Min(size, cap)
    else if !keyed then Min(size, PAGE)
    else Min(size, PAGE * MAX_PAGES)
  }

  lemma {:induction false} PageExtends(out: seq<Row>, tableAt: nat -> seq<Row>, n: nat, cursor: Option<int>, cap: nat)
    requires IsTable(tableAt(n)) && Sound(out, tableAt, n) && CompleteUpTo(out, tableAt, n, cursor)
    ensures var page := Serve(tableAt(n), cursor, PAGE, cap);
            && Sound(out + page, tableAt, n + 1)
            && (page != [] ==> CompleteUpTo(out + page, tableAt, n + 1, Some(page[|page| - 1].key)))
            && (|page| < PAGE <= cap ==> Complete(out + page, tableAt, n + 1))
  {
    var t, page := tableAt(n), Serve(tableAt(n), cursor, PAGE, cap);
    PageIsSound(out, tableAt, n, cursor, cap);
    forall key | PresentThroughout(tableAt, n + 1, key)
                 && (|page| < PAGE <= cap || (page != [] && key <= page[|page| - 1].key))
      ensures HasKey(out + page, key)
    {
      KeyIsRead(out, tableAt, n, cursor, cap, key);
    }
  }

  lemma {:induction false} TablesJoin(out: seq<Row>, page: seq<Row>)
    requires IsTable(out) && IsTable(page)
    requires forall i, j :: 0 <= i < |out| && 0 <= j < |page| ==> out[i].key < page[j].key
    ensures IsTable(out + page)
    ensures page != [] ==> forall i :: 0 <= i < |out + page| ==> (out + page)[i].key <= page[|page| - 1].key
  {
    var all := out + page;
    forall i, j | 0 <= i < j < |all| ensures all[i].key < all[j].key {
      assert all[i] == if i < |out| then out[i] else page[i - |out|];
      assert all[j] == if j < |out| then out[j] else page[j - |out|];
    }
    if page != [] {
      assert all[|all| - 1] == page[|page| - 1];
    }
  }

  /** The rows of a page: the table's own, in order, past the cursor. */
  lemma {:induction false} PageRows(t: seq<Row>, cursor: Option<int>, cap: nat)
    requires IsTable(t)
    ensures var page := Serve(t, cursor, PAGE, cap);
            && IsTable(page)
            && forall i :: 0 <= i < |page| ==> page[i] in t && (cursor.Some? ==> cursor.value < page[i].key)
  {
    SeekFinds(t, cursor, 0);
    var k, page := Seek(t, cursor, 0), Serve(t, cursor, PAGE, cap);
    assert forall i :: 0 <= i < |page| ==> page[i] == t[k + i];
  }

  lemma {:induction false} SeenStaysSeen(tableAt: nat -> seq<Row>, n: nat, r: Row)
    requires SeenAtSomeRequest(tableAt, n, r) || r in tableAt(n)
    ensures SeenAtSomeRequest(tableAt, n + 1, r)
  {
    if r in tableAt(n) {
      var j := n;
      assert 0 <= j < n + 1 && r in tableAt(j);
    } else {
      var j :| 0 <= j < n && r in tableAt(j);
      assert 0 <= j < n + 1 && r in tableAt(j);
    }
  }

  lemma {:induction false} PageIsSound(out: seq<Row>, tableAt: nat -> seq<Row>, n: nat, cursor: Option<int>, cap: nat)
    requires IsTable(tableAt(n)) && Sound(out, tableAt, n) && CompleteUpTo(out, tableAt, n, cursor)
    ensures var page := Serve(tableAt(n), cursor, PAGE, cap);
            && Sound(out + page, tableAt, n + 1)
            && forall i :: 0 <= i < |out + page| ==> page != [] ==> (out + page)[i].key <= page[|page| - 1].key
  {
    PageRows(tableAt(n), cursor, cap);
    JoinIsSound(out, Serve(tableAt(n), cursor, PAGE, cap), tableAt, n, cursor);
  }

  lemma {:induction false} JoinIsSound(out: seq<Row>, page: seq<Row>, tableAt: nat -> seq<Row>, n: nat,
                                       cursor: Option<int>)
    requires Sound(out, tableAt, n) && CompleteUpTo(out, tableAt, n, cursor) && IsTable(page)
    requires forall i :: 0 <= i < |page| ==> page[i] in tableAt(n) && (cursor.Some? ==> cursor.value < page[i].key)
    ensures Sound(out + page, tableAt, n + 1)
    ensures forall i :: 0 <= i < |out + page| ==> page != [] ==> (out + page)[i].key <= page[|page| - 1].key
  {
    var all := out + page;
    TablesJoin(out, page);
    forall i | 0 <= i < |all| ensures SeenAtSomeRequest(tableAt, n + 1, all[i]) {
      SeenStaysSeen(tableAt, n, all[i]);
    }
  }

  lemma {:induction false} KeyIsRead(out: seq<Row>, tableAt: nat -> seq<Row>, n: nat, cursor: Option<int>, cap: nat,
                                     key: int)
    requires IsTable(tableAt(n)) && Sound(out, tableAt, n) && CompleteUpTo(out, tableAt, n, cursor)
    requires PresentThroughout(tableAt, n + 1, key)
    requires var page := Serve(tableAt(n), cursor, PAGE, cap);
             |page| < PAGE <= cap || (page != [] && key <= page[|page| - 1].key)
    ensures HasKey(out + Serve(tableAt(n), cursor, PAGE, cap), key)
  {
    var t, page := tableAt(n), Serve(tableAt(n), cursor, PAGE, cap);
    var k := Seek(t, cursor, 0);
    SeekFinds(t, cursor, 0);
    var all := out + page;
    if cursor.Some? && key <= cursor.value {
      assert PresentThroughout(tableAt, n, key);
      var i :| 0 <= i < |out| && out[i].key == key;
      assert all[i].key == key;
    } else {
      assert HasKey(t, key);
      var i :| 0 <= i < |t| && t[i].key == key;
      assert k <= i;
      assert i < k + |page|;
      assert all[|out| + i - k].key == key;
    }
  }

  /** One page more of a table that never changes. */
  lemma {:induction false} StaticPage(t: seq<Row>, n: nat, cap: nat)
    requires IsTable(t) && n <= |t|
    ensures var cursor := if n == 0 then None else Some(t[n - 1].key);
            t[..n] + Serve(t, cursor, PAGE, cap) == t[..Min(n + Min(PAGE, cap), |t|)]
  {
    var cursor := if n == 0 then None else Some(t[n - 1].key);
    SeekFinds(t, cursor, 0);
    var k := Seek(t, cursor, 0);
    assert forall i :: 0 <= i < n ==> t[i].key <= t[n - 1].key;
    assert 0 < n < |t| ==> t[n - 1].key < t[n].key;
    assert k == n;
  }

  /** What one page more means for a table that never changes: the read goes on
      with a full page, and stops with exactly the rows it can return. */
  lemma {:induction false} StaticStep(t: seq<Row>, out: seq<Row>, pages: nat, cap: nat, keyed: bool)
    requires IsTable(t) && pages < MAX_PAGES && |out| == pages * PAGE <= |t| && out == t[..|out|]
    requires pages > 0 ==> PAGE <= cap && keyed
    ensures var page := Serve(t, if pages == 0 then None else Some(out[|out| - 1].key), PAGE, cap);
            && |page| <= PAGE
            && (|page| == PAGE ==> |out + page| <= |t| && out + page == t[..|out + page|])
            && (|page| < PAGE || pages + 1 == MAX_PAGES || !keyed ==> out + page == t[..StaticCount(|t|, cap, keyed)])
            && (|page| == PAGE ==> PAGE <= cap)
  {
    StaticPage(t, |out|, cap);
  }

  /** A server capped below the page size answers once, and the answer misses
      nothing exactly when the table fits under the cap. */
  lemma {:induction false} CappedRead(tableAt: nat -> seq<Row>, cap: nat)
    requires IsTable(tableAt(0)) && cap < PAGE
    ensures Complete(Serve(tableAt(0), None, PAGE, cap), tableAt, 1) <==> |tableAt(0)| <= cap
  {
    var t, page := tableAt(0), Serve(tableAt(0), None, PAGE, cap);
    assert page == t[..Min(cap, |t|)];
    if |t| > cap {
      assert HasKey(t, t[cap].key);
      assert PresentThroughout(tableAt, 1, t[cap].key);
      assert !HasKey(page, t[cap].key);
    } else {
      assert page == t;
      forall key | PresentThroughout(tableAt, 1, key) ensures HasKey(page, key) {
        assert HasKey(tableAt(0), key);
      }
    }
  }

  // ---- Exactly which rows a read of a changing table returns ------------------------

  /** The request a key falls to: the first whose page ended at or past it, or the
      last one made. */
  ghost function Turn(out: seq<Row>, pages: nat, key: int): (j: nat)
    requires 1 <= pages && (pages - 1) * PAGE <= |out|
    ensures j < pages
  {
    if pages == 1 then 0
    else if key <= out[(pages - 1) * PAGE - 1].key then Turn(out, pages - 1, key)
    else pages - 1
  }

  /** As far as the read got: to the end, or to the last key it returned. */
  ghost predicate Reached(out: seq<Row>, whole: bool, key: int) {
    whole || (out != [] && key <= out[|out| - 1].key)
  }

  /** A row is returned exactly when the read got as far as its key and the row was
      in the table at that key's turn. */
  ghost predicate Exact(out: seq<Row>, tableAt: nat -> seq<Row>, pages: nat, whole: bool)
    requires 1 <= pages && (pages - 1) * PAGE <= |out|
  {
    forall r :: r in out <==> Reached(out, whole, r.key) && r in tableAt(Turn(out, pages, r.key))
  }

  lemma {:induction false} TurnOfPrefix(out: seq<Row>, more: seq<Row>, pages: nat, key: int)
    requires 1 <= pages && (pages - 1) * PAGE <= |out|
    ensures Turn(out + more, pages, key) == Turn(out, pages, key)
  {
    if pages > 1 {
      TurnOfPrefix(out, more, pages - 1, key);
    }
  }

  /** A stretch of a table holds the rows at its own places and no other. */
  lemma {:induction false} StretchHolds(t: seq<Row>, k: nat, e: nat, i: nat)
    requires IsTable(t) && k <= e <= |t| && i < |t|
    ensures t[i] in t[k..e] <==> k <= i < e
    ensures k < e ==> (i < e <==> t[i].key <= t[e - 1].key)
  {
    if k <= i < e {
      assert t[k..e][i - k] == t[i];
    }
  }

  /** Which rows past the cursor a page holds. */
  lemma {:induction false} PageHolds(t: seq<Row>, cursor: Option<int>, cap: nat, r: Row)
    requires IsTable(t)
    ensures var page := Serve(t, cursor, PAGE, cap);
            r in page <==>
            r in t && (cursor.Some? ==> cursor.value < r.key) && Reached(page, |page| < PAGE <= cap, r.key)
  {
    var k, page := Seek(t, cursor, 0), Serve(t, cursor, PAGE, cap);
    SeekFinds(t, cursor, 0);
    var e := k + |page|;
    assert page == t[k..e] && (page != [] ==> page[|page| - 1] == t[e - 1]);
    if r in t {
      var i :| 0 <= i < |t| && t[i] == r;
      assert (cursor.Some? ==> cursor.value < r.key) <==> k <= i;
      StretchHolds(t, k, e, i);
    }
  }

  lemma {:induction false} PageIsExact(out: seq<Row>, tableAt: nat -> seq<Row>, n: nat, cursor: Option<int>, cap: nat)
    requires IsTable(tableAt(n)) && IsTable(out) && |out| == n * PAGE
    requires cursor == if n == 0 then None else Some(out[|out| - 1].key)
    requires n > 0 ==> Exact(out, tableAt, n, false)
    ensures var page := Serve(tableAt(n), cursor, PAGE, cap);
            Exact(out + page, tableAt, n + 1, |page| < PAGE <= cap)
  {
    var page := Serve(tableAt(n), cursor, PAGE, cap);
    forall r: Row
      ensures r in out + page <==>
              && Reached(out + page, |page| < PAGE <= cap, r.key)
              && r in tableAt(Turn(out + page, n + 1, r.key))
    {
      RowIsExact(out, tableAt, n, cursor, cap, r);
    }
  }

  lemma {:induction false} RowIsExact(out: seq<Row>, tableAt: nat -> seq<Row>, n: nat, cursor: Option<int>, cap: nat,
                                      r: Row)
    requires IsTable(tableAt(n)) && IsTable(out) && |out| == n * PAGE
    requires cursor == if n == 0 then None else Some(out[|out| - 1].key)
    requires n > 0 ==> Exact(out, tableAt, n, false)
    ensures var page := Serve(tableAt(n), cursor, PAGE, cap);
            r in out + page <==>
            && Reached(out + page, |page| < PAGE <= cap, r.key)
            && r in tableAt(Turn(out + page, n + 1, r.key))
  {
    var t, page := tableAt(n), Serve(tableAt(n), cursor, PAGE, cap);
    var all := out + page;
    PageHolds(t, cursor, cap, r);
    if page != [] {
      assert page[|page| - 1] in page;
      PageHolds(t, cursor, cap, page[|page| - 1]);
    }
    if n > 0 {
      assert all[n * PAGE - 1] == out[|out| - 1];
      TurnOfPrefix(out, page, n, r.key);
    }
    if r in out {
      assert n > 0 && r.key <= cursor.value;
    }
  }

  /** A read part way: `pages` full pages so far, the next past `cursor`. */
  ghost predicate Reading(out: seq<Row>, tableAt: nat -> seq<Row>, pages: nat, cursor: Option<int>, cap: nat,
                          keyed: bool)
  {
    match cursor
    case None => pages == 0 && out == []
    case Some(last) =>
      && 0 < pages && |out| == pages * PAGE && out[|out| - 1].key == last && PAGE <= cap && keyed
      && Sound(out, tableAt, pages) && CompleteUpTo(out, tableAt, pages, cursor) && Exact(out, tableAt, pages, false)
      && (Unchanging(tableAt) ==> |out| <= |tableAt(0)| && out == tableAt(0)[..|out|])
  }

  /** What every read promises: nothing but rows of the table, in key order; row by
      row which ones, for every way the table may change; and of a table that never
      changes exactly this much. */
  ghost predicate Returned(out: seq<Row>, tableAt: nat -> seq<Row>, pages: nat, cap: nat, keyed: bool, whole: bool) {
    && Sound(out, tableAt, pages)
    && 1 <= pages <= 1000 && 1000 * (pages - 1) <= |out| <= 1000 * pages
    && Exact(out, tableAt, pages, whole)
    && (Unchanging(tableAt) ==> out == tableAt(0)[..StaticCount(|tableAt(0)|, cap, keyed)])
  }

  /** And what it promises by the way it ended. */
  ghost predicate Finished(out: seq<Row>, tableAt: nat -> seq<Row>, pages: nat, cap: nat, keyed: bool, stop: Stop) {
    match stop
    // from a server that honours the page size nothing is missed; from one that
    // does not, the first page is taken for the last, and by then something is
    // missed exactly when the table held more than the cap
    case ShortPage =>
      && Returned(out, tableAt, pages, cap, keyed, PAGE <= cap)
      && |out| < 1000 * pages
      && (PAGE <= cap ==> Complete(out, tableAt, pages))
      && (cap < PAGE ==> pages == 1 && (Complete(out, tableAt, pages) <==> |tableAt(0)| <= cap))
    // stopped on a full page: nothing is missed as far as the last key read
    case PageCap =>
      && Returned(out, tableAt, pages, cap, keyed, false)
      && PAGE <= cap && pages == 1000 && |out| == 1000 * 1000
      && CompleteUpTo(out, tableAt, pages, Some(out[|out| - 1].key))
    case NoKey =>
      && Returned(out, tableAt, pages, cap, keyed, false)
      && PAGE <= cap && !keyed && |out| == 1000
      && CompleteUpTo(out, tableAt, pages, Some(out[|out| - 1].key))
  }

  /** Why a read stops at a page, if it does. */
  function StopAt(page: seq<Row>, pages: nat, keyed: bool): Option<Stop> {
    if |page| < PAGE then Some(ShortPage)
    else if pages >= MAX_PAGES then Some(PageCap)
    else if !keyed then Some(NoKey)
    else None
  }

  /** A read part way, cursor or none, is as the lemmas about one page want it. */
  lemma {:induction false} ReadSoFar(out: seq<Row>, tableAt: nat -> seq<Row>, pages: nat, cursor: Option<int>, cap: nat,
                                     keyed: bool)
    requires Reading(out, tableAt, pages, cursor, cap, keyed)
    ensures |out| == pages * PAGE && Sound(out, tableAt, pages) && CompleteUpTo(out, tableAt, pages, cursor)
    ensures cursor == if pages == 0 then None else Some(out[|out| - 1].key)
    ensures pages > 0 ==> PAGE <= cap && keyed && Exact(out, tableAt, pages, false)
    ensures Unchanging(tableAt) ==> |out| <= |tableAt(0)| && out == tableAt(0)[..|out|]
  {
  }

  lemma {:induction false} PageReturns(out: seq<Row>, tableAt: nat -> seq<Row>, pages: nat, cursor: Option<int>,
                                       cap: nat, keyed: bool)
    requires IsTable(tableAt(pages)) && pages < MAX_PAGES && Reading(out, tableAt, pages, cursor, cap, keyed)
    requires StopAt(Serve(tableAt(pages), cursor, PAGE, cap), pages + 1, keyed).Some?
    ensures var page := Serve(tableAt(pages), cursor, PAGE, cap);
            Returned(out + page, tableAt, pages + 1, cap, keyed, |page| < PAGE <= cap)
  {
    ReadSoFar(out, tableAt, pages, cursor, cap, keyed);
    PageIsSound(out, tableAt, pages, cursor, cap);
    PageIsExact(out, tableAt, pages, cursor, cap);
    if Unchanging(tableAt) {
      assert tableAt(pages) == tableAt(0);
      StaticStep(tableAt(0), out, pages, cap, keyed);
    }
  }

  /** The page that ends a read. */
  lemma {:induction false} PageEnds(out: seq<Row>, tableAt: nat -> seq<Row>, pages: nat, cursor: Option<int>, cap: nat,
                                    keyed: bool)
    requires IsTable(tableAt(pages)) && IsTable(tableAt(0))
    requires pages < MAX_PAGES && Reading(out, tableAt, pages, cursor, cap, keyed)
    requires StopAt(Serve(tableAt(pages), cursor, PAGE, cap), pages + 1, keyed).Some?
    ensures var page := Serve(tableAt(pages), cursor, PAGE, cap);
            Finished(out + page, tableAt, pages + 1, cap, keyed, StopAt(page, pages + 1, keyed).value)
  {
    PageReturns(out, tableAt, pages, cursor, cap, keyed);
    ReadSoFar(out, tableAt, pages, cursor, cap, keyed);
    if |Serve(tableAt(pages), cursor, PAGE, cap)| < PAGE {
      ShortPageEnds(out, tableAt, pages, cursor, cap, keyed);
    } else {
      PageExtends(out, tableAt, pages, cursor, cap);
    }
  }

  lemma {:induction false} ShortPageEnds(out: seq<Row>, tableAt: nat -> seq<Row>, pages: nat, cursor: Option<int>,
                                         cap: nat, keyed: bool)
    requires IsTable(tableAt(pages)) && IsTable(tableAt(0))
    requires Reading(out, tableAt, pages, cursor, cap, keyed)
    requires |Serve(tableAt(pages), cursor, PAGE, cap)| < PAGE
    ensures var all := out + Serve(tableAt(pages), cursor, PAGE, cap);
            && (PAGE <= cap ==> Complete(all, tableAt, pages + 1))
            && (cap < PAGE ==> pages == 0 && (Complete(all, tableAt, 1) <==> |tableAt(0)| <= cap))
  {
    ReadSoFar(out, tableAt, pages, cursor, cap, keyed);
    if cap < PAGE {
      CappedRead(tableAt, cap);
      assert out + Serve(tableAt(pages), cursor, PAGE, cap) == Serve(tableAt(0), None, PAGE, cap);
    } else {
      PageExtends(out, tableAt, pages, cursor, cap);
    }
  }

  /** A page after which a read goes on. */
  lemma {:induction false} PageGoesOn(out: seq<Row>, tableAt: nat -> seq<Row>, pages: nat, cursor: Option<int>,
                                      cap: nat, keyed: bool)
    requires IsTable(tableAt(pages)) && pages < MAX_PAGES && Reading(out, tableAt, pages, cursor, cap, keyed)
    requires StopAt(Serve(tableAt(pages), cursor, PAGE, cap), pages + 1, keyed).None?
    ensures var page := Serve(tableAt(pages), cursor, PAGE, cap);
            Reading(out + page, tableAt, pages + 1, Some(page[|page| - 1].key), cap, keyed)
  {
    ReadSoFar(out, tableAt, pages, cursor, cap, keyed);
    PageExtends(out, tableAt, pages, cursor, cap);
    PageIsExact(out, tableAt, pages, cursor, cap);
    if Unchanging(tableAt) {
      assert tableAt(pages) == tableAt(0);
      StaticStep(tableAt(0), out, pages, cap, keyed);
    }
  }

  /** The next request of a read. */
  method ReadPage(ghost out: seq<Row>, tableAt: nat -> seq<Row>, pages: nat, cursor: Option<int>, cap: nat,
                  ghost keyed: bool)
    returns (page: seq<Row>)
    requires forall j :: IsTable(tableAt(j))
    requires pages < MAX_PAGES && Reading(out, tableAt, pages, cursor, cap, keyed)
    ensures match StopAt(page, pages + 1, keyed)
            case Some(stop) => Finished(out + page, tableAt, pages + 1, cap, keyed, stop)
            case None => page != [] && Reading(out + page, tableAt, pages + 1, Some(page[|page| - 1].key), cap, keyed)
  {
    page := Serve(tableAt(pages), cursor, PAGE, cap);
    if StopAt(page, pages + 1, keyed).Some? {
      PageEnds(out, tableAt, pages, cursor, cap, keyed);
    } else {
      PageGoesOn(out, tableAt, pages, cursor, cap, keyed);
    }
  }

  /** Every row the query matches, read in keyset pages. `tableAt` is the matching
      rows at the time of each request; `keyed` is whether the rows come back with
      their key. */
  method FetchAll(tableAt: nat -> seq<Row>, cap: nat, keyed: bool) returns (out: seq<Row>, pages: nat, stop: Stop)
    requires forall j :: IsTable(tableAt(j))
    ensures Finished(out, tableAt, pages, cap, keyed, stop)
  {
    out, pages, stop := [], 0, ShortPage;
    var cursor: Option<int> := None;
    while true
      invariant pages < MAX_PAGES && stop == ShortPage && Reading(out, tableAt, pages, cursor, cap, keyed)
      decreases MAX_PAGES - pages
    {
      var page := ReadPage(out, tableAt, pages, cursor, cap, keyed);
      pages := pages + 1;
      out := out + page;
      if |page| < PAGE {
        break;
      }
      if pages >= MAX_PAGES {
        stop := PageCap;
        break;
      }
      if !keyed {
        stop := NoKey;
        break;
      }
      cursor := Some(page[|page| - 1].key);
    }
  }

  /** A row that never changed during the run is in the result itself. */
  lemma {:induction false} UnchangedRowIsRead(out: seq<Row>, tableAt: nat -> seq<Row>, n: nat, r: Row)
    requires forall j: nat :: IsTable(tableAt(j))
    requires Sound(out, tableAt, n) && Complete(out, tableAt, n)
    requires forall j :: 0 <= j < n ==> r in tableAt(j)
    ensures r in out
  {
    forall j | 0 <= j < n ensures HasKey(tableAt(j), r.key) {
      assert r in tableAt(j);
    }
    assert PresentThroughout(tableAt, n, r.key);
    assert HasKey(out, r.key);
    var i :| 0 <= i < |out| && out[i].key == r.key;
    assert SeenAtSomeRequest(tableAt, n, out[i]);
    var j :| 0 <= j < n && out[i] in tableAt(j);
    var t := tableAt(j);
    assert IsTable(t) && r in t;
    var x :| 0 <= x < |t| && t[x] == r;
    var y :| 0 <= y < |t| && t[y] == out[i];
    assert x == y;
  }

  // ---- A window in the order a screen shows ------------------------------------------

  /** `order_field` first, then the id, each ascending or descending. */
  function InOrder(desc: bool, idDesc: bool): (Row, Row) -> bool {
    (a: Row, b: Row) =>
      if a.rank != b.rank then (if desc then a.rank > b.rank else a.rank < b.rank)
      else if idDesc then a.key >= b.key else a.key <= b.key
  }

  /** `v` is the table in the order asked for. */
  ghost predicate IsView(v: seq<Row>, table: seq<Row>, desc: bool, idDesc: bool) {
    multiset(v) == multiset(table) && Sorting.Sorted(v, InOrder(desc, idDesc))
  }

  /** A view reads by the field asked for, up or down, and where that ties by the id,
      up or down; and it holds the rows of the table, once each. */
  lemma {:induction false} ViewReads(v: seq<Row>, table: seq<Row>, desc: bool, idDesc: bool)
    requires IsTable(table) && IsView(v, table, desc, idDesc)
    ensures |v| == |table| && forall r :: r in v <==> r in table
    ensures forall i, j :: 0 <= i < j < |v| ==>
              && (if desc then v[i].rank >= v[j].rank else v[i].rank <= v[j].rank)
              && (v[i].rank == v[j].rank ==> if idDesc then v[i].key > v[j].key else v[i].key < v[j].key)
  {
    Sorting.SameElements(v, table);
    forall i, j | 0 <= i < j < |v|
      ensures && (if desc then v[i].rank >= v[j].rank else v[i].rank <= v[j].rank)
              && (v[i].rank == v[j].rank ==> if idDesc then v[i].key > v[j].key else v[i].key < v[j].key)
    {
      assert InOrder(desc, idDesc)(v[i], v[j]);
      KeysApart(v, table, i, j);
    }
  }

  lemma {:induction false} KeysApart(v: seq<Row>, table: seq<Row>, i: nat, j: nat)
    requires IsTable(table) && multiset(v) == multiset(table) && i < j < |v|
    ensures v[i].key != v[j].key
  {
    Sorting.SameElements(v, table);
    DistinctRows(table);
    Sorting.DistinctStays(table, v);
    assert v[i] in table && v[j] in table;
    var x :| 0 <= x < |table| && table[x] == v[i];
    var y :| 0 <= y < |table| && table[y] == v[j];
    assert x != y;
  }

  lemma {:induction false} DistinctRows(table: seq<Row>)
    requires IsTable(table)
    ensures Sorting.Distinct(table)
  {
    forall i, j | 0 <= i < j < |table| ensures table[i] != table[j] {
      assert table[i].key < table[j].key;
    }
  }

  /** Ids are unique, so the order is total: every request sees the same view. */
  lemma {:induction false} ViewIsUnique(u: seq<Row>, v: seq<Row>, table: seq<Row>, desc: bool, idDesc: bool)
    requires IsTable(table) && IsView(u, table, desc, idDesc) && IsView(v, table, desc, idDesc)
    ensures u == v
  {
    Sorting.SameElements(u, table);
    var le := InOrder(desc, idDesc);
    forall x, y | x in u && y in u && le(x, y) && le(y, x) ensures x == y {
      assert x in table && y in table;
      var i :| 0 <= i < |table| && table[i] == x;
      var j :| 0 <= j < |table| && table[j] == y;
      assert x.key == y.key;
    }
    Sorting.SortedIsUnique(u, v, le);
  }

  function Slice(v: seq<Row>, start: nat, count: nat): seq<Row> {
    v[Min(start, |v|)..Min(start + count, |v|)]
  }

  lemma {:induction false} SliceJoins(v: seq<Row>, start: nat, have: nat, more: nat)
    requires |Slice(v, start, have)| == have
    ensures Slice(v, start, have) + Slice(v, start + have, more) == Slice(v, start, have + more)
  {
    if have > 0 {
      assert start + have <= |v|;
    }
  }

  lemma {:induction false} SlicesEnd(v: seq<Row>, start: nat, m: nat, n: nat)
    requires m <= n && |v| <= start + m
    ensures Slice(v, start, m) == Slice(v, start, n)
  {
  }

  /** One request more of a window. */
  lemma {:induction false} WindowGoesOn(v: seq<Row>, start: nat, have: nat, count: nat, cap: nat)
    requires |Slice(v, start, have)| == have < count
    requires have > 0 ==> Min(PAGE, count) <= cap && start + have <= |v|
    ensures var size := Min(PAGE, count - have);
            var page := Slice(v, start + have, Min(size, cap));
            var all := Slice(v, start, have) + page;
            && |page| <= size
            && (|page| == size ==>
                  && all == Slice(v, start, have + size) && |all| == have + size
                  && Min(PAGE, count) <= cap && start + have + size <= |v|)
            && (|page| < size && Min(PAGE, count) <= cap ==> all == Slice(v, start, count))
            && (cap < Min(PAGE, count) ==> |page| < size && all == Slice(v, start, cap))
  {
    var size := Min(PAGE, count - have);
    var n := Min(size, cap);
    SliceJoins(v, start, have, n);
    if |Slice(v, start + have, n)| < n {
      SlicesEnd(v, start, have + n, count);
    }
  }

  /** One request of a window: the view the server makes is the one every server makes. */
  method ReadRange(table: seq<Row>, made: seq<Row>, ghost view: seq<Row>, position: nat, limit: nat,
                   ghost desc: bool, ghost idDesc: bool)
    returns (page: seq<Row>)
    requires IsTable(table) && IsView(made, table, desc, idDesc) && IsView(view, table, desc, idDesc)
    ensures page == Slice(view, position, limit)
  {
    ViewIsUnique(made, view, table, desc, idDesc);
    page := Slice(made, position, limit);
  }

  /** Up to `count` rows from position `start`. Each request is answered from a view
      of the table in the order asked for, whichever the server produces. */
  method FetchWindow(table: seq<Row>, viewAt: nat -> seq<Row>, cap: nat, count: int, start: nat, desc: bool,
                     idDesc: bool)
    returns (out: seq<Row>)
    requires IsTable(table) && forall j :: IsView(viewAt(j), table, desc, idDesc)
    ensures count <= 0 ==> out == []
    // from a server that honours the page size: the window, however it was divided
    ensures 0 < count && Min(PAGE, count) <= cap ==> out == Slice(viewAt(0), start, count)
    // from one capped lower: what its first answer held
    ensures 0 < count && cap < Min(PAGE, count) ==> out == Slice(viewAt(0), start, cap)
  {
    out := [];
    var position, requests := start, 0;
    ghost var view := viewAt(0);
    while |out| < count
      invariant out == [] || |out| <= count
      invariant position == start + |out| && out == Slice(view, start, |out|)
      invariant if requests == 0 then out == [] else Min(PAGE, count) <= cap && position <= |view|
      decreases count - |out|
    {
      var size := Min(PAGE, count - |out|);
      var page := ReadRange(table, viewAt(requests), view, position, Min(size, cap), desc, idDesc);
      WindowGoesOn(view, start, |out|, count, cap);
      out := out + page;
      position := position + |page|;
      requests := requests + 1;
      if |page| < size {
        break;
      }
    }
  }
}
