/** An `IN` list sent in chunks, each read to its end before the next is asked
    for, of a table that may change all the while. */
module InChunks {
  import opened Text
  import opened Paging

  /** The values asked for: none missing, none twice, sorted. */
  method Wanted(values: seq<Option<string>>) returns (w: seq<string>)
    ensures InTextOrder(w)
    ensures forall v :: v in w <==> Some(v) in values
  {
    w := [];
    for i := 0 to |values|
      invariant InTextOrder(w)
      invariant forall v :: v in w <==> Some(v) in values[..i]
    {
      assert values[..i + 1] == values[..i] + [values[i]];
      if values[i].Some? {
        IncludeKeepsOrder(values[i].value, w);
        w := Include(values[i].value, w);
      }
    }
    assert values[..|values|] == values;
  }

  predicate Named(r: Row, part: seq<string>) {
    r.column.Some? && r.column.value in part
  }

  /** The rows an `IN` filter lets through, in key order. */
  function MatchingTo(t: seq<Row>, n: nat, part: seq<string>): seq<Row>
    requires n <= |t|
  {
    if n == 0 then [] else MatchingTo(t, n - 1, part) + if Named(t[n - 1], part) then [t[n - 1]] else []
  }

  function Matching(t: seq<Row>, part: seq<string>): seq<Row> { MatchingTo(t, |t|, part) }

  lemma {:induction false} MatchingIsTable(t: seq<Row>, n: nat, part: seq<string>)
    requires n <= |t| && IsTable(t)
    ensures IsTable(MatchingTo(t, n, part)) && |MatchingTo(t, n, part)| <= n
    ensures forall r :: r in MatchingTo(t, n, part) <==> r in t[..n] && Named(r, part)
    ensures forall i :: 0 <= i < |MatchingTo(t, n, part)| && n < |t| ==> MatchingTo(t, n, part)[i].key < t[n].key
  {
    if n > 0 {
      MatchingIsTable(t, n - 1, part);
      assert t[..n] == t[..n - 1] + [t[n - 1]];
      assert n < |t| ==> t[n - 1].key < t[n].key;
    }
  }

  ghost predicate OnceEach(out: seq<Row>) {
    forall i, j :: 0 <= i < j < |out| ==> out[i].key != out[j].key
  }

  /** The rows one chunk asks for, at each request from the `from`-th on. */
  function MatchedFrom(tableAt: nat -> seq<Row>, from: nat, part: seq<string>): nat -> seq<Row> {
    (j: nat) => Matching(tableAt(from + j), part)
  }

  /** One chunk's read: the values asked for, the requests it took and the rows it
      returned; `whole` when it got to the end. */
  datatype Read = Read(part: seq<string>, from: nat, pages: nat, rows: seq<Row>, whole: bool)

  /** `rd` read the rows of its part that the table held at the time. */
  ghost predicate IsRead(rd: Read, tableAt: nat -> seq<Row>, cap: nat) {
    && 1 <= rd.pages && (rd.pages - 1) * PAGE <= |rd.rows| && IsTable(rd.rows)
    && Exact(rd.rows, MatchedFrom(tableAt, rd.from, rd.part), rd.pages, rd.whole)
    && (PAGE <= cap ==> rd.whole || |rd.rows| == PAGE * MAX_PAGES)
    && (Unchanging(tableAt) && PAGE <= cap && |tableAt(0)| <= PAGE * MAX_PAGES ==>
          rd.rows == Matching(tableAt(0), rd.part))
  }

  /** Where a run of reads ends: the requests made so far. */
  function RequestsOf(log: seq<Read>): nat {
    if log == [] then 0 else log[|log| - 1].from + log[|log| - 1].pages
  }

  /** The reads of one call: each takes up where the one before it stopped. */
  ghost predicate AreReads(log: seq<Read>, tableAt: nat -> seq<Row>, cap: nat) {
    forall k :: 0 <= k < |log| ==> IsRead(log[k], tableAt, cap) && log[k].from == RequestsOf(log[..k])
  }

  function Joined(log: seq<Read>): seq<Row> {
    if log == [] then [] else Joined(log[..|log| - 1]) + log[|log| - 1].rows
  }

  function PartsOf(log: seq<Read>): seq<string> {
    if log == [] then [] else PartsOf(log[..|log| - 1]) + log[|log| - 1].part
  }

  /** A chunk catches a key when its read gets as far as the key and the key's row
      has one of the chunk's values at the key's turn. */
  ghost predicate Caught(rd: Read, tableAt: nat -> seq<Row>, key: int) {
    && 1 <= rd.pages && (rd.pages - 1) * PAGE <= |rd.rows| && Reached(rd.rows, rd.whole, key)
    && HasKey(Matching(tableAt(rd.from + Turn(rd.rows, rd.pages, key)), rd.part), key)
  }

  /** What a chunk returns is exactly what it catches. */
  lemma {:induction false} ReadIsCaught(rd: Read, tableAt: nat -> seq<Row>, cap: nat, key: int)
    requires IsRead(rd, tableAt, cap)
    ensures HasKey(rd.rows, key) <==> Caught(rd, tableAt, key)
  {
    var at := MatchedFrom(tableAt, rd.from, rd.part);
    var t := at(Turn(rd.rows, rd.pages, key));
    if HasKey(rd.rows, key) {
      var i :| 0 <= i < |rd.rows| && rd.rows[i].key == key;
      assert rd.rows[i] in rd.rows;
      assert rd.rows[i] in t;
    }
    if Caught(rd, tableAt, key) {
      var i :| 0 <= i < |t| && t[i].key == key;
      assert t[i] in t;
      assert t[i] in rd.rows;
    }
  }

  /** No key was caught by two chunks. */
  ghost predicate NoneCaughtTwice(log: seq<Read>, tableAt: nat -> seq<Row>) {
    forall k, l, key :: 0 <= k < l < |log| ==> !(Caught(log[k], tableAt, key) && Caught(log[l], tableAt, key))
  }

  ghost predicate Apart(log: seq<Read>) {
    forall k, l, key :: 0 <= k < l < |log| ==> !(HasKey(log[k].rows, key) && HasKey(log[l].rows, key))
  }

  lemma {:induction false} JoinedHas(log: seq<Read>, r: Row)
    ensures r in Joined(log) <==> exists k :: 0 <= k < |log| && r in log[k].rows
  {
    if log != [] {
      var n := |log| - 1;
      JoinedHas(log[..n], r);
      if k :| 0 <= k < |log| && r in log[k].rows {
        assert k < n ==> r in log[..n][k].rows;
      }
    }
  }

  lemma {:induction false} JoinedHasKey(log: seq<Read>, key: int)
    ensures HasKey(Joined(log), key) <==> exists k :: 0 <= k < |log| && HasKey(log[k].rows, key)
  {
    if HasKey(Joined(log), key) {
      var i :| 0 <= i < |Joined(log)| && Joined(log)[i].key == key;
      JoinedHas(log, Joined(log)[i]);
      var k :| 0 <= k < |log| && Joined(log)[i] in log[k].rows;
      assert HasKey(log[k].rows, key);
    }
    if k :| 0 <= k < |log| && HasKey(log[k].rows, key) {
      var i :| 0 <= i < |log[k].rows| && log[k].rows[i].key == key;
      assert log[k].rows[i] in log[k].rows;
      JoinedHas(log, log[k].rows[i]);
      var j :| 0 <= j < |Joined(log)| && Joined(log)[j] == log[k].rows[i];
    }
  }

  lemma {:induction false} OnceEachOfTwo(a: seq<Row>, b: seq<Row>)
    requires IsTable(b)
    ensures OnceEach(a + b) <==> OnceEach(a) && forall key :: !(HasKey(a, key) && HasKey(b, key))
  {
    var all := a + b;
    if OnceEach(all) {
      forall i, j | 0 <= i < j < |a| ensures a[i].key != a[j].key {
        assert all[i] == a[i] && all[j] == a[j];
      }
      forall i, j | 0 <= i < |a| && 0 <= j < |b| ensures a[i].key != b[j].key {
        assert all[i] == a[i] && all[|a| + j] == b[j];
      }
    } else {
      var i, j :| 0 <= i < j < |all| && all[i].key == all[j].key;
      if i < |a| <= j {
        assert a[i].key == b[j - |a|].key;
        assert HasKey(a, a[i].key) && HasKey(b, a[i].key);
      }
    }
  }

  lemma {:induction false} JoinedOnce(log: seq<Read>)
    requires forall k :: 0 <= k < |log| ==> IsTable(log[k].rows)
    ensures OnceEach(Joined(log)) <==> Apart(log)
  {
    if log != [] {
      var n := |log| - 1;
      var front := log[..n];
      JoinedOnce(front);
      OnceEachOfTwo(Joined(front), log[n].rows);
      forall key ensures HasKey(Joined(front), key) <==> exists k :: 0 <= k < n && HasKey(front[k].rows, key) {
        JoinedHasKey(front, key);
      }
      if Apart(front) && forall key :: !(HasKey(Joined(front), key) && HasKey(log[n].rows, key)) {
        forall k, l, key | 0 <= k < l < |log| ensures !(HasKey(log[k].rows, key) && HasKey(log[l].rows, key)) {
          assert front[k] == log[k];
          assert l < n ==> front[l] == log[l];
        }
      }
      if Apart(log) {
        forall k, l, key | 0 <= k < l < n ensures !(HasKey(front[k].rows, key) && HasKey(front[l].rows, key)) {
          assert front[k] == log[k] && front[l] == log[l];
        }
        forall key ensures !(HasKey(Joined(front), key) && HasKey(log[n].rows, key)) {
          if k :| 0 <= k < n && HasKey(front[k].rows, key) {
            assert front[k] == log[k];
          }
        }
      }
    }
  }

  /** Whatever happens to the table: a key is returned at most once, except that it
      comes twice exactly when two chunks catch it. */
  lemma {:induction false} OnceUnlessCaughtTwice(log: seq<Read>, tableAt: nat -> seq<Row>, cap: nat)
    requires AreReads(log, tableAt, cap)
    ensures OnceEach(Joined(log)) <==> NoneCaughtTwice(log, tableAt)
  {
    JoinedOnce(log);
    forall k, key | 0 <= k < |log| ensures HasKey(log[k].rows, key) <==> Caught(log[k], tableAt, key) {
      ReadIsCaught(log[k], tableAt, cap, key);
    }
  }

  /** The values of the chunks, none in two of them. */
  ghost predicate PartsApart(log: seq<Read>) {
    forall k, l, v :: 0 <= k < l < |log| ==> !(v in log[k].part && v in log[l].part)
  }

  lemma {:induction false} PartsHold(log: seq<Read>, v: string)
    ensures v in PartsOf(log) <==> exists k :: 0 <= k < |log| && v in log[k].part
  {
    if log != [] {
      var n := |log| - 1;
      PartsHold(log[..n], v);
      if k :| 0 <= k < |log| && v in log[k].part {
        assert k < n ==> v in log[..n][k].part;
      }
    }
  }

  /** The chunks of a list without repeats are disjoint value sets. */
  lemma {:induction false} ChunksAreDisjoint(log: seq<Read>)
    requires InTextOrder(PartsOf(log))
    ensures PartsApart(log)
  {
    if log != [] {
      var n := |log| - 1;
      var front, before, part := log[..n], PartsOf(log[..n]), log[n].part;
      var all := PartsOf(log);
      assert all == before + part && forall i :: 0 <= i < |before| ==> all[i] == before[i];
      ChunksAreDisjoint(front);
      forall k, l, v | 0 <= k < l < |log| ensures !(v in log[k].part && v in log[l].part) {
        assert front[k] == log[k];
        if l < n {
          assert front[l] == log[l];
        } else if v in log[k].part {
          PartsHold(front, v);
          ApartFromRest(before, part, v);
        }
      }
    }
  }

  lemma {:induction false} ApartFromRest(before: seq<string>, part: seq<string>, v: string)
    requires InTextOrder(before + part) && v in before
    ensures v !in part
  {
    if v in part {
      var i :| 0 <= i < |before| && before[i] == v;
      var j :| 0 <= j < |part| && part[j] == v;
      var all := before + part;
      assert all[i] == v && all[|before| + j] == v;
      LessIrreflexive(v);
    }
  }

  /** The value a row is filed under never changes, whatever else does: rows may
      still come and go between requests. */
  ghost predicate ColumnsFixed(tableAt: nat -> seq<Row>) {
    forall i: nat, j: nat, r, q :: r in tableAt(i) && q in tableAt(j) && r.key == q.key ==> r.column == q.column
  }

  predicate Asked(r: Row, values: seq<Option<string>>) { r.column.Some? && r.column in values }

  ghost predicate AlwaysThere(tableAt: nat -> seq<Row>, n: nat, r: Row) {
    forall j :: 0 <= j < n ==> r in tableAt(j)
  }

  ghost predicate Answer(out: seq<Row>, log: seq<Read>, tableAt: nat -> seq<Row>, cap: nat,
                         values: seq<Option<string>>)
  {
    // nothing but rows of the table under a value asked for
    && (forall r :: r in out ==> SeenAtSomeRequest(tableAt, RequestsOf(log), r) && Asked(r, values))
    // a row comes twice exactly when two chunks catch it, so never while none moves
    && (OnceEach(out) <==> NoneCaughtTwice(log, tableAt))
    && (ColumnsFixed(tableAt) || Unchanging(tableAt) ==> OnceEach(out))
    // every row that stays as it is, when every read got to the end
    && ((forall k :: 0 <= k < |log| ==> log[k].whole) ==>
          forall r :: Asked(r, values) && AlwaysThere(tableAt, RequestsOf(log), r) ==> r in out)
    // and of a table that never changes every row asked for, up to the page limit
    && (Unchanging(tableAt) && PAGE <= cap && |tableAt(0)| <= PAGE * MAX_PAGES ==>
          forall r :: r in tableAt(0) && Asked(r, values) ==> r in out)
  }

  /** What a chunk returns was in the table at some request of its own, under one of
      its values. */
  lemma {:induction false} RowOfRead(rd: Read, tableAt: nat -> seq<Row>, cap: nat, r: Row) returns (j: nat)
    requires IsRead(rd, tableAt, cap) && (forall i: nat :: IsTable(tableAt(i))) && r in rd.rows
    ensures j < rd.pages && r in tableAt(rd.from + j) && Named(r, rd.part)
  {
    j := Turn(rd.rows, rd.pages, r.key);
    assert r in MatchedFrom(tableAt, rd.from, rd.part)(j);
    var t := tableAt(rd.from + j);
    MatchingIsTable(t, |t|, rd.part);
    assert t[..|t|] == t;
  }

  lemma {:induction false} KeyOfRead(rd: Read, tableAt: nat -> seq<Row>, cap: nat, key: int) returns (r: Row, at: nat)
    requires IsRead(rd, tableAt, cap) && (forall i: nat :: IsTable(tableAt(i))) && HasKey(rd.rows, key)
    ensures r.key == key && r in tableAt(at) && Named(r, rd.part)
  {
    var a :| 0 <= a < |rd.rows| && rd.rows[a].key == key;
    r := rd.rows[a];
    var j := RowOfRead(rd, tableAt, cap, r);
    at := rd.from + j;
  }

  lemma {:induction false} ReadIsSound(rd: Read, tableAt: nat -> seq<Row>, cap: nat, r: Row, n: nat)
    requires IsRead(rd, tableAt, cap) && (forall i: nat :: IsTable(tableAt(i))) && r in rd.rows
    requires rd.from + rd.pages <= n
    ensures SeenAtSomeRequest(tableAt, n, r) && Named(r, rd.part)
  {
    var j := RowOfRead(rd, tableAt, cap, r);
    var at := rd.from + j;
    assert 0 <= at < n && r in tableAt(at);
  }

  lemma {:induction false} DisjointReads(p: Read, q: Read, tableAt: nat -> seq<Row>, cap: nat, key: int)
    requires IsRead(p, tableAt, cap) && IsRead(q, tableAt, cap) && forall v :: !(v in p.part && v in q.part)
    requires (forall i: nat :: IsTable(tableAt(i))) && ColumnsFixed(tableAt)
    ensures !(HasKey(p.rows, key) && HasKey(q.rows, key))
  {
    if HasKey(p.rows, key) && HasKey(q.rows, key) {
      var r, i := KeyOfRead(p, tableAt, cap, key);
      var t, j := KeyOfRead(q, tableAt, cap, key);
    }
  }

  /** While no row moves from one value to another, no row comes back twice. */
  lemma {:induction false} FixedColumnsComeOnce(log: seq<Read>, tableAt: nat -> seq<Row>, cap: nat)
    requires AreReads(log, tableAt, cap) && InTextOrder(PartsOf(log))
    requires (forall i: nat :: IsTable(tableAt(i))) && ColumnsFixed(tableAt)
    ensures OnceEach(Joined(log))
  {
    ChunksAreDisjoint(log);
    JoinedOnce(log);
    forall k, l, key | 0 <= k < l < |log| ensures !(HasKey(log[k].rows, key) && HasKey(log[l].rows, key)) {
      assert forall v :: !(v in log[k].part && v in log[l].part);
      DisjointReads(log[k], log[l], tableAt, cap, key);
    }
  }

  /** A table that never changes moves no row. */
  lemma {:induction false} UnchangingIsFixed(tableAt: nat -> seq<Row>)
    requires IsTable(tableAt(0)) && Unchanging(tableAt)
    ensures ColumnsFixed(tableAt)
  {
    var t := tableAt(0);
    forall i: nat, j: nat, r, q | r in tableAt(i) && q in tableAt(j) && r.key == q.key ensures r.column == q.column {
      assert tableAt(i) == t && tableAt(j) == t;
      var x :| 0 <= x < |t| && t[x] == r;
      var y :| 0 <= y < |t| && t[y] == q;
      assert x == y;
    }
  }

  /** A row under one of a chunk's values at every request of that chunk is in what
      the chunk returns, if its read got to the end. */
  lemma {:induction false} ChunkIsComplete(rd: Read, tableAt: nat -> seq<Row>, cap: nat, r: Row)
    requires IsRead(rd, tableAt, cap) && (forall i: nat :: IsTable(tableAt(i))) && rd.whole && Named(r, rd.part)
    requires forall j :: rd.from <= j < rd.from + rd.pages ==> r in tableAt(j)
    ensures r in rd.rows
  {
    var j := Turn(rd.rows, rd.pages, r.key);
    var t := tableAt(rd.from + j);
    MatchingIsTable(t, |t|, rd.part);
    assert t[..|t|] == t;
    assert r in MatchedFrom(tableAt, rd.from, rd.part)(j);
  }

  lemma {:induction false} RequestsGrow(log: seq<Read>, tableAt: nat -> seq<Row>, cap: nat, k: nat)
    requires AreReads(log, tableAt, cap) && k < |log|
    ensures log[k].from + log[k].pages <= RequestsOf(log)
  {
    var n := |log| - 1;
    if k < n {
      var front := log[..n];
      forall i | 0 <= i < n ensures IsRead(front[i], tableAt, cap) && front[i].from == RequestsOf(front[..i]) {
        assert front[i] == log[i] && front[..i] == log[..i];
      }
      RequestsGrow(front, tableAt, cap, k);
      assert log[n].from == RequestsOf(front);
    }
  }

  /** Everything returned was there at some request, under a value asked for. */
  lemma {:induction false} JoinedIsSound(log: seq<Read>, tableAt: nat -> seq<Row>, cap: nat, r: Row)
    requires AreReads(log, tableAt, cap) && (forall i: nat :: IsTable(tableAt(i))) && r in Joined(log)
    ensures SeenAtSomeRequest(tableAt, RequestsOf(log), r) && Named(r, PartsOf(log))
  {
    JoinedHas(log, r);
    var k :| 0 <= k < |log| && r in log[k].rows;
    RequestsGrow(log, tableAt, cap, k);
    ReadIsSound(log[k], tableAt, cap, r, RequestsOf(log));
    PartsHold(log, r.column.value);
  }

  /** And a row there under a value asked for at every request is returned, when
      every chunk's read got to the end. */
  lemma {:induction false} JoinedIsComplete(log: seq<Read>, tableAt: nat -> seq<Row>, cap: nat, r: Row)
    requires AreReads(log, tableAt, cap) && (forall i: nat :: IsTable(tableAt(i))) && Named(r, PartsOf(log))
    requires forall k :: 0 <= k < |log| ==> log[k].whole
    requires AlwaysThere(tableAt, RequestsOf(log), r)
    ensures r in Joined(log)
  {
    PartsHold(log, r.column.value);
    var k :| 0 <= k < |log| && r.column.value in log[k].part;
    RequestsGrow(log, tableAt, cap, k);
    ChunkIsComplete(log[k], tableAt, cap, r);
    JoinedHas(log, r);
  }

  lemma {:induction false} JoinedIsStatic(log: seq<Read>, tableAt: nat -> seq<Row>, cap: nat, r: Row)
    requires AreReads(log, tableAt, cap) && IsTable(tableAt(0)) && Unchanging(tableAt)
    requires PAGE <= cap && |tableAt(0)| <= PAGE * MAX_PAGES && r in tableAt(0) && Named(r, PartsOf(log))
    ensures r in Joined(log)
  {
    PartsHold(log, r.column.value);
    var k :| 0 <= k < |log| && r.column.value in log[k].part;
    var t := tableAt(0);
    MatchingIsTable(t, |t|, log[k].part);
    assert t[..|t|] == t;
    assert log[k].rows == Matching(t, log[k].part);
    JoinedHas(log, r);
  }

  lemma {:induction false} OneReadMore(log: seq<Read>, rd: Read, tableAt: nat -> seq<Row>, cap: nat)
    requires AreReads(log, tableAt, cap) && IsRead(rd, tableAt, cap) && rd.from == RequestsOf(log)
    ensures var more := log + [rd];
            && AreReads(more, tableAt, cap) && RequestsOf(more) == rd.from + rd.pages
            && Joined(more) == Joined(log) + rd.rows && PartsOf(more) == PartsOf(log) + rd.part
  {
    var more := log + [rd];
    assert more[..|more| - 1] == log;
    forall k | 0 <= k < |more| ensures IsRead(more[k], tableAt, cap) && more[k].from == RequestsOf(more[..k]) {
      if k < |log| {
        assert more[k] == log[k] && more[..k] == log[..k];
      } else {
        assert more[..k] == log;
      }
    }
  }

  lemma {:induction false} MatchedAt(tableAt: nat -> seq<Row>, from: nat, part: seq<string>, j: nat)
    requires IsTable(tableAt(from + j))
    ensures IsTable(MatchedFrom(tableAt, from, part)(j))
  {
    var t := tableAt(from + j);
    MatchingIsTable(t, |t|, part);
    assert MatchedFrom(tableAt, from, part)(j) == Matching(t, part);
  }

  lemma {:induction false} MatchedAreTables(tableAt: nat -> seq<Row>, from: nat, part: seq<string>)
    requires forall j: nat :: IsTable(tableAt(j))
    ensures forall j: nat :: IsTable(MatchedFrom(tableAt, from, part)(j))
  {
    forall j: nat ensures IsTable(MatchedFrom(tableAt, from, part)(j)) {
      var at := from + j;
      assert IsTable(tableAt(at));
      MatchedAt(tableAt, from, part, j);
    }
  }

  /** One chunk. */
  method FetchPart(tableAt: nat -> seq<Row>, from: nat, part: seq<string>, cap: nat)
    returns (rows: seq<Row>, pages: nat, ghost rd: Read)
    requires forall j: nat :: IsTable(tableAt(j))
    ensures IsRead(rd, tableAt, cap) && rd == Read(part, from, pages, rows, rd.whole)
  {
    MatchedAreTables(tableAt, from, part);
    var stop;
    rows, pages, stop := FetchAll(MatchedFrom(tableAt, from, part), cap, true);
    rd := Read(part, from, pages, rows, stop == ShortPage && PAGE <= cap);
    FinishedIsRead(tableAt, cap, rd, stop);
  }

  lemma {:induction false} FinishedIsRead(tableAt: nat -> seq<Row>, cap: nat, rd: Read, stop: Stop)
    requires IsTable(tableAt(0)) && rd.whole == (stop == ShortPage && PAGE <= cap)
    requires Finished(rd.rows, MatchedFrom(tableAt, rd.from, rd.part), rd.pages, cap, true, stop)
    ensures IsRead(rd, tableAt, cap)
  {
    var at := MatchedFrom(tableAt, rd.from, rd.part);
    assert Returned(rd.rows, at, rd.pages, cap, true, rd.whole);
    if Unchanging(tableAt) && PAGE <= cap && |tableAt(0)| <= PAGE * MAX_PAGES {
      var t := tableAt(0);
      MatchingIsTable(t, |t|, rd.part);
      forall j: nat ensures at(j) == Matching(t, rd.part) {
        var i := rd.from + j;
        assert tableAt(i) == t;
      }
    }
  }

  lemma {:induction false} ComesOnce(log: seq<Read>, tableAt: nat -> seq<Row>, cap: nat)
    requires AreReads(log, tableAt, cap) && InTextOrder(PartsOf(log)) && forall j: nat :: IsTable(tableAt(j))
    ensures ColumnsFixed(tableAt) || Unchanging(tableAt) ==> OnceEach(Joined(log))
  {
    if Unchanging(tableAt) {
      UnchangingIsFixed(tableAt);
    }
    if ColumnsFixed(tableAt) {
      FixedColumnsComeOnce(log, tableAt, cap);
    }
  }

  lemma {:induction false} AllStayingAreRead(log: seq<Read>, tableAt: nat -> seq<Row>, cap: nat,
                                             values: seq<Option<string>>)
    requires AreReads(log, tableAt, cap) && forall j: nat :: IsTable(tableAt(j))
    requires forall v :: v in PartsOf(log) <==> Some(v) in values
    ensures (forall k :: 0 <= k < |log| ==> log[k].whole) ==>
              forall r :: Asked(r, values) && AlwaysThere(tableAt, RequestsOf(log), r) ==> r in Joined(log)
  {
    if forall k :: 0 <= k < |log| ==> log[k].whole {
      forall r | Asked(r, values) && AlwaysThere(tableAt, RequestsOf(log), r) ensures r in Joined(log) {
        JoinedIsComplete(log, tableAt, cap, r);
      }
    }
  }

  lemma {:induction false} AllOfStaticAreRead(log: seq<Read>, tableAt: nat -> seq<Row>, cap: nat,
                                              values: seq<Option<string>>)
    requires AreReads(log, tableAt, cap) && IsTable(tableAt(0))
    requires forall v :: v in PartsOf(log) <==> Some(v) in values
    ensures Unchanging(tableAt) && PAGE <= cap && |tableAt(0)| <= PAGE * MAX_PAGES ==>
              forall r :: r in tableAt(0) && Asked(r, values) ==> r in Joined(log)
  {
    if Unchanging(tableAt) && PAGE <= cap && |tableAt(0)| <= PAGE * MAX_PAGES {
      forall r | r in tableAt(0) && Asked(r, values) ensures r in Joined(log) {
        JoinedIsStatic(log, tableAt, cap, r);
      }
    }
  }

  /** What the chunks' reads come to. */
  lemma {:induction false} ReadsAnswer(log: seq<Read>, tableAt: nat -> seq<Row>, cap: nat, values: seq<Option<string>>)
    requires AreReads(log, tableAt, cap) && forall j: nat :: IsTable(tableAt(j))
    requires InTextOrder(PartsOf(log)) && forall v :: v in PartsOf(log) <==> Some(v) in values
    ensures Answer(Joined(log), log, tableAt, cap, values)
  {
    forall r | r in Joined(log) ensures SeenAtSomeRequest(tableAt, RequestsOf(log), r) && Asked(r, values) {
      JoinedIsSound(log, tableAt, cap, r);
    }
    OnceUnlessCaughtTwice(log, tableAt, cap);
    ComesOnce(log, tableAt, cap);
    AllStayingAreRead(log, tableAt, cap, values);
    AllOfStaticAreRead(log, tableAt, cap, values);
  }

  /** The reads so far, of chunks no larger than asked. */
  ghost predicate Sent(log: seq<Read>, tableAt: nat -> seq<Row>, cap: nat, chunk: nat, requests: nat) {
    && AreReads(log, tableAt, cap) && requests == RequestsOf(log)
    && forall k :: 0 <= k < |log| ==> 0 < |log[k].part| <= chunk
  }

  /** The next chunk. */
  method SendChunk(tableAt: nat -> seq<Row>, ghost log: seq<Read>, ghost chunk: nat, requests: nat, part: seq<string>,
                   cap: nat)
    returns (rows: seq<Row>, pages: nat, ghost more: seq<Read>)
    requires (forall j: nat :: IsTable(tableAt(j))) && 0 < |part| <= chunk && Sent(log, tableAt, cap, chunk, requests)
    ensures Sent(more, tableAt, cap, chunk, requests + pages)
    ensures Joined(more) == Joined(log) + rows && PartsOf(more) == PartsOf(log) + part
  {
    ghost var rd;
    rows, pages, rd := FetchPart(tableAt, requests, part, cap);
    OneReadMore(log, rd, tableAt, cap);
    more := log + [rd];
  }

  /** The chunks, one after another. */
  method SendAll(tableAt: nat -> seq<Row>, wanted: seq<string>, cap: nat, chunk: nat)
    returns (out: seq<Row>, ghost log: seq<Read>)
    requires (forall j: nat :: IsTable(tableAt(j))) && 1 <= chunk
    ensures Sent(log, tableAt, cap, chunk, RequestsOf(log)) && out == Joined(log) && PartsOf(log) == wanted
  {
    out, log := [], [];
    var requests, i := 0, 0;
    while i < |wanted|
      invariant Sent(log, tableAt, cap, chunk, requests) && out == Joined(log)
      invariant PartsOf(log) == wanted[..Min(i, |wanted|)]
    {
      var end := Min(i + chunk, |wanted|);
      var part := wanted[i..end];
      assert wanted[..end] == wanted[..i] + part;
      var rows, pages;
      rows, pages, log := SendChunk(tableAt, log, chunk, requests, part, cap);
      out := out + rows;
      requests := requests + pages;
      i := i + chunk;
    }
    assert wanted[..Min(i, |wanted|)] == wanted;
  }

  /** Every row whose column is among the values, for every chunk size. `log` is the
      chunks' reads, one request after another, while the table goes on changing. */
  method FetchAllIn(tableAt: nat -> seq<Row>, values: seq<Option<string>>, cap: nat, chunk: nat)
    returns (out: seq<Row>, ghost log: seq<Read>)
    requires (forall j: nat :: IsTable(tableAt(j))) && 1 <= chunk
    ensures Sent(log, tableAt, cap, chunk, RequestsOf(log)) && out == Joined(log)
    ensures InTextOrder(PartsOf(log)) && forall v :: v in PartsOf(log) <==> Some(v) in values
    ensures Answer(out, log, tableAt, cap, values)
  {
    var wanted := Wanted(values);
    out, log := SendAll(tableAt, wanted, cap, chunk);
    ReadsAnswer(log, tableAt, cap, values);
  }

  /** A row there under one of an earlier chunk's values at every request of that
      chunk, and under one of a later chunk's at every request of the later one,
      comes back twice. */
  lemma {:induction false} MovedRowRepeats(log: seq<Read>, tableAt: nat -> seq<Row>, cap: nat, k: nat, l: nat, p: Row,
                                           q: Row)
    requires AreReads(log, tableAt, cap) && forall i: nat :: IsTable(tableAt(i))
    requires k < l < |log| && log[k].whole && log[l].whole && p.key == q.key
    requires Named(p, log[k].part) && forall j :: log[k].from <= j < log[k].from + log[k].pages ==> p in tableAt(j)
    requires Named(q, log[l].part) && forall j :: log[l].from <= j < log[l].from + log[l].pages ==> q in tableAt(j)
    ensures !OnceEach(Joined(log))
  {
    ChunkHasKey(log[k], tableAt, cap, p);
    ChunkHasKey(log[l], tableAt, cap, q);
    KeyTwice(log, k, l, p.key);
  }

  lemma {:induction false} ChunkHasKey(rd: Read, tableAt: nat -> seq<Row>, cap: nat, r: Row)
    requires IsRead(rd, tableAt, cap) && (forall i: nat :: IsTable(tableAt(i))) && rd.whole && Named(r, rd.part)
    requires forall j :: rd.from <= j < rd.from + rd.pages ==> r in tableAt(j)
    ensures IsTable(rd.rows) && HasKey(rd.rows, r.key)
  {
    ChunkIsComplete(rd, tableAt, cap, r);
    var i :| 0 <= i < |rd.rows| && rd.rows[i] == r;
  }

  lemma {:induction false} KeyTwice(log: seq<Read>, k: nat, l: nat, key: int)
    requires (forall i :: 0 <= i < |log| ==> IsTable(log[i].rows)) && k < l < |log|
    requires HasKey(log[k].rows, key) && HasKey(log[l].rows, key)
    ensures !OnceEach(Joined(log))
  {
    JoinedOnce(log);
  }

  /** One bill, filed under "a" at the first request and under "b" from then on. */
  function Moving(j: nat): seq<Row> {
    [Row(1, Some(if j == 0 then "a" else "b"), 0)]
  }

  lemma {:induction false} OnePart(log: seq<Read>, v: string)
    requires (forall k :: 0 <= k < |log| ==> |log[k].part| == 1) && PartsOf(log) == [v]
    ensures |log| == 1 && log[0].part == [v]
  {
    var n := |log| - 1;
    assert |PartsOf(log[..n])| == 0;
  }

  /** A list of two values sent one at a time takes two reads. */
  lemma {:induction false} TwoParts(log: seq<Read>, v: string, w: string)
    requires (forall k :: 0 <= k < |log| ==> |log[k].part| == 1) && PartsOf(log) == [v, w]
    ensures |log| == 2 && log[0].part == [v] && log[1].part == [w]
  {
    var n := |log| - 1;
    var front := log[..n];
    assert PartsOf(log) == PartsOf(front) + log[n].part;
    assert PartsOf(front) == PartsOf(log)[..1] && log[n].part == PartsOf(log)[1..];
    OnePart(front, v);
    assert front[0] == log[0];
  }

  /** Asked for "a" and "b", one at a time, while the bill moves: it comes back
      twice, from any server that honours the page size. */
  lemma {:induction false} MovingBillComesTwice(log: seq<Read>, cap: nat)
    requires PAGE <= cap && Sent(log, Moving, cap, 1, RequestsOf(log)) && PartsOf(log) == ["a", "b"]
    ensures !OnceEach(Joined(log))
  {
    TwoParts(log, "a", "b");
    SmallRead(log[0], cap);
    SmallRead(log[1], cap);
    assert log[0].from == RequestsOf([]) && log[..0] == [] && log[..1] == [log[0]];
    var p, q := Row(1, Some("a"), 0), Row(1, Some("b"), 0);
    assert p.column.value == ["a"][0] && q.column.value == ["b"][0];
    MovedRowRepeats(log, Moving, cap, 0, 1, p, q);
  }

  lemma {:induction false} SmallRead(rd: Read, cap: nat)
    requires IsRead(rd, Moving, cap)
    ensures |rd.rows| <= 1
  {
    if |rd.rows| > 1 {
      assert rd.rows[0] in rd.rows && rd.rows[1] in rd.rows;
      var i := RowOfRead(rd, Moving, cap, rd.rows[0]);
      var j := RowOfRead(rd, Moving, cap, rd.rows[1]);
    }
  }
}
