/** The sliding-window limiter as a state machine over calls with a clock that
    never goes back: what each call does to the table of buckets, and what holds
    of whole runs. Time is real-valued seconds. */
module RateWindow {
  import opened Text
  import opened Sorting

  datatype Key = Key(text: string)

  /** A budget of `maxEvents` per `window` seconds, over at most `maxKeys` keys. */
  datatype Limits = Limits(maxEvents: int, window: real, maxKeys: int)

  predicate Usable(l: Limits) {
    l.maxEvents >= 1 && l.window > 0.0 && l.maxKeys >= 1
  }

  /** The dictionary of deques: its keys in insertion order, and each key's bucket
      of accepted times, oldest first. */
  datatype Table = Table(order: seq<Key>, events: map<Key, seq<real>>)

  function Ceil(x: real): int { -((-x).Floor) }

  /** When a key was last let through; nothing for one that has no events. */
  function Warmth(events: map<Key, seq<real>>, k: Key): real {
    if k in events && events[k] != [] then events[k][|events[k]| - 1] else 0.0
  }

  function ColderFirst(events: map<Key, seq<real>>): (Key, Key) -> bool {
    (a: Key, b: Key) => Warmth(events, a) <= Warmth(events, b)
  }

  function Max(a: int, b: int): int { if a < b then b else a }
  function Min(a: int, b: int): int { if a < b then a else b }

  /** How many keys one clearing drops: a quarter of the table, at least one. */
  function DropCount(l: Limits, size: nat): nat
    requires Usable(l)
  {
    Min(Max(1, l.maxKeys / 4), size)
  }

  function WithoutTo(order: seq<Key>, n: nat, gone: seq<Key>): seq<Key>
    requires n <= |order|
  {
    if n == 0 then [] else WithoutTo(order, n - 1, gone) + if order[n - 1] in gone then [] else [order[n - 1]]
  }

  /** `gone` is what a clearing drops: the front of the keys sorted by warmth,
      ties in the order they came in. */
  ghost predicate IsColdest(l: Limits, t: Table, gone: seq<Key>)
    requires Usable(l)
  {
    exists ranked :: StableOrder(ranked, t.order, ColderFirst(t.events)) && DropCount(l, |t.order|) <= |ranked|
                     && gone == ranked[..DropCount(l, |t.order|)]
  }

  function Cleared(t: Table, gone: seq<Key>): Table {
    Table(WithoutTo(t.order, |t.order|, gone), map k | k in t.events && k !in gone :: t.events[k])
  }

  /** A new key finding the table full has the coldest keys dropped for it. */
  predicate NeedsRoom(l: Limits, t: Table, key: Key) {
    key !in t.events && |t.order| >= l.maxKeys
  }

  /** The table once there is room for `key`, `gone` being what a clearing drops. */
  function Room(l: Limits, t: Table, key: Key, gone: seq<Key>): Table {
    if NeedsRoom(l, t, key) then Cleared(t, gone) else t
  }

  function Bucket(t: Table, key: Key): seq<real> {
    if key in t.events then t.events[key] else []
  }

  function Stored(t: Table, key: Key, b: seq<real>): Table {
    Table(if key in t.events then t.order else t.order + [key], t.events[key := b])
  }

  /** How many events at the front have aged out, counting from `k`. */
  function Expired(bucket: seq<real>, cutoff: real, k: nat): (r: nat)
    requires k <= |bucket|
    ensures k <= r <= |bucket|
    decreases |bucket| - k
  {
    if k < |bucket| && bucket[k] <= cutoff then Expired(bucket, cutoff, k + 1) else k
  }

  function Trim(bucket: seq<real>, cutoff: real): seq<real> {
    bucket[Expired(bucket, cutoff, 0)..]
  }

  /** The key's events still inside the window. */
  function Kept(l: Limits, t: Table, key: Key, now: real, gone: seq<Key>): seq<real> {
    Trim(Bucket(Room(l, t, key, gone), key), now - l.window)
  }

  /** The table after a call: a refused event is not recorded. */
  function After(l: Limits, t: Table, key: Key, now: real, gone: seq<Key>): Table {
    var kept := Kept(l, t, key, now, gone);
    Stored(Room(l, t, key, gone), key, if |kept| >= l.maxEvents then kept else kept + [now])
  }

  /** The answer: None when the event is recorded, or the whole seconds to wait. */
  function Answer(l: Limits, t: Table, key: Key, now: real, gone: seq<Key>): Option<int>
    requires Usable(l)
  {
    var kept := Kept(l, t, key, now, gone);
    if |kept| >= l.maxEvents then Some(Max(1, Ceil(kept[0] + l.window - now))) else None
  }

  // ---- One call -------------------------------------------------------------------

  ghost predicate Ascending(s: seq<real>) {
    forall i, j :: 0 <= i < j < |s| ==> s[i] <= s[j]
  }

  /** Every stored bucket is non-empty, in time order and within the budget, and
      the table is within its cap. */
  ghost predicate Good(l: Limits, t: Table, clock: real) {
    && (forall i, j :: 0 <= i < j < |t.order| ==> t.order[i] != t.order[j])
    && (forall k :: k in t.events <==> k in t.order)
    && |t.order| <= l.maxKeys
    && forall k :: k in t.events ==> GoodBucket(l, t.events[k], clock)
  }

  ghost predicate GoodBucket(l: Limits, b: seq<real>, clock: real) {
    && 1 <= |b| <= l.maxEvents && Ascending(b)
    && b[|b| - 1] <= clock
  }

  lemma {:induction false} ExpiredAreOld(b: seq<real>, cutoff: real, k: nat)
    requires k <= |b|
    ensures var r := Expired(b, cutoff, k);
            (forall i :: k <= i < r ==> b[i] <= cutoff) && (r < |b| ==> b[r] > cutoff)
    decreases |b| - k
  {
    if k < |b| && b[k] <= cutoff {
      ExpiredAreOld(b, cutoff, k + 1);
    }
  }

  lemma {:induction false} WithoutIsFilter(order: seq<Key>, n: nat, gone: seq<Key>)
    requires n <= |order|
    requires forall i, j :: 0 <= i < j < |order| ==> order[i] != order[j]
    ensures var r := WithoutTo(order, n, gone);
            && (forall i, j :: 0 <= i < j < |r| ==> r[i] != r[j])
            && (forall k :: k in r <==> k in order[..n] && k !in gone)
            && |r| <= n
            && ((exists i :: 0 <= i < n && order[i] in gone) ==> |r| < n)
  {
    if n > 0 {
      WithoutIsFilter(order, n - 1, gone);
      assert order[..n] == order[..n - 1] + [order[n - 1]];
      assert order[n - 1] !in order[..n - 1];
    }
  }

  /** What is dropped is exactly that many keys, none warmer than any that stay. */
  lemma {:induction false} DropsTheColdest(l: Limits, t: Table, gone: seq<Key>)
    requires Usable(l) && IsColdest(l, t, gone)
    ensures |gone| == DropCount(l, |t.order|)
    ensures forall k :: k in gone ==> k in t.order
    ensures forall a, b :: a in gone && b in t.order && b !in gone ==> Warmth(t.events, a) <= Warmth(t.events, b)
  {
    var le := ColderFirst(t.events);
    var ranked :| StableOrder(ranked, t.order, le) && DropCount(l, |t.order|) <= |ranked|
                  && gone == ranked[..DropCount(l, |t.order|)];
    SameElements(ranked, t.order);
    assert forall n :: 0 <= n < |gone| ==> gone[n] == ranked[n];
    forall k | k in gone ensures k in t.order {
      assert k in ranked;
    }
    forall a, b | a in gone && b in t.order && b !in gone ensures Warmth(t.events, a) <= Warmth(t.events, b) {
      var i :| 0 <= i < |gone| && gone[i] == a;
      assert b in ranked;
      var j :| 0 <= j < |ranked| && ranked[j] == b;
      assert le(ranked[i], ranked[j]);
    }
  }

  lemma {:induction false} WarmthIsPreorder(events: map<Key, seq<real>>)
    ensures Preorder(ColderFirst(events))
  {
  }

  /** What a clearing drops is settled by the table: there is no choice in it. */
  lemma {:induction false} DropsAreDetermined(l: Limits, t: Table, gone: seq<Key>, gone': seq<Key>)
    requires Usable(l) && IsColdest(l, t, gone) && IsColdest(l, t, gone')
    ensures gone == gone'
  {
    var le := ColderFirst(t.events);
    WarmthIsPreorder(t.events);
    var ranked :| StableOrder(ranked, t.order, le) && DropCount(l, |t.order|) <= |ranked|
                  && gone == ranked[..DropCount(l, |t.order|)];
    var ranked' :| StableOrder(ranked', t.order, le) && DropCount(l, |t.order|) <= |ranked'|
                   && gone' == ranked'[..DropCount(l, |t.order|)];
    StableIsUnique(ranked, ranked', t.order, le);
  }

  lemma {:induction false} ClearedIsGood(l: Limits, t: Table, clock: real, gone: seq<Key>)
    requires Usable(l) && Good(l, t, clock) && t.order != [] && IsColdest(l, t, gone)
    ensures Good(l, Cleared(t, gone), clock) && |Cleared(t, gone).order| < |t.order|
  {
    DropsTheColdest(l, t, gone);
    WithoutIsFilter(t.order, |t.order|, gone);
    assert t.order[..|t.order|] == t.order;
    assert gone[0] in gone;
    var i :| 0 <= i < |t.order| && t.order[i] == gone[0];
    assert t.order[i] in gone;
  }

  lemma {:induction false} StoredIsGood(l: Limits, t: Table, key: Key, b: seq<real>, clock: real, now: real)
    requires Usable(l) && Good(l, t, clock) && clock <= now
    requires GoodBucket(l, b, now) && (key in t.events || |t.order| < l.maxKeys)
    ensures Good(l, Stored(t, key, b), now)
  {
    assert forall k :: k in t.events ==> GoodBucket(l, t.events[k], now);
  }

  lemma {:induction false} RoomIsGood(l: Limits, t: Table, key: Key, clock: real, gone: seq<Key>)
    requires Usable(l) && Good(l, t, clock) && (NeedsRoom(l, t, key) ==> IsColdest(l, t, gone))
    ensures var room := Room(l, t, key, gone);
            && Good(l, room, clock)
            && (key in t.events ==> room == t)
            && (key !in t.events ==> key !in room.events && |room.order| < l.maxKeys)
  {
    if NeedsRoom(l, t, key) {
      ClearedIsGood(l, t, clock, gone);
    }
  }

  lemma {:induction false} TrimmedIsGood(l: Limits, b: seq<real>, clock: real, now: real)
    requires Usable(l) && clock <= now && (b == [] || GoodBucket(l, b, clock))
    ensures var c := Trim(b, now - l.window);
            && (|c| >= l.maxEvents ==> GoodBucket(l, c, now) && c == b)
            && (|c| < l.maxEvents ==> GoodBucket(l, c + [now], now))
  {
    ExpiredAreOld(b, now - l.window, 0);
  }

  /** Every call keeps the table good and stores the key. */
  lemma {:induction false} HitKeepsGood(l: Limits, t: Table, key: Key, clock: real, now: real, gone: seq<Key>)
    requires Usable(l) && Good(l, t, clock) && clock <= now && (NeedsRoom(l, t, key) ==> IsColdest(l, t, gone))
    ensures Good(l, After(l, t, key, now, gone), now) && key in After(l, t, key, now, gone).events
  {
    var room, kept := Room(l, t, key, gone), Kept(l, t, key, now, gone);
    RoomIsGood(l, t, key, clock, gone);
    TrimmedIsGood(l, Bucket(room, key), clock, now);
    StoredIsGood(l, room, key, if |kept| >= l.maxEvents then kept else kept + [now], clock, now);
  }

  /** A call for another key leaves this key's bucket as it was, or drops it. */
  lemma {:induction false} OthersLeaveBucket(l: Limits, t: Table, key: Key, other: Key, now: real, gone: seq<Key>)
    requires key != other
    ensures var t' := After(l, t, other, now, gone);
            if NeedsRoom(l, t, other) && key in gone then key !in t'.events
            else (key in t'.events <==> key in t.events) && Bucket(t', key) == Bucket(t, key)
  {
  }

  /** `kept` is what a cut-off leaves of a bucket: the times past it. */
  ghost predicate LeftOf(kept: seq<real>, bucket: seq<real>, cutoff: real) {
    && |kept| <= |bucket| && kept == bucket[|bucket| - |kept|..]
    && (forall i :: 0 <= i < |bucket| - |kept| ==> bucket[i] <= cutoff)
    && (Ascending(bucket) ==> forall x :: x in kept ==> x > cutoff)
  }

  /** What one call makes of its key's bucket: the times inside the window are kept;
      a full budget of them refuses the call, and otherwise the call's own time is
      put behind them. */
  ghost predicate Recorded(l: Limits, bucket: seq<real>, after: seq<real>, now: real, answer: Option<int>) {
    match answer
    case Some(_) => |after| >= l.maxEvents && LeftOf(after, bucket, now - l.window)
    case None =>
      && 1 <= |after| <= l.maxEvents && after[|after| - 1] == now
      && LeftOf(after[..|after| - 1], bucket, now - l.window)
  }

  /** Nobody's bucket but this key's has changed. */
  ghost predicate OthersStay(before: map<Key, seq<real>>, after: map<Key, seq<real>>, key: Key) {
    forall k :: k != key ==> (k in after <==> k in before) && (k in before && k in after ==> after[k] == before[k])
  }

  lemma {:induction false} TrimIsLeft(b: seq<real>, cutoff: real)
    ensures LeftOf(Trim(b, cutoff), b, cutoff)
  {
    ExpiredAreOld(b, cutoff, 0);
    var n, kept := Expired(b, cutoff, 0), Trim(b, cutoff);
    if Ascending(b) {
      forall x | x in kept ensures x > cutoff {
        var i :| 0 <= i < |kept| && kept[i] == x;
        assert kept[i] == b[n + i] && (i == 0 || b[n] <= b[n + i]);
      }
    }
  }

  lemma {:induction false} CallIsRecorded(l: Limits, t: Table, key: Key, now: real, gone: seq<Key>)
    requires Usable(l)
    ensures var t' := After(l, t, key, now, gone);
            key in t'.events && Recorded(l, Bucket(t, key), t'.events[key], now, Answer(l, t, key, now, gone))
  {
    var c := Call(key, now, gone, Answer(l, t, key, now, gone));
    OwnBucketAfter(l, t, c);
    RefusedMeansFull(l, t, c);
    KeptIsRecorded(l, Bucket(t, key), now, c.answer);
  }

  lemma {:induction false} KeptIsRecorded(l: Limits, b: seq<real>, now: real, answer: Option<int>)
    requires answer.Some? <==> |Trim(b, now - l.window)| >= l.maxEvents
    ensures var kept := Trim(b, now - l.window);
            Recorded(l, b, if answer.Some? then kept else kept + [now], now, answer)
  {
    var kept := Trim(b, now - l.window);
    TrimIsLeft(b, now - l.window);
    assert (kept + [now])[..|kept|] == kept;
  }

  lemma {:induction false} OthersStayBelowCap(l: Limits, t: Table, key: Key, now: real, gone: seq<Key>)
    requires key in t.events || |t.order| < l.maxKeys
    ensures OthersStay(t.events, After(l, t, key, now, gone).events, key)
  {
  }

  // ---- The wait a refusal states ----------------------------------------------------

  lemma {:induction false} CeilBounds(x: real)
    ensures x <= Ceil(x) as real < x + 1.0
  {
  }

  /** After a refusal that says `wait`: at least that many seconds later the
      bucket no longer fills the budget; until its oldest event ages out it still
      does, and so it does one whole second short of the wait. */
  lemma {:induction false} WaitIsExact(l: Limits, t: Table, key: Key, clock: real, now: real, later: real,
                                       gone: seq<Key>)
    requires Usable(l) && Good(l, t, clock) && clock <= now <= later
    requires (NeedsRoom(l, t, key) ==> IsColdest(l, t, gone)) && Answer(l, t, key, now, gone).Some?
    ensures var wait, b := Answer(l, t, key, now, gone).value, Bucket(After(l, t, key, now, gone), key);
            && wait >= 1 && b != []
            && (later >= now + wait as real ==> |Trim(b, later - l.window)| < l.maxEvents)
            && (later < b[0] + l.window ==> |Trim(b, later - l.window)| >= l.maxEvents)
            && (wait > 1 && later <= now + (wait - 1) as real ==> |Trim(b, later - l.window)| >= l.maxEvents)
  {
    HitKeepsGood(l, t, key, clock, now, gone);
    var wait, b := Answer(l, t, key, now, gone).value, Bucket(After(l, t, key, now, gone), key);
    assert GoodBucket(l, b, now);
    CeilBounds(b[0] + l.window - now);
    ExpiredAreOld(b, later - l.window, 0);
    assert (wait - 1) as real == wait as real - 1.0;
  }

  // ---- Whole runs ---------------------------------------------------------------------

  /** One call of a run: the key, the time read from the clock, what a clearing
      drops if this call needs one, and the answer. */
  datatype Call = Call(key: Key, at: real, gone: seq<Key>, answer: Option<int>)

  /** The calls made and the table before and after each. */
  datatype Run = Run(calls: seq<Call>, tables: seq<Table>)

  /** The `i`-th call did what a call does, and its clearing, if it needed one,
      dropped the coldest. */
  ghost predicate StepOk(l: Limits, r: Run, i: nat)
    requires Usable(l) && i < |r.calls| && |r.tables| == |r.calls| + 1
  {
    var c, t := r.calls[i], r.tables[i];
    && r.tables[i + 1] == After(l, t, c.key, c.at, c.gone)
    && c.answer == Answer(l, t, c.key, c.at, c.gone)
    && (NeedsRoom(l, t, c.key) ==> IsColdest(l, t, c.gone))
  }

  /** A run on an empty limiter whose clock never goes back. */
  ghost predicate IsRun(l: Limits, r: Run)
    requires Usable(l)
  {
    && |r.tables| == |r.calls| + 1 && r.tables[0] == Table([], map[])
    && (forall i, j :: 0 <= i < j < |r.calls| ==> r.calls[i].at <= r.calls[j].at)
    && forall i :: 0 <= i < |r.calls| ==> StepOk(l, r, i)
  }

  ghost predicate Drops(l: Limits, r: Run, i: nat, key: Key)
    requires i < |r.calls| < |r.tables|
  {
    NeedsRoom(l, r.tables[i], r.calls[i].key) && key in r.calls[i].gone
  }

  /** Whether any of the first `n` calls had `key` dropped. */
  ghost predicate EverDropped(l: Limits, r: Run, n: nat, key: Key)
    requires n <= |r.calls| < |r.tables|
  {
    exists i :: 0 <= i < n && Drops(l, r, i, key)
  }

  /** The times at which `key` was let through by the first `n` calls. */
  function Accepted(calls: seq<Call>, n: nat, key: Key): seq<real>
    requires n <= |calls|
  {
    if n == 0 then []
    else if calls[n - 1].key == key && calls[n - 1].answer == None then Accepted(calls, n - 1, key) + [calls[n - 1].at]
    else Accepted(calls, n - 1, key)
  }

  function Clock(calls: seq<Call>, n: nat): real
    requires n <= |calls|
  {
    if n > 0 then calls[n - 1].at else if calls == [] then 0.0 else calls[0].at
  }

  /** The table is good, and so within its bounds, after every call of every run. */
  lemma {:induction false} RunKeepsGood(l: Limits, r: Run, n: nat)
    requires Usable(l) && IsRun(l, r) && n <= |r.calls|
    ensures Good(l, r.tables[n], Clock(r.calls, n))
  {
    if n > 0 {
      RunKeepsGood(l, r, n - 1);
      var c := r.calls[n - 1];
      assert StepOk(l, r, n - 1);
      HitKeepsGood(l, r.tables[n - 1], c.key, Clock(r.calls, n - 1), c.at, c.gone);
    }
  }

  /** A bucket holds the last of its key's accepted times; those it does not hold
      have aged out, unless the key was dropped along the way. */
  ghost predicate Tracks(b: seq<real>, acc: seq<real>, dropped: bool, cutoff: real) {
    && |b| <= |acc|
    && (forall i :: 0 <= i < |b| ==> b[i] == acc[|acc| - |b| + i])
    && (!dropped ==> forall i :: 0 <= i < |acc| - |b| ==> acc[i] <= cutoff)
  }

  lemma {:induction false} OwnCallTracks(l: Limits, t: Table, c: Call, acc: seq<real>, dropped: bool, dropped': bool,
                                         clock: real)
    requires Usable(l) && clock <= c.at && (dropped ==> dropped')
    requires Tracks(Bucket(t, c.key), acc, dropped, clock - l.window)
    ensures var acc' := if Answer(l, t, c.key, c.at, c.gone) == None then acc + [c.at] else acc;
            Tracks(Bucket(After(l, t, c.key, c.at, c.gone), c.key), acc', dropped', c.at - l.window)
  {
    var held, full := Bucket(t, c.key), Answer(l, t, c.key, c.at, c.gone).Some?;
    OwnBucketAfter(l, t, c);
    TrimmedTracks(held, acc, dropped, dropped', clock - l.window, c.at - l.window);
    if !full {
      AppendTracks(Trim(held, c.at - l.window), acc, dropped', c.at - l.window, c.at);
    }
  }

  lemma {:induction false} OwnBucketAfter(l: Limits, t: Table, c: Call)
    requires Usable(l)
    ensures var kept := Trim(Bucket(t, c.key), c.at - l.window);
            Bucket(After(l, t, c.key, c.at, c.gone), c.key) ==
            if Answer(l, t, c.key, c.at, c.gone).Some? then kept else kept + [c.at]
  {
    assert Bucket(Room(l, t, c.key, c.gone), c.key) == Bucket(t, c.key);
  }

  lemma {:induction false} AppendTracks(b: seq<real>, acc: seq<real>, dropped: bool, cutoff: real, now: real)
    requires Tracks(b, acc, dropped, cutoff)
    ensures Tracks(b + [now], acc + [now], dropped, cutoff)
  {
    var b', acc' := b + [now], acc + [now];
    forall i | 0 <= i < |b'| ensures b'[i] == acc'[|acc'| - |b'| + i] {
      if i < |b| {
        assert b[i] == acc[|acc| - |b| + i];
      }
    }
  }

  lemma {:induction false} TrimmedTracks(b: seq<real>, acc: seq<real>, dropped: bool, dropped': bool, before: real,
                                         now: real)
    requires before <= now && (dropped ==> dropped') && Tracks(b, acc, dropped, before)
    ensures Tracks(Trim(b, now), acc, dropped', now)
  {
    var kept := Trim(b, now);
    ExpiredAreOld(b, now, 0);
    forall i | 0 <= i < |acc| - |kept| && !dropped' ensures acc[i] <= now {
      if i >= |acc| - |b| {
        assert acc[i] == b[i - (|acc| - |b|)];
      }
    }
  }

  lemma {:induction false} OthersCallTracks(l: Limits, t: Table, key: Key, c: Call, acc: seq<real>, dropped: bool,
                                            dropped': bool, clock: real)
    requires clock <= c.at && c.key != key && (dropped ==> dropped')
    requires NeedsRoom(l, t, c.key) && key in c.gone ==> dropped'
    requires Tracks(Bucket(t, key), acc, dropped, clock - l.window)
    ensures Tracks(Bucket(After(l, t, c.key, c.at, c.gone), key), acc, dropped', c.at - l.window)
  {
    OthersLeaveBucket(l, t, key, c.key, c.at, c.gone);
  }

  lemma {:induction false} DroppedStep(l: Limits, r: Run, n: nat, key: Key)
    requires 0 < n <= |r.calls| < |r.tables|
    ensures EverDropped(l, r, n, key) <==> EverDropped(l, r, n - 1, key) || Drops(l, r, n - 1, key)
  {
  }

  lemma {:induction false} CallTracks(l: Limits, t: Table, key: Key, c: Call, acc: seq<real>, dropped: bool,
                                      dropped': bool, clock: real)
    requires Usable(l) && clock <= c.at && c.answer == Answer(l, t, c.key, c.at, c.gone)
    requires (dropped ==> dropped') && (NeedsRoom(l, t, c.key) && key in c.gone ==> dropped')
    requires Tracks(Bucket(t, key), acc, dropped, clock - l.window)
    ensures Tracks(Bucket(After(l, t, c.key, c.at, c.gone), key),
                   if c.key == key && c.answer == None then acc + [c.at] else acc,
                   dropped', c.at - l.window)
  {
    if c.key == key {
      OwnCallTracks(l, t, c, acc, dropped, dropped', clock);
    } else {
      OthersCallTracks(l, t, key, c, acc, dropped, dropped', clock);
    }
  }

  ghost predicate TracksAt(l: Limits, r: Run, n: nat, key: Key)
    requires Usable(l) && n <= |r.calls| < |r.tables|
  {
    Tracks(Bucket(r.tables[n], key), Accepted(r.calls, n, key), EverDropped(l, r, n, key), Clock(r.calls, n) - l.window)
  }

  lemma {:induction false} AcceptedStep(calls: seq<Call>, i: nat, key: Key)
    requires i < |calls|
    ensures var c, acc := calls[i], Accepted(calls, i, key);
            Accepted(calls, i + 1, key) == if c.key == key && c.answer == None then acc + [c.at] else acc
    ensures Clock(calls, i + 1) == calls[i].at
  {
  }

  lemma {:induction false} StepTracks(l: Limits, r: Run, i: nat, key: Key)
    requires Usable(l) && i < |r.calls| && |r.tables| == |r.calls| + 1 && StepOk(l, r, i)
    requires Clock(r.calls, i) <= r.calls[i].at && TracksAt(l, r, i, key)
    ensures TracksAt(l, r, i + 1, key)
  {
    var c, t, acc := r.calls[i], r.tables[i], Accepted(r.calls, i, key);
    var dropped, dropped' := EverDropped(l, r, i, key), EverDropped(l, r, i + 1, key);
    DroppedStep(l, r, i + 1, key);
    AcceptedStep(r.calls, i, key);
    assert NeedsRoom(l, t, c.key) && key in c.gone ==> dropped' by {
      assert NeedsRoom(l, t, c.key) && key in c.gone ==> Drops(l, r, i, key);
    }
    assert dropped ==> dropped';
    CallTracks(l, t, key, c, acc, dropped, dropped', Clock(r.calls, i));
    assert r.tables[i + 1] == After(l, t, c.key, c.at, c.gone);
  }

  lemma {:induction false} RunTracks(l: Limits, r: Run, n: nat, key: Key)
    requires Usable(l) && IsRun(l, r) && n <= |r.calls|
    ensures TracksAt(l, r, n, key)
  {
    if n > 0 {
      RunTracks(l, r, n - 1, key);
      StepTracks(l, r, n - 1, key);
    }
  }

  // ---- Safety and fairness --------------------------------------------------------------

  /** How many of the first `n` times lie in the half-open window (from, to]. */
  function CountIn(times: seq<real>, n: nat, from: real, to: real): nat
    requires n <= |times|
  {
    if n == 0 then 0 else CountIn(times, n - 1, from, to) + if from < times[n - 1] <= to then 1 else 0
  }

  lemma {:induction false} AcceptedAscends(calls: seq<Call>, n: nat, key: Key)
    requires n <= |calls| && forall i, j :: 0 <= i < j < |calls| ==> calls[i].at <= calls[j].at
    ensures Ascending(Accepted(calls, n, key))
    ensures forall i :: 0 <= i < |Accepted(calls, n, key)| ==> Accepted(calls, n, key)[i] <= Clock(calls, n)
  {
    if n > 0 {
      AcceptedAscends(calls, n - 1, key);
    }
  }

  /** Any event and the one a whole budget later are a full window apart. */
  ghost predicate Spaced(l: Limits, acc: seq<real>)
    requires Usable(l)
  {
    forall i :: 0 <= i < |acc| - l.maxEvents ==> acc[i] + l.window <= acc[i + l.maxEvents]
  }

  lemma {:induction false} NextIsSpaced(l: Limits, b: seq<real>, acc: seq<real>, clock: real, now: real, accepted: bool)
    requires Usable(l) && Spaced(l, acc) && clock <= now && Tracks(b, acc, false, clock - l.window)
    requires accepted ==> |Trim(b, now - l.window)| < l.maxEvents
    ensures Spaced(l, if accepted then acc + [now] else acc)
  {
    if accepted {
      AcceptedIsSpaced(l, b, acc, clock, now);
    }
  }

  lemma {:induction false} AcceptedHasRoom(l: Limits, r: Run, i: nat, key: Key)
    requires Usable(l) && IsRun(l, r) && i < |r.calls|
    ensures Clock(r.calls, i) <= r.calls[i].at
    ensures r.calls[i].key == key && r.calls[i].answer == None ==>
              |Trim(Bucket(r.tables[i], key), r.calls[i].at - l.window)| < l.maxEvents
  {
    AnswerInRun(l, r, i);
  }

  lemma {:induction false} CallIsSpaced(l: Limits, b: seq<real>, acc: seq<real>, acc': seq<real>, clock: real, c: Call,
                                        key: Key)
    requires Usable(l) && Spaced(l, acc) && clock <= c.at && Tracks(b, acc, false, clock - l.window)
    requires c.key == key && c.answer == None ==> |Trim(b, c.at - l.window)| < l.maxEvents
    requires acc' == if c.key == key && c.answer == None then acc + [c.at] else acc
    ensures Spaced(l, acc')
  {
    NextIsSpaced(l, b, acc, clock, c.at, c.key == key && c.answer == None);
  }

  lemma {:induction false} TracksUndropped(l: Limits, r: Run, i: nat, key: Key)
    requires Usable(l) && i <= |r.calls| < |r.tables| && !EverDropped(l, r, i, key) && TracksAt(l, r, i, key)
    ensures Tracks(Bucket(r.tables[i], key), Accepted(r.calls, i, key), false, Clock(r.calls, i) - l.window)
  {
  }

  lemma {:induction false} AcceptedAreSpaced(l: Limits, r: Run, n: nat, key: Key)
    requires Usable(l) && IsRun(l, r) && n <= |r.calls| && !EverDropped(l, r, n, key)
    ensures Spaced(l, Accepted(r.calls, n, key))
  {
    if n > 0 {
      var i := n - 1;
      DroppedStep(l, r, n, key);
      AcceptedAreSpaced(l, r, i, key);
      RunTracks(l, r, i, key);
      AcceptedHasRoom(l, r, i, key);
      AcceptedStep(r.calls, i, key);
      TracksUndropped(l, r, i, key);
      CallIsSpaced(l, Bucket(r.tables[i], key), Accepted(r.calls, i, key), Accepted(r.calls, n, key),
                   Clock(r.calls, i), r.calls[i], key);
    }
  }

  /** A call is refused exactly when what is left of the bucket fills the budget. */
  lemma {:induction false} RefusedMeansFull(l: Limits, t: Table, c: Call)
    requires Usable(l)
    ensures Answer(l, t, c.key, c.at, c.gone).Some? <==> |Trim(Bucket(t, c.key), c.at - l.window)| >= l.maxEvents
  {
    assert Bucket(Room(l, t, c.key, c.gone), c.key) == Bucket(t, c.key);
  }

  lemma {:induction false} AnswerInRun(l: Limits, r: Run, i: nat)
    requires Usable(l) && IsRun(l, r) && i < |r.calls|
    ensures var c := r.calls[i];
            && (c.answer.Some? <==> |Trim(Bucket(r.tables[i], c.key), c.at - l.window)| >= l.maxEvents)
            && Clock(r.calls, i) <= c.at
  {
    assert StepOk(l, r, i);
    RefusedMeansFull(l, r.tables[i], r.calls[i]);
  }

  lemma {:induction false} AcceptedIsSpaced(l: Limits, b: seq<real>, acc: seq<real>, clock: real, now: real)
    requires Usable(l) && Spaced(l, acc) && clock <= now && |Trim(b, now - l.window)| < l.maxEvents
    requires Tracks(b, acc, false, clock - l.window)
    ensures Spaced(l, acc + [now])
  {
    TrimmedTracks(b, acc, false, false, clock - l.window, now - l.window);
    SpacedStep(l, acc, Trim(b, now - l.window), now);
  }

  lemma {:induction false} SpacedStep(l: Limits, acc: seq<real>, kept: seq<real>, now: real)
    requires Usable(l) && Spaced(l, acc) && |kept| < l.maxEvents && Tracks(kept, acc, false, now - l.window)
    ensures Spaced(l, acc + [now])
  {
    var acc' := acc + [now];
    forall i | 0 <= i < |acc'| - l.maxEvents ensures acc'[i] + l.window <= acc'[i + l.maxEvents] {
      if i + l.maxEvents < |acc| {
        assert acc[i] + l.window <= acc[i + l.maxEvents];
      } else {
        assert i < |acc| - |kept|;
      }
    }
  }

  /** Spaced times never put more than the budget into one window: only the
      `maxEvents` of them from the first one past its start can be inside. */
  lemma {:induction false} SpacedBoundsCount(l: Limits, acc: seq<real>, n: nat, from: real, first: nat)
    requires Usable(l) && Ascending(acc) && Spaced(l, acc) && n <= |acc| && first <= |acc|
    requires (forall i :: 0 <= i < first ==> acc[i] <= from) && (first < |acc| ==> from < acc[first])
    ensures CountIn(acc, n, from, from + l.window) <= Max(0, Min(n, first + l.maxEvents) - first)
  {
    if n > 0 {
      SpacedBoundsCount(l, acc, n - 1, from, first);
      if n - 1 >= first + l.maxEvents {
        assert acc[first] + l.window <= acc[first + l.maxEvents];
        assert n - 1 == first + l.maxEvents || acc[first + l.maxEvents] <= acc[n - 1];
      }
    }
  }

  function FirstAfter(acc: seq<real>, from: real, k: nat): (r: nat)
    requires k <= |acc|
    ensures k <= r <= |acc| && (r < |acc| ==> from < acc[r]) && (forall i :: k <= i < r ==> acc[i] <= from)
    decreases |acc| - k
  {
    if k == |acc| || from < acc[k] then k else FirstAfter(acc, from, k + 1)
  }

  /** Safety: a key that was never dropped is let through at most `maxEvents`
      times in any half-open window, over any run. */
  lemma {:induction false} NeverOverBudget(l: Limits, r: Run, key: Key, from: real)
    requires Usable(l) && IsRun(l, r) && !EverDropped(l, r, |r.calls|, key)
    ensures var acc := Accepted(r.calls, |r.calls|, key);
            CountIn(acc, |acc|, from, from + l.window) <= l.maxEvents
  {
    var acc := Accepted(r.calls, |r.calls|, key);
    AcceptedAscends(r.calls, |r.calls|, key);
    AcceptedAreSpaced(l, r, |r.calls|, key);
    SpacedBoundsCount(l, acc, |acc|, from, FirstAfter(acc, from, 0));
  }

  lemma {:induction false} CountOfTail(acc: seq<real>, n: nat, kept: nat, from: real, to: real)
    requires n <= |acc| && kept <= |acc|
    requires forall i :: |acc| - kept <= i < |acc| ==> from < acc[i] <= to
    ensures CountIn(acc, n, from, to) >= n - (|acc| - kept)
    ensures (forall i :: 0 <= i < |acc| - kept ==> acc[i] <= from) ==>
              CountIn(acc, n, from, to) == Max(0, n - (|acc| - kept))
  {
    if n > 0 {
      CountOfTail(acc, n - 1, kept, from, to);
    }
  }

  /** What is kept of a bucket is what a window ending now holds. */
  lemma {:induction false} KeptIsInWindow(b: seq<real>, acc: seq<real>, dropped: bool, cutoff: real, now: real)
    requires Tracks(Trim(b, cutoff), acc, dropped, cutoff) && Ascending(acc)
    requires forall i :: 0 <= i < |acc| ==> acc[i] <= now
    ensures var count := CountIn(acc, |acc|, cutoff, now);
            count >= |Trim(b, cutoff)| && (!dropped ==> count == |Trim(b, cutoff)|)
  {
    var kept := Trim(b, cutoff);
    ExpiredAreOld(b, cutoff, 0);
    forall k | |acc| - |kept| <= k < |acc| ensures cutoff < acc[k] <= now {
      assert kept[0] > cutoff && acc[|acc| - |kept|] == kept[0];
      assert k == |acc| - |kept| || acc[|acc| - |kept|] <= acc[k];
    }
    CountOfTail(acc, |acc|, |kept|, cutoff, now);
  }

  /** Fairness: a call is refused only when a whole budget of hits of the same key
      really was let through inside the window, whatever was dropped; and for a key
      that was never dropped, exactly then. */
  lemma {:induction false} RefusedOnlyWhenSpent(l: Limits, r: Run, i: nat)
    requires Usable(l) && IsRun(l, r) && i < |r.calls|
    ensures var c := r.calls[i];
            var acc := Accepted(r.calls, i, c.key);
            var spent := CountIn(acc, |acc|, c.at - l.window, c.at) >= l.maxEvents;
            && (c.answer.Some? ==> spent)
            && (!EverDropped(l, r, i, c.key) ==> (c.answer.Some? <==> spent))
  {
    var c, t := r.calls[i], r.tables[i];
    var acc, dropped := Accepted(r.calls, i, c.key), EverDropped(l, r, i, c.key);
    RunTracks(l, r, i, c.key);
    AcceptedAscends(r.calls, i, c.key);
    AnswerInRun(l, r, i);
    FullMeansSpent(l, Bucket(t, c.key), acc, dropped, Clock(r.calls, i), c.at);
  }

  lemma {:induction false} FullMeansSpent(l: Limits, b: seq<real>, acc: seq<real>, dropped: bool, clock: real,
                                          now: real)
    requires Usable(l) && clock <= now && Ascending(acc) && forall i :: 0 <= i < |acc| ==> acc[i] <= clock
    requires Tracks(b, acc, dropped, clock - l.window)
    ensures var spent := CountIn(acc, |acc|, now - l.window, now) >= l.maxEvents;
            var full := |Trim(b, now - l.window)| >= l.maxEvents;
            (full ==> spent) && (!dropped ==> (full <==> spent))
  {
    TrimmedTracks(b, acc, dropped, dropped, clock - l.window, now - l.window);
    KeptIsInWindow(b, acc, dropped, now - l.window, now);
  }

  /** While other keys call, a key's bucket stays as it was, unless it is dropped. */
  lemma {:induction false} BucketWaits(l: Limits, r: Run, i: nat, j: nat, key: Key)
    requires Usable(l) && IsRun(l, r) && i <= j <= |r.calls|
    requires forall m :: i <= m < j ==> r.calls[m].key != key
    ensures Bucket(r.tables[j], key) == Bucket(r.tables[i], key) || Bucket(r.tables[j], key) == []
    ensures (forall m :: i <= m < j ==> !Drops(l, r, m, key)) ==> Bucket(r.tables[j], key) == Bucket(r.tables[i], key)
  {
    if i < j {
      BucketWaits(l, r, i, j - 1, key);
      assert StepOk(l, r, j - 1);
      var c := r.calls[j - 1];
      OthersLeaveBucket(l, r.tables[j - 1], key, c.key, c.at, c.gone);
      assert Drops(l, r, j - 1, key) <==> NeedsRoom(l, r.tables[j - 1], c.key) && key in c.gone;
    }
  }

  /** The wait is honoured over runs: refused with `wait`, a key that comes back
      after at least `wait` seconds, not having tried in between, is let through;
      and, unless it was dropped meanwhile, one whole second earlier it is not. */
  lemma {:induction false} WaitIsHonoured(l: Limits, r: Run, i: nat, j: nat)
    requires Usable(l) && IsRun(l, r) && i < j < |r.calls|
    requires r.calls[i].key == r.calls[j].key && r.calls[i].answer.Some?
    requires forall m :: i < m < j ==> r.calls[m].key != r.calls[i].key
    ensures var wait := r.calls[i].answer.value;
            && wait >= 1
            && (r.calls[j].at >= r.calls[i].at + wait as real ==> r.calls[j].answer == None)
    ensures var wait := r.calls[i].answer.value;
            var undropped := forall m :: i < m < j ==> !Drops(l, r, m, r.calls[i].key);
            undropped && wait > 1 && r.calls[j].at <= r.calls[i].at + (wait - 1) as real ==> r.calls[j].answer.Some?
  {
    var c := r.calls[i];
    RunKeepsGood(l, r, i);
    AnswerInRun(l, r, i);
    AnswerInRun(l, r, j);
    BucketWaits(l, r, i + 1, j, c.key);
    RefusalInRun(l, r, i, r.calls[j].at);
  }

  lemma {:induction false} RefusalInRun(l: Limits, r: Run, i: nat, later: real)
    requires Usable(l) && IsRun(l, r) && i < |r.calls| && r.calls[i].answer.Some? && r.calls[i].at <= later
    ensures var wait, b := r.calls[i].answer.value, Bucket(r.tables[i + 1], r.calls[i].key);
            && wait >= 1
            && (later >= r.calls[i].at + wait as real ==> |Trim(b, later - l.window)| < l.maxEvents)
            && (wait > 1 && later <= r.calls[i].at + (wait - 1) as real ==> |Trim(b, later - l.window)| >= l.maxEvents)
  {
    var c := r.calls[i];
    RunKeepsGood(l, r, i);
    assert StepOk(l, r, i);
    WaitIsExact(l, r.tables[i], c.key, Clock(r.calls, i), c.at, later, c.gone);
  }

  // ---- When a key is lost, and which ------------------------------------------------------

  /** The keys in the table before the `i`-th call and not after it. */
  ghost function Lost(r: Run, i: nat): set<Key>
    requires i < |r.calls| < |r.tables|
  {
    set k | k in r.tables[i].events && k !in r.tables[i + 1].events
  }

  lemma {:induction false} KeysHeld(l: Limits, t: Table, clock: real)
    requires Good(l, t, clock)
    ensures |t.order| == |t.events.Keys| && (t.events.Keys != {} ==> t.order != [])
  {
    DistinctCount(t.order, t.events.Keys);
  }

  /** A call by a key the table holds, or while it holds fewer keys than its cap,
      loses no key and leaves every other key its bucket. */
  lemma {:induction false} NothingLostBelowCap(l: Limits, r: Run, i: nat)
    requires Usable(l) && IsRun(l, r) && i < |r.calls|
    requires r.calls[i].key in r.tables[i].events || |r.tables[i].events.Keys| < l.maxKeys
    ensures Lost(r, i) == {}
    ensures forall k :: k != r.calls[i].key ==>
              && (k in r.tables[i + 1].events <==> k in r.tables[i].events)
              && (k in r.tables[i].events ==> r.tables[i + 1].events[k] == r.tables[i].events[k])
  {
    var c := r.calls[i];
    assert StepOk(l, r, i);
    RunKeepsGood(l, r, i);
    KeysHeld(l, r.tables[i], Clock(r.calls, i));
    assert Room(l, r.tables[i], c.key, c.gone) == r.tables[i];
  }

  /** What a clearing drops of a full table: the keys lost, and no other. */
  lemma {:induction false} LostAreDropped(l: Limits, r: Run, i: nat)
    requires Usable(l) && IsRun(l, r) && i < |r.calls|
    requires r.calls[i].key !in r.tables[i].events && |r.tables[i].events.Keys| >= l.maxKeys
    ensures Good(l, r.tables[i], Clock(r.calls, i)) && |r.tables[i].events.Keys| == l.maxKeys == |r.tables[i].order|
    ensures IsColdest(l, r.tables[i], r.calls[i].gone)
    ensures forall k :: k in Lost(r, i) <==> k in r.calls[i].gone
    ensures r.tables[i + 1].events.Keys == r.tables[i].events.Keys - Lost(r, i) + {r.calls[i].key}
    ensures forall k :: k in r.tables[i].events && k !in Lost(r, i) ==>
              r.tables[i + 1].events[k] == r.tables[i].events[k]
  {
    var c, t := r.calls[i], r.tables[i];
    assert StepOk(l, r, i);
    RunKeepsGood(l, r, i);
    KeysHeld(l, t, Clock(r.calls, i));
    DropsTheColdest(l, t, c.gone);
  }

  lemma {:induction false} QuarterLost(l: Limits, r: Run, i: nat)
    requires Usable(l) && IsRun(l, r) && i < |r.calls|
    requires r.calls[i].key !in r.tables[i].events && |r.tables[i].events.Keys| >= l.maxKeys
    ensures |Lost(r, i)| == DropCount(l, l.maxKeys)
    ensures |r.tables[i + 1].events.Keys| == l.maxKeys - |Lost(r, i)| + 1
  {
    var gone := r.calls[i].gone;
    LostAreDropped(l, r, i);
    DropsTheColdest(l, r.tables[i], gone);
    DropsAreDistinct(l, r.tables[i], gone, Clock(r.calls, i));
    DistinctCount(gone, Lost(r, i));
    assert Lost(r, i) <= r.tables[i].events.Keys;
  }

  lemma {:induction false} ColderIsOlder(l: Limits, t: Table, gone: seq<Key>, clock: real, a: Key, b: Key)
    requires Usable(l) && Good(l, t, clock) && IsColdest(l, t, gone)
    requires a in gone && b in t.events && b !in gone
    ensures a in t.events && t.events[a] != [] && t.events[b] != []
    ensures t.events[a][|t.events[a]| - 1] <= t.events[b][|t.events[b]| - 1]
  {
    DropsTheColdest(l, t, gone);
    assert a in t.order && b in t.order;
    WarmthIsLastHit(l, t, clock, a);
    WarmthIsLastHit(l, t, clock, b);
  }

  lemma {:induction false} WarmthIsLastHit(l: Limits, t: Table, clock: real, k: Key)
    requires Good(l, t, clock) && k in t.events
    ensures t.events[k] != [] && Warmth(t.events, k) == t.events[k][|t.events[k]| - 1]
  {
    assert GoodBucket(l, t.events[k], clock);
  }

  lemma {:induction false} OthersKept(l: Limits, r: Run, i: nat)
    requires Usable(l) && IsRun(l, r) && i < |r.calls|
    requires r.calls[i].key !in r.tables[i].events && |r.tables[i].events.Keys| >= l.maxKeys
    ensures forall k :: k in r.tables[i].events && k !in Lost(r, i) ==>
              k in r.tables[i + 1].events && r.tables[i + 1].events[k] == r.tables[i].events[k]
  {
    LostAreDropped(l, r, i);
  }

  lemma {:induction false} OldestLost(l: Limits, r: Run, i: nat, a: Key, b: Key)
    requires Usable(l) && IsRun(l, r) && i < |r.calls|
    requires r.calls[i].key !in r.tables[i].events && |r.tables[i].events.Keys| >= l.maxKeys
    requires a in Lost(r, i) && b in r.tables[i].events && b !in Lost(r, i)
    ensures var x, y := r.tables[i].events[a], r.tables[i].events[b];
            x != [] && y != [] && x[|x| - 1] <= y[|y| - 1]
  {
    LostAreDropped(l, r, i);
    ColderIsOlder(l, r.tables[i], r.calls[i].gone, Clock(r.calls, i), a, b);
  }

  /** And a call by a new key to a full table loses a quarter of the cap, rounded
      down, or one key where that is none; those whose last hits are the oldest.
      Everyone else keeps the bucket they had. */
  lemma {:induction false} ColdestLostAtCap(l: Limits, r: Run, i: nat)
    requires Usable(l) && IsRun(l, r) && i < |r.calls|
    requires r.calls[i].key !in r.tables[i].events && |r.tables[i].events.Keys| >= l.maxKeys
    ensures var lost := |Lost(r, i)|;
            && (if l.maxKeys < 4 then lost == 1 else 4 * lost <= l.maxKeys < 4 * lost + 4)
            && |r.tables[i + 1].events.Keys| == l.maxKeys - lost + 1
    ensures forall k :: k in r.tables[i].events && k !in Lost(r, i) ==>
              k in r.tables[i + 1].events && r.tables[i + 1].events[k] == r.tables[i].events[k]
    ensures forall a, b :: a in Lost(r, i) && b in r.tables[i].events && b !in Lost(r, i) ==>
              var x, y := r.tables[i].events[a], r.tables[i].events[b];
              x != [] && y != [] && x[|x| - 1] <= y[|y| - 1]
  {
    QuarterLost(l, r, i);
    OthersKept(l, r, i);
    forall a, b | a in Lost(r, i) && b in r.tables[i].events && b !in Lost(r, i)
      ensures var x, y := r.tables[i].events[a], r.tables[i].events[b];
              x != [] && y != [] && x[|x| - 1] <= y[|y| - 1]
    {
      OldestLost(l, r, i, a, b);
    }
  }

  lemma {:induction false} DropsAreDistinct(l: Limits, t: Table, gone: seq<Key>, clock: real)
    requires Usable(l) && Good(l, t, clock) && IsColdest(l, t, gone)
    ensures Distinct(gone)
  {
    var le := ColderFirst(t.events);
    var ranked :| StableOrder(ranked, t.order, le) && DropCount(l, |t.order|) <= |ranked|
                  && gone == ranked[..DropCount(l, |t.order|)];
    DistinctStays(t.order, ranked);
    assert forall i :: 0 <= i < |gone| ==> gone[i] == ranked[i];
  }

  /** The keys a run names. */
  function NamedKeys(calls: seq<Call>): set<Key> { set i | 0 <= i < |calls| :: calls[i].key }

  lemma {:induction false} HeldAreNamed(l: Limits, r: Run, n: nat)
    requires Usable(l) && IsRun(l, r) && n <= |r.calls|
    ensures r.tables[n].events.Keys <= NamedKeys(r.calls)
  {
    if n > 0 {
      HeldAreNamed(l, r, n - 1);
      assert StepOk(l, r, n - 1);
      assert r.calls[n - 1].key in NamedKeys(r.calls);
    }
  }

  /** In a run that names no more keys than the cap no call ever loses one. */
  lemma {:induction false} FewKeysLoseNothing(l: Limits, r: Run, i: nat)
    requires Usable(l) && IsRun(l, r) && |NamedKeys(r.calls)| <= l.maxKeys && i < |r.calls|
    ensures r.calls[i].key in r.tables[i].events || |r.tables[i].events.Keys| < l.maxKeys
    ensures Lost(r, i) == {}
  {
    var key, held := r.calls[i].key, r.tables[i].events.Keys;
    HeldAreNamed(l, r, i);
    if key !in held {
      assert key in NamedKeys(r.calls);
      Fewer(held + {key}, NamedKeys(r.calls));
    }
    NothingLostBelowCap(l, r, i);
  }

  lemma {:induction false} Fewer<T>(a: set<T>, b: set<T>)
    requires a <= b
    ensures |a| <= |b|
  {
    assert b == a + (b - a);
  }

  lemma {:induction false} FewKeysDropNothing(l: Limits, r: Run, n: nat, key: Key)
    requires Usable(l) && IsRun(l, r) && |NamedKeys(r.calls)| <= l.maxKeys && n <= |r.calls|
    ensures !EverDropped(l, r, n, key)
  {
    forall i | 0 <= i < n ensures !Drops(l, r, i, key) {
      FewKeysLoseNothing(l, r, i);
      RunKeepsGood(l, r, i);
      KeysHeld(l, r.tables[i], Clock(r.calls, i));
    }
  }

  /** And so in such a run the limiter is exact for everybody: a call is refused if
      and only if a whole budget of its key's hits lies in the window that ends with
      it, and no window ever holds more than a budget of anyone's. */
  lemma {:induction false} FewKeysAreExact(l: Limits, r: Run, i: nat, key: Key, from: real)
    requires Usable(l) && IsRun(l, r) && |NamedKeys(r.calls)| <= l.maxKeys && i < |r.calls|
    ensures var c := r.calls[i];
            var acc := Accepted(r.calls, i, c.key);
            c.answer.Some? <==> CountIn(acc, |acc|, c.at - l.window, c.at) >= l.maxEvents
    ensures var acc := Accepted(r.calls, |r.calls|, key); CountIn(acc, |acc|, from, from + l.window) <= l.maxEvents
  {
    FewKeysDropNothing(l, r, i, r.calls[i].key);
    RefusedOnlyWhenSpent(l, r, i);
    FewKeysDropNothing(l, r, |r.calls|, key);
    NeverOverBudget(l, r, key, from);
  }
}
