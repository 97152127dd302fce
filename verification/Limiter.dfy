/** The limiter itself: a dictionary of deques, trimmed, appended to and cleared in
    place. Calls are sequential; the time is read before each one. */
module Limiter {
  import opened Text
  import opened RateWindow
  import Sorting

  class SlidingWindowLimiter {
    const limits: Limits
    var order: seq<Key>
    var events: map<Key, seq<real>>
    /** The time of the latest call. */
    ghost var clock: real

    function View(): Table
      reads this
    {
      Table(order, events)
    }

    ghost predicate Valid()
      reads this
    {
      Usable(limits) && Good(limits, View(), clock)
    }

    constructor (limits: Limits)
      requires Usable(limits)
      ensures Valid() && this.limits == limits && View() == Table([], map[])
    {
      this.limits := limits;
      order, events, clock := [], map[], 0.0;
    }

    /** A limiter needs a positive budget, window and key cap; otherwise none is made. */
    static method Create(limits: Limits) returns (r: Option<SlidingWindowLimiter>)
      ensures r.Some? <==> limits.maxEvents >= 1 && limits.window > 0.0 && limits.maxKeys >= 1
      ensures r.Some? ==>
                && fresh(r.value) && r.value.Valid() && r.value.limits == limits
                && r.value.View() == Table([], map[])
    {
      if limits.maxEvents < 1 || limits.window <= 0.0 || limits.maxKeys < 1 {
        return None;
      }
      var limiter := new SlidingWindowLimiter(limits);
      return Some(limiter);
    }

    method Hit(key: Key, now: real) returns (ok: bool, ghost gone: seq<Key>)
      requires Valid() && clock <= now
      modifies this
      ensures Valid() && clock == now
      ensures NeedsRoom(limits, old(View()), key) ==> IsColdest(limits, old(View()), gone)
      ensures View() == After(limits, old(View()), key, now, gone)
      ensures ok <==> Answer(limits, old(View()), key, now, gone) == None
      ensures key in events
      ensures Recorded(limits, Bucket(old(View()), key), events[key], now, if ok then None else Some(1))
      ensures key in old(events) || |old(order)| < limits.maxKeys ==> OthersStay(old(events), events, key)
    {
      var wait;
      wait, gone := HitOrWait(key, now);
      ok := wait == None;
    }

    /** None when the event is within budget and recorded; otherwise how long to wait. */
    method HitOrWait(key: Key, now: real) returns (answer: Option<int>, ghost gone: seq<Key>)
      requires Valid() && clock <= now
      modifies this
      ensures Valid() && clock == now
      ensures NeedsRoom(limits, old(View()), key) ==> IsColdest(limits, old(View()), gone)
      ensures View() == After(limits, old(View()), key, now, gone)
      ensures key in events && Recorded(limits, Bucket(old(View()), key), events[key], now, answer)
      // below its cap of keys, or for a key it holds, nobody else is touched
      ensures key in old(events) || |old(order)| < limits.maxKeys ==> OthersStay(old(events), events, key)
      ensures answer == Answer(limits, old(View()), key, now, gone)
    {
      ghost var before, was := View(), clock;
      gone := MakeRoom(key);
      answer := Record(key, now, before, gone);
      HitKeepsGood(limits, before, key, was, now, gone);
      CallIsRecorded(limits, before, key, now, gone);
      if key in before.events || |before.order| < limits.maxKeys {
        OthersStayBelowCap(limits, before, key, now, gone);
      }
      clock := now;
    }

    method MakeRoom(key: Key) returns (gone: seq<Key>)
      requires Usable(limits)
      modifies `order, `events
      ensures NeedsRoom(limits, old(View()), key) ==> IsColdest(limits, old(View()), gone)
      ensures View() == Room(limits, old(View()), key, gone)
    {
      gone := [];
      if key !in events && |order| >= limits.maxKeys {
        gone := DropColdest();
      }
    }

    method Record(key: Key, now: real, ghost before: Table, ghost gone: seq<Key>) returns (answer: Option<int>)
      requires Usable(limits) && View() == Room(limits, before, key, gone)
      modifies `order, `events
      ensures View() == After(limits, before, key, now, gone)
      ensures answer == Answer(limits, before, key, now, gone)
    {
      var bucket := if key in events then events[key] else [];
      bucket := PopExpired(bucket, now - limits.window);
      if |bucket| >= limits.maxEvents {
        Put(key, bucket);
        return Some(Max(1, Ceil(bucket[0] + limits.window - now)));
      }
      Put(key, bucket + [now]);
      return None;
    }

    /** `events[key] = bucket`: a new key goes to the end of the dictionary. */
    method Put(key: Key, bucket: seq<real>)
      modifies `order, `events
      ensures View() == Stored(old(View()), key, bucket)
    {
      if key !in events {
        order := order + [key];
      }
      events := events[key := bucket];
    }

    method Reset()
      requires Valid()
      modifies this
      ensures Valid() && clock == old(clock) && View() == Table([], map[])
    {
      order, events := [], map[];
    }

    /** Drops a quarter of the keys, the coldest first. */
    method DropColdest() returns (gone: seq<Key>)
      requires Usable(limits)
      modifies `order, `events
      ensures IsColdest(limits, old(View()), gone) && View() == Cleared(old(View()), gone)
    {
      ghost var before := View();
      var ranked := Sorting.SortBy(order, ColderFirst(events));
      Sorting.SameElements(ranked, order);
      gone := ranked[..DropCount(limits, |order|)];
      for i := 0 to |gone|
        invariant events == map k | k in before.events && k !in gone[..i] :: before.events[k]
        invariant order == before.order
      {
        assert gone[..i + 1] == gone[..i] + [gone[i]];
        events := events - {gone[i]};
      }
      assert gone[..|gone|] == gone;
      order := WithoutTo(order, |order|, gone);
    }
  }

  /** `while bucket and bucket[0] <= cutoff: bucket.popleft()`. */
  method PopExpired(bucket: seq<real>, cutoff: real) returns (kept: seq<real>)
    ensures kept == Trim(bucket, cutoff)
  {
    kept := bucket;
    ghost var popped := 0;
    while kept != [] && kept[0] <= cutoff
      invariant popped <= |bucket| && kept == bucket[popped..]
      invariant Expired(bucket, cutoff, popped) == Expired(bucket, cutoff, 0)
    {
      kept := kept[1..];
      popped := popped + 1;
    }
  }
}
