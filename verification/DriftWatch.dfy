/** The background re-check of apps/api/core/schema_guard.py: callers that start
    and stop it, and watcher threads, as the interleaved steps they take. */
module DriftWatch {
  import opened Text
  import opened LiveSchema

  predicate Healthy(v: Verdict) { v.isChecked && v.missing == [] }

  predicate Pending(o: Objects) {
    !(o.tablesChecked && o.functionsChecked) || o.missingTables != {} || o.missingFunctions != {}
  }

  /** Whether asking again can change anything; never without a database. */
  predicate NeedsWatch(live: bool, v: Verdict, o: Objects) { live && (!Healthy(v) || Pending(o)) }

  /** Where a watcher stands: at the top of its loop, asleep, told to stop while
      asleep, inside the check, about to hand over a result, about to judge it, gone. */
  datatype Place =
    | AtLoop | Asleep | Woken | Checking | Applying(result: Verdict) | Judging(result: Verdict) | Gone(stopped: bool)

  /** A watcher; the verdict and objects its start was asked with, the last
      verdict it applied, and whether it found objects pending when it last judged. */
  datatype Watcher = Watcher(place: Place, initial: Verdict, seen: Objects, applied: Option<Verdict>, sawPending: bool)

  predicate Alive(w: Watcher) { !w.place.Gone? }

  /** `ready` holds the starts past `needs_watch` and waiting for the lock,
      `stopping` counts the stops between raising the flag and taking the lock,
      `joins` the watchers some stop is waiting for. */
  datatype State = State(
    live: bool, verdict: Verdict, objects: Objects,
    stop: bool, current: Option<nat>, watchers: seq<Watcher>,
    ready: seq<(Verdict, Objects)>, stopping: nat, joins: set<nat>)

  datatype Move =
    | Arrive | Wake | TimeOut | CheckRaises(objects: Objects) | CheckReturns(result: Verdict, objects: Objects)
    | ApplyRaises | Apply | Judge

  datatype Action =
    | Ask(initial: Verdict) | Enter(k: nat) | RaiseStop | Detach | JoinReturns(t: nat, timedOut: bool)
    | Step(t: nat, move: Move)

  predicate CanMove(p: Place, m: Move) {
    match m
    case Arrive => p.AtLoop?
    case Wake => p.Woken?
    case TimeOut => p.Asleep?
    case CheckRaises(_) => p.Checking?
    case CheckReturns(_, _) => p.Checking?
    case ApplyRaises => p.Applying?
    case Apply => p.Applying?
    case Judge => p.Judging?
  }

  /** A flag already up ends the loop at its top; a failed round goes back there. */
  function Moved(w: Watcher, m: Move, stop: bool, objects: Objects): Watcher
    requires CanMove(w.place, m)
  {
    match m
    case Arrive => w.(place := if stop then Gone(true) else Asleep)
    case Wake => w.(place := Gone(true))
    case TimeOut => w.(place := Checking)
    case CheckRaises(_) => w.(place := AtLoop)
    case CheckReturns(r, _) => w.(place := Applying(r))
    case ApplyRaises => w.(place := AtLoop)
    case Apply => w.(place := Judging(w.place.result), applied := Some(w.place.result))
    case Judge =>
      if Healthy(w.place.result) && !Pending(objects) then w.(place := Gone(false))
      else w.(place := AtLoop, sawPending := Pending(objects))
  }

  predicate Can(s: State, a: Action) {
    match a
    case Ask(_) => true
    case Enter(k) => k < |s.ready|
    case RaiseStop => true
    case Detach => s.stopping > 0
    case JoinReturns(t, timedOut) => t in s.joins && (timedOut || (t < |s.watchers| && !Alive(s.watchers[t])))
    case Step(t, m) => t < |s.watchers| && CanMove(s.watchers[t].place, m)
  }

  predicate Holds(s: State) { s.current.Some? && s.current.value < |s.watchers| && Alive(s.watchers[s.current.value]) }

  function Roused(w: Watcher): Watcher { if w.place.Asleep? then w.(place := Woken) else w }

  function After(s: State, a: Action): State
    requires Can(s, a)
  {
    match a
    case Ask(initial) =>
      if NeedsWatch(s.live, initial, s.objects) then s.(ready := s.ready + [(initial, s.objects)]) else s
    case Enter(k) =>
      var asked, rest := s.ready[k], s.ready[..k] + s.ready[k + 1..];
      if Holds(s) then s.(ready := rest)
      else
        s.(ready := rest, stop := false, current := Some(|s.watchers|),
           watchers := s.watchers + [Watcher(AtLoop, asked.0, asked.1, None, false)])
    case RaiseStop =>
      s.(stop := true, stopping := s.stopping + 1,
         watchers := seq(|s.watchers|, i requires 0 <= i < |s.watchers| => Roused(s.watchers[i])))
    case Detach =>
      s.(stopping := s.stopping - 1, current := None,
         joins := if Holds(s) then s.joins + {s.current.value} else s.joins)
    case JoinReturns(t, _) => s.(joins := s.joins - {t})
    case Step(t, m) =>
      var w := s.watchers[t];
      s.(watchers := s.watchers[t := Moved(w, m, s.stop, s.objects)],
         verdict := if m.Apply? then w.place.result else s.verdict,
         objects := if m.CheckRaises? || m.CheckReturns? then m.objects else s.objects)
  }

  function Booted(live: bool, verdict: Verdict, objects: Objects): State {
    State(live, verdict, objects, false, None, [], [], 0, {})
  }

  // ---- what every step keeps --------------------------------------------------------

  predicate GoodWatcher(live: bool, w: Watcher) {
    && NeedsWatch(live, w.initial, w.seen)
    && (w.place == Gone(false) ==> w.applied.Some? && Healthy(w.applied.value))
    && (w.place.Judging? ==> w.applied == Some(w.place.result))
    && (Alive(w) && !w.place.Judging? && w.applied.Some? && Healthy(w.applied.value) ==> w.sawPending)
  }

  ghost predicate Good(s: State) {
    && (forall i :: 0 <= i < |s.watchers| ==> GoodWatcher(s.live, s.watchers[i]))
    && (forall i :: 0 <= i < |s.ready| ==> NeedsWatch(s.live, s.ready[i].0, s.ready[i].1))
    && (s.current.Some? ==> s.current.value < |s.watchers|)
    && (forall t :: t in s.joins ==> t < |s.watchers|)
  }

  lemma {:induction false} StepKeepsGood(s: State, a: Action)
    requires Good(s) && Can(s, a)
    ensures Good(After(s, a))
  {
    var s' := After(s, a);
    forall i: nat | i < |s'.watchers| ensures GoodWatcher(s'.live, s'.watchers[i]) {
      StepKeepsWatcher(s, a, i);
    }
  }

  lemma {:induction false} StepKeepsWatcher(s: State, a: Action, i: nat)
    requires Good(s) && Can(s, a) && i < |After(s, a).watchers|
    ensures GoodWatcher(After(s, a).live, After(s, a).watchers[i])
  {
    if i < |s.watchers| {
      assert GoodWatcher(s.live, s.watchers[i]);
    }
  }

  /** A watcher that is gone stays as it was; one that exists stays one. */
  lemma {:induction false} GoneIsFinal(s: State, a: Action, t: nat)
    requires Can(s, a) && t < |s.watchers|
    ensures t < |After(s, a).watchers|
    ensures !Alive(s.watchers[t]) ==> After(s, a).watchers[t] == s.watchers[t]
  {
  }

  /** Unless told to stop, a watcher ends only by judging the verdict it has just
      applied: checked, nothing missing, no object pending. */
  lemma {:induction false} EndsOnlyClean(s: State, a: Action, t: nat)
    requires Good(s) && Can(s, a) && t < |s.watchers|
    requires Alive(s.watchers[t]) && After(s, a).watchers[t].place == Gone(false)
    ensures a == Step(t, Judge) && s.watchers[t].place.Judging?
    ensures var r := s.watchers[t].place.result; s.watchers[t].applied == Some(r) && Healthy(r) && !Pending(s.objects)
  {
    assert GoodWatcher(s.live, s.watchers[t]);
  }

  /** A watcher replaces a healthy verdict of its own by an unhealthy one only if
      objects were pending when it judged the healthy one. */
  lemma {:induction false} HealthIsLostOnlyIfPending(s: State, t: nat)
    requires Good(s) && Can(s, Step(t, Apply))
    requires s.watchers[t].applied.Some? && Healthy(s.watchers[t].applied.value)
    requires !Healthy(After(s, Step(t, Apply)).verdict)
    ensures s.watchers[t].sawPending
  {
    assert GoodWatcher(s.live, s.watchers[t]);
  }

  // ---- runs -------------------------------------------------------------------------

  datatype Run = Run(states: seq<State>, actions: seq<Action>)

  ghost predicate StepOk(r: Run, i: nat) {
    && i + 1 < |r.states| && i < |r.actions| && Can(r.states[i], r.actions[i])
    && r.states[i + 1] == After(r.states[i], r.actions[i])
  }

  ghost predicate IsRun(r: Run) {
    && |r.states| == |r.actions| + 1
    && (forall i: nat :: i < |r.actions| ==> StepOk(r, i))
    && r.states[0] == Booted(r.states[0].live, r.states[0].verdict, r.states[0].objects)
  }

  lemma {:induction false} RunIsGood(r: Run, i: nat)
    requires IsRun(r) && i < |r.states|
    ensures Good(r.states[i])
  {
    if i > 0 {
      RunIsGood(r, i - 1);
      assert StepOk(r, i - 1);
      StepKeepsGood(r.states[i - 1], r.actions[i - 1]);
    }
  }

  lemma {:induction false} StaysGone(r: Run, i: nat, j: nat, t: nat)
    requires IsRun(r) && i <= j < |r.states| && t < |r.states[i].watchers| && !Alive(r.states[i].watchers[t])
    ensures t < |r.states[j].watchers| && r.states[j].watchers[t] == r.states[i].watchers[t]
    decreases j - i
  {
    if i < j {
      StaysGone(r, i, j - 1, t);
      assert StepOk(r, j - 1);
      GoneIsFinal(r.states[j - 1], r.actions[j - 1], t);
    }
  }

  /** Every watcher of a run was asked for by a start that needed one, and once
      it has ended without being stopped, the last verdict it applied is healthy
      and stays the last it ever applies. */
  lemma {:induction false} CleanVerdictIsItsLast(r: Run, i: nat, j: nat, t: nat)
    requires IsRun(r) && i <= j < |r.states| && t < |r.states[i].watchers|
    ensures NeedsWatch(r.states[i].live, r.states[i].watchers[t].initial, r.states[i].watchers[t].seen)
    ensures r.states[i].watchers[t].place == Gone(false) ==>
            && t < |r.states[j].watchers|
            && r.states[j].watchers[t].applied == r.states[i].watchers[t].applied
            && r.states[i].watchers[t].applied.Some?
            && Healthy(r.states[i].watchers[t].applied.value)
  {
    RunIsGood(r, i);
    assert GoodWatcher(r.states[i].live, r.states[i].watchers[t]);
    if r.states[i].watchers[t].place == Gone(false) {
      StaysGone(r, i, j, t);
    }
  }

  ghost predicate AllGone(s: State) { forall t :: 0 <= t < |s.watchers| ==> !Alive(s.watchers[t]) }

  /** With every watcher gone and none started since, the verdict and the objects
      stand. */
  lemma {:induction false} VerdictStands(r: Run, i: nat, j: nat)
    requires IsRun(r) && i <= j < |r.states| && AllGone(r.states[i])
    requires forall k: nat :: i <= k < j ==> !r.actions[k].Enter?
    ensures AllGone(r.states[j]) && r.states[j].verdict == r.states[i].verdict
            && r.states[j].objects == r.states[i].objects
    decreases j - i
  {
    if i < j {
      VerdictStands(r, i, j - 1);
      assert StepOk(r, j - 1);
      assert !r.actions[j - 1].Enter?;
    }
  }

  // ---- how a watcher ends --------------------------------------------------------------

  /** Somebody has raised the flag. */
  ghost predicate Told(r: Run, i: nat)
    requires i <= |r.actions|
  {
    exists j: nat :: j < i && r.actions[j].RaiseStop?
  }

  /** The watcher has judged a verdict it had just applied and found it clean: read,
      no column missing, tables and functions both read and none of them missing. */
  ghost predicate JudgedClean(r: Run, i: nat, t: nat)
    requires i <= |r.actions| < |r.states|
  {
    exists j: nat :: j < i && r.actions[j] == Step(t, Judge) && Clean(r.states[j], t)
  }

  predicate Clean(s: State, t: nat) {
    && t < |s.watchers| && s.watchers[t].place.Judging?
    && s.watchers[t].applied == Some(s.watchers[t].place.result)
    && s.watchers[t].place.result.isChecked && s.watchers[t].place.result.missing == []
    && s.objects.tablesChecked && s.objects.functionsChecked
    && s.objects.missingTables == {} && s.objects.missingFunctions == {}
  }

  lemma {:induction false} OnlyToldIfRaised(r: Run, i: nat)
    requires IsRun(r) && i < |r.states|
    ensures r.states[i].stop ==> Told(r, i)
    ensures forall t :: 0 <= t < |r.states[i].watchers| ==>
              (r.states[i].watchers[t].place.Woken? || r.states[i].watchers[t].place == Gone(true) ==> Told(r, i))
  {
    if i > 0 {
      var m := i - 1;
      OnlyToldIfRaised(r, m);
      assert StepOk(r, m);
      assert Told(r, m) || r.actions[m].RaiseStop? ==> Told(r, i);
    }
  }

  /** A watcher goes on until it judges clean, or somebody raises the flag. While
      nobody has, it is gone exactly if it has judged clean. */
  lemma {:induction false} WatchesUntilClean(r: Run, i: nat, t: nat)
    requires IsRun(r) && i < |r.states| && t < |r.states[i].watchers|
    ensures JudgedClean(r, i, t) ==> !Alive(r.states[i].watchers[t])
    ensures !Alive(r.states[i].watchers[t]) ==> JudgedClean(r, i, t) || Told(r, i)
    ensures !Told(r, i) ==> (Alive(r.states[i].watchers[t]) <==> !JudgedClean(r, i, t))
  {
    if j: nat :| j < i && r.actions[j] == Step(t, Judge) && Clean(r.states[j], t) {
      assert StepOk(r, j);
      StaysGone(r, j + 1, i, t);
    }
    OnlyToldIfRaised(r, i);
    if r.states[i].watchers[t].place == Gone(false) {
      EndedByJudging(r, i, t);
    }
  }

  lemma {:induction false} EndedByJudging(r: Run, i: nat, t: nat)
    requires IsRun(r) && i < |r.states| && t < |r.states[i].watchers| && r.states[i].watchers[t].place == Gone(false)
    ensures JudgedClean(r, i, t)
  {
    if i > 0 {
      var m := i - 1;
      assert StepOk(r, m);
      RunIsGood(r, m);
      if t < |r.states[m].watchers| && Alive(r.states[m].watchers[t]) {
        EndsOnlyClean(r.states[m], r.actions[m], t);
        assert r.actions[m] == Step(t, Judge) && Clean(r.states[m], t);
      } else if t < |r.states[m].watchers| {
        GoneIsFinal(r.states[m], r.actions[m], t);
        EndedByJudging(r, m, t);
        var j: nat :| j < m && r.actions[j] == Step(t, Judge) && Clean(r.states[j], t);
      }
    }
  }

  /** An answer that is not clean sends the watcher back to sleep and ask again. */
  lemma {:induction false} AsksAgain(s: State, t: nat)
    requires Good(s) && Can(s, Step(t, Judge)) && !Clean(s, t)
    ensures After(s, Step(t, Judge)).watchers[t].place == AtLoop
    ensures !s.stop ==>
              var s1 := After(s, Step(t, Judge));
              var s2 := After(s1, Step(t, Arrive));
              After(s2, Step(t, TimeOut)).watchers[t].place == Checking
  {
    assert GoodWatcher(s.live, s.watchers[t]);
  }

  /** The steps a watcher takes of its own between two states. */
  function StepsOf(r: Run, i: nat, j: nat, t: nat): nat
    requires i <= j <= |r.actions|
    decreases j
  {
    if i == j then 0 else StepsOf(r, i, j - 1, t) + if r.actions[j - 1].Step? && r.actions[j - 1].t == t then 1 else 0
  }

  /** How many steps a watcher has left once the flag is up. */
  function StepsLeft(p: Place): nat {
    match p
    case Checking => 4
    case Applying(_) => 3
    case Judging(_) => 2
    case Gone(_) => 0
    case _ => 1
  }

  /** A stop is heeded: from the flag on, unless a start clears it, no watcher
      begins another check, and none takes more than four steps before it is gone. */
  lemma {:induction false} StopIsHeeded(r: Run, i: nat, j: nat, t: nat)
    requires IsRun(r) && i < j < |r.states| && r.actions[i].RaiseStop? && t < |r.states[i].watchers|
    requires forall k: nat :: i < k < j ==> !r.actions[k].Enter?
    ensures r.states[j].stop && t < |r.states[j].watchers| && !r.states[j].watchers[t].place.Asleep?
    ensures StepsOf(r, i + 1, j, t) + StepsLeft(r.states[j].watchers[t].place) <= 4
    ensures j < |r.actions| ==> r.actions[j] != Step(t, TimeOut)
    ensures StepsOf(r, i + 1, j, t) >= 4 ==> !Alive(r.states[j].watchers[t])
    decreases j
  {
    if j > i + 1 {
      StopIsHeeded(r, i, j - 1, t);
      assert !r.actions[j - 1].Enter?;
    }
    assert StepOk(r, j - 1);
    if j < |r.actions| {
      assert StepOk(r, j);
    }
  }

  // ---- what /health shows ---------------------------------------------------------------

  /** A check of some watcher returned this verdict before the `i`-th step. */
  ghost predicate Returned(r: Run, i: nat, v: Verdict)
    requires i <= |r.actions|
  {
    exists j: nat :: j < i && r.actions[j].Step? && r.actions[j].move.CheckReturns? && r.actions[j].move.result == v
  }

  lemma {:induction false} OnlyReturnedIsHandedOver(r: Run, i: nat)
    requires IsRun(r) && i < |r.states|
    ensures forall t :: 0 <= t < |r.states[i].watchers| && r.states[i].watchers[t].place.Applying? ==>
              Returned(r, i, r.states[i].watchers[t].place.result)
    ensures r.states[i].verdict == r.states[0].verdict || Returned(r, i, r.states[i].verdict)
  {
    if i > 0 {
      var m := i - 1;
      OnlyReturnedIsHandedOver(r, m);
      assert StepOk(r, m);
      forall v | Returned(r, m, v) ensures Returned(r, i, v) {
      }
    }
  }

  /** A verdict handed over is the one shown until the next is handed over. */
  lemma {:induction false} LastHandedOverIsShown(r: Run, i: nat, j: nat, t: nat)
    requires IsRun(r) && i < j < |r.states| && r.actions[i] == Step(t, Apply)
    requires forall k: nat :: i < k < j ==> !(r.actions[k].Step? && r.actions[k].move.Apply?)
    ensures t < |r.states[i].watchers| && r.states[i].watchers[t].place.Applying?
    ensures r.states[j].verdict == r.states[i].watchers[t].place.result
    decreases j
  {
    if j > i + 1 {
      LastHandedOverIsShown(r, i, j - 1, t);
      assert !(r.actions[j - 1].Step? && r.actions[j - 1].move.Apply?);
    }
    assert StepOk(r, i) && StepOk(r, j - 1);
  }

  /** A start that finds the instance needs watching leaves a live watcher on the
      books: the one that was there, untouched, or a new one with the flag down. */
  lemma {:induction false} StartLeavesAWatcher(s: State, k: nat)
    requires Good(s) && Can(s, Enter(k))
    ensures var s' := After(s, Enter(k));
            && s'.current.Some? && s'.current.value < |s'.watchers| && Alive(s'.watchers[s'.current.value])
            && s'.verdict == s.verdict && s'.objects == s.objects
            && (if s.current.Some? && Alive(s.watchers[s.current.value])
                then s'.watchers == s.watchers && s'.current == s.current && s'.stop == s.stop
                else !s'.stop && |s'.watchers| == |s.watchers| + 1 && s'.watchers[..|s.watchers|] == s.watchers
                     && s'.current.value == |s.watchers|)
  {
  }

  /** A start asks for a watcher exactly when there is a database and something to
      wait for: a verdict unread or drifted, or an object unread or missing. */
  lemma {:induction false} AsksWhen(s: State, v: Verdict)
    ensures var s' := After(s, Ask(v));
            && (s'.ready != s.ready <==>
                  && s.live
                  && (!v.isChecked || v.missing != []
                      || !s.objects.tablesChecked || !s.objects.functionsChecked
                      || s.objects.missingTables != {} || s.objects.missingFunctions != {}))
            && s'.(ready := s.ready) == s
  {
    assert |s.ready + [(v, s.objects)]| == |s.ready| + 1;
  }

  // ---- one watcher at a time --------------------------------------------------------

  ghost predicate OneAlive(s: State) {
    forall t, u :: 0 <= t < u < |s.watchers| ==> !(Alive(s.watchers[t]) && Alive(s.watchers[u]))
  }

  /** The start takes the lock, finds no live watcher of its own to return, and
      starts one while another is still alive. */
  ghost predicate StartsBeside(s: State, a: Action) { a.Enter? && Can(s, a) && !Holds(s) && !AllGone(s) }

  lemma {:induction false} OneAliveStep(s: State, a: Action)
    requires Can(s, a) && OneAlive(s)
    ensures OneAlive(After(s, a)) <==> !StartsBeside(s, a)
  {
    var s' := After(s, a);
    if StartsBeside(s, a) {
      var t :| 0 <= t < |s.watchers| && Alive(s.watchers[t]);
      assert Alive(s'.watchers[t]) && Alive(s'.watchers[|s.watchers|]);
    } else {
      forall t, u | 0 <= t < u < |s'.watchers| ensures !(Alive(s'.watchers[t]) && Alive(s'.watchers[u])) {
        if u < |s.watchers| {
          assert Alive(s'.watchers[t]) ==> Alive(s.watchers[t]);
          assert Alive(s'.watchers[u]) ==> Alive(s.watchers[u]);
        }
      }
    }
  }

  /** Exactly when there is only ever one watcher: no start spawns one while a
      watcher that a stop has taken off the books is still alive. */
  lemma {:induction false} OneWatcherWhen(r: Run, n: nat)
    requires IsRun(r) && n < |r.states|
    ensures (forall i: nat :: i <= n ==> OneAlive(r.states[i])) <==>
            (forall i: nat :: i < n ==> !StartsBeside(r.states[i], r.actions[i]))
  {
    if n > 0 {
      OneWatcherWhen(r, n - 1);
      assert StepOk(r, n - 1);
      if OneAlive(r.states[n - 1]) {
        OneAliveStep(r.states[n - 1], r.actions[n - 1]);
      }
    }
  }

  /** Alive watchers are the current one or one a stop is waiting for. */
  ghost predicate Accounted(s: State) {
    && OneAlive(s)
    && forall t :: 0 <= t < |s.watchers| && Alive(s.watchers[t]) ==> s.current == Some(t) || t in s.joins
  }

  /** Stops wait for their watcher to end, and no start runs inside a stop. */
  ghost predicate Orderly(s: State, a: Action) {
    && (a.Enter? ==> s.stopping == 0 && s.joins == {})
    && (a.JoinReturns? ==> !a.timedOut)
  }

  lemma {:induction false} OrderlyStep(s: State, a: Action)
    requires Good(s) && Can(s, a) && Accounted(s) && Orderly(s, a)
    ensures Accounted(After(s, a))
  {
    OneAliveStep(s, a);
    var s' := After(s, a);
    forall t | 0 <= t < |s'.watchers| && Alive(s'.watchers[t]) ensures s'.current == Some(t) || t in s'.joins {
      if t < |s.watchers| {
        assert Alive(s.watchers[t]);
      }
    }
  }

  /** Where starts and stops do not overlap and no join times out, one watcher
      at most is alive in every state. */
  lemma {:induction false} OneWatcherIfOrderly(r: Run, n: nat)
    requires IsRun(r) && n < |r.states|
    requires forall i: nat :: i < n ==> Orderly(r.states[i], r.actions[i])
    ensures Accounted(r.states[n])
  {
    if n > 0 {
      OneWatcherIfOrderly(r, n - 1);
      assert StepOk(r, n - 1);
      RunIsGood(r, n - 1);
      OrderlyStep(r.states[n - 1], r.actions[n - 1]);
    }
  }

  // ---- two interleavings that leave two ---------------------------------------------

  ghost function Last(r: Run): State
    requires |r.states| == |r.actions| + 1
  {
    r.states[|r.actions|]
  }

  /** A run and one step more. */
  lemma {:induction false} OneStepMore(r: Run, a: Action) returns (r': Run)
    requires IsRun(r) && Can(Last(r), a)
    ensures IsRun(r') && r'.actions == r.actions + [a] && r'.states == r.states + [After(Last(r), a)]
    ensures Last(r') == After(Last(r), a)
  {
    r' := Run(r.states + [After(Last(r), a)], r.actions + [a]);
    forall i: nat | i < |r'.actions| ensures StepOk(r', i) {
      if i < |r.actions| {
        assert StepOk(r, i);
      }
    }
  }

  function Fresh(v: Verdict, o: Objects): Watcher { Watcher(AtLoop, v, o, None, false) }

  /** A start that finds no watcher of its own on the books spawns one. */
  lemma {:induction false} Started(before: Run, v: Verdict) returns (r: Run)
    requires IsRun(before) && NeedsWatch(Last(before).live, v, Last(before).objects)
    requires Last(before).ready == [] && Last(before).current == None
    ensures IsRun(r) && r.actions == before.actions + [Ask(v), Enter(0)] && before.states <= r.states
    ensures r.states[|r.actions| - 1] == Last(before).(ready := [(v, Last(before).objects)])
    ensures Last(r) == Last(before).(stop := false, current := Some(|Last(before).watchers|),
                                     watchers := Last(before).watchers + [Fresh(v, Last(before).objects)])
  {
    r := OneStepMore(before, Ask(v));
    assert Last(r).ready == [(v, Last(before).objects)];
    r := OneStepMore(r, Enter(0));
  }

  /** Neither condition can be dropped. A start that slips in between the flag
      and the lock of a stop clears the flag, its watcher is taken off the books
      unstopped, and the next start sets a second one beside it. */
  lemma {:induction false} RacingStartLeavesTwo(v: Verdict, o: Objects) returns (r: Run)
    requires NeedsWatch(true, v, o)
    ensures IsRun(r) && r.states[0] == Booted(true, v, o)
    ensures forall i: nat :: i < |r.actions| ==> !r.actions[i].JoinReturns?
    ensures !OneAlive(Last(r)) && !Last(r).stop
  {
    r := OneStepMore(Run([Booted(true, v, o)], []), RaiseStop);
    assert Last(r).watchers == [];
    r := Started(r, v);
    r := OneStepMore(r, Detach);
    r := Started(r, v);
    assert Alive(Last(r).watchers[0]) && Alive(Last(r).watchers[1]);
  }

  /** A watcher is started and gets as far as its check. */
  lemma {:induction false} InItsCheck(v: Verdict, o: Objects) returns (r: Run)
    requires NeedsWatch(true, v, o)
    ensures IsRun(r) && r.states[0] == Booted(true, v, o)
    ensures r.actions == [Ask(v), Enter(0), Step(0, Arrive), Step(0, TimeOut)]
    ensures r.states[1].stopping == 0 && r.states[1].joins == {}
    ensures Last(r) == State(true, v, o, false, Some(0), [Watcher(Checking, v, o, None, false)], [], 0, {})
  {
    r := Started(Run([Booted(true, v, o)], []), v);
    r := OneStepMore(r, Step(0, Arrive));
    r := OneStepMore(r, Step(0, TimeOut));
  }

  /** A stop raises the flag, takes the watcher off the books, and gives up waiting for it. */
  lemma {:induction false} GivenUp(before: Run, v: Verdict, o: Objects) returns (r: Run)
    requires IsRun(before)
    requires Last(before) == State(true, v, o, false, Some(0), [Watcher(Checking, v, o, None, false)], [], 0, {})
    ensures IsRun(r) && before.states <= r.states
    ensures r.actions == before.actions + [RaiseStop, Detach, JoinReturns(0, true)]
    ensures Last(r) == State(true, v, o, true, None, [Watcher(Checking, v, o, None, false)], [], 0, {})
  {
    r := OneStepMore(before, RaiseStop);
    assert Last(r).watchers == [Watcher(Checking, v, o, None, false)];
    r := OneStepMore(r, Detach);
    r := OneStepMore(r, JoinReturns(0, true));
    assert Last(r).joins == {};
  }

  /** A stop that gives up waiting for a watcher inside its check, and a start
      after it: the first watcher outlives the flag and runs on beside the second. */
  lemma {:induction false} TimedOutJoinLeavesTwo(v: Verdict, o: Objects) returns (r: Run)
    requires NeedsWatch(true, v, o)
    ensures IsRun(r) && r.states[0] == Booted(true, v, o)
    ensures forall i: nat :: i < |r.actions| && r.actions[i].Enter? ==>
              r.states[i].stopping == 0 && r.states[i].joins == {}
    ensures !OneAlive(Last(r)) && !Last(r).stop
  {
    var checking := InItsCheck(v, o);
    var gone := GivenUp(checking, v, o);
    r := Started(gone, v);
    assert r.states[1] == checking.states[1] && r.states[8] == Last(gone).(ready := [(v, o)]);
    assert Alive(Last(r).watchers[0]) && Alive(Last(r).watchers[1]);
  }
}
