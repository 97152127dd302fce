/** Calls on one compliance record that overlap: each decides from the row it
    read, and writes later (apps/api/domain/compliance_record_service.py,
    apps/api/repositories/compliance_records_repository.py). */
module ComplianceRaces {
  import opened Text
  import opened Compliance

  /** A call between its read and its write. An update's filing is recorded
      before the row is written; a reopen keeps the notes it read. */
  datatype Call =
    | Updating(seen: Row, plan: Plan, lodged: bool)
    | Reopening(seen: Row, notes: string, forget: bool)
    | Done(landed: bool)

  datatype State = State(row: Row, filings: Filings, calls: seq<Call>)

  datatype Action =
    | BeginUpdate(change: Change, today: int, now: int)
    | BeginReopen(reason: string, stamp: string, forget: bool)
    | Lodge(k: nat)
    | Commit(k: nat)

  predicate Can(s: State, a: Action) {
    match a
    case BeginUpdate(c, today, now) => PlanUpdate(s.row, c, today, now, true).Ok?
    case BeginReopen(reason, _, _) => PlanReopen(s.row, reason).Ok?
    case Lodge(k) => k < |s.calls| && s.calls[k].Updating? && s.calls[k].plan.filing.Some? && !s.calls[k].lodged
    case Commit(k) =>
      && k < |s.calls|
      && (s.calls[k].Reopening? || (s.calls[k].Updating? && (s.calls[k].plan.filing.Some? ==> s.calls[k].lodged)))
  }

  /** An update writes whatever the row has become; a reopen writes only a row
      that is filed or completed at that moment. */
  function After(s: State, a: Action): State
    requires Can(s, a)
  {
    match a
    case BeginUpdate(c, today, now) =>
      s.(calls := s.calls + [Updating(s.row, PlanUpdate(s.row, c, today, now, true).value, false)])
    case BeginReopen(reason, stamp, forget) =>
      s.(calls := s.calls + [Reopening(s.row, NotesWith(s.row.notes, stamp + Strip(reason)), forget)])
    case Lodge(k) =>
      var c := s.calls[k];
      s.(filings := Locked(s.filings, c.plan), calls := s.calls[k := c.(lodged := true)])
    case Commit(k) =>
      match s.calls[k]
      case Updating(_, plan, _) => s.(row := Written(s.row, plan), calls := s.calls[k := Done(true)])
      case Reopening(_, notes, forget) =>
        if Settled(s.row.status) then s.(row := Reopened(s.row, notes, forget), calls := s.calls[k := Done(true)])
        else s.(calls := s.calls[k := Done(false)])
      case Done(_) => s
  }

  /** The row never changes what it is, only where it stands. */
  predicate SameRecord(a: Row, b: Row) {
    && a.firm == b.firm && a.client == b.client && a.obligation == b.obligation
    && a.periodStart == b.periodStart && a.periodEnd == b.periodEnd
  }

  /** What a call in flight holds: an update's plan files the very period it
      locks, with one date for both. */
  predicate CallGood(c: Call, row: Row, filings: Filings) {
    match c
    case Updating(seen, plan, lodged) =>
      && SameRecord(seen, row)
      && (plan.status == Some(Filed) <==> plan.filedDate.Some?)
      && (plan.filing.Some? <==> plan.status == Some(Filed) && PeriodOf(seen).Some?)
      && (plan.filing.Some? ==>
            Some(plan.filing.value.0) == PeriodOf(seen) && Some(plan.filing.value.1.filedDate) == plan.filedDate)
      && (lodged && plan.filing.Some? ==> plan.filing.value.0 in filings)
      && (plan.status.Some? ==> Allowed(seen.status, plan.status.value))
    case Reopening(seen, _, _) => SameRecord(seen, row) && Settled(seen.status) && Reopenable(seen.obligation)
    case Done(_) => true
  }

  ghost predicate CallsGood(s: State) {
    forall k :: 0 <= k < |s.calls| ==> CallGood(s.calls[k], s.row, s.filings)
  }

  lemma {:induction false} PlanIsGood(r: Row, c: Change, today: int, now: int, filings: Filings)
    requires PlanUpdate(r, c, today, now, true).Ok?
    ensures CallGood(Updating(r, PlanUpdate(r, c, today, now, true).value, false), r, filings)
  {
  }

  lemma {:induction false} StepKeepsCalls(s: State, a: Action)
    requires CallsGood(s) && Can(s, a)
    ensures CallsGood(After(s, a)) && SameRecord(s.row, After(s, a).row)
  {
    if a.BeginUpdate? {
      PlanIsGood(s.row, a.change, a.today, a.now, s.filings);
    }
    var s' := After(s, a);
    forall k | 0 <= k < |s'.calls| ensures CallGood(s'.calls[k], s'.row, s'.filings) {
      if k < |s.calls| {
        assert CallGood(s.calls[k], s.row, s.filings);
      }
    }
  }

  /** The row stands, when a write lands, on the side of Filed that the call's move needs. */
  predicate SideKept(row: Row, to: Option<Status>) {
    || to.None?
    || to == Some(Filed)
    || (to == Some(Completed) && Settled(row.status))
    || (to != Some(Completed) && !Settled(row.status))
  }

  /** The period, where there is one, is locked with this date. */
  predicate LockQuotes(row: Row, filings: Filings, day: Option<int>) {
    PeriodOf(row).Some? ==> PeriodOf(row).value in filings && Some(filings[PeriodOf(row).value].filedDate) == day
  }

  /** The step finds what its call left: a move between open statuses finds the
      record open, a completion finds it settled, a filing finds the lock with its
      own date, and a lock is not put on a record filed with another date. */
  ghost predicate Timely(s: State, a: Action) {
    match a
    case Commit(k) =>
      k < |s.calls| && s.calls[k].Updating? ==>
        && SideKept(s.row, s.calls[k].plan.status)
        && (s.calls[k].plan.status == Some(Filed) ==> LockQuotes(s.row, s.filings, s.calls[k].plan.filedDate))
    case Lodge(k) =>
      k < |s.calls| && s.calls[k].Updating? && s.calls[k].plan.filing.Some? && Settled(s.row.status) ==>
        s.row.filedDate == Some(s.calls[k].plan.filing.value.1.filedDate)
    case _ => true
  }

  /** A late write leaves the record good exactly when it is timely; a reopen
      always does, because it asks. */
  lemma {:induction false} LateWriteIsSafeWhen(s: State, k: nat)
    requires Good(s.row, s.filings, true) && CallsGood(s) && Can(s, Commit(k))
    ensures var after := After(s, Commit(k)); Good(after.row, after.filings, true) <==> Timely(s, Commit(k))
  {
    assert CallGood(s.calls[k], s.row, s.filings);
  }

  /** A lock put on late keeps the record good exactly when the record is still
      open or carries the same date. */
  lemma {:induction false} LateLockIsSafeWhen(s: State, k: nat)
    requires Good(s.row, s.filings, true) && CallsGood(s) && Can(s, Lodge(k))
    ensures var after := After(s, Lodge(k)); Good(after.row, after.filings, true) <==> Timely(s, Lodge(k))
  {
    assert CallGood(s.calls[k], s.row, s.filings);
  }

  lemma {:induction false} StepKeepsGoodWhen(s: State, a: Action)
    requires Good(s.row, s.filings, true) && CallsGood(s) && Can(s, a)
    ensures Good(After(s, a).row, After(s, a).filings, true) <==> Timely(s, a)
  {
    match a
    case Commit(k) => LateWriteIsSafeWhen(s, k);
    case Lodge(k) => LateLockIsSafeWhen(s, k);
    case _ =>
  }

  /** What a step touches. A call that begins reads the row as it stands and changes
      nothing else; a lock changes the one period its plan files, a write the row and
      nothing but the row. The call that steps is the only one to move, and an update's
      write always lands. */
  ghost predicate Touches(s: State, a: Action, t: State) {
    match a
    case Lodge(k) =>
      && OthersWait(s, t, k) && t.row == s.row && s.calls[k].Updating? && s.calls[k].plan.filing.Some?
      && t.calls[k] == Updating(s.calls[k].seen, s.calls[k].plan, true)
      && t.filings == s.filings[s.calls[k].plan.filing.value.0 := s.calls[k].plan.filing.value.1]
    case Commit(k) =>
      && OthersWait(s, t, k) && t.filings == s.filings && t.calls[k].Done?
      && (s.calls[k].Updating? ==> t.calls[k].landed)
    case _ =>
      && t.row == s.row && t.filings == s.filings && |t.calls| == |s.calls| + 1 && s.calls <= t.calls
      && !t.calls[|s.calls|].Done? && t.calls[|s.calls|].seen == s.row
  }

  ghost predicate OthersWait(s: State, t: State, k: nat) {
    && k < |s.calls| == |t.calls| && forall j :: 0 <= j < |s.calls| && j != k ==> t.calls[j] == s.calls[j]
  }

  lemma {:induction false} StepTouches(s: State, a: Action)
    requires Can(s, a)
    ensures Touches(s, a, After(s, a))
  {
  }

  // ---- runs -------------------------------------------------------------------------

  datatype Run = Run(states: seq<State>, actions: seq<Action>)

  ghost predicate StepOk(r: Run, i: nat) {
    && i + 1 < |r.states| && i < |r.actions| && Can(r.states[i], r.actions[i])
    && r.states[i + 1] == After(r.states[i], r.actions[i])
  }

  ghost predicate IsRun(r: Run) {
    && |r.states| == |r.actions| + 1
    && r.states[0].calls == []
    && (forall i: nat :: i < |r.actions| ==> StepOk(r, i))
  }

  lemma {:induction false} RunKeepsCalls(r: Run, i: nat, j: nat)
    requires IsRun(r) && i <= j < |r.states|
    ensures CallsGood(r.states[j]) && SameRecord(r.states[i].row, r.states[j].row)
    decreases j
  {
    if j > 0 {
      RunKeepsCalls(r, if i < j then i else j - 1, j - 1);
      assert StepOk(r, j - 1);
      StepKeepsCalls(r.states[j - 1], r.actions[j - 1]);
    }
  }

  /** Over every interleaving, the record is good in every state, its lock quoting
      its own date, exactly when every step is timely. */
  lemma {:induction false} RunStaysGoodWhen(r: Run, n: nat)
    requires IsRun(r) && n < |r.states| && Good(r.states[0].row, r.states[0].filings, true)
    ensures (forall i: nat :: i <= n ==> Good(r.states[i].row, r.states[i].filings, true)) <==>
            (forall i: nat :: i < n ==> Timely(r.states[i], r.actions[i]))
  {
    if n > 0 {
      var m := n - 1;
      RunStaysGoodWhen(r, m);
      RunKeepsCalls(r, m, m);
      assert StepOk(r, m);
      if Good(r.states[m].row, r.states[m].filings, true) {
        StepKeepsGoodWhen(r.states[m], r.actions[m]);
      }
    }
  }

  predicate IsReopen(s: State, a: Action) { a.Commit? && a.k < |s.calls| && s.calls[a.k].Reopening? }

  /** A timely step leaves a settled record settled, but for a reopen. */
  lemma {:induction false} StepKeepsSettled(s: State, a: Action)
    requires Good(s.row, s.filings, true) && CallsGood(s) && Can(s, a) && Timely(s, a)
    requires Settled(s.row.status) && (Reopenable(s.row.obligation) ==> !IsReopen(s, a))
    ensures Settled(After(s, a).row.status)
  {
    if a.Commit? {
      assert CallGood(s.calls[a.k], s.row, s.filings);
    }
  }

  lemma {:induction false} StaysSettled(r: Run, i: nat, j: nat)
    requires IsRun(r) && i <= j < |r.states| && Good(r.states[0].row, r.states[0].filings, true)
    requires forall k: nat :: k < j ==> Timely(r.states[k], r.actions[k])
    requires Settled(r.states[i].row.status)
    requires Reopenable(r.states[i].row.obligation) ==>
               forall k: nat :: i <= k < j ==> !IsReopen(r.states[k], r.actions[k])
    ensures Settled(r.states[j].row.status)
    decreases j - i
  {
    if i < j {
      var m := j - 1;
      StaysSettled(r, i, m);
      RunStaysGoodWhen(r, m);
      RunKeepsCalls(r, i, m);
      assert StepOk(r, m) && Timely(r.states[m], r.actions[m]);
      assert Good(r.states[m].row, r.states[m].filings, true);
      StepKeepsSettled(r.states[m], r.actions[m]);
    }
  }

  /** Over every such interleaving a record that is not a deposit, a GSTR-1 or
      GSTR-3B among them, never leaves Filed or Completed, and its period stays
      locked with the record's own date. */
  lemma {:induction false} FiledReturnStaysFiled(r: Run, i: nat, j: nat)
    requires IsRun(r) && i <= j < |r.states| && Good(r.states[0].row, r.states[0].filings, true)
    requires forall k: nat :: k < j ==> Timely(r.states[k], r.actions[k])
    requires Settled(r.states[i].row.status) && !Reopenable(r.states[i].row.obligation)
    ensures Settled(r.states[j].row.status) && SameRecord(r.states[i].row, r.states[j].row)
    ensures LockQuotes(r.states[j].row, r.states[j].filings, r.states[j].row.filedDate)
  {
    StaysSettled(r, i, j);
    RunKeepsCalls(r, i, j);
    RunStaysGoodWhen(r, j);
    assert Good(r.states[j].row, r.states[j].filings, true);
  }

  /** A reopen landed at step `i`. */
  ghost predicate ReopenLands(r: Run, i: nat) {
    && i + 1 < |r.states| && i < |r.actions| && r.actions[i].Commit? && Can(r.states[i], r.actions[i])
    && r.states[i].calls[r.actions[i].k].Reopening? && Settled(r.states[i].row.status)
  }

  /** An update that files or completes the record landed at step `i`. */
  ghost predicate FilingLands(r: Run, i: nat) {
    && i + 1 < |r.states| && i < |r.actions| && r.actions[i].Commit? && Can(r.states[i], r.actions[i])
    && r.states[i].calls[r.actions[i].k].Updating?
    && r.states[i].calls[r.actions[i].k].plan.status.Some?
    && Settled(r.states[i].calls[r.actions[i].k].plan.status.value)
  }

  lemma {:induction false} OpenUntilFiled(r: Run, i: nat, j: nat)
    requires IsRun(r) && i <= j < |r.states| && !Settled(r.states[i].row.status)
    requires forall k: nat :: i <= k < j ==> !FilingLands(r, k)
    ensures !Settled(r.states[j].row.status)
    decreases j - i
  {
    if i < j {
      OpenUntilFiled(r, i, j - 1);
      assert StepOk(r, j - 1);
      assert !FilingLands(r, j - 1);
    }
  }

  /** Of reopens that race, at most one lands: between two that land, the record
      was recorded as filed or completed again. */
  lemma {:induction false} OneReopenLands(r: Run, i: nat, j: nat)
    requires IsRun(r) && i < j && ReopenLands(r, i) && ReopenLands(r, j)
    ensures exists k: nat :: i < k < j && FilingLands(r, k)
  {
    assert StepOk(r, i);
    if forall k: nat :: i + 1 <= k < j ==> !FilingLands(r, k) {
      OpenUntilFiled(r, i + 1, j);
    }
  }

  /** The guard of a reopen's write: it lands exactly when the row is settled at
      that moment, and otherwise changes nothing. */
  lemma {:induction false} ReopenLandsWhen(s: State, k: nat)
    requires Can(s, Commit(k)) && s.calls[k].Reopening?
    ensures After(s, Commit(k)).calls[k] == Done(Settled(s.row.status))
    ensures !Settled(s.row.status) ==> After(s, Commit(k)).row == s.row
    ensures Settled(s.row.status) ==>
              !Settled(After(s, Commit(k)).row.status) && After(s, Commit(k)).row.filedDate.None?
  {
  }

  predicate Ended(s: State, k: nat, landed: bool) { k < |s.calls| && s.calls[k] == Done(landed) }

  /** Two reopens of one filed record race, the first to write at `p` and the
      other at `q`: with no other reopen written since the record stood filed at
      `b`, and no filing recorded in between, exactly one of them lands. The loser
      changes nothing. */
  lemma {:induction false} ExactlyOneReopenLands(r: Run, b: nat, p: nat, q: nat)
    requires IsRun(r) && b <= p < q < |r.actions| && Good(r.states[0].row, r.states[0].filings, true)
    requires forall k: nat :: k < p ==> Timely(r.states[k], r.actions[k])
    requires Settled(r.states[b].row.status)
    requires IsReopen(r.states[p], r.actions[p]) && IsReopen(r.states[q], r.actions[q])
    requires forall m: nat :: b <= m < p ==> !IsReopen(r.states[m], r.actions[m])
    requires forall m: nat :: p < m < q ==> !FilingLands(r, m)
    ensures ReopenLands(r, p) && Ended(r.states[p + 1], r.actions[p].k, true)
    ensures !ReopenLands(r, q) && Ended(r.states[q + 1], r.actions[q].k, false)
    ensures !Settled(r.states[p + 1].row.status) && r.states[q + 1].row == r.states[q].row
  {
    StaysSettled(r, b, p);
    assert StepOk(r, p) && StepOk(r, q);
    ReopenLandsWhen(r.states[p], r.actions[p].k);
    OpenUntilFiled(r, p + 1, q);
    ReopenLandsWhen(r.states[q], r.actions[q].k);
  }

  // ---- the date a reopen takes away -------------------------------------------------

  /** An update that records a filing landed at step `i`. */
  ghost predicate Files(r: Run, i: nat) {
    && i + 1 < |r.states| && i < |r.actions| && r.actions[i].Commit? && Can(r.states[i], r.actions[i])
    && r.states[i].calls[r.actions[i].k].Updating? && r.states[i].calls[r.actions[i].k].plan.status == Some(Filed)
  }

  ghost predicate WritesDate(r: Run, i: nat) { Files(r, i) || ReopenLands(r, i) }

  /** The date such a step leaves on the record: a filing's own, or none. */
  ghost function DateWritten(r: Run, i: nat): Option<int>
    requires WritesDate(r, i)
  {
    if Files(r, i) then r.states[i].calls[r.actions[i].k].plan.filedDate else None
  }

  lemma {:induction false} DateStep(r: Run, i: nat)
    requires IsRun(r) && i < |r.actions|
    ensures r.states[i + 1].row.filedDate == if WritesDate(r, i) then DateWritten(r, i) else r.states[i].row.filedDate
  {
    assert StepOk(r, i);
    RunKeepsCalls(r, i, i);
    if r.actions[i].Commit? {
      assert CallGood(r.states[i].calls[r.actions[i].k], r.states[i].row, r.states[i].filings);
    }
  }

  /** The last step from `i` up to `j` that wrote a date. */
  ghost predicate LastDate(r: Run, i: nat, j: nat, m: nat) {
    i <= m < j && WritesDate(r, m) && forall n: nat :: m < n < j ==> !WritesDate(r, n)
  }

  lemma {:induction false} DateSince(r: Run, i: nat, j: nat)
    requires IsRun(r) && i <= j < |r.states|
    ensures (forall m: nat :: i <= m < j ==> !WritesDate(r, m)) ==>
              r.states[j].row.filedDate == r.states[i].row.filedDate
    ensures forall m: nat :: LastDate(r, i, j, m) ==> r.states[j].row.filedDate == DateWritten(r, m)
    decreases j - i
  {
    if i < j {
      var n := j - 1;
      DateSince(r, i, n);
      DateStep(r, n);
      forall m: nat | LastDate(r, i, j, m) && m < n ensures LastDate(r, i, n, m) {
      }
    }
  }

  lemma {:induction false} LastDateExists(r: Run, i: nat, j: nat, w: nat) returns (m: nat)
    requires i <= w < j && WritesDate(r, w)
    ensures LastDate(r, i, j, m) && w <= m
    decreases j - w
  {
    if n: nat :| w < n < j && WritesDate(r, n) {
      m := LastDateExists(r, i, j, n);
    } else {
      m := w;
    }
  }

  /** A reopen in flight keeps what it read until it writes. */
  lemma {:induction false} CallWaits(r: Run, i: nat, j: nat, k: nat)
    requires IsRun(r) && i <= j < |r.states| && k < |r.states[i].calls|
    ensures k < |r.states[j].calls|
    ensures r.states[j].calls[k].Reopening? ==> r.states[j].calls[k] == r.states[i].calls[k]
    decreases j - i
  {
    if i < j {
      CallWaits(r, i, j - 1, k);
      assert StepOk(r, j - 1);
    }
  }

  /** A reopen that begins at `i` and lands at `j` finds on the record the date it
      read exactly when the last date written in between, if any was, is that
      date. Over every run. */
  lemma {:induction false} ReopenFindsItsDateWhen(r: Run, i: nat, j: nat)
    requires IsRun(r) && i < j < |r.actions| && r.actions[i].BeginReopen?
    requires r.actions[j] == Commit(|r.states[i].calls|) && ReopenLands(r, j)
    ensures var seen := r.states[j].calls[r.actions[j].k].seen;
            && seen == r.states[i].row
            && (r.states[j].row.filedDate == seen.filedDate <==>
                forall m: nat :: LastDate(r, i + 1, j, m) ==> DateWritten(r, m) == seen.filedDate)
  {
    var k, b := |r.states[i].calls|, i + 1;
    assert StepOk(r, i);
    CallWaits(r, b, j, k);
    DateSince(r, b, j);
    if w: nat :| b <= w < j && WritesDate(r, w) {
      var m := LastDateExists(r, b, j, w);
    }
  }

  /** The last filing to land from `i` up to `j`. */
  ghost predicate LastFiling(r: Run, i: nat, j: nat, m: nat) {
    i <= m < j && Files(r, m) && forall n: nat :: m < n < j ==> !Files(r, n)
  }

  lemma {:induction false} SettledLastDateIsAFiling(r: Run, i: nat, j: nat, m: nat)
    requires IsRun(r) && i <= j < |r.states| && r.states[j].row.filedDate.Some?
    ensures LastDate(r, i, j, m) <==> LastFiling(r, i, j, m)
  {
    DateSince(r, i, j);
    if LastDate(r, i, j, m) {
      assert Files(r, m);
      forall n: nat | m < n < j ensures !Files(r, n) {
        assert !WritesDate(r, n);
      }
    }
    if LastFiling(r, i, j, m) {
      var z := LastDateExists(r, i, j, m);
      assert Files(r, z) && z == m;
    }
  }

  /** What a reopen says it will not do, and when it does: over the runs that keep
      the record good, one that begins at `i` and lands at `j` takes away a date it
      never read exactly when some filing landed in between and the last one to
      land left another date. */
  lemma {:induction false} RefiledDateIsLostWhen(r: Run, i: nat, j: nat)
    requires IsRun(r) && i < j < |r.actions| && r.actions[i].BeginReopen?
    requires r.actions[j] == Commit(|r.states[i].calls|) && ReopenLands(r, j)
    requires Good(r.states[0].row, r.states[0].filings, true)
    requires forall m: nat :: m < j ==> Timely(r.states[m], r.actions[m])
    ensures r.states[j + 1].row.filedDate.None?
    ensures var seen := r.states[j].calls[r.actions[j].k].seen;
            && seen == r.states[i].row && r.states[j].row.filedDate.Some?
            && (r.states[j].row.filedDate != seen.filedDate <==>
                exists m: nat :: LastFiling(r, i + 1, j, m) && DateWritten(r, m) != seen.filedDate)
  {
    RunStaysGoodWhen(r, j);
    assert Good(r.states[j].row, r.states[j].filings, true);
    assert StepOk(r, j);
    ReopenFindsItsDateWhen(r, i, j);
    var b := i + 1;
    forall m: nat ensures LastDate(r, b, j, m) <==> LastFiling(r, b, j, m) {
      SettledLastDateIsAFiling(r, b, j, m);
    }
  }

  // ---- three interleavings that go wrong --------------------------------------------

  ghost function Last(r: Run): State
    requires |r.states| == |r.actions| + 1
  {
    r.states[|r.actions|]
  }

  /** A run and one step more. */
  lemma {:induction false} OneStepMore(r: Run, a: Action) returns (r': Run)
    requires IsRun(r) && Can(Last(r), a)
    ensures IsRun(r') && r'.actions == r.actions + [a] && r'.states == r.states + [After(Last(r), a)]
    ensures Last(r') == After(Last(r), a)
  {
    r' := Run(r.states + [After(Last(r), a)], r.actions + [a]);
    forall i: nat | i < |r'.actions| ensures StepOk(r', i) {
      if i < |r.actions| {
        assert StepOk(r, i);
      }
    }
  }

  function Filing(day: int): Action { BeginUpdate(Change(Some(Filed), Given(day), None, None), day, 0) }

  /** A filing that nothing interrupts: read, locked where it closes a period, written. */
  lemma {:induction false} FiledNext(before: Run, day: int) returns (r: Run)
    requires IsRun(before) && Last(before).row.status == ReadyToFile && Dated(Last(before).row)
    requires PeriodHasEnded(Last(before).row, day) && FiledDateFor(Last(before).row, Given(day), day).Ok?
    ensures var row, k := Last(before).row, |Last(before).calls|;
            && IsRun(r) && before.states <= r.states
            && r.actions == before.actions
               + (if PeriodOf(row).Some? then [Filing(day), Lodge(k), Commit(k)] else [Filing(day), Commit(k)])
            && Last(r).row.status == Filed && Last(r).row.filedDate == Some(day) && SameRecord(row, Last(r).row)
            && (PeriodOf(row).Some? ==> PeriodOf(row).value in Last(r).filings)
            && |Last(r).calls| == k + 1 && Last(r).calls[..k] == Last(before).calls
  {
    var row, k := Last(before).row, |Last(before).calls|;
    r := OneStepMore(before, Filing(day));
    if PeriodOf(row).Some? {
      r := OneStepMore(r, Lodge(k));
    }
    r := OneStepMore(r, Commit(k));
  }

  /** Two reopens have read a filed record, and the first has written. */
  lemma {:induction false} OneOfTwoReopens(row: Row, reason: string) returns (r: Run)
    requires row.status == Filed && PlanReopen(row, reason).Ok?
    ensures IsRun(r) && |r.actions| == 3 && r.states[0] == State(row, map[], [])
    ensures r.actions[..2] == [BeginReopen(reason, "", false), BeginReopen(reason, "", false)]
    ensures var notes := NotesWith(row.notes, "" + Strip(reason));
            Last(r) == State(Reopened(row, notes, false), map[], [Done(true), Reopening(row, notes, false)])
  {
    var ask := BeginReopen(reason, "", false);
    r := OneStepMore(Run([State(row, map[], [])], []), ask);
    r := OneStepMore(r, ask);
    r := OneStepMore(r, Commit(0));
  }

  /** A record recorded as filed again, with a new date, between a reopen's read
      and its write is still written over, and the new date is lost: two reopens
      read it filed, one lands, it is filed again on `day`, and the other lands. */
  lemma {:induction false} RefiledRecordIsOverwritten(row: Row, reason: string, day: int) returns (r: Run)
    requires Good(row, map[], true) && row.status == Filed && PlanReopen(row, reason).Ok?
    ensures IsRun(r) && |r.actions| == 6 && r.states[0] == State(row, map[], [])
    ensures r.states[5].row.status == Filed && r.states[5].row.filedDate == Some(day)
    ensures r.actions[1].BeginReopen? && r.actions[5] == Commit(1)
    ensures r.states[6].row.status == ReadyToFile && r.states[6].row.filedDate.None?
  {
    var half := OneOfTwoReopens(row, reason);
    var again := FiledNext(half, day);
    assert Last(again).calls[1] == Last(again).calls[..2][1];
    r := OneStepMore(again, Commit(1));
    assert r.states[5] == Last(again) && r.actions[1] == half.actions[..2][1];
  }

  /** One call means to send a record in review back and has not written yet;
      another has moved it on. */
  lemma {:induction false} ReviewedOn(row: Row, day: int) returns (r: Run)
    requires row.status == ReadyForReview
    ensures IsRun(r) && |r.actions| == 3 && r.states[0] == State(row, map[], [])
    ensures Last(r).row == row.(status := ReadyToFile) && |Last(r).calls| == 2 && Last(r).filings == map[]
    ensures Last(r).calls[0] == Updating(row, Plan(Some(InProgress), None, None, None, None, false, None), false)
  {
    r := OneStepMore(Run([State(row, map[], [])], []),
                     BeginUpdate(Change(Some(InProgress), NotGiven, None, None), day, 0));
    r := OneStepMore(r, BeginUpdate(Change(Some(ReadyToFile), NotGiven, None, None), day, 0));
    r := OneStepMore(r, Commit(1));
  }

  /** An update takes no such care: one that read a GSTR-1 or GSTR-3B in review,
      and sends it back to In Progress after another person has filed it, leaves
      it open with its filing date on it and its period locked. */
  lemma {:induction false} LateUpdateUndoesFiling(row: Row, day: int) returns (r: Run)
    requires Good(row, map[], true) && row.status == ReadyForReview && PeriodOf(row).Some?
    requires PeriodHasEnded(row, day) && FiledDateFor(row, Given(day), day).Ok?
    ensures IsRun(r) && |r.actions| == 7 && r.states[0] == State(row, map[], [])
    ensures r.states[6].row.status == Filed && r.states[6].row.filedDate == Some(day)
    ensures r.states[7].row.status == InProgress && r.states[7].row.filedDate == Some(day)
    ensures PeriodOf(r.states[7].row) == PeriodOf(row) && PeriodOf(row).value in r.states[7].filings
  {
    var reviewed := ReviewedOn(row, day);
    var filed := FiledNext(reviewed, day);
    assert Last(filed).calls[0] == Last(filed).calls[..2][0];
    r := OneStepMore(filed, Commit(0));
    assert r.states[6] == Last(filed);
  }

  /** Two filings of one return, each with its own date, part the record from its
      lock: both are put on, the later date last, and the record is written with
      the later date and then the earlier. */
  lemma {:induction false} TwoFilingsPart(row: Row, d1: int, d2: int) returns (r: Run)
    requires Good(row, map[], true) && row.status == ReadyToFile && PeriodOf(row).Some? && d1 != d2
    requires PeriodHasEnded(row, d1) && FiledDateFor(row, Given(d1), d1).Ok?
    requires PeriodHasEnded(row, d2) && FiledDateFor(row, Given(d2), d2).Ok?
    ensures IsRun(r) && r.states[0] == State(row, map[], []) && |r.actions| == 6
    ensures forall i: nat :: i < 5 ==> Timely(r.states[i], r.actions[i])
    ensures var s := r.states[6];
            && s.row.status == Filed && s.row.filedDate == Some(d1)
            && PeriodOf(row).value in s.filings && s.filings[PeriodOf(row).value].filedDate == d2
            && !Good(s.row, s.filings, true)
  {
    r := BothLock(row, d1, d2);
    assert forall i: nat :: i < 4 ==> !Settled(r.states[i].row.status);
    var locked := r;
    r := OneStepMore(r, Commit(1));
    r := OneStepMore(r, Commit(0));
    assert r.states[4] == Last(locked) && forall i: nat :: i < 4 ==> r.states[i] == locked.states[i];
    assert forall i: nat :: i < 4 ==> r.actions[i] == locked.actions[i];
  }

  /** Two calls that will file one row have read it. */
  ghost predicate BothInFlight(s: State, row: Row, p: Period, d1: int, d2: int, lodged: bool) {
    && s.row == row && |s.calls| == 2 && s.calls[0].Updating? && s.calls[1].Updating?
    && s.calls[0].lodged == lodged && s.calls[1].lodged == lodged
    && s.calls[0].plan.status == Some(Filed) && s.calls[0].plan.filedDate == Some(d1)
    && s.calls[1].plan.status == Some(Filed) && s.calls[1].plan.filedDate == Some(d2)
    && s.calls[0].plan.filing.Some? && s.calls[0].plan.filing.value.0 == p
    && s.calls[0].plan.filing.value.1.filedDate == d1
    && s.calls[1].plan.filing.Some? && s.calls[1].plan.filing.value.0 == p
    && s.calls[1].plan.filing.value.1.filedDate == d2
  }

  lemma {:induction false} BothRead(row: Row, d1: int, d2: int) returns (r: Run)
    requires Dated(row) && row.status == ReadyToFile && PeriodOf(row).Some?
    requires PeriodHasEnded(row, d1) && FiledDateFor(row, Given(d1), d1).Ok?
    requires PeriodHasEnded(row, d2) && FiledDateFor(row, Given(d2), d2).Ok?
    ensures IsRun(r) && r.actions == [Filing(d1), Filing(d2)] && r.states[0] == State(row, map[], [])
    ensures r.states[1].row == row && BothInFlight(Last(r), row, PeriodOf(row).value, d1, d2, false)
  {
    r := OneStepMore(Run([State(row, map[], [])], []), Filing(d1));
    r := OneStepMore(r, Filing(d2));
  }

  lemma {:induction false} BothLock(row: Row, d1: int, d2: int) returns (r: Run)
    requires Dated(row) && row.status == ReadyToFile && PeriodOf(row).Some?
    requires PeriodHasEnded(row, d1) && FiledDateFor(row, Given(d1), d1).Ok?
    requires PeriodHasEnded(row, d2) && FiledDateFor(row, Given(d2), d2).Ok?
    ensures IsRun(r) && r.actions == [Filing(d1), Filing(d2), Lodge(0), Lodge(1)]
            && r.states[0] == State(row, map[], [])
    ensures forall i: nat :: i < 4 ==> r.states[i].row == row
    ensures BothInFlight(Last(r), row, PeriodOf(row).value, d1, d2, true)
    ensures var p := PeriodOf(row).value; p in Last(r).filings && Last(r).filings[p].filedDate == d2
  {
    var read := BothRead(row, d1, d2);
    var one := OneStepMore(read, Lodge(0));
    r := OneStepMore(one, Lodge(1));
    assert r.states[0] == read.states[0] && r.states[1] == read.states[1] && r.states[2] == Last(read)
           && r.states[3] == Last(one);
  }
}
