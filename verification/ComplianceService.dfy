/** The compliance service over one table of records and one of filings
    (apps/api/domain/compliance_record_service.py), a call at a time. */
module ComplianceService {
  import opened Text
  import opened Compliance

  datatype Draft = Draft(
    client: Id, complianceType: Id, periodStart: Option<int>, periodEnd: Option<int>, dueDate: Option<int>,
    status: Status, notes: Option<string>)

  /** The workflow from any open status to Filed, documents left aside. */
  const FAST_FORWARD_PATH: seq<Status> := [InProgress, ReadyForReview, ReadyToFile, Filed]

  /** A walk along the workflow from `first`. */
  ghost predicate IsWalk(trace: seq<Status>, first: Status) {
    && trace != [] && trace[0] == first
    && forall i :: 0 < i < |trace| ==> Allowed(trace[i - 1], trace[i])
  }

  /** The same client's period twice: of one compliance type among records made by
      hand, of one obligation among those derived. */
  predicate SameKey(a: Row, b: Row) {
    && a.firm == b.firm && a.client == b.client && a.obligation == b.obligation
    && (a.obligation == NoType ==> a.complianceType == b.complianceType)
    && a.periodStart.Some? && a.periodStart == b.periodStart
  }

  ghost predicate KeysUnique(records: map<Id, Row>) {
    forall i, j :: i in records && j in records && i != j ==> !SameKey(records[i], records[j])
  }

  ghost predicate AllGood(records: map<Id, Row>, filings: Filings, database: bool) {
    forall i :: i in records ==> Good(records[i], filings, database)
  }

  /** A row written over its own keeps the keys apart, if it kept its key. */
  lemma {:induction false} RewriteKeepsKeys(records: map<Id, Row>, id: Id, r: Row)
    requires KeysUnique(records) && id in records
    requires r.(status := records[id].status, filedDate := records[id].filedDate,
                completedAt := records[id].completedAt, acknowledgement := records[id].acknowledgement,
                notes := records[id].notes, escalatedOn := records[id].escalatedOn,
                closingChallans := records[id].closingChallans) == records[id]
    ensures KeysUnique(records[id := r])
  {
    assert r.obligation == records[id].obligation && r.firm == records[id].firm && r.client == records[id].client;
    assert r.complianceType == records[id].complianceType && r.periodStart == records[id].periodStart;
  }

  /** Where on the path a walk from this status begins. */
  function StartOf(s: Status): nat {
    match s
    case InProgress => 1
    case ReadyForReview => 2
    case ReadyToFile => 3
    case _ => 0
  }

  /** What the filings row says of a record just filed. */
  function LodgedAs(r: Row): Lodged
    requires r.filedDate.Some?
  {
    Lodged(r.filedDate.value, NonEmpty(r.acknowledgement))
  }

  function StepChange(k: nat, acknowledgement: Option<string>, given: GivenDate): Change
    requires k < 4
  {
    if k == 3 then Change(Some(Filed), given, NonEmpty(acknowledgement), None)
    else Change(Some(FAST_FORWARD_PATH[k]), NotGiven, None, None)
  }

  /** A step short of Filed changes the status alone. */
  lemma {:induction false} OpenStep(r: Row, k: nat, ack: Option<string>, given: GivenDate, today: int, now: int,
                                    database: bool)
    requires k < 3 && (if k == 0 then StartOf(r.status) == 0 && !Settled(r.status)
                       else r.status == FAST_FORWARD_PATH[k - 1])
    ensures var p := PlanUpdate(r, StepChange(k, ack, given), today, now, database);
            if r.status.Other? then p == Err(NoSuchMove)
            else
              && Allowed(r.status, FAST_FORWARD_PATH[k]) && p.Ok? && p.value.filing.None?
              && Written(r, p.value) == r.(status := FAST_FORWARD_PATH[k])
  {
  }

  /** A record marked filed is as it was but for four columns: filed, on the day
      given or the day it was marked, with the acknowledgement given, unless that is
      blank, and no challans. */
  predicate MarkedFiled(after: Row, was: Row, acknowledgement: Option<string>, given: GivenDate, day: int) {
    && after.status == Filed
    && after.filedDate == Some(if given.Given? then given.day else day)
    && (if acknowledgement == None || acknowledgement == Some("") then after.acknowledgement == was.acknowledgement
        else after.acknowledgement == acknowledgement)
    && after == was.(status := Filed, filedDate := after.filedDate, acknowledgement := after.acknowledgement,
                     closingChallans := None)
  }

  /** The last step is granted once the checks at the door have passed. */
  lemma {:induction false} LastStep(r: Row, ack: Option<string>, given: GivenDate, today: int, now: int, database: bool)
    requires r.status == ReadyToFile && Dated(r) && PeriodHasEnded(r, today) && FiledDateFor(r, given, today).Ok?
    ensures var p := PlanUpdate(r, StepChange(3, ack, given), today, now, database);
            && p.Ok? && MarkedFiled(Written(r, p.value), r, ack, given, today)
            && p.value.filing ==
               if database && PeriodOf(r).Some? then Some((PeriodOf(r).value, LodgedAs(Written(r, p.value)))) else None
  {
  }

  /** Why no step would be taken: the checks at the door, in their order, or a
      status the workflow does not know. */
  function DoorRefusal(r: Row, given: GivenDate, today: int): Option<Error> {
    if !PeriodHasEnded(r, today) then Some(PeriodNotEnded)
    else
      match FiledDateFor(r, given, today)
      case Err(e) => Some(e)
      case Ok(_) => if r.status.Other? then Some(NoSuchMove) else None
  }

  /** The door refuses exactly what the last step would refuse: a return's period
      that has yet to end, a fault in the date, and after them a status the workflow
      does not know. */
  lemma {:induction false} DoorRefusesWhen(r: Row, given: GivenDate, today: int)
    ensures var d := DoorRefusal(r, given, today);
            if TooEarly(r, today) then d == Some(PeriodNotEnded)
            else if d.Some? && d != Some(NoSuchMove) then DateFault(r, given, today, d.value)
            else (forall e :: !DateFault(r, given, today, e)) && (d.Some? <==> r.status.Other?)
  {
  }

  class Service {
    var records: map<Id, Row>
    var filings: Filings
    const database: bool

    ghost predicate Valid()
      reads this
    {
      AllGood(records, filings, database) && KeysUnique(records)
    }

    constructor (database: bool)
      ensures Valid() && records == map[] && filings == map[] && this.database == database
    {
      records, filings := map[], map[];
      this.database := database;
    }

    /** A record of another firm reads as one that is not there. */
    function Fetch(id: Id, caller: Option<Id>): (r: Result<Row>)
      reads this
      ensures r.Ok? <==> id in records && (caller.Some? ==> records[id].firm == caller.value)
      ensures r.Ok? ==> r.value == records[id]
      ensures r.Err? ==> r.error == NotFound
    {
      if id in records && (caller.None? || records[id].firm == caller.value) then Ok(records[id]) else Err(NotFound)
    }

    /** A record the generator derives: not started, nothing filed. The table's
        unique index refuses a second one of the same obligation and period. */
    method AddObligation(id: Id, r: Row) returns (added: bool)
      requires Valid() && id !in records
      requires r.status == NotStarted && r.filedDate.None? && r.obligation != NoType
      modifies this
      ensures Valid() && filings == old(filings)
      ensures added <==>
              forall i :: i in old(records) ==>
                var was := old(records)[i];
                !(was.firm == r.firm && was.client == r.client && was.obligation == r.obligation
                  && was.periodStart.Some? && was.periodStart == r.periodStart)
      ensures records == if added then old(records)[id := r] else old(records)
    {
      var existing := records;
      added := forall i :: i in existing ==> !SameKey(existing[i], r);
      if added {
        records := records[id := r];
      }
    }

    /** A record made by hand. One for the same client, type and period is
        refused, then one without its dates, then one born filed. */
    method CreateRecord(id: Id, firm: Id, d: Draft) returns (r: Result<Row>)
      requires Valid() && id !in records
      modifies this
      ensures Valid() && filings == old(filings)
      ensures r == Err(AlreadyExists) <==>
              d.periodStart.Some? &&
              exists i :: i in old(records) && old(records)[i].firm == firm && old(records)[i].client == d.client &&
                old(records)[i].complianceType == d.complianceType && old(records)[i].periodStart == d.periodStart
      ensures r.Ok? ==> d.periodStart.Some? && d.periodEnd.Some? && d.dueDate.Some? && !Settled(d.status)
      ensures r.Err? && r.error != AlreadyExists ==>
              r.error ==
              if d.periodStart.None? || d.periodEnd.None? || d.dueDate.None? then PeriodMissing else BornFiled
      ensures r.Err? ==> records == old(records)
      ensures r.Ok? ==>
              && records == old(records)[id := r.value]
              && r.value.firm == firm && r.value.client == d.client && r.value.complianceType == d.complianceType
              && r.value.obligation == NoType && r.value.periodStart == d.periodStart
              && r.value.periodEnd == d.periodEnd
              && r.value.dueDate == d.dueDate.value && r.value.status == d.status && r.value.notes == d.notes
              && r.value.filedDate.None? && r.value.acknowledgement.None? && r.value.completedAt.None?
              && r.value.closingChallans.None? && r.value.escalatedOn.None?
    {
      if d.periodStart.Some? {
        var existing := records;
        var clash := exists i :: i in existing && existing[i].firm == firm && existing[i].client == d.client &&
                       existing[i].complianceType == d.complianceType && existing[i].periodStart == d.periodStart;
        if clash {
          return Err(AlreadyExists);
        }
      }
      if d.periodStart.None? || d.periodEnd.None? || d.dueDate.None? {
        return Err(PeriodMissing);
      }
      if Settled(d.status) {
        return Err(BornFiled);
      }
      var made := Row(firm, d.client, d.complianceType, NoType, d.periodStart, d.periodEnd, d.dueDate.value,
                      d.status, None, None, None, None, None, d.notes);
      records := records[id := made];
      r := Ok(made);
    }

    /** One update. A refusal changes nothing; a filing that cannot be recorded
        leaves the record where it was. */
    method UpdateRecord(id: Id, caller: Option<Id>, c: Change, today: int, now: int, filingFails: bool)
      returns (r: Result<Row>)
      requires Valid()
      modifies this
      ensures Valid()
      // refused for its move, for its filing or because the filing cannot be written, and then nothing changes
      ensures old(Fetch(id, caller)).Err? ==> r == Err(NotFound)
      ensures r.Err? ==> records == old(records) && filings == old(filings)
      ensures old(Fetch(id, caller)).Ok? ==>
                var row := old(records)[id];
                match c.status
                case None => r.Ok?
                case Some(Filed) =>
                  if row.status != ReadyToFile then r == Err(NoSuchMove)
                  else if TooEarly(row, today) then r == Err(PeriodNotEnded)
                  else if r.Err? && r.error != FilingFailed then DateFault(row, c.filedDate, today, r.error)
                  else (r.Err? <==> filingFails && Locks(row, c, database))
                       && forall e :: !DateFault(row, c.filedDate, today, e)
                case Some(to) => if Allowed(row.status, to) then r.Ok? else r == Err(NoSuchMove)
      // granted: the one record, column by column, and the one lock
      ensures r.Ok? ==>
                && old(Fetch(id, caller)).Ok? && records == old(records)[id := r.value]
                && IsUpdateOf(r.value, old(records)[id], c, today, now)
                && IsLockOf(filings, old(filings), r.value, old(records)[id], c, database)
      ensures var was := old(Fetch(id, caller));
              match was
              case Err(e) => r == Err(e) && records == old(records) && filings == old(filings)
              case Ok(row) =>
                match PlanUpdate(row, c, today, now, database)
                case Err(e) => r == Err(e) && records == old(records) && filings == old(filings)
                case Ok(p) =>
                  if p.filing.Some? && filingFails then
                    r == Err(FilingFailed) && records == old(records) && filings == old(filings)
                  else
                    && r == Ok(Written(row, p))
                    && records == old(records)[id := Written(row, p)]
                    && filings == Locked(old(filings), p)
    {
      var found := Fetch(id, caller);
      if found.Err? {
        return Err(found.error);
      }
      var row := found.value;
      UpdateRefusedWhen(row, c, today, now, database);
      var planned := PlanUpdate(row, c, today, now, database);
      if planned.Err? {
        return Err(planned.error);
      }
      var p := planned.value;
      UpdateKeepsGood(row, c, today, now, filings, database);
      UpdateTakesEffect(row, c, today, now, filings, database);
      assert forall i ::
          i in records && i != id && PeriodOf(records[i]).Some? && PeriodOf(records[i]) == PeriodOf(row) ==>
            SameKey(records[i], records[id]);
      if p.filing.Some? {
        if filingFails {
          return Err(FilingFailed);
        }
        filings := filings[p.filing.value.0 := p.filing.value.1];
      }
      RewriteKeepsKeys(records, id, Written(row, p));
      records := records[id := Written(row, p)];
      r := Ok(Written(row, p));
    }

    /** Takes back a recorded filing on a deposit obligation, and nothing else. */
    method ReopenRecord(id: Id, caller: Option<Id>, reason: string, stamp: string, forget: bool)
      returns (r: Result<Row>)
      requires Valid()
      modifies this
      ensures Valid() && filings == old(filings)
      ensures r.Err? ==> records == old(records)
      ensures r.Ok? ==>
              && old(Fetch(id, caller)).Ok?
              && Settled(old(records)[id].status) && Reopenable(old(records)[id].obligation)
              && records == old(records)[id := r.value]
              && IsReopenOf(r.value, old(records)[id], stamp + Strip(reason), forget)
      ensures old(Fetch(id, caller)).Err? ==> r == Err(NotFound)
      ensures old(Fetch(id, caller)).Ok? ==>
                var row, why := old(records)[id], Strip(reason);
                if why == "" then r == Err(NoReason)
                else if |why| >= 501 then r == Err(ReasonTooLong)
                else if row.status != Filed && row.status != Completed then r == Err(NothingToReopen)
                else if !Reopenable(row.obligation) then r == Err(NotReopenable)
                else r.Ok?
    {
      var found := Fetch(id, caller);
      if found.Err? {
        return Err(found.error);
      }
      var row := found.value;
      ReopenRefusedWhen(row, reason);
      ReturnsAndDepositsPart(row.obligation);
      var planned := PlanReopen(row, reason);
      if planned.Err? {
        return Err(planned.error);
      }
      var after := Reopened(row, NotesWith(row.notes, stamp + planned.value), forget);
      ReopenKeepsGood(row, reason, after.notes.value, forget, filings, database);
      ReopenTakesEffect(row, stamp + planned.value, forget);
      RewriteKeepsKeys(records, id, after);
      records := records[id := after];
      r := Ok(after);
    }

    /** One click: walks the workflow to Filed. `today` is the day of the checks at
        the door, `later` the day of the last step. Already filed, only the
        acknowledgement may change. Otherwise either no step is taken, or the
        record reaches Filed by allowed moves; only a filing that cannot be
        recorded leaves it short, at Ready To File. */
    method MarkFiled(id: Id, caller: Option<Id>, acknowledgement: Option<string>, given: GivenDate,
                     today: int, later: int, now: int, filingFails: bool)
      returns (r: Result<Row>, ghost trace: seq<Status>)
      requires Valid() && today <= later
      modifies this
      ensures Valid()
      ensures old(Fetch(id, caller)).Err? ==> r == Err(NotFound) && records == old(records) && filings == old(filings)
      ensures old(Fetch(id, caller)).Ok? && Settled(old(records)[id].status) ==>
              && id in records && r == Ok(records[id]) && filings == old(filings)
              && (var row := old(records)[id];
                  records[id] == row.(acknowledgement := Either(NonEmpty(acknowledgement), row.acknowledgement)))
              && records == old(records)[id := records[id]]
      ensures old(Fetch(id, caller)).Ok? && !Settled(old(records)[id].status)
              && DoorRefusal(old(records)[id], given, today).Some? ==>
              && r == Err(DoorRefusal(old(records)[id], given, today).value) && records == old(records)
              && filings == old(filings)
      ensures old(Fetch(id, caller)).Ok? && !Settled(old(records)[id].status)
              && DoorRefusal(old(records)[id], given, today).None? ==>
              var row := old(records)[id];
              && IsWalk(trace, row.status) && id in records && trace[|trace| - 1] == records[id].status
              && records == old(records)[id := records[id]]
              && (r.Ok? ==>
                    && r.value == records[id] && MarkedFiled(records[id], row, acknowledgement, given, later)
                    && filings == FiledWith(old(filings), row, LodgedAs(records[id])))
              && (r.Err? ==>
                    && r == Err(FilingFailed) && filingFails
                    && records[id] == row.(status := ReadyToFile) && filings == old(filings))
    {
      trace := [];
      var found := Fetch(id, caller);
      if found.Err? {
        return Err(found.error), [];
      }
      var row := found.value;
      trace := [row.status];
      if Settled(row.status) {
        r := Ok(row);
        if NonEmpty(acknowledgement).Some? {
          r := UpdateRecord(id, caller, Change(None, NotGiven, acknowledgement, None), today, now, filingFails);
        }
        return;
      }
      if !PeriodHasEnded(row, today) {
        return Err(PeriodNotEnded), trace;
      }
      var checked := FiledDateFor(row, given, today);
      if checked.Err? {
        return Err(checked.error), trace;
      }
      PreflightHolds(row, given, today, later);
      r, trace := WalkToFiled(id, caller, acknowledgement, given, later, now, filingFails);
    }

    /** The filings once the period of a GSTR-1 or GSTR-3B is locked. */
    function FiledWith(fs: Filings, r: Row, l: Lodged): Filings {
      if database && PeriodOf(r).Some? then fs[PeriodOf(r).value := l] else fs
    }

    /** One step short of Filed. */
    method StepOn(id: Id, caller: Option<Id>, k: nat, today: int, now: int, filingFails: bool) returns (r: Result<Row>)
      requires Valid() && Fetch(id, caller).Ok? && k < 3
      requires if k == 0 then StartOf(records[id].status) == 0 && !Settled(records[id].status)
               else records[id].status == FAST_FORWARD_PATH[k - 1]
      modifies this
      ensures Valid() && filings == old(filings)
      ensures old(records)[id].status.Other? ==> r == Err(NoSuchMove) && records == old(records)
      ensures !old(records)[id].status.Other? ==>
              && Allowed(old(records)[id].status, FAST_FORWARD_PATH[k])
              && r == Ok(old(records)[id].(status := FAST_FORWARD_PATH[k])) && records == old(records)[id := r.value]
    {
      OpenStep(records[id], k, None, NotGiven, today, now, database);
      r := UpdateRecord(id, caller, StepChange(k, None, NotGiven), today, now, filingFails);
    }

    /** The last step, carrying the date and the acknowledgement. */
    method LastStepOn(id: Id, caller: Option<Id>, acknowledgement: Option<string>, given: GivenDate, today: int,
                      now: int, filingFails: bool)
      returns (r: Result<Row>)
      requires Valid() && Fetch(id, caller).Ok? && records[id].status == ReadyToFile
      requires PeriodHasEnded(records[id], today) && FiledDateFor(records[id], given, today).Ok?
      modifies this
      ensures Valid()
      ensures r.Err? ==> r == Err(FilingFailed) && filingFails && records == old(records) && filings == old(filings)
      ensures r.Ok? ==>
              && records == old(records)[id := r.value]
              && MarkedFiled(r.value, old(records)[id], acknowledgement, given, today)
              && filings == FiledWith(old(filings), old(records)[id], LodgedAs(r.value))
    {
      LastStep(records[id], acknowledgement, given, today, now, database);
      r := UpdateRecord(id, caller, StepChange(3, acknowledgement, given), today, now, filingFails);
    }

    /** The walk up to Ready To File. */
    method WalkToReady(id: Id, caller: Option<Id>, today: int, now: int, filingFails: bool)
      returns (ok: bool, ghost trace: seq<Status>)
      requires Valid() && Fetch(id, caller).Ok? && !Settled(records[id].status)
      modifies this
      ensures Valid() && filings == old(filings) && Fetch(id, caller).Ok?
      ensures ok <==> !old(records)[id].status.Other?
      ensures !ok ==> records == old(records)
      ensures ok ==>
              && IsWalk(trace, old(records)[id].status) && trace[|trace| - 1] == ReadyToFile
              && records == old(records)[id := old(records)[id].(status := ReadyToFile)]
    {
      ghost var row := records[id];
      trace := [row.status];
      var k := StartOf(records[id].status);
      while k < 3
        invariant StartOf(row.status) <= k <= 3 && Valid() && filings == old(filings)
        invariant Fetch(id, caller).Ok? && records == old(records)[id := row.(status := records[id].status)]
        invariant IsWalk(trace, row.status) && trace[|trace| - 1] == records[id].status
        invariant if k == StartOf(row.status) then records[id].status == row.status
                  else records[id].status == FAST_FORWARD_PATH[k - 1] && !row.status.Other?
      {
        var r := StepOn(id, caller, k, today, now, filingFails);
        if r.Err? {
          return false, trace;
        }
        trace := trace + [FAST_FORWARD_PATH[k]];
        k := k + 1;
      }
      ok := true;
    }

    /** The walk itself, from an open status. */
    method WalkToFiled(id: Id, caller: Option<Id>, acknowledgement: Option<string>, given: GivenDate,
                       today: int, now: int, filingFails: bool)
      returns (r: Result<Row>, ghost trace: seq<Status>)
      requires Valid() && Fetch(id, caller).Ok?
      requires var row := records[id];
               !Settled(row.status) && PeriodHasEnded(row, today) && FiledDateFor(row, given, today).Ok?
      modifies this
      ensures Valid()
      ensures old(records)[id].status.Other? ==>
                r == Err(NoSuchMove) && records == old(records) && filings == old(filings)
      ensures !old(records)[id].status.Other? ==>
              var row := old(records)[id];
              && IsWalk(trace, row.status) && id in records && trace[|trace| - 1] == records[id].status
              && records == old(records)[id := records[id]]
              && (r.Ok? ==>
                    && r.value == records[id] && MarkedFiled(records[id], row, acknowledgement, given, today)
                    && filings == FiledWith(old(filings), row, LodgedAs(records[id])))
              && (r.Err? ==>
                    && r == Err(FilingFailed) && filingFails
                    && records[id] == row.(status := ReadyToFile) && filings == old(filings))
    {
      ghost var row := records[id];
      var ready;
      ready, trace := WalkToReady(id, caller, today, now, filingFails);
      if !ready {
        return Err(NoSuchMove), trace;
      }
      r := LastStepOn(id, caller, acknowledgement, given, today, now, filingFails);
      if r.Ok? {
        trace := trace + [Filed];
      }
    }
  }
}
