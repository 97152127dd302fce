/** The rules of one compliance record: the workflow, what a filing demands, what
    a reopen takes back (apps/api/domain/compliance_record_service.py). Days are
    numbers, as `Calendar.Ordinal` gives them. */
module Compliance {
  import opened Text

  datatype Status =
    | NotStarted | AwaitingDocuments | InProgress | ReadyForReview | ReadyToFile | Filed | Completed | Overdue
    | Other(word: string)

  datatype Obligation =
    | NoType | Gstr1 | Gstr3b | Gstr9 | Gstr9c | Tds24q | Tds26q | Tds27q | Tds27eq | Itr | McaAdt1 | McaAoc4 | McaMgt7
    | EsiDeposit | EpfDeposit | TdsSalaryDeposit | TdsNonSalaryDeposit | AdvanceTax | OtherType(word: string)

  /** The moves the workflow allows; none from a status it does not know. */
  predicate Allowed(from: Status, to: Status) {
    match from
    case NotStarted => to == AwaitingDocuments || to == InProgress || to == Overdue
    case AwaitingDocuments => to == InProgress || to == Overdue
    case InProgress => to == ReadyForReview || to == AwaitingDocuments || to == Overdue
    case ReadyForReview => to == ReadyToFile || to == InProgress
    case ReadyToFile => to == Filed
    case Filed => to == Completed
    case Completed => false
    case Overdue => to == InProgress || to == AwaitingDocuments
    case Other(_) => false
  }

  predicate Settled(s: Status) { s == Filed || s == Completed }

  predicate IsReturn(o: Obligation) {
    o in {Gstr1, Gstr3b, Gstr9, Gstr9c, Tds24q, Tds26q, Tds27q, Tds27eq, Itr, McaAdt1, McaAoc4, McaMgt7}
  }

  predicate ClosesGstPeriod(o: Obligation) { o == Gstr1 || o == Gstr3b }

  predicate Reopenable(o: Obligation) {
    o in {EsiDeposit, EpfDeposit, TdsSalaryDeposit, TdsNonSalaryDeposit, AdvanceTax}
  }

  const REOPENED_STATUS := ReadyToFile
  const MAX_REOPEN_REASON_CHARS: nat := 500

  datatype Row = Row(
    firm: Id, client: Id, complianceType: Id, obligation: Obligation,
    periodStart: Option<int>, periodEnd: Option<int>, dueDate: int,
    status: Status, filedDate: Option<int>, acknowledgement: Option<string>, completedAt: Option<int>,
    closingChallans: Option<seq<Id>>, escalatedOn: Option<int>, notes: Option<string>)

  /** A row of `filings`: the period of one return, and what was recorded of it.
      A period found here is locked against new entries. */
  datatype Period = Period(firm: Id, client: Id, kind: Obligation, start: int, end: int)
  datatype Lodged = Lodged(filedDate: int, arn: Option<string>)
  type Filings = map<Period, Lodged>

  datatype Error =
    | NotFound | NoSuchMove | PeriodNotEnded | BadDate | FutureDate | DateRequired | BeforePeriodEnd
    | NoReason | ReasonTooLong | NothingToReopen | NotReopenable | ChangedMeanwhile
    | AlreadyExists | PeriodMissing | BornFiled | FilingFailed

  datatype Result<+T> = Ok(value: T) | Err(error: Error)

  // ---- recording a filing -----------------------------------------------------------

  datatype GivenDate = NotGiven | Malformed | Given(day: int)

  datatype Change = Change(status: Option<Status>, filedDate: GivenDate, acknowledgement: Option<string>,
                           notes: Option<string>)

  predicate PeriodHasEnded(r: Row, today: int) {
    IsReturn(r.obligation) && r.periodEnd.Some? ==> r.periodEnd.value <= today
  }

  /** The date the record was filed on, as somebody said it: today or earlier, not
      before the period of a return ends, and never assumed for a GSTR-1 or GSTR-3B. */
  function FiledDateFor(r: Row, given: GivenDate, today: int): Result<Option<int>> {
    if given.Malformed? then Err(BadDate)
    else if given.Given? && given.day > today then Err(FutureDate)
    else
      var filed := if given.Given? then Some(given.day) else r.filedDate;
      if filed.None? then (if ClosesGstPeriod(r.obligation) then Err(DateRequired) else Ok(None))
      else if IsReturn(r.obligation) && r.periodEnd.Some? && filed.value < r.periodEnd.value then Err(BeforePeriodEnd)
      else Ok(filed)
  }

  function PeriodOf(r: Row): Option<Period> {
    if ClosesGstPeriod(r.obligation) && r.periodStart.Some? && r.periodEnd.Some?
    then Some(Period(r.firm, r.client, r.obligation, r.periodStart.value, r.periodEnd.value))
    else None
  }

  /** What a call decided from the row it read: the columns to write, whether to
      blank the challans that closed the row, and the filing to record first. */
  datatype Plan = Plan(
    status: Option<Status>, filedDate: Option<int>, completedAt: Option<int>, acknowledgement: Option<string>,
    notes: Option<string>, clearChallans: bool, filing: Option<(Period, Lodged)>)

  function NonEmpty(s: Option<string>): Option<string> { if s == Some("") then None else s }

  function Either<T>(a: Option<T>, b: Option<T>): Option<T> { if a.Some? then a else b }

  /** `update_record` up to its writes. With no database the filing is left out. */
  function PlanUpdate(r: Row, c: Change, today: int, now: int, database: bool): Result<Plan> {
    if c.status.None? then Ok(Plan(None, None, None, c.acknowledgement, c.notes, false, None))
    else
      var to := c.status.value;
      if !Allowed(r.status, to) then Err(NoSuchMove)
      else if to != Filed then
        var completed := if to == Completed && r.completedAt.None? then Some(now) else None;
        Ok(Plan(Some(to), None, completed, c.acknowledgement, c.notes, false, None))
      else if !PeriodHasEnded(r, today) then Err(PeriodNotEnded)
      else
        match FiledDateFor(r, c.filedDate, today)
        case Err(e) => Err(e)
        case Ok(said) =>
          var filed := if said.Some? then said else if r.filedDate.None? then Some(today) else None;
          var arn := Either(NonEmpty(c.acknowledgement), NonEmpty(r.acknowledgement));
          var period := if database then PeriodOf(r) else None;
          var day := Either(filed, r.filedDate);
          var filing := if period.Some? && day.Some? then Some((period.value, Lodged(day.value, arn))) else None;
          Ok(Plan(Some(Filed), filed, None, c.acknowledgement, c.notes, r.closingChallans.Some?, filing))
  }

  /** The repository's update: columns the plan leaves out keep their value. */
  function Written(r: Row, p: Plan): Row {
    r.(status := if p.status.Some? then p.status.value else r.status,
       filedDate := Either(p.filedDate, r.filedDate),
       completedAt := Either(p.completedAt, r.completedAt),
       acknowledgement := Either(p.acknowledgement, r.acknowledgement),
       notes := Either(p.notes, r.notes),
       closingChallans := if p.clearChallans then None else r.closingChallans)
  }

  function Locked(filings: Filings, p: Plan): Filings {
    if p.filing.Some? then filings[p.filing.value.0 := p.filing.value.1] else filings
  }

  // ---- reopening --------------------------------------------------------------------

  /** The note for the row, or the words of refusal. */
  function PlanReopen(r: Row, reason: string): Result<string> {
    var why := Strip(reason);
    if why == "" then Err(NoReason)
    else if |why| > MAX_REOPEN_REASON_CHARS then Err(ReasonTooLong)
    else if !Settled(r.status) then Err(NothingToReopen)
    else if !Reopenable(r.obligation) then Err(NotReopenable)
    else Ok(why)
  }

  /** The reopened row. `notes` were put together from the row that was read. */
  function Reopened(r: Row, notes: string, forget: bool): Row {
    r.(status := REOPENED_STATUS, notes := Some(notes), filedDate := None, acknowledgement := None, completedAt := None,
       escalatedOn := None, closingChallans := if forget then None else r.closingChallans)
  }

  function NotesWith(notes: Option<string>, note: string): string {
    if NonEmpty(notes).Some? then notes.value + "\n" + note else note
  }

  // ---- what every call does ---------------------------------------------------------

  /** The workflow from the other end: which statuses each one is entered from. */
  lemma {:induction false} WorkflowEnteredFrom(from: Status, to: Status)
    ensures Allowed(from, to) <==>
            match to
            case NotStarted => false
            case AwaitingDocuments => from in {NotStarted, InProgress, Overdue}
            case InProgress => from in {NotStarted, AwaitingDocuments, ReadyForReview, Overdue}
            case ReadyForReview => from == InProgress
            case ReadyToFile => from == ReadyForReview
            case Filed => from == ReadyToFile
            case Completed => from == Filed
            case Overdue => from in {NotStarted, AwaitingDocuments, InProgress}
            case Other(_) => false
  {
  }

  /** Every obligation with a type the engine knows is a return or a deposit that
      may be reopened, and never both; the two that close a GST period are returns. */
  lemma {:induction false} ReturnsAndDepositsPart(o: Obligation)
    ensures !(IsReturn(o) && Reopenable(o)) && (ClosesGstPeriod(o) ==> IsReturn(o))
    ensures IsReturn(o) || Reopenable(o) <==> o != NoType && !o.OtherType?
    ensures Reopenable(o) <==>
            o.EsiDeposit? || o.EpfDeposit? || o.TdsSalaryDeposit? || o.TdsNonSalaryDeposit? || o.AdvanceTax?
    ensures ClosesGstPeriod(o) <==> o.Gstr1? || o.Gstr3b?
  {
  }

  /** A return's period has yet to end. */
  predicate TooEarly(r: Row, today: int) {
    IsReturn(r.obligation) && match r.periodEnd case Some(end) => today < end case None => false
  }

  /** What is wrong with the date somebody gives for a filing, the first fault first:
      it cannot be read, it is in the future, there is none where one must be said,
      it lies before the end of a return's period. */
  predicate DateFault(r: Row, given: GivenDate, today: int, e: Error) {
    match given
    case Malformed => e == BadDate
    case Given(day) =>
      if day > today then e == FutureDate
      else e == BeforePeriodEnd && IsReturn(r.obligation) && r.periodEnd.Some? && day < r.periodEnd.value
    case NotGiven =>
      if r.filedDate == None then e == DateRequired && (r.obligation == Gstr1 || r.obligation == Gstr3b)
      else e == BeforePeriodEnd && IsReturn(r.obligation) && r.periodEnd.Some? && r.filedDate.value < r.periodEnd.value
  }

  /** An update without a status is always granted; a move short of Filed exactly
      when the workflow has it; a move into Filed exactly from Ready To File, once a
      return's period has ended and with no fault in its date. */
  lemma {:induction false} UpdateRefusedWhen(r: Row, c: Change, today: int, now: int, database: bool)
    ensures var p := PlanUpdate(r, c, today, now, database);
            match c.status
            case None => p.Ok?
            case Some(Filed) =>
              if r.status != ReadyToFile then p == Err(NoSuchMove)
              else if TooEarly(r, today) then p == Err(PeriodNotEnded)
              else if p.Err? then DateFault(r, c.filedDate, today, p.error)
              else forall e :: !DateFault(r, c.filedDate, today, e)
            case Some(to) => if Allowed(r.status, to) then p.Ok? else p == Err(NoSuchMove)
  {
  }

  /** `after` is `was` with what a granted update writes: the status, the notes and
      the acknowledgement as given or else as they were; the time of the first
      completion; on a filing its date, said or kept or the day itself, and no
      challans. Nothing else. */
  predicate IsUpdateOf(after: Row, was: Row, c: Change, today: int, now: int) {
    && (match c.status case Some(to) => after.status == to case None => after.status == was.status)
    && (match c.notes case Some(text) => after.notes == Some(text) case None => after.notes == was.notes)
    && (match c.acknowledgement
        case Some(number) => after.acknowledgement == Some(number)
        case None => after.acknowledgement == was.acknowledgement)
    && after.completedAt ==
       (if c.status == Some(Completed) && was.completedAt == None then Some(now) else was.completedAt)
    && after.closingChallans == (if c.status == Some(Filed) then None else was.closingChallans)
    && (if c.status != Some(Filed) then after.filedDate == was.filedDate
        else match c.filedDate
             case Given(day) => after.filedDate == Some(day)
             case _ => after.filedDate == if was.filedDate.Some? then was.filedDate else Some(today))
    && after.firm == was.firm && after.client == was.client && after.complianceType == was.complianceType
    && after.obligation == was.obligation && after.periodStart == was.periodStart && after.periodEnd == was.periodEnd
    && after.dueDate == was.dueDate && after.escalatedOn == was.escalatedOn
  }

  /** The period an update locks: that of a GSTR-1 or GSTR-3B with both its dates,
      moved into Filed with a database behind. */
  predicate Locks(r: Row, c: Change, database: bool) {
    && c.status == Some(Filed) && database && (r.obligation == Gstr1 || r.obligation == Gstr3b)
    && r.periodStart.Some? && r.periodEnd.Some?
  }

  /** The filings after an update: the one lock added, under the record's own
      period, with the record's own date and the acknowledgement given, or else the
      one on the record. */
  predicate IsLockOf(after: Filings, filings: Filings, row: Row, was: Row, c: Change, database: bool) {
    if !Locks(was, c, database) then after == filings
    else
      var p := Period(was.firm, was.client, was.obligation, was.periodStart.value, was.periodEnd.value);
      && after.Keys == filings.Keys + {p} && (forall q :: q in filings && q != p ==> after[q] == filings[q])
      && Some(after[p].filedDate) == row.filedDate
      && after[p].arn == (if c.acknowledgement.Some? && c.acknowledgement.value != "" then c.acknowledgement
                          else if was.acknowledgement == Some("") then None else was.acknowledgement)
  }

  /** What a granted update leaves, column by column, and in the filings. */
  lemma {:induction false} UpdateTakesEffect(r: Row, c: Change, today: int, now: int, filings: Filings, database: bool)
    requires PlanUpdate(r, c, today, now, database).Ok?
    ensures var p := PlanUpdate(r, c, today, now, database).value;
            && IsUpdateOf(Written(r, p), r, c, today, now)
            && IsLockOf(Locked(filings, p), filings, Written(r, p), r, c, database)
            && (p.filing.Some? <==> Locks(r, c, database))
  {
  }

  /** A reopen is refused for a blank reason, one of more than 500 characters, a
      record that is not filed or completed, and anything but the five deposits, in
      that order. */
  lemma {:induction false} ReopenRefusedWhen(r: Row, reason: string)
    ensures var p, why := PlanReopen(r, reason), Strip(reason);
            if why == "" then p == Err(NoReason)
            else if |why| >= 501 then p == Err(ReasonTooLong)
            else if r.status != Filed && r.status != Completed then p == Err(NothingToReopen)
            else if !(r.obligation.EsiDeposit? || r.obligation.EpfDeposit? || r.obligation.TdsSalaryDeposit?
                      || r.obligation.TdsNonSalaryDeposit? || r.obligation.AdvanceTax?)
            then p == Err(NotReopenable)
            else p == Ok(why)
  {
  }

  /** A reopened record is as it was but for these: back at Ready To File, the note
      put behind its notes, and the date, the acknowledgement, the completion, the
      escalation and, if so asked, the challans blank. */
  predicate IsReopenOf(after: Row, was: Row, note: string, forget: bool) {
    && after.status == ReadyToFile
    && (if was.notes == None || was.notes == Some("") then after.notes == Some(note)
        else after.notes == Some(was.notes.value + "\n" + note))
    && after.filedDate == None && after.acknowledgement == None
    && after.completedAt == None && after.escalatedOn == None
    && after.closingChallans == (if forget then None else was.closingChallans)
    && after.firm == was.firm && after.client == was.client && after.complianceType == was.complianceType
    && after.obligation == was.obligation && after.periodStart == was.periodStart && after.periodEnd == was.periodEnd
    && after.dueDate == was.dueDate
  }

  lemma {:induction false} ReopenTakesEffect(r: Row, note: string, forget: bool)
    ensures IsReopenOf(Reopened(r, NotesWith(r.notes, note), forget), r, note, forget)
  {
  }

  // ---- what every call keeps --------------------------------------------------------

  /** A record carries a filing date exactly when it is filed or completed. */
  predicate Dated(r: Row) { r.filedDate.Some? <==> Settled(r.status) }

  /** With a database, a GSTR-1 or GSTR-3B with its period dates is filed only if
      the period is locked, and the lock quotes the record's own date. */
  predicate PeriodClosed(r: Row, filings: Filings, database: bool) {
    database && Settled(r.status) && PeriodOf(r).Some? ==>
      PeriodOf(r).value in filings && r.filedDate == Some(filings[PeriodOf(r).value].filedDate)
  }

  predicate Good(r: Row, filings: Filings, database: bool) { Dated(r) && PeriodClosed(r, filings, database) }

  /** One call that reads and writes with nothing in between keeps the record
      good and every record of another period good, moves only along the workflow,
      and never takes a settled record back. */
  lemma {:induction false} UpdateKeepsGood(r: Row, c: Change, today: int, now: int, filings: Filings, database: bool)
    requires Good(r, filings, database) && PlanUpdate(r, c, today, now, database).Ok?
    ensures var p := PlanUpdate(r, c, today, now, database).value;
            && Good(Written(r, p), Locked(filings, p), database)
            && (Written(r, p).status == r.status || Allowed(r.status, Written(r, p).status))
            && (Settled(r.status) ==> Settled(Written(r, p).status))
            && forall other :: Good(other, filings, database)
                               && (PeriodOf(other).Some? ==> PeriodOf(other) != PeriodOf(r)) ==>
                 Good(other, Locked(filings, p), database)
  {
  }

  /** Moving into Filed records the day given, or the day itself for what closes
      no period; not in the future, not before a return's period ended; it
      forgets the challans that closed the row before; and it locks the period of
      a GSTR-1 or GSTR-3B with that very date. */
  lemma {:induction false} FilingRecords(r: Row, c: Change, today: int, now: int, filings: Filings)
    requires Good(r, filings, true) && c.status == Some(Filed) && PlanUpdate(r, c, today, now, true).Ok?
    ensures var p := PlanUpdate(r, c, today, now, true).value;
            var w := Written(r, p);
            && r.status == ReadyToFile && w.filedDate.Some? && w.filedDate.value <= today
            && (c.filedDate.Given? ==> w.filedDate.value == c.filedDate.day)
            && (c.filedDate.NotGiven? ==> !ClosesGstPeriod(r.obligation) && w.filedDate.value == today)
            && (IsReturn(r.obligation) && r.periodEnd.Some? ==> r.periodEnd.value <= w.filedDate.value)
            && w.closingChallans.None?
            && (PeriodOf(r).Some? ==> Locked(filings, p)[PeriodOf(r).value].filedDate == w.filedDate.value)
            && (PeriodOf(r).None? ==> Locked(filings, p) == filings)
  {
  }

  /** A filing is refused exactly when the workflow does not stand at Ready To
      File, the period of a return has not ended, or the date is malformed, in the
      future, missing for a GSTR-1 or GSTR-3B, or before the period's end. */
  lemma {:induction false} FilingRefusedWhen(r: Row, c: Change, today: int, now: int, filings: Filings)
    requires Good(r, filings, true) && c.status == Some(Filed)
    ensures PlanUpdate(r, c, today, now, true).Err? <==>
            || r.status != ReadyToFile
            || (IsReturn(r.obligation) && r.periodEnd.Some? && today < r.periodEnd.value)
            || c.filedDate.Malformed?
            || (c.filedDate.Given? && today < c.filedDate.day)
            || (c.filedDate.NotGiven? && ClosesGstPeriod(r.obligation))
            || (c.filedDate.Given? && IsReturn(r.obligation) && r.periodEnd.Some?
                && c.filedDate.day < r.periodEnd.value)
  {
  }

  lemma {:induction false} ReopenKeepsGood(r: Row, reason: string, notes: string, forget: bool, filings: Filings,
                                           database: bool)
    requires Good(r, filings, database) && PlanReopen(r, reason).Ok?
    ensures Good(Reopened(r, notes, forget), filings, database)
    ensures !ClosesGstPeriod(r.obligation) && !IsReturn(r.obligation)
  {
  }

  /** What was asked for at the door would also be granted later: if the checks
      made before the first step pass, the last step passes on any later day. */
  lemma {:induction false} PreflightHolds(r: Row, given: GivenDate, today: int, later: int)
    requires today <= later && PeriodHasEnded(r, today) && FiledDateFor(r, given, today).Ok?
    ensures PeriodHasEnded(r, later) && FiledDateFor(r, given, later) == FiledDateFor(r, given, today)
  {
  }
}
