/** The books as a state machine: which chart, index and entries each operation
    of the accounting engine leaves behind, and what every run of them keeps. */
module Books {
  import opened Text
  import opened Ledger
  import opened Reports

  /** `index` maps an entry id to its place in `entries`; entries are never removed. */
  datatype Books = Books(chart: Chart, index: map<Id, nat>, entries: seq<EntryRecord>)

  ghost predicate Good(b: Books) {
    && PostedBalance(b.entries)
    && forall id :: id in b.index ==> b.index[id] < |b.entries| && b.entries[b.index[id]].id == id
  }

  datatype Proposal = Proposal(
    client: Id, date: Option<int>, reference: Option<string>, narration: Option<string>, status: Option<Status>,
    lines: seq<Line>)

  datatype Op =
    | CreateAccount(accountId: Id, code: string, name: string, kind: Kind, subtype: Value, parent: Value)
    | UpdateAccount(accountId: Id, changes: Fields)
    | CreateEntry(entryId: Id, proposal: Proposal, today: int)
    | PostEntry(entryId: Id)

  /** What the caller is told: done, nothing by that id, or a field refused. */
  datatype Refusal = Lines | AlreadyPosted
  datatype Reply = Done | Missing | Invalid(why: Refusal)

  /** The fields of an account an update may change. */
  const UPDATABLE := {AccountName, AccountSubtype, ParentId, IsActive}

  function NewAccount(code: string, name: string, kind: Kind, subtype: Value, parent: Value): Fields {
    map[AccountCode := Str(code), AccountName := Str(name), AccountType := Type(kind),
        AccountSubtype := subtype, ParentId := parent, IsActive := Flag(true)]
  }

  function Updated(fields: Fields, changes: Fields): Fields {
    fields + (map k | k in changes && k in UPDATABLE :: changes[k])
  }

  function Truthy(v: Value): bool {
    match v
    case Str(s) => s != ""
    case Flag(b) => b
    case Type(_) => true
    case Null => false
  }

  /** An account that exists and says it is no longer active. */
  predicate Archived(chart: Chart, a: Id) {
    a in chart && IsActive in chart[a] && !Truthy(chart[a][IsActive])
  }

  predicate NamesArchived(chart: Chart, lines: seq<Line>) {
    exists i :: 0 <= i < |lines| && Archived(chart, lines[i].account)
  }

  predicate Refused(chart: Chart, d: Proposal) {
    || |d.lines| < 2
    || (!Balanced(d.lines) && d.status == Some(Posted))
    || NamesArchived(chart, d.lines)
  }

  function EntryFrom(id: Id, d: Proposal, today: int): EntryRecord {
    EntryRecord(id, d.client, if d.date.Some? then d.date.value else today,
                Heading(d.reference, if d.narration.Some? then d.narration.value else ""),
                if d.status.Some? then d.status.value else Draft, d.lines)
  }

  /** One operation: the reply and the books after it. An id may repeat an earlier
      one; the index then names the later entry and the list keeps both. */
  function Apply(b: Books, op: Op): (r: (Reply, Books)) {
    match op
    case CreateAccount(id, code, name, kind, subtype, parent) =>
      (Done, b.(chart := b.chart[id := NewAccount(code, name, kind, subtype, parent)]))
    case UpdateAccount(id, changes) =>
      if id !in b.chart then (Missing, b)
      else (Done, b.(chart := b.chart[id := Updated(b.chart[id], changes)]))
    case CreateEntry(id, d, today) =>
      if Refused(b.chart, d) then (Invalid(Lines), b)
      else (Done, b.(index := b.index[id := |b.entries|], entries := b.entries + [EntryFrom(id, d, today)]))
    case PostEntry(id) =>
      if id !in b.index || b.index[id] >= |b.entries| then (Missing, b)
      else
        var e := b.entries[b.index[id]];
        if e.status.Posted? then (Invalid(AlreadyPosted), b)
        else if !Balanced(e.lines) then (Invalid(Lines), b)
        else (Done, b.(entries := b.entries[b.index[id] := e.(status := Posted)]))
  }

  // ---- what each operation does -------------------------------------------------------

  /** Within a scope's days and client, posted or not. */
  predicate Within(sc: Scope, e: EntryRecord) {
    && (sc.start == None || sc.start.value <= e.date) && (sc.end == None || e.date <= sc.end.value)
    && (sc.client == None || sc.client.value == e.client)
  }

  /** A post is granted exactly to an entry that is there, not posted and balanced.
      It turns that entry posted and leaves everything else alone; a refusal says
      why and changes nothing. */
  lemma {:induction false} PostTakesEffect(b: Books, id: Id)
    requires Good(b)
    ensures var (reply, b') := Apply(b, PostEntry(id));
            && (reply == Missing <==> id !in b.index)
            && (id in b.index ==>
                  var e := b.entries[b.index[id]];
                  && (reply == Invalid(AlreadyPosted) <==> e.status == Posted)
                  && (reply == Invalid(Lines) <==> e.status != Posted && !Balanced(e.lines))
                  && (reply == Done <==> e.status != Posted && Balanced(e.lines)))
            && (reply != Done ==> b' == b)
            && (reply == Done ==>
                  && b'.chart == b.chart && b'.index == b.index && |b'.entries| == |b.entries|
                  && b'.entries[b.index[id]].status == Posted
                  && (forall i :: 0 <= i < |b.entries| && i != b.index[id] ==> b'.entries[i] == b.entries[i])
                  && b'.entries[b.index[id]].(status := b.entries[b.index[id]].status) == b.entries[b.index[id]])
  {
  }

  /** What is granted shows: every report over a scope the entry lies within gains
      the entry's own lines, account by account, and no other report gains anything. */
  lemma {:induction false} PostShows(b: Books, id: Id, sc: Scope, m: Measure, sel: set<Id>)
    requires Good(b) && Apply(b, PostEntry(id)).0 == Done
    ensures var b' := Apply(b, PostEntry(id)).1;
            var e := b.entries[b.index[id]];
            SumIn(Postings(b'.entries, sc), m, sel)
            == SumIn(Postings(b.entries, sc), m, sel)
               + if Within(sc, e) then LinesIn(e.lines, |e.lines|, m, sel) else 0
  {
    PostTakesEffect(b, id);
    PostingGains(b.entries, b.index[id], |b.entries|, sc, m, sel);
    var b' := Apply(b, PostEntry(id)).1;
    assert b'.entries == b.entries[b.index[id] := b.entries[b.index[id]].(status := Posted)];
  }

  /** Posted once: however the books are worked on afterwards, until an entry is
      made under the same id posting it again is refused. */
  lemma {:induction false} PostedOnce(b: Books, id: Id, ops: seq<Op>)
    requires Good(b) && Apply(b, PostEntry(id)).0 == Done
    requires forall i :: 0 <= i < |ops| && ops[i].CreateEntry? ==> ops[i].entryId != id
    ensures var b' := Run(Apply(b, PostEntry(id)).1, ops); Apply(b', PostEntry(id)) == (Invalid(AlreadyPosted), b')
  {
    PostTakesEffect(b, id);
    var b1 := Apply(b, PostEntry(id)).1;
    IndexStands(b1, id, ops);
    PostedIsFinal(b1, ops, b.index[id]);
  }

  lemma {:induction false} IndexStands(b: Books, id: Id, ops: seq<Op>)
    requires id in b.index && forall i :: 0 <= i < |ops| && ops[i].CreateEntry? ==> ops[i].entryId != id
    ensures id in Run(b, ops).index && Run(b, ops).index[id] == b.index[id]
  {
    if ops != [] {
      var init := ops[..|ops| - 1];
      assert forall i :: 0 <= i < |init| ==> init[i] == ops[i];
      IndexStands(b, id, init);
      assert ops[|ops| - 1].CreateEntry? ==> ops[|ops| - 1].entryId != id;
    }
  }

  /** The entry a proposal makes: what was given, and for what was not given the
      day of the call, no narration, and a draft. */
  predicate IsEntryOf(e: EntryRecord, id: Id, d: Proposal, today: int) {
    && e.id == id && e.client == d.client && e.lines == d.lines && e.heading.reference == d.reference
    && (match d.date case Some(day) => e.date == day case None => e.date == today)
    && (match d.narration case Some(text) => e.heading.narration == text case None => e.heading.narration == "")
    && (match d.status case Some(s) => e.status == s case None => e.status == Draft)
  }

  /** A line naming an account that says it is not active: false, nothing or blank. */
  predicate NamesInactive(chart: Chart, lines: seq<Line>) {
    exists l :: l in lines && l.account in chart && IsActive in chart[l.account]
                && chart[l.account][IsActive] in {Flag(false), Null, Str("")}
  }

  /** An entry is refused exactly for having fewer than two lines, for being born
      posted while its debits and credits differ, or for naming an inactive
      account. One that is not goes to the end of the list and under its id. */
  lemma {:induction false} EntryTakesEffect(b: Books, id: Id, d: Proposal, today: int)
    ensures var (reply, b') := Apply(b, CreateEntry(id, d, today));
            && (reply == Invalid(Lines) <==>
                || |d.lines| <= 1
                || (d.status == Some(Posted) && LineTotal(d.lines, Debit) != LineTotal(d.lines, Credit))
                || NamesInactive(b.chart, d.lines))
            && (reply == Invalid(Lines) ==> b' == b)
            && (reply != Invalid(Lines) ==>
                  && reply == Done && b'.chart == b.chart
                  && |b'.entries| == |b.entries| + 1 && b'.entries[..|b.entries|] == b.entries
                  && IsEntryOf(b'.entries[|b.entries|], id, d, today)
                  && b'.index.Keys == b.index.Keys + {id} && b'.index[id] == |b.entries|
                  && forall k :: k in b.index && k != id ==> b'.index[k] == b.index[k])
  {
    ArchivedMeansInactive(b.chart, d.lines);
  }

  lemma {:induction false} ArchivedMeansInactive(chart: Chart, lines: seq<Line>)
    ensures NamesArchived(chart, lines) <==> NamesInactive(chart, lines)
  {
    if NamesArchived(chart, lines) {
      var i :| 0 <= i < |lines| && Archived(chart, lines[i].account);
      assert lines[i] in lines;
    }
    if NamesInactive(chart, lines) {
      var l :| l in lines && l.account in chart && IsActive in chart[l.account]
               && chart[l.account][IsActive] in {Flag(false), Null, Str("")};
      var i :| 0 <= i < |lines| && lines[i] == l;
      assert Archived(chart, lines[i].account);
    }
  }

  /** What an entry born posted shows at once, and a draft does not show at all. */
  lemma {:induction false} EntryShows(b: Books, id: Id, d: Proposal, today: int, sc: Scope, m: Measure, sel: set<Id>)
    requires Apply(b, CreateEntry(id, d, today)).0 == Done
    ensures var b' := Apply(b, CreateEntry(id, d, today)).1;
            SumIn(Postings(b'.entries, sc), m, sel)
            == SumIn(Postings(b.entries, sc), m, sel)
               + if d.status == Some(Posted) && Within(sc, b'.entries[|b.entries|])
                 then LinesIn(d.lines, |d.lines|, m, sel) else 0
  {
    EntryTakesEffect(b, id, d, today);
    var b' := Apply(b, CreateEntry(id, d, today)).1;
    EntryGains(b.entries, b'.entries[|b.entries|], sc, m, sel);
    assert b'.entries == b.entries + [b'.entries[|b.entries|]];
  }

  /** A new account's six fields. */
  predicate IsNewAccount(fields: Fields, code: string, name: string, kind: Kind, subtype: Value, parent: Value) {
    && fields.Keys == {AccountCode, AccountName, AccountType, AccountSubtype, ParentId, IsActive}
    && fields[AccountCode] == Str(code) && fields[AccountName] == Str(name) && fields[AccountType] == Type(kind)
    && fields[AccountSubtype] == subtype && fields[ParentId] == parent && fields[IsActive] == Flag(true)
  }

  /** `now` is `was` with the name, the subtype, the parent and the active flag as
      the changes have them, where they have them. */
  predicate IsUpdated(now: Fields, was: Fields, changes: Fields) {
    && now.Keys == was.Keys + changes.Keys * {AccountName, AccountSubtype, ParentId, IsActive}
    && (forall f :: f in changes && f in {AccountName, AccountSubtype, ParentId, IsActive} ==> now[f] == changes[f])
    && forall f :: f in was && (f !in changes || f in {AccountCode, AccountType}) ==> now[f] == was[f]
  }

  /** Creating an account charts it, active, under its id; updating one changes the
      four fields and no others, or says there is no such account. Every other
      account, and the journal, stay as they were. */
  lemma {:induction false} AccountsTakeEffect(b: Books, id: Id, code: string, name: string, kind: Kind, subtype: Value,
                                              parent: Value, changes: Fields)
    ensures var (reply, b') := Apply(b, CreateAccount(id, code, name, kind, subtype, parent));
            && reply == Done && b'.index == b.index && b'.entries == b.entries
            && b'.chart.Keys == b.chart.Keys + {id}
            && IsNewAccount(b'.chart[id], code, name, kind, subtype, parent)
            && forall a :: a in b.chart && a != id ==> b'.chart[a] == b.chart[a]
    ensures var (reply, b') := Apply(b, UpdateAccount(id, changes));
            && reply == (if id in b.chart then Done else Missing) && (reply == Missing ==> b' == b)
            && b'.index == b.index && b'.entries == b.entries && b'.chart.Keys == b.chart.Keys
            && (id in b.chart ==> IsUpdated(b'.chart[id], b.chart[id], changes))
            && forall a :: a in b.chart && a != id ==> b'.chart[a] == b.chart[a]
  {
    if id in b.chart {
      UpdatedIs(b.chart[id], changes);
    }
  }

  lemma {:induction false} UpdatedIs(fields: Fields, changes: Fields)
    ensures IsUpdated(Updated(fields, changes), fields, changes)
  {
    forall f | f in Updated(fields, changes)
      ensures f in fields.Keys + changes.Keys * {AccountName, AccountSubtype, ParentId, IsActive}
    {
    }
  }

  /** Putting an account away closes it to entries, and taking it out again opens it. */
  lemma {:induction false} ArchivedTakesNoEntries(b: Books, a: Id, id: Id, d: Proposal, today: int)
    requires a in b.chart && exists l :: l in d.lines && l.account == a
    ensures var away := Apply(b, UpdateAccount(a, map[IsActive := Flag(false)])).1;
            Apply(away, CreateEntry(id, d, today)) == (Invalid(Lines), away)
    ensures var back := Apply(b, UpdateAccount(a, map[IsActive := Flag(true)])).1;
            Apply(back, CreateEntry(id, d, today)).0 == Done ||
            |d.lines| <= 1 || (d.status == Some(Posted) && !Balanced(d.lines)) ||
            exists l :: l in d.lines && l.account != a && NamesInactive(b.chart, [l])
  {
    var l :| l in d.lines && l.account == a;
    var away := Apply(b, UpdateAccount(a, map[IsActive := Flag(false)])).1;
    assert away.chart[a][IsActive] == Flag(false);
    EntryTakesEffect(away, id, d, today);
    assert NamesInactive(away.chart, d.lines);
    var back := Apply(b, UpdateAccount(a, map[IsActive := Flag(true)])).1;
    assert back.chart[a][IsActive] == Flag(true);
    EntryTakesEffect(back, id, d, today);
    if NamesInactive(back.chart, d.lines) {
      var k :| k in d.lines && k.account in back.chart && IsActive in back.chart[k.account]
               && back.chart[k.account][IsActive] in {Flag(false), Null, Str("")};
      assert k in [k] && NamesInactive(b.chart, [k]);
    }
  }

  // ---- what every run keeps -----------------------------------------------------------

  function Run(b: Books, ops: seq<Op>): Books {
    if ops == [] then b else Apply(Run(b, ops[..|ops| - 1]), ops[|ops| - 1]).1
  }

  /** Every operation keeps "posted implies balanced" and the index true. */
  lemma {:induction false} ApplyKeepsGood(b: Books, op: Op)
    requires Good(b)
    ensures Good(Apply(b, op).1)
  {
    var b' := Apply(b, op).1;
    forall i | 0 <= i < |b'.entries| && b'.entries[i].status.Posted? ensures Balanced(b'.entries[i].lines) {
      if i < |b.entries| && b.entries[i].status.Posted? {
        assert Balanced(b.entries[i].lines);
      }
    }
  }

  lemma {:induction false} RunKeepsGood(b: Books, ops: seq<Op>)
    requires Good(b)
    ensures Good(Run(b, ops))
  {
    if ops != [] {
      RunKeepsGood(b, ops[..|ops| - 1]);
      ApplyKeepsGood(Run(b, ops[..|ops| - 1]), ops[|ops| - 1]);
    }
  }

  /** In every reachable state and for every day: the trial balance balances, and
      the sheet is out by exactly what was posted outside the five types. */
  lemma {:induction false} EveryReachableStateBalances(start: Books, ops: seq<Op>, end: Option<int>, tb: TrialBalance,
                                                       bs: BalanceSheet)
    requires Good(start)
    requires var b := Run(start, ops); IsTrialBalance(tb, b.chart, Postings(b.entries, Scope(None, end, None)))
    requires var b := Run(start, ops); IsBalanceSheet(bs, b.chart, Postings(b.entries, Scope(None, end, None)))
    ensures tb.balanced
    ensures var b := Run(start, ops);
            var ps := Postings(b.entries, Scope(None, end, None));
            && bs.totalAssets - bs.totalLiabilitiesEquity == -SumIn(ps, Net, Unclassified(b.chart, ps))
            && (bs.balanced <==> SumIn(ps, Net, Unclassified(b.chart, ps)) == 0)
  {
    RunKeepsGood(start, ops);
    var b := Run(start, ops);
    TrialBalanceBalances(tb, b.chart, b.entries, Scope(None, end, None));
    AccountingEquation(bs, b.chart, b.entries, Scope(None, end, None));
  }

  /** One posted entry of 100 against a charted asset and an account nobody charted. */
  function HalfCharted(a: Id, x: Id, e: Id, day: int): seq<Op> {
    [CreateAccount(a, "1001", "Cash", Asset, Null, Null),
     CreateEntry(e, Proposal(a, Some(day), None, None, Some(Posted), [Line(a, 100, 0), Line(x, 0, 100)]), day)]
  }

  lemma {:induction false} HalfChartedBooks(a: Id, x: Id, e: Id, day: int)
    requires a != x
    ensures Run(Loaded([], []), HalfCharted(a, x, e, day)) ==
            Books(map[a := NewAccount("1001", "Cash", Asset, Null, Null)], map[e := 0],
                  [EntryRecord(e, a, day, Heading(None, ""), Posted, [Line(a, 100, 0), Line(x, 0, 100)])])
  {
    var ops, b := HalfCharted(a, x, e, day), Loaded([], []);
    assert ops[..1] == [ops[0]] && ops[..1][..0] == [];
    assert Run(b, []) == b;
    var b1 := Apply(b, ops[0]).1;
    assert Run(b, ops[..1]) == b1;
    var lines := [Line(a, 100, 0), Line(x, 0, 100)];
    assert LineTotalTo(lines, 1, Debit) == 100 && LineTotalTo(lines, 1, Credit) == 0;
    assert Balanced(lines);
    assert !Archived(b1.chart, a) && !Archived(b1.chart, x);
  }

  /** An unbalanced sheet is reachable: from empty books, chart one account, post
      one balanced entry against it and an id that is not charted. */
  lemma {:induction false} UnbalancedSheetIsReachable(a: Id, x: Id, e: Id, day: int, bs: BalanceSheet)
    requires a != x
    requires var b := Run(Loaded([], []), HalfCharted(a, x, e, day));
             IsBalanceSheet(bs, b.chart, Postings(b.entries, Scope(None, Some(day), None)))
    ensures !bs.balanced && bs.totalAssets - bs.totalLiabilitiesEquity == 100
  {
    HalfChartedBooks(a, x, e, day);
    var b := Run(Loaded([], []), HalfCharted(a, x, e, day));
    LoadedIsGood([], []);
    RunKeepsGood(Loaded([], []), HalfCharted(a, x, e, day));
    AccountingEquation(bs, b.chart, b.entries, Scope(None, Some(day), None));
    UnchartedHundred(a, x, b.entries[0], b.chart, Scope(None, Some(day), None));
    assert b.entries == [b.entries[0]];
  }

  lemma {:induction false} UnchartedHundred(a: Id, x: Id, e: EntryRecord, chart: Chart, sc: Scope)
    requires a != x && Includes(sc, e) && e.lines == [Line(a, 100, 0), Line(x, 0, 100)]
    requires chart.Keys == {a} && TypeOf(chart, a) == Asset
    ensures var ps := Postings([e], sc); SumIn(ps, Net, Unclassified(chart, ps)) == -100
  {
    var ps := Postings([e], sc);
    assert PostingsTo([e], 0, sc) == [];
    assert ps == PostingsOf(e) && |ps| == 2;
    assert ps[0].line == Line(a, 100, 0) && ps[1].line == Line(x, 0, 100);
    assert AccountsTo(ps, 1) == {a} && Accounts(ps) == {a, x};
    assert Unclassified(chart, ps) == {x};
    assert SumInTo(ps, 1, Net, {x}) == 0;
  }

  /** An account's type never changes: no update touches it, and only creating
      an account under the very same id could. */
  lemma {:induction false} TypeIsFixed(b: Books, ops: seq<Op>, a: Id)
    requires a in b.chart
    requires forall i :: 0 <= i < |ops| && ops[i].CreateAccount? ==> ops[i].accountId != a
    ensures a in Run(b, ops).chart && TypeOf(Run(b, ops).chart, a) == TypeOf(b.chart, a)
  {
    if ops != [] {
      var init := ops[..|ops| - 1];
      assert forall i :: 0 <= i < |init| ==> init[i] == ops[i];
      TypeIsFixed(b, init, a);
      assert ops[|ops| - 1].CreateAccount? ==> ops[|ops| - 1].accountId != a;
    }
  }

  /** A posted entry is final: no operation unposts it or changes its lines. */
  lemma {:induction false} PostedIsFinal(b: Books, ops: seq<Op>, i: nat)
    requires i < |b.entries| && b.entries[i].status.Posted?
    ensures i < |Run(b, ops).entries| && Run(b, ops).entries[i] == b.entries[i]
  {
    if ops != [] {
      PostedIsFinal(b, ops[..|ops| - 1], i);
    }
  }

  /** Where each id was last seen: the index a list of entries is loaded with. */
  function IndexTo(es: seq<EntryRecord>, n: nat): map<Id, nat>
    requires n <= |es|
  {
    if n == 0 then map[] else IndexTo(es, n - 1)[es[n - 1].id := n - 1]
  }

  function ChartTo(accounts: seq<(Id, Fields)>, n: nat): Chart
    requires n <= |accounts|
  {
    if n == 0 then map[] else ChartTo(accounts, n - 1)[accounts[n - 1].0 := accounts[n - 1].1]
  }

  /** The books a chart and a list of entries are loaded into. */
  function Loaded(accounts: seq<(Id, Fields)>, es: seq<EntryRecord>): Books {
    Books(ChartTo(accounts, |accounts|), IndexTo(es, |es|), es)
  }

  lemma {:induction false} IndexIsTrue(es: seq<EntryRecord>, n: nat)
    requires n <= |es|
    ensures forall id :: id in IndexTo(es, n) ==> IndexTo(es, n)[id] < n && es[IndexTo(es, n)[id]].id == id
    ensures forall i :: 0 <= i < n ==> es[i].id in IndexTo(es, n) && i <= IndexTo(es, n)[es[i].id]
  {
    if n > 0 {
      IndexIsTrue(es, n - 1);
    }
  }

  lemma {:induction false} LoadedIsGood(accounts: seq<(Id, Fields)>, es: seq<EntryRecord>)
    requires PostedBalance(es)
    ensures Good(Loaded(accounts, es))
  {
    IndexIsTrue(es, |es|);
  }
}
