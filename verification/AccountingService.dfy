/** The in-memory accounting engine: a list and an id index that share the same
    entry objects, and reports accumulated over them in nested loops. */
module AccountingService {
  import opened Text
  import opened Ledger
  import opened Reports
  import opened Books
  import opened Tallies
  import Sorting

  class Account {
    const id: Id
    var fields: Fields

    constructor (id: Id, fields: Fields)
      ensures this.id == id && this.fields == fields
    {
      this.id, this.fields := id, fields;
    }
  }

  class JournalEntry {
    const id: Id
    const client: Id
    const date: int
    const heading: Heading
    const lines: seq<Line>
    var status: Status

    constructor (r: EntryRecord)
      ensures Record() == r
    {
      id, client, date, heading, lines, status := r.id, r.client, r.date, r.heading, r.lines, r.status;
    }

    function Record(): EntryRecord
      reads this
    {
      EntryRecord(id, client, date, heading, status, lines)
    }
  }

  class Service {
    var accountIndex: map<Id, Account>
    var journal: seq<JournalEntry>
    var journalIndex: map<Id, JournalEntry>

    /** What the list, the index and the chart hold, as one value. */
    ghost var books: Books

    /** List and index are two views of the same entry objects, and the books kept
        beside them are what those objects say. */
    ghost predicate Valid()
      reads this, accountIndex.Values, journal
    {
      && ChartMatches(accountIndex, books.chart)
      && JournalMatches(journal, books.entries)
      && IndexMatches(journalIndex, journal, books.index)
      && Good(books)
    }

    constructor (seedAccounts: seq<(Id, Fields)>, seedEntries: seq<EntryRecord>)
      requires PostedBalance(seedEntries)
      ensures Valid() && fresh(accountIndex.Values) && forall e :: e in journal ==> fresh(e)
      ensures books == Loaded(seedAccounts, seedEntries)
    {
      var chart := LoadAccounts(seedAccounts);
      var list, index := LoadEntries(seedEntries);
      accountIndex, journal, journalIndex := chart, list, index;
      books := Loaded(seedAccounts, seedEntries);
      LoadedIsGood(seedAccounts, seedEntries);
    }

    // ---- Chart of accounts -------------------------------------------------------

    method CreateAccount(id: Id, code: string, name: string, kind: Kind, subtype: Value, parent: Value)
      requires Valid()
      modifies this
      ensures Valid() && journal == old(journal) && journalIndex == old(journalIndex)
      ensures id in accountIndex && fresh(accountIndex[id]) && accountIndex == old(accountIndex)[id := accountIndex[id]]
      ensures IsNewAccount(accountIndex[id].fields, code, name, kind, subtype, parent)
      ensures books == Apply(old(books), Op.CreateAccount(id, code, name, kind, subtype, parent)).1
    {
      var account := NewActive(id, code, name, kind, subtype, parent);
      accountIndex := accountIndex[id := account];
      books := books.(chart := books.chart[id := account.fields]);
    }

    /** The account as it is first put on the chart. */
    static method NewActive(id: Id, code: string, name: string, kind: Kind, subtype: Value, parent: Value)
      returns (account: Account)
      ensures fresh(account) && account.id == id
      ensures IsNewAccount(account.fields, code, name, kind, subtype, parent)
      ensures account.fields == NewAccount(code, name, kind, subtype, parent)
    {
      account := new Account(id, NewAccount(code, name, kind, subtype, parent));
    }

    /** Changes only the fields an update may change, whatever the caller sends. */
    method UpdateAccount(id: Id, changes: Fields) returns (reply: Reply)
      requires Valid()
      modifies `books, accountIndex.Values
      ensures Valid()
      ensures reply == if id in accountIndex then Done else Missing
      ensures id in accountIndex ==> IsUpdated(accountIndex[id].fields, old(accountIndex[id].fields), changes)
      ensures forall a :: a in accountIndex && a != id ==> accountIndex[a].fields == old(accountIndex[a].fields)
      ensures (reply, books) == Apply(old(books), Op.UpdateAccount(id, changes))
    {
      if id !in accountIndex {
        return Missing;
      }
      var account := accountIndex[id];
      UpdatedIs(account.fields, changes);
      ApplyChanges(account, changes);
      books := books.(chart := books.chart[id := account.fields]);
      return Done;
    }

    // ---- Journal entries ---------------------------------------------------------

    method CreateJournalEntry(id: Id, proposal: Proposal, today: int) returns (reply: Reply)
      requires Valid()
      modifies this
      ensures Valid() && accountIndex == old(accountIndex)
      ensures old(journal) <= journal && forall e :: e in journal && e !in old(journal) ==> fresh(e)
      // refused for its lines, or the one new object is in the list and the index
      ensures reply == Invalid(Lines) <==>
              || |proposal.lines| <= 1
              || (proposal.status == Some(Posted)
                  && LineTotal(proposal.lines, Debit) != LineTotal(proposal.lines, Credit))
              || NamesInactive(old(books.chart), proposal.lines)
      ensures reply == Invalid(Lines) ==> journal == old(journal) && journalIndex == old(journalIndex)
      ensures reply != Invalid(Lines) ==>
                && reply == Done && |journal| == |old(journal)| + 1
                && journalIndex == old(journalIndex)[id := journal[|old(journal)|]]
                && IsEntryOf(journal[|old(journal)|].Record(), id, proposal, today)
      ensures (reply, books) == Apply(old(books), CreateEntry(id, proposal, today))
    {
      EntryTakesEffect(books, id, proposal, today);
      if |proposal.lines| < 2 {
        return Invalid(Lines);
      }
      var debit, credit := LineTotals(proposal.lines);
      if debit != credit && proposal.status == Some(Posted) {
        return Invalid(Lines);
      }
      var accepted := AcceptLines(proposal.lines);
      if !accepted {
        return Invalid(Lines);
      }
      ApplyKeepsGood(books, CreateEntry(id, proposal, today));
      AddEntry(EntryFrom(id, proposal, today));
      return Done;
    }

    /** One object, put in the list and the index. */
    method AddEntry(r: EntryRecord)
      requires Valid() && Good(Added(books, r))
      modifies this
      ensures Valid() && accountIndex == old(accountIndex) && books == Added(old(books), r)
      ensures old(journal) <= journal && forall e :: e in journal && e !in old(journal) ==> fresh(e)
      ensures |journal| == |old(journal)| + 1 && journal[|old(journal)|].Record() == r
      ensures journalIndex == old(journalIndex)[r.id := journal[|old(journal)|]]
    {
      var entry := new JournalEntry(r);
      journal := journal + [entry];
      journalIndex := journalIndex[r.id := entry];
      books := Added(books, r);
    }

    /** Whether no line names an archived account. */
    method AcceptLines(lines: seq<Line>) returns (ok: bool)
      requires Valid()
      ensures ok <==> !NamesArchived(books.chart, lines)
    {
      for i := 0 to |lines|
        invariant forall k :: 0 <= k < i ==> !Archived(books.chart, lines[k].account)
      {
        var a := lines[i].account;
        if a in accountIndex && IsActive in accountIndex[a].fields && !Truthy(accountIndex[a].fields[IsActive]) {
          assert Archived(books.chart, lines[i].account);
          return false;
        }
      }
      return true;
    }

    method PostJournalEntry(id: Id) returns (reply: Reply)
      requires Valid()
      modifies `books, journal
      ensures Valid() && books.chart == old(books.chart) && books.index == old(books.index)
      ensures reply == Missing <==> id !in journalIndex
      // granted exactly to an entry that is not posted and balances: that object turns posted
      ensures id in journalIndex ==>
                var entry := journalIndex[id];
                && (reply == Invalid(AlreadyPosted) <==> old(entry.status) == Posted)
                && (reply == Invalid(Lines) <==>
                      old(entry.status) != Posted && LineTotal(entry.lines, Debit) != LineTotal(entry.lines, Credit))
                && (reply == Done <==>
                      old(entry.status) != Posted && LineTotal(entry.lines, Debit) == LineTotal(entry.lines, Credit))
                && (reply == Done ==> entry.status == Posted)
      // and no other object changes
      ensures forall e :: e in journal && !(reply == Done && e == journalIndex[id]) ==> e.status == old(e.status)
      ensures (reply, books) == Apply(old(books), PostEntry(id))
    {
      reply := CheckPostable(id);
      if reply == Done {
        MarkPosted(id);
      }
    }

    /** Whether an entry may be posted: it is there, not posted and balanced. */
    method CheckPostable(id: Id) returns (reply: Reply)
      requires Valid()
      ensures reply == Missing <==> id !in journalIndex
      ensures id in journalIndex ==>
                var entry := journalIndex[id];
                && (reply == Invalid(AlreadyPosted) <==> entry.status == Posted)
                && (reply == Invalid(Lines) <==>
                      entry.status != Posted && LineTotal(entry.lines, Debit) != LineTotal(entry.lines, Credit))
                && (reply == Done <==>
                      entry.status != Posted && LineTotal(entry.lines, Debit) == LineTotal(entry.lines, Credit))
      ensures reply == Apply(books, PostEntry(id)).0
    {
      if id !in journalIndex {
        return Missing;
      }
      var entry := journalIndex[id];
      assert journal[books.index[id]].Record() == books.entries[books.index[id]];
      if entry.status.Posted? {
        return Invalid(AlreadyPosted);
      }
      var debit, credit := LineTotals(entry.lines);
      return if debit != credit then Invalid(Lines) else Done;
    }

    /** The write goes through the index and shows in the list. */
    method MarkPosted(id: Id)
      requires Valid() && id in journalIndex && Apply(books, PostEntry(id)).0 == Done
      modifies `books, journal
      ensures Valid() && books.chart == old(books.chart) && books.index == old(books.index)
      ensures (Done, books) == Apply(old(books), PostEntry(id)) && journalIndex[id].status == Posted
      ensures forall e :: e in journal && e != journalIndex[id] ==> e.status == old(e.status)
    {
      ApplyKeepsGood(books, PostEntry(id));
      journalIndex[id].status := Posted;
      books := Apply(books, PostEntry(id)).1;
    }

    // ---- Reports -----------------------------------------------------------------

    method Chart() returns (chart: Chart)
      requires Valid()
      ensures chart == books.chart
    {
      chart := map id | id in accountIndex :: accountIndex[id].fields;
    }

    /** The `i`-th journal entry, whether the scope selects it, and where its lines
        stand among the scope's postings. */
    method Visit(i: nat, sc: Scope) returns (selected: bool, entry: EntryRecord)
      requires Valid() && i < |journal|
      ensures |journal| == |books.entries| && entry == books.entries[i] && selected == Includes(sc, entry)
      ensures var ps, k := Postings(books.entries, sc), |PostingsTo(books.entries, i, sc)|;
              if selected
              then Window(ps, k, entry) && |PostingsTo(books.entries, i + 1, sc)| == k + |entry.lines|
              else k <= |ps| && |PostingsTo(books.entries, i + 1, sc)| == k
    {
      entry := journal[i].Record();
      selected := Includes(sc, entry);
      EntryWindow(books.entries, i, sc);
    }

    /** The ledger's pass over the journal: the account's lines, dated but not yet in order. */
    method GatherLines(account: Id, start: Option<int>, end: Option<int>) returns (lines: seq<LedgerRow>)
      requires Valid()
      ensures var ps := Postings(books.entries, Scope(start, end, None)); lines == LedgerLinesTo(ps, |ps|, account)
    {
      var sc := Scope(start, end, None);
      ghost var es := books.entries;
      ghost var ps := Postings(es, sc);
      lines := [];
      for i := 0 to |journal|
        invariant |PostingsTo(es, i, sc)| <= |ps| && lines == LedgerLinesTo(ps, |PostingsTo(es, i, sc)|, account)
      {
        lines := GatherEntry(lines, account, i, sc);
      }
    }

    /** One entry of that pass. */
    method GatherEntry(before: seq<LedgerRow>, account: Id, i: nat, sc: Scope) returns (lines: seq<LedgerRow>)
      requires Valid() && i < |journal| == |books.entries|
      requires var ps, k := Postings(books.entries, sc), |PostingsTo(books.entries, i, sc)|;
               k <= |ps| && before == LedgerLinesTo(ps, k, account)
      ensures var ps, k := Postings(books.entries, sc), |PostingsTo(books.entries, i + 1, sc)|;
              k <= |ps| && lines == LedgerLinesTo(ps, k, account)
    {
      ghost var ps, k := Postings(books.entries, sc), |PostingsTo(books.entries, i, sc)|;
      lines := before;
      var selected, entry := Visit(i, sc);
      if selected {
        lines := CollectLines(lines, account, entry, ps, k);
      }
    }

    /** The general ledger of one account, or None when there is no such account. */
    method GetLedger(account: Id, start: Option<int>, end: Option<int>) returns (r: Option<seq<LedgerRow>>)
      requires Valid()
      ensures r == None <==> account !in books.chart
      ensures r.Some? ==> IsLedger(r.value, Postings(books.entries, Scope(start, end, None)), account)
    {
      if account !in accountIndex {
        return None;
      }
      var lines := GatherLines(account, start, end);
      lines := Sorting.SortBy(lines, ByDate);
      var rows := WithRunningBalance(lines);
      return Some(rows);
    }

    /** The trial balance as of a day; no bound when none is given. */
    method GetTrialBalance(asOf: Option<int>) returns (tb: TrialBalance)
      requires Valid()
      ensures IsTrialBalance(tb, books.chart, Postings(books.entries, Scope(None, asOf, None)))
    {
      var sc := Scope(None, asOf, None);
      ghost var es := books.entries;
      ghost var ps := Postings(es, sc);
      var order: seq<Id>, totals: map<Id, (int, int)> := [], map[];
      for i := 0 to |journal|
        invariant |PostingsTo(es, i, sc)| <= |ps| && Totalled(order, totals, ps, |PostingsTo(es, i, sc)|)
      {
        ghost var k := |PostingsTo(es, i, sc)|;
        var selected, entry := Visit(i, sc);
        if selected {
          order, totals := TallyTotals(order, totals, entry, ps, k);
        }
      }
      var chart := Chart();
      tb := TrialBalanceFrom(order, totals, chart, ps);
    }

    /** Profit and loss over a range of days. A bound not given is the first day of
        the current financial year, or today. */
    method GetProfitLoss(start: Option<int>, end: Option<int>, client: Option<Id>, today: int, fyStart: int)
      returns (pl: ProfitLoss)
      requires Valid()
      ensures pl.start == (if start.Some? then start.value else fyStart)
              && pl.end == (if end.Some? then end.value else today)
      ensures IsProfitLoss(pl, books.chart, Postings(books.entries, Scope(Some(pl.start), Some(pl.end), client)))
    {
      var first := if start.Some? then start.value else fyStart;
      var last := if end.Some? then end.value else today;
      ghost var ps := Postings(books.entries, Scope(Some(first), Some(last), client));
      var chart := Chart();
      var incomeOrder, income, expenseOrder, expense := GatherProfit(first, last, client, chart);
      var revenue := ProfitSection(incomeOrder, income, chart, Income, false, ps);
      var expenses := ProfitSection(expenseOrder, expense, chart, Expense, true, ps);
      pl := ProfitLoss(first, last, revenue, revenue.total, expenses, revenue.total - expenses.total);
    }

    /** The profit and loss's pass over the journal. */
    method GatherProfit(first: int, last: int, client: Option<Id>, chart: Chart)
      returns (incomeOrder: seq<Id>, income: map<Id, int>, expenseOrder: seq<Id>, expense: map<Id, int>)
      requires Valid()
      ensures var ps := Postings(books.entries, Scope(Some(first), Some(last), client));
              TypeNetted(incomeOrder, income, chart, Income, false, ps, |ps|)
              && TypeNetted(expenseOrder, expense, chart, Expense, true, ps, |ps|)
    {
      var sc := Scope(Some(first), Some(last), client);
      ghost var es := books.entries;
      ghost var ps := Postings(es, sc);
      incomeOrder, income, expenseOrder, expense := [], map[], [], map[];
      for i := 0 to |journal|
        invariant |PostingsTo(es, i, sc)| <= |ps|
        invariant TypeNetted(incomeOrder, income, chart, Income, false, ps, |PostingsTo(es, i, sc)|)
        invariant TypeNetted(expenseOrder, expense, chart, Expense, true, ps, |PostingsTo(es, i, sc)|)
      {
        ghost var k := |PostingsTo(es, i, sc)|;
        var selected, entry := Visit(i, sc);
        if selected {
          incomeOrder, income, expenseOrder, expense :=
            TallyProfit(incomeOrder, income, expenseOrder, expense, chart, entry, ps, k);
        }
      }
    }

    /** The balance sheet's pass over the journal. */
    method GatherBalances(last: int) returns (order: seq<Id>, balances: map<Id, int>)
      requires Valid()
      ensures var ps := Postings(books.entries, Scope(None, Some(last), None)); Netted(order, balances, ps, |ps|)
    {
      var sc := Scope(None, Some(last), None);
      ghost var es := books.entries;
      ghost var ps := Postings(es, sc);
      order, balances := [], map[];
      for i := 0 to |journal|
        invariant |PostingsTo(es, i, sc)| <= |ps| && Netted(order, balances, ps, |PostingsTo(es, i, sc)|)
      {
        ghost var k := |PostingsTo(es, i, sc)|;
        var selected, entry := Visit(i, sc);
        if selected {
          order, balances := TallyBalances(order, balances, entry, ps, k);
        }
      }
    }

    /** The balance sheet as of a day, or as of today when none is given. */
    method GetBalanceSheet(asOf: Option<int>, today: int) returns (bs: BalanceSheet)
      requires Valid()
      ensures IsBalanceSheet(bs, books.chart,
                             Postings(books.entries, Scope(None, Some(if asOf.Some? then asOf.value else today), None)))
    {
      var last := if asOf.Some? then asOf.value else today;
      ghost var ps := Postings(books.entries, Scope(None, Some(last), None));
      var order, balances := GatherBalances(last);
      var chart := Chart();
      bs := BalanceSheetFrom(order, balances, chart, ps);
    }

    /** The bank account's last running balance, or nil with no lines. */
    method GetCashBalance(bank: Id) returns (balance: Option<int>)
      requires Valid()
      ensures balance == None <==> bank !in books.chart
      ensures balance.Some? ==> balance.value == SumOf(Postings(books.entries, Scope(None, None, None)), Net, bank)
    {
      var ledger := GetLedger(bank, None, None);
      if ledger == None {
        return None;
      }
      ghost var ps := Postings(books.entries, Scope(None, None, None));
      LastRunningIsNet(ledger.value, ps, bank);
      return Some(if ledger.value == [] then 0 else ledger.value[|ledger.value| - 1].running);
    }
  }

  ghost predicate ChartMatches(index: map<Id, Account>, chart: Chart)
    reads index.Values
  {
    && index.Keys == chart.Keys
    && forall id :: id in index ==> index[id].id == id && index[id].fields == chart[id]
  }

  ghost predicate JournalMatches(journal: seq<JournalEntry>, es: seq<EntryRecord>)
    reads journal
  {
    && |journal| == |es|
    && (forall i :: 0 <= i < |journal| ==> journal[i].Record() == es[i])
    && forall i, j :: 0 <= i < j < |journal| ==> journal[i] != journal[j]
  }

  ghost predicate IndexMatches(index: map<Id, JournalEntry>, journal: seq<JournalEntry>, place: map<Id, nat>) {
    && index.Keys == place.Keys
    && forall id :: id in index ==> place[id] < |journal| && journal[place[id]] == index[id]
  }

  method LoadAccounts(seed: seq<(Id, Fields)>) returns (index: map<Id, Account>)
    ensures ChartMatches(index, ChartTo(seed, |seed|))
    ensures forall id :: id in index ==> fresh(index[id])
  {
    index := map[];
    for i := 0 to |seed|
      invariant forall id :: id in index ==> fresh(index[id])
      invariant ChartMatches(index, ChartTo(seed, i))
    {
      var account := new Account(seed[i].0, seed[i].1);
      index := index[account.id := account];
    }
  }

  method LoadEntries(seed: seq<EntryRecord>) returns (journal: seq<JournalEntry>, index: map<Id, JournalEntry>)
    ensures JournalMatches(journal, seed) && IndexMatches(index, journal, IndexTo(seed, |seed|))
    ensures forall e :: e in journal ==> fresh(e)
  {
    journal, index := [], map[];
    for i := 0 to |seed|
      invariant forall e :: e in journal ==> fresh(e)
      invariant JournalMatches(journal, seed[..i])
      invariant IndexMatches(index, journal, IndexTo(seed, i))
    {
      var entry := new JournalEntry(seed[i]);
      journal := journal + [entry];
      index := index[entry.id := entry];
    }
    assert seed[..|seed|] == seed;
  }

  ghost function Added(b: Books, r: EntryRecord): Books {
    b.(index := b.index[r.id := |b.entries|], entries := b.entries + [r])
  }

  /** The update loop: of what was sent, only the updatable fields are written. */
  method ApplyChanges(account: Account, changes: Fields)
    modifies account
    ensures account.fields == Updated(old(account.fields), changes)
  {
    var left := changes.Keys;
    while left != {}
      invariant left <= changes.Keys
      invariant account.fields == old(account.fields)
                + (map k | k in changes && k !in left && k in UPDATABLE :: changes[k])
    {
      var k :| k in left;
      if k in UPDATABLE {
        account.fields := account.fields[k := changes[k]];
      }
      left := left - {k};
    }
  }

  method LineTotals(lines: seq<Line>) returns (debit: int, credit: int)
    ensures debit == LineTotal(lines, Debit) && credit == LineTotal(lines, Credit)
  {
    debit, credit := 0, 0;
    for i := 0 to |lines|
      invariant debit == LineTotalTo(lines, i, Debit) && credit == LineTotalTo(lines, i, Credit)
    {
      debit, credit := debit + lines[i].debit, credit + lines[i].credit;
    }
  }
}
