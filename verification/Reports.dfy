/** What the four accounting reports say, and how they agree with each other.
    A report is specified over the postings its scope selects, with sums taken
    over those postings and never through the report's own dictionaries. */
module Reports {
  import opened Text
  import opened Ledger
  import opened Sorting

  /** The account types. Any other word is a type the reports do not know. */
  datatype Kind = Asset | Liability | Equity | Income | Expense | OtherKind(word: string)

  /** An account is a dictionary of fields, as the service stores it. */
  datatype Field = AccountCode | AccountName | AccountType | AccountSubtype | ParentId | IsActive
  datatype Value = Str(s: string) | Flag(b: bool) | Type(kind: Kind) | Null
  type Fields = map<Field, Value>
  type Chart = map<Id, Fields>

  function TextAt(chart: Chart, a: Id, field: Field, default: string): string {
    if a in chart && field in chart[a] && chart[a][field].Str? then chart[a][field].s else default
  }

  /** The account's type; an account that is not charted, or has none, is of no type. */
  function TypeOf(chart: Chart, a: Id): Kind {
    if a in chart && AccountType in chart[a] && chart[a][AccountType].Type? then chart[a][AccountType].kind
    else OtherKind("")
  }

  function Charted(chart: Chart, t: Kind): set<Id> {
    set a | a in chart && TypeOf(chart, a) == t
  }

  /** The accounts the postings name that are not charted under the five types. */
  function Unclassified(chart: Chart, ps: seq<Posting>): set<Id> {
    set a | a in Accounts(ps) && TypeOf(chart, a).OtherKind?
  }

  /** Those of the first `n` keys whose account has type `t`, in order. */
  function TypedTo(chart: Chart, keys: seq<Id>, n: nat, t: Kind): seq<Id>
    requires n <= |keys|
  {
    if n == 0 then []
    else TypedTo(chart, keys, n - 1, t) + if TypeOf(chart, keys[n - 1]) == t then [keys[n - 1]] else []
  }

  function Typed(chart: Chart, keys: seq<Id>, t: Kind): seq<Id> { TypedTo(chart, keys, |keys|, t) }

  // ---- General ledger ---------------------------------------------------------

  datatype LedgerRow = LedgerRow(date: int, heading: Heading, entryId: Id, debit: int, credit: int, running: int)

  predicate ByDate(x: LedgerRow, y: LedgerRow) { x.date <= y.date }

  function LedgerLinesTo(ps: seq<Posting>, n: nat, account: Id): seq<LedgerRow>
    requires n <= |ps|
  {
    if n == 0 then []
    else
      var p := ps[n - 1];
      LedgerLinesTo(ps, n - 1, account)
      + if p.line.account != account then []
        else [LedgerRow(p.date, p.heading, p.entryId, p.line.debit, p.line.credit, 0)]
  }

  function LedgerLines(ps: seq<Posting>, account: Id): seq<LedgerRow> { LedgerLinesTo(ps, |ps|, account) }

  function RowNet(rows: seq<LedgerRow>, n: nat): int
    requires n <= |rows|
  {
    if n == 0 then 0 else RowNet(rows, n - 1) + rows[n - 1].debit - rows[n - 1].credit
  }

  ghost predicate Alike(a: LedgerRow, b: LedgerRow) {
    a.date == b.date && a.heading == b.heading && a.entryId == b.entryId && a.debit == b.debit && a.credit == b.credit
  }

  /** `rows` is the ledger of `account`: its posted lines in date order, lines of
      one date as journalled, each carrying the balance up to and including it. */
  ghost predicate IsLedger(rows: seq<LedgerRow>, ps: seq<Posting>, account: Id) {
    exists plain :: StableOrder(plain, LedgerLines(ps, account), ByDate) && HasRunning(rows, plain)
  }

  ghost predicate HasRunning(rows: seq<LedgerRow>, plain: seq<LedgerRow>) {
    && |rows| == |plain|
    && forall i :: 0 <= i < |rows| ==> Alike(rows[i], plain[i]) && rows[i].running == RowNet(plain, i + 1)
  }

  // ---- Trial balance ------------------------------------------------------------

  datatype TrialRow = TrialRow(account: Id, code: string, name: string, kind: Kind, debit: int, credit: int, net: int)

  datatype TrialBalance = TrialBalance(rows: seq<TrialRow>, debit: int, credit: int, balanced: bool, difference: int)

  predicate ByCode(x: TrialRow, y: TrialRow) { AtMost(x.code, y.code) }

  function TrialRowFor(chart: Chart, ps: seq<Posting>, a: Id): TrialRow {
    TrialRow(a, TextAt(chart, a, AccountCode, ""), TextAt(chart, a, AccountName, ""), TypeOf(chart, a),
             SumOf(ps, Debit, a), SumOf(ps, Credit, a), SumOf(ps, Net, a))
  }

  function TrialRows(chart: Chart, ps: seq<Posting>, keys: seq<Id>): (rows: seq<TrialRow>) {
    seq(|keys|, i requires 0 <= i < |keys| => TrialRowFor(chart, ps, keys[i]))
  }

  /** One row per account posted to, in account-code order, and true grand totals. */
  ghost predicate IsTrialBalance(tb: TrialBalance, chart: Chart, ps: seq<Posting>) {
    && StableOrder(tb.rows, TrialRows(chart, ps, FirstSeen(ps)), ByCode)
    && tb.debit == Sum(ps, Debit)
    && tb.credit == Sum(ps, Credit)
    && tb.difference == Sum(ps, Net)
    && (tb.balanced <==> Sum(ps, Net) == 0)
  }

  // ---- Profit and loss, balance sheet -----------------------------------------

  datatype SectionLine = SectionLine(name: string, amount: int)
  datatype Section = Section(lines: seq<SectionLine>, total: int)

  predicate ByName(x: SectionLine, y: SectionLine) { AtMost(x.name, y.name) }

  /** Debit accounts show their net, credit accounts its negation. */
  function Signed(net: int, debitNature: bool): int { if debitNature then net else -net }

  function LineFor(chart: Chart, ps: seq<Posting>, a: Id, debitNature: bool): SectionLine {
    SectionLine(TextAt(chart, a, AccountName, a.text), Signed(SumOf(ps, Net, a), debitNature))
  }

  function SectionLines(chart: Chart, ps: seq<Posting>, keys: seq<Id>, debitNature: bool): (r: seq<SectionLine>) {
    seq(|keys|, i requires 0 <= i < |keys| => LineFor(chart, ps, keys[i], debitNature))
  }

  /** The lines of those of the first `n` keys that have type `t` and a balance. */
  function BalanceLinesTo(chart: Chart, ps: seq<Posting>, keys: seq<Id>, n: nat, t: Kind, debitNature: bool)
    : seq<SectionLine>
    requires n <= |keys|
  {
    if n == 0 then []
    else
      var a := keys[n - 1];
      BalanceLinesTo(chart, ps, keys, n - 1, t, debitNature)
      + if TypeOf(chart, a) == t && SumOf(ps, Net, a) != 0 then [LineFor(chart, ps, a, debitNature)] else []
  }

  datatype ProfitLoss = ProfitLoss(start: int, end: int, revenue: Section, grossProfit: int, expenses: Section,
                                   netProfit: int)

  /** A section lists every account of its type that was posted to. */
  ghost predicate IsProfitLoss(pl: ProfitLoss, chart: Chart, ps: seq<Posting>) {
    && StableOrder(pl.revenue.lines, SectionLines(chart, ps, Typed(chart, FirstSeen(ps), Income), false), ByName)
    && pl.revenue.total == -SumIn(ps, Net, Charted(chart, Income))
    && pl.grossProfit == pl.revenue.total
    && StableOrder(pl.expenses.lines, SectionLines(chart, ps, Typed(chart, FirstSeen(ps), Expense), true), ByName)
    && pl.expenses.total == SumIn(ps, Net, Charted(chart, Expense))
    && pl.netProfit == pl.grossProfit - pl.expenses.total
  }

  /** Income less expense, as a sum over postings. */
  function NetProfit(chart: Chart, ps: seq<Posting>): int {
    -SumIn(ps, Net, Charted(chart, Income)) - SumIn(ps, Net, Charted(chart, Expense))
  }

  datatype BalanceSheet = BalanceSheet(
    assets: Section, liabilities: Section, equity: Section, profit: int,
    totalAssets: int, totalLiabilitiesEquity: int, balanced: bool)

  const NET_PROFIT_LINE := "Retained Earnings / Net Profit"

  /** The lines of a balance sheet section: accounts of its type with a balance. */
  ghost predicate ListsType(lines: seq<SectionLine>, chart: Chart, ps: seq<Posting>, t: Kind, debitNature: bool) {
    StableOrder(lines, BalanceLinesTo(chart, ps, FirstSeen(ps), |FirstSeen(ps)|, t, debitNature), ByName)
  }

  /** Equity ends with the net profit of all time, when there is one. */
  ghost predicate IsBalanceSheet(bs: BalanceSheet, chart: Chart, ps: seq<Posting>) {
    && ListsType(bs.assets.lines, chart, ps, Asset, true)
    && bs.assets.total == SumIn(ps, Net, Charted(chart, Asset))
    && ListsType(bs.liabilities.lines, chart, ps, Liability, false)
    && bs.liabilities.total == -SumIn(ps, Net, Charted(chart, Liability))
    && bs.profit == NetProfit(chart, ps)
    && var shown := if bs.profit != 0 then [SectionLine(NET_PROFIT_LINE, bs.profit)] else [];
    && |shown| <= |bs.equity.lines|
    && bs.equity.lines[|bs.equity.lines| - |shown|..] == shown
    && ListsType(bs.equity.lines[..|bs.equity.lines| - |shown|], chart, ps, Equity, false)
    && bs.equity.total == -SumIn(ps, Net, Charted(chart, Equity)) + bs.profit
    && bs.totalAssets == bs.assets.total
    && bs.totalLiabilitiesEquity == bs.liabilities.total + bs.equity.total
    && (bs.balanced <==> bs.totalAssets == bs.totalLiabilitiesEquity)
  }

  // ---- The laws -------------------------------------------------------------------

  /** The trial balance of a ledger whose posted entries balance is balanced, for
      every scope. */
  lemma {:induction false} TrialBalanceBalances(tb: TrialBalance, chart: Chart, es: seq<EntryRecord>, sc: Scope)
    requires PostedBalance(es) && IsTrialBalance(tb, chart, Postings(es, sc))
    ensures tb.balanced && tb.difference == 0 && tb.debit == tb.credit
  {
    PostingsNetToZero(es, |es|, sc);
    NetIsDebitLessCredit(Postings(es, sc), |Postings(es, sc)|, Id(""));
  }

  ghost predicate InOneOf(k: Id, a: set<Id>, b: set<Id>, c: set<Id>, d: set<Id>, e: set<Id>, f: set<Id>) {
    (if k in a then 1 else 0) + (if k in b then 1 else 0) + (if k in c then 1 else 0)
    + (if k in d then 1 else 0) + (if k in e then 1 else 0) + (if k in f then 1 else 0) == 1
  }

  lemma {:induction false} SixParts(ps: seq<Posting>, n: nat, m: Measure,
                                    a: set<Id>, b: set<Id>, c: set<Id>, d: set<Id>, e: set<Id>, f: set<Id>)
    requires n <= |ps|
    requires forall k :: k in AccountsTo(ps, n) ==> InOneOf(k, a, b, c, d, e, f)
    ensures SumTo(ps, n, m) == SumInTo(ps, n, m, a) + SumInTo(ps, n, m, b) + SumInTo(ps, n, m, c)
                               + SumInTo(ps, n, m, d) + SumInTo(ps, n, m, e) + SumInTo(ps, n, m, f)
  {
    if n > 0 {
      SixParts(ps, n - 1, m, a, b, c, d, e, f);
      assert InOneOf(ps[n - 1].line.account, a, b, c, d, e, f);
    }
  }

  lemma {:induction false} TypesPartition(chart: Chart, ps: seq<Posting>, k: Id)
    requires k in Accounts(ps)
    ensures InOneOf(k, Charted(chart, Asset), Charted(chart, Liability), Charted(chart, Equity),
                    Charted(chart, Income), Charted(chart, Expense), Unclassified(chart, ps))
  {
  }

  /** The accounting equation, exactly: what the sheet is out by is what was
      posted to accounts outside the five types. */
  lemma {:induction false} AccountingEquation(bs: BalanceSheet, chart: Chart, es: seq<EntryRecord>, sc: Scope)
    requires PostedBalance(es) && IsBalanceSheet(bs, chart, Postings(es, sc))
    ensures var ps := Postings(es, sc);
            && bs.totalAssets - bs.totalLiabilitiesEquity == -SumIn(ps, Net, Unclassified(chart, ps))
            && (bs.balanced <==> SumIn(ps, Net, Unclassified(chart, ps)) == 0)
  {
    var ps := Postings(es, sc);
    forall k | k in Accounts(ps)
      ensures InOneOf(k, Charted(chart, Asset), Charted(chart, Liability), Charted(chart, Equity),
                      Charted(chart, Income), Charted(chart, Expense), Unclassified(chart, ps))
    {
      TypesPartition(chart, ps, k);
    }
    SixParts(ps, |ps|, Net, Charted(chart, Asset), Charted(chart, Liability), Charted(chart, Equity),
             Charted(chart, Income), Charted(chart, Expense), Unclassified(chart, ps));
    PostingsNetToZero(es, |es|, sc);
  }

  /** So the equation holds whenever every posted line names a charted account. */
  lemma {:induction false} EquationHoldsWhenCharted(bs: BalanceSheet, chart: Chart, es: seq<EntryRecord>, sc: Scope)
    requires PostedBalance(es) && IsBalanceSheet(bs, chart, Postings(es, sc))
    requires forall l :: FromEntry(es, l) ==> !TypeOf(chart, l.account).OtherKind?
    ensures bs.balanced && bs.totalAssets == bs.totalLiabilitiesEquity
  {
    AccountingEquation(bs, chart, es, sc);
    var ps := Postings(es, sc);
    PostingsComeFromEntries(es, |es|, sc);
    forall k | k in Accounts(ps) ensures !TypeOf(chart, k).OtherKind? {
      var i := AccountAt(ps, |ps|, k);
      assert FromEntry(es, ps[i].line);
    }
    assert Unclassified(chart, ps) == {};
    SumInOfNobody(ps, |ps|, Net);
  }

  lemma {:induction false} AccountAt(ps: seq<Posting>, n: nat, a: Id) returns (i: nat)
    requires n <= |ps| && a in AccountsTo(ps, n)
    ensures i < n && ps[i].line.account == a
  {
    if ps[n - 1].line.account == a {
      i := n - 1;
    } else {
      i := AccountAt(ps, n - 1, a);
    }
  }

  lemma {:induction false} SumInOfNobody(ps: seq<Posting>, n: nat, m: Measure)
    requires n <= |ps|
    ensures SumInTo(ps, n, m, {}) == 0
  {
    if n > 0 {
      SumInOfNobody(ps, n - 1, m);
    }
  }

  lemma {:induction false} RowNetOfLines(ps: seq<Posting>, n: nat, account: Id)
    requires n <= |ps|
    ensures var rows := LedgerLinesTo(ps, n, account); RowNet(rows, |rows|) == SumOfTo(ps, n, Net, account)
    ensures LedgerLinesTo(ps, n, account) == [] <==> account !in AccountsTo(ps, n)
  {
    if n > 0 {
      RowNetOfLines(ps, n - 1, account);
      var before, rows := LedgerLinesTo(ps, n - 1, account), LedgerLinesTo(ps, n, account);
      assert before + [] == before;
      RowNetOfPrefix(before, rows, |before|);
    }
  }

  lemma {:induction false} RowNetOfPrefix(a: seq<LedgerRow>, b: seq<LedgerRow>, n: nat)
    requires n <= |a| && a <= b
    ensures RowNet(a, n) == RowNet(b, n)
  {
    if n > 0 {
      RowNetOfPrefix(a, b, n - 1);
    }
  }

  /** Taking one row out takes what it came to. */
  lemma {:induction false} RowNetWithout(b: seq<LedgerRow>, k: nat, n: nat)
    requires k < n <= |b|
    ensures RowNet(b, n) == RowNet(b[..k] + b[k + 1..], n - 1) + b[k].debit - b[k].credit
  {
    var rest := b[..k] + b[k + 1..];
    if n == k + 1 {
      RowNetOfPrefix(b[..k], b, k);
      RowNetOfPrefix(b[..k], rest, k);
    } else {
      RowNetWithout(b, k, n - 1);
      assert rest[n - 2] == b[n - 1];
    }
  }

  /** What rows come to depends on which they are and not on their order. */
  lemma {:induction false} RowNetOfSameRows(a: seq<LedgerRow>, b: seq<LedgerRow>)
    requires multiset(a) == multiset(b)
    ensures |a| == |b| && RowNet(a, |a|) == RowNet(b, |b|)
  {
    SameElements(a, b);
    if a != [] {
      var init, x := a[..|a| - 1], a[|a| - 1];
      assert x in b;
      var k :| 0 <= k < |b| && b[k] == x;
      var rest := b[..k] + b[k + 1..];
      WithoutOne(a, b, k);
      RowNetOfSameRows(init, rest);
      RowNetWithout(b, k, |b|);
      RowNetOfPrefix(init, a, |init|);
    }
  }

  /** A ledger ends at the account's net, and has rows exactly when it is posted to. */
  lemma {:induction false} LastRunningIsNet(rows: seq<LedgerRow>, ps: seq<Posting>, account: Id)
    requires IsLedger(rows, ps, account)
    ensures SumOf(ps, Net, account) == if rows == [] then 0 else rows[|rows| - 1].running
    ensures rows != [] <==> account in Accounts(ps)
  {
    var plain :| StableOrder(plain, LedgerLines(ps, account), ByDate) && HasRunning(rows, plain);
    RowNetOfSameRows(plain, LedgerLines(ps, account));
    RowNetOfLines(ps, |ps|, account);
  }

  /** A ledger reads in date order. */
  lemma {:induction false} LedgerIsChronological(rows: seq<LedgerRow>, ps: seq<Posting>, account: Id)
    requires IsLedger(rows, ps, account)
    ensures forall i, j :: 0 <= i < j < |rows| ==> rows[i].date <= rows[j].date
  {
    var plain :| StableOrder(plain, LedgerLines(ps, account), ByDate) && HasRunning(rows, plain);
    forall i, j | 0 <= i < j < |rows| ensures rows[i].date <= rows[j].date {
      assert ByDate(plain[i], plain[j]) && Alike(rows[i], plain[i]) && Alike(rows[j], plain[j]);
    }
  }

  /** The specification of a ledger leaves nothing open: there is one ledger. */
  lemma {:induction false} LedgerIsDetermined(rows: seq<LedgerRow>, rows': seq<LedgerRow>, ps: seq<Posting>,
                                              account: Id)
    requires IsLedger(rows, ps, account) && IsLedger(rows', ps, account)
    ensures rows == rows'
  {
    var lines := LedgerLines(ps, account);
    var plain :| StableOrder(plain, lines, ByDate) && HasRunning(rows, plain);
    var plain' :| StableOrder(plain', lines, ByDate) && HasRunning(rows', plain');
    assert Preorder(ByDate);
    StableIsUnique(plain, plain', lines, ByDate);
    forall i | 0 <= i < |rows| ensures rows[i] == rows'[i] {
      assert Alike(rows[i], plain[i]) && Alike(rows'[i], plain'[i]);
    }
  }

  lemma {:induction false} TextOrders()
    ensures Preorder(ByCode) && Preorder(ByName)
  {
    forall x: string, y ensures AtMost(x, y) || AtMost(y, x) {
      AtMostIsTotal(x, y);
    }
    forall x, y, z | AtMost(x, y) && AtMost(y, z) ensures AtMost(x, z) {
      AtMostTransitive(x, y, z);
    }
  }

  /** There is one trial balance too, down to the order of accounts that share a code. */
  lemma {:induction false} TrialBalanceIsDetermined(tb: TrialBalance, tb': TrialBalance, chart: Chart, ps: seq<Posting>)
    requires IsTrialBalance(tb, chart, ps) && IsTrialBalance(tb', chart, ps)
    ensures tb == tb'
  {
    TextOrders();
    StableIsUnique(tb.rows, tb'.rows, TrialRows(chart, ps, FirstSeen(ps)), ByCode);
  }

  /** The trial balance has exactly one row for each account posted to, and it
      carries that account's own sums. */
  lemma {:induction false} TrialRowsAre(tb: TrialBalance, chart: Chart, ps: seq<Posting>)
    requires IsTrialBalance(tb, chart, ps)
    ensures forall k :: 0 <= k < |tb.rows| ==>
              tb.rows[k].account in Accounts(ps) && tb.rows[k] == TrialRowFor(chart, ps, tb.rows[k].account)
    ensures forall a :: a in Accounts(ps) ==> exists k :: 0 <= k < |tb.rows| && tb.rows[k].account == a
    ensures |tb.rows| == |FirstSeen(ps)|
  {
    var keys := FirstSeen(ps);
    var all := TrialRows(chart, ps, keys);
    SameElements(tb.rows, all);
    FirstSeenAreAccounts(ps, |ps|);
    forall k | 0 <= k < |tb.rows|
      ensures tb.rows[k].account in Accounts(ps) && tb.rows[k] == TrialRowFor(chart, ps, tb.rows[k].account)
    {
      assert tb.rows[k] in all;
      var i :| 0 <= i < |all| && all[i] == tb.rows[k];
      assert keys[i] in keys;
    }
    forall a | a in Accounts(ps) ensures exists k :: 0 <= k < |tb.rows| && tb.rows[k].account == a {
      var i :| 0 <= i < |keys| && keys[i] == a;
      assert all[i] in tb.rows;
    }
  }

  /** An account's last running balance is its net in the trial balance of the
      same day, and it has ledger rows exactly when it has a trial balance row. */
  lemma {:induction false} LedgerAgreesWithTrialBalance(
    rows: seq<LedgerRow>, tb: TrialBalance, chart: Chart, ps: seq<Posting>, account: Id)
    requires IsLedger(rows, ps, account) && IsTrialBalance(tb, chart, ps)
    ensures rows != [] <==> exists k :: 0 <= k < |tb.rows| && tb.rows[k].account == account
    ensures forall k :: 0 <= k < |tb.rows| && tb.rows[k].account == account ==>
              && rows != []
              && tb.rows[k].net == rows[|rows| - 1].running == tb.rows[k].debit - tb.rows[k].credit
  {
    LastRunningIsNet(rows, ps, account);
    TrialRowsAre(tb, chart, ps);
    NetIsDebitLessCredit(ps, |ps|, account);
  }

  /** The balance sheet's closing equity line is the profit the unfiltered P&L
      reports from the first posting to the same day. */
  lemma {:induction false} BalanceSheetAgreesWithProfitLoss(
    bs: BalanceSheet, pl: ProfitLoss, chart: Chart, es: seq<EntryRecord>, first: int, end: int)
    requires forall i :: 0 <= i < |es| && es[i].status.Posted? ==> first <= es[i].date
    requires IsBalanceSheet(bs, chart, Postings(es, Scope(None, Some(end), None)))
    requires IsProfitLoss(pl, chart, Postings(es, Scope(Some(first), Some(end), None)))
    ensures bs.profit == pl.netProfit
    ensures pl.netProfit != 0 ==>
              && bs.equity.lines != []
              && bs.equity.lines[|bs.equity.lines| - 1] == SectionLine(NET_PROFIT_LINE, pl.netProfit)
  {
    SameScope(es, |es|, Scope(None, Some(end), None), Scope(Some(first), Some(end), None));
  }

  /** Profit over two adjacent ranges adds up to profit over their union. */
  lemma {:induction false} ProfitIsAdditive(
    chart: Chart, es: seq<EntryRecord>, start: int, mid: int, end: int, client: Option<Id>,
    before: ProfitLoss, after: ProfitLoss, whole: ProfitLoss)
    requires start - 1 <= mid <= end
    requires IsProfitLoss(before, chart, Postings(es, Scope(Some(start), Some(mid), client)))
    requires IsProfitLoss(after, chart, Postings(es, Scope(Some(mid + 1), Some(end), client)))
    requires IsProfitLoss(whole, chart, Postings(es, Scope(Some(start), Some(end), client)))
    ensures whole.netProfit == before.netProfit + after.netProfit
    ensures whole.revenue.total == before.revenue.total + after.revenue.total
    ensures whole.expenses.total == before.expenses.total + after.expenses.total
  {
    var a, b := Scope(Some(start), Some(mid), client), Scope(Some(mid + 1), Some(end), client);
    var w := Scope(Some(start), Some(end), client);
    SumOverScopes(es, |es|, a, b, w, Net, Charted(chart, Income));
    SumOverScopes(es, |es|, a, b, w, Net, Charted(chart, Expense));
  }
}
