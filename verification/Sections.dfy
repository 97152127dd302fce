/** What the sections of the profit and loss and of the balance sheet say, line by
    line, and that the lines of each add up to the total under it. */
module Sections {
  import opened Text
  import opened Ledger
  import opened Reports
  import opened Sorting
  import opened Tallies

  // ---- the lines add up ----------------------------------------------------------------

  function Amounts(lines: seq<SectionLine>, n: nat): int
    requires n <= |lines|
  {
    if n == 0 then 0 else Amounts(lines, n - 1) + lines[n - 1].amount
  }

  lemma {:induction false} AmountsOfPrefix(a: seq<SectionLine>, b: seq<SectionLine>, n: nat)
    requires n <= |a| && a <= b
    ensures Amounts(a, n) == Amounts(b, n)
  {
    if n > 0 {
      AmountsOfPrefix(a, b, n - 1);
    }
  }

  lemma {:induction false} AmountsWithout(b: seq<SectionLine>, k: nat, n: nat)
    requires k < n <= |b|
    ensures Amounts(b, n) == Amounts(b[..k] + b[k + 1..], n - 1) + b[k].amount
  {
    var rest := b[..k] + b[k + 1..];
    if n == k + 1 {
      AmountsOfPrefix(b[..k], b, k);
      AmountsOfPrefix(b[..k], rest, k);
    } else {
      AmountsWithout(b, k, n - 1);
      assert rest[n - 2] == b[n - 1];
    }
  }

  /** Putting lines in order does not change what they come to. */
  lemma {:induction false} AmountsOfSameLines(a: seq<SectionLine>, b: seq<SectionLine>)
    requires multiset(a) == multiset(b)
    ensures |a| == |b| && Amounts(a, |a|) == Amounts(b, |b|)
  {
    SameElements(a, b);
    if a != [] {
      var init, x := a[..|a| - 1], a[|a| - 1];
      assert x in b;
      var k :| 0 <= k < |b| && b[k] == x;
      var rest := b[..k] + b[k + 1..];
      WithoutOne(a, b, k);
      AmountsOfSameLines(init, rest);
      AmountsOfPrefix(init, a, |init|);
      AmountsWithout(b, k, |b|);
    }
  }

  lemma {:induction false} AmountsOfKeys(chart: Chart, ps: seq<Posting>, keys: seq<Id>, n: nat, debitNature: bool)
    requires n <= |keys|
    ensures Amounts(SectionLines(chart, ps, keys, debitNature), n) ==
            if debitNature then SumKeysTo(keys, n, ps, Net) else -SumKeysTo(keys, n, ps, Net)
  {
    if n > 0 {
      AmountsOfKeys(chart, ps, keys, n - 1, debitNature);
    }
  }

  lemma {:induction false} AmountsOfBalances(chart: Chart, ps: seq<Posting>, keys: seq<Id>, n: nat, t: Kind,
                                             debitNature: bool)
    requires n <= |keys|
    ensures var lines := BalanceLinesTo(chart, ps, keys, n, t, debitNature);
            Amounts(lines, |lines|) ==
            if debitNature then TypeSumTo(chart, keys, n, ps, t) else -TypeSumTo(chart, keys, n, ps, t)
  {
    if n > 0 {
      AmountsOfBalances(chart, ps, keys, n - 1, t, debitNature);
      var before, lines := BalanceLinesTo(chart, ps, keys, n - 1, t, debitNature),
                           BalanceLinesTo(chart, ps, keys, n, t, debitNature);
      assert before + [] == before;
      AmountsOfPrefix(before, lines, |before|);
    }
  }

  /** In a profit and loss the revenue lines add up to the revenue, the expense lines
      to the expenses, and the profit is the one less the other. */
  lemma {:induction false} ProfitLossAddsUp(pl: ProfitLoss, chart: Chart, ps: seq<Posting>)
    requires IsProfitLoss(pl, chart, ps)
    ensures Amounts(pl.revenue.lines, |pl.revenue.lines|) == pl.revenue.total == pl.grossProfit
    ensures Amounts(pl.expenses.lines, |pl.expenses.lines|) == pl.expenses.total
    ensures pl.netProfit == pl.revenue.total - pl.expenses.total
  {
    ProfitSectionAddsUp(pl.revenue.lines, chart, ps, Income, false);
    ProfitSectionAddsUp(pl.expenses.lines, chart, ps, Expense, true);
  }

  lemma {:induction false} ProfitSectionAddsUp(lines: seq<SectionLine>, chart: Chart, ps: seq<Posting>, t: Kind,
                                               debitNature: bool)
    requires !t.OtherKind?
    requires StableOrder(lines, SectionLines(chart, ps, Typed(chart, FirstSeen(ps), t), debitNature), ByName)
    ensures Amounts(lines, |lines|) ==
            if debitNature then SumIn(ps, Net, Charted(chart, t)) else -SumIn(ps, Net, Charted(chart, t))
  {
    var keys := Typed(chart, FirstSeen(ps), t);
    AmountsOfSameLines(lines, SectionLines(chart, ps, keys, debitNature));
    AmountsOfKeys(chart, ps, keys, |keys|, debitNature);
    TypeTotal(chart, t, ps);
  }

  lemma {:induction false} BalanceSectionAddsUp(lines: seq<SectionLine>, chart: Chart, ps: seq<Posting>, t: Kind,
                                                debitNature: bool)
    requires !t.OtherKind? && ListsType(lines, chart, ps, t, debitNature)
    ensures Amounts(lines, |lines|) ==
            if debitNature then SumIn(ps, Net, Charted(chart, t)) else -SumIn(ps, Net, Charted(chart, t))
  {
    var keys := FirstSeen(ps);
    AmountsOfSameLines(lines, BalanceLinesTo(chart, ps, keys, |keys|, t, debitNature));
    AmountsOfBalances(chart, ps, keys, |keys|, t, debitNature);
    TypeTotal(chart, t, ps);
  }

  /** And in a balance sheet each of the three sections adds up to its total, the
      profit among the equity lines. */
  lemma {:induction false} BalanceSheetAddsUp(bs: BalanceSheet, chart: Chart, ps: seq<Posting>)
    requires IsBalanceSheet(bs, chart, ps)
    ensures Amounts(bs.assets.lines, |bs.assets.lines|) == bs.assets.total == bs.totalAssets
    ensures Amounts(bs.liabilities.lines, |bs.liabilities.lines|) == bs.liabilities.total
    ensures Amounts(bs.equity.lines, |bs.equity.lines|) == bs.equity.total
    ensures bs.totalLiabilitiesEquity == bs.liabilities.total + bs.equity.total
  {
    BalanceSectionAddsUp(bs.assets.lines, chart, ps, Asset, true);
    BalanceSectionAddsUp(bs.liabilities.lines, chart, ps, Liability, false);
    EquityAddsUp(bs, chart, ps);
  }

  lemma {:induction false} EquityAddsUp(bs: BalanceSheet, chart: Chart, ps: seq<Posting>)
    requires IsBalanceSheet(bs, chart, ps)
    ensures Amounts(bs.equity.lines, |bs.equity.lines|) == bs.equity.total
  {
    var lines := bs.equity.lines;
    var own := lines[..|lines| - if bs.profit != 0 then 1 else 0];
    BalanceSectionAddsUp(own, chart, ps, Equity, false);
    AmountsOfPrefix(own, lines, |own|);
    if bs.profit != 0 {
      assert lines[|lines| - 1] == lines[|lines| - 1..][0];
    }
  }

  // ---- line by line --------------------------------------------------------------------

  /** `line` shows this account: its name, or its id where it has none, and its
      debits less its credits, or the other way round. */
  predicate Shows(line: SectionLine, chart: Chart, ps: seq<Posting>, a: Id, debitNature: bool) {
    && line.name == (if a in chart && AccountName in chart[a] && chart[a][AccountName].Str?
                     then chart[a][AccountName].s else a.text)
    && line.amount == (if debitNature then SumOf(ps, Debit, a) - SumOf(ps, Credit, a)
                       else SumOf(ps, Credit, a) - SumOf(ps, Debit, a))
  }

  /** The accounts of one type that were posted to and, where nil is left out, have
      a balance. */
  function ListedAccounts(chart: Chart, ps: seq<Posting>, t: Kind, evenIfNil: bool): set<Id> {
    set a | a in Accounts(ps) && a in chart && AccountType in chart[a] && chart[a][AccountType] == Type(t)
            && (evenIfNil || SumOf(ps, Debit, a) != SumOf(ps, Credit, a))
  }

  ghost predicate ShowsOneOf(line: SectionLine, chart: Chart, ps: seq<Posting>, all: set<Id>, debitNature: bool) {
    exists a :: a in all && Shows(line, chart, ps, a, debitNature)
  }

  ghost predicate ShownIn(lines: seq<SectionLine>, chart: Chart, ps: seq<Posting>, a: Id, debitNature: bool) {
    exists k :: 0 <= k < |lines| && Shows(lines[k], chart, ps, a, debitNature)
  }

  /** The lines are those accounts': each account's line is there, no line is
      anything else, there are as many as accounts, and they read in name order. */
  ghost predicate LinesOf(lines: seq<SectionLine>, chart: Chart, ps: seq<Posting>, t: Kind, debitNature: bool,
                          evenIfNil: bool)
  {
    var all := ListedAccounts(chart, ps, t, evenIfNil);
    && (forall k :: 0 <= k < |lines| ==> ShowsOneOf(lines[k], chart, ps, all, debitNature))
    && (forall a :: a in all ==> ShownIn(lines, chart, ps, a, debitNature))
    && |lines| == |all|
    && forall i, j :: 0 <= i < j < |lines| ==> AtMost(lines[i].name, lines[j].name)
  }

  /** What the chart says of an account under one field; nothing where it has no such text. */
  function ChartText(chart: Chart, a: Id, field: Field): string {
    if a in chart && field in chart[a] && chart[a][field].Str? then chart[a][field].s else ""
  }

  /** A row of the trial balance shows its account as the chart has it, with what was
      debited to it, what was credited, and the one less the other. */
  lemma {:induction false} TrialRowShows(tb: TrialBalance, chart: Chart, ps: seq<Posting>, k: nat)
    requires IsTrialBalance(tb, chart, ps) && k < |tb.rows|
    ensures var r := tb.rows[k];
            && r.code == ChartText(chart, r.account, AccountCode) && r.name == ChartText(chart, r.account, AccountName)
            && r.debit == SumOf(ps, Debit, r.account) && r.credit == SumOf(ps, Credit, r.account)
            && r.net == r.debit - r.credit
    ensures var r := tb.rows[k];
            r.kind == if r.account in chart && AccountType in chart[r.account] && chart[r.account][AccountType].Type?
                      then chart[r.account][AccountType].kind else OtherKind("")
  {
    TrialRowsAre(tb, chart, ps);
    NetIsDebitLessCredit(ps, |ps|, tb.rows[k].account);
  }

  lemma {:induction false} LineShows(chart: Chart, ps: seq<Posting>, a: Id, debitNature: bool)
    ensures Shows(LineFor(chart, ps, a, debitNature), chart, ps, a, debitNature)
  {
    NetIsDebitLessCredit(ps, |ps|, a);
  }

  lemma {:induction false} LineHasKey(lines: seq<SectionLine>, keys: seq<Id>, chart: Chart, ps: seq<Posting>,
                                      debitNature: bool, k: nat) returns (a: Id)
    requires StableOrder(lines, SectionLines(chart, ps, keys, debitNature), ByName) && k < |lines|
    ensures a in keys && Shows(lines[k], chart, ps, a, debitNature)
  {
    var all := SectionLines(chart, ps, keys, debitNature);
    SameElements(lines, all);
    assert lines[k] in all;
    var i :| 0 <= i < |all| && all[i] == lines[k];
    a := keys[i];
    LineShows(chart, ps, a, debitNature);
  }

  lemma {:induction false} KeyHasLine(lines: seq<SectionLine>, keys: seq<Id>, chart: Chart, ps: seq<Posting>,
                                      debitNature: bool, a: Id) returns (k: nat)
    requires StableOrder(lines, SectionLines(chart, ps, keys, debitNature), ByName) && a in keys
    ensures k < |lines| && Shows(lines[k], chart, ps, a, debitNature)
  {
    var all := SectionLines(chart, ps, keys, debitNature);
    SameElements(lines, all);
    var i :| 0 <= i < |keys| && keys[i] == a;
    LineShows(chart, ps, a, debitNature);
    assert all[i] in lines;
    k :| 0 <= k < |lines| && lines[k] == all[i];
  }

  lemma {:induction false} LinesInOrder(lines: seq<SectionLine>, keys: seq<Id>, chart: Chart, ps: seq<Posting>,
                                        debitNature: bool)
    requires StableOrder(lines, SectionLines(chart, ps, keys, debitNature), ByName)
    ensures |lines| == |keys|
    ensures forall i, j :: 0 <= i < j < |lines| ==> AtMost(lines[i].name, lines[j].name)
  {
    SameElements(lines, SectionLines(chart, ps, keys, debitNature));
    forall i, j | 0 <= i < j < |lines| ensures AtMost(lines[i].name, lines[j].name) {
      assert ByName(lines[i], lines[j]);
    }
  }

  lemma {:induction false} LinesShowKeys(lines: seq<SectionLine>, keys: seq<Id>, chart: Chart, ps: seq<Posting>,
                                         debitNature: bool, all: set<Id>)
    requires StableOrder(lines, SectionLines(chart, ps, keys, debitNature), ByName)
    requires forall a :: a in keys <==> a in all
    ensures forall k :: 0 <= k < |lines| ==> ShowsOneOf(lines[k], chart, ps, all, debitNature)
    ensures forall a :: a in all ==> ShownIn(lines, chart, ps, a, debitNature)
  {
    forall k | 0 <= k < |lines| ensures ShowsOneOf(lines[k], chart, ps, all, debitNature) {
      var a := LineHasKey(lines, keys, chart, ps, debitNature, k);
    }
    forall a | a in all ensures ShownIn(lines, chart, ps, a, debitNature) {
      var k := KeyHasLine(lines, keys, chart, ps, debitNature, a);
    }
  }

  /** The keys of a section, one line each. */
  lemma {:induction false} LinesOfKeys(lines: seq<SectionLine>, keys: seq<Id>, chart: Chart, ps: seq<Posting>, t: Kind,
                                       debitNature: bool, evenIfNil: bool)
    requires Distinct(keys) && forall a :: a in keys <==> a in ListedAccounts(chart, ps, t, evenIfNil)
    requires StableOrder(lines, SectionLines(chart, ps, keys, debitNature), ByName)
    ensures LinesOf(lines, chart, ps, t, debitNature, evenIfNil)
  {
    var all := ListedAccounts(chart, ps, t, evenIfNil);
    LinesShowKeys(lines, keys, chart, ps, debitNature, all);
    LinesInOrder(lines, keys, chart, ps, debitNature);
    DistinctCount(keys, all);
  }

  /** The keys of those accounts of one type that have a balance, in order. */
  function WithBalance(chart: Chart, ps: seq<Posting>, keys: seq<Id>, n: nat, t: Kind): seq<Id>
    requires n <= |keys|
  {
    if n == 0 then []
    else
      WithBalance(chart, ps, keys, n - 1, t)
      + if TypeOf(chart, keys[n - 1]) == t && SumOf(ps, Net, keys[n - 1]) != 0 then [keys[n - 1]] else []
  }

  lemma {:induction false} WithBalanceIs(chart: Chart, ps: seq<Posting>, keys: seq<Id>, n: nat, t: Kind)
    requires n <= |keys| && Distinct(keys)
    ensures var some := WithBalance(chart, ps, keys, n, t);
            && Distinct(some)
            && forall a :: a in some <==> a in keys[..n] && TypeOf(chart, a) == t && SumOf(ps, Net, a) != 0
  {
    if n > 0 {
      WithBalanceIs(chart, ps, keys, n - 1, t);
      assert keys[..n] == keys[..n - 1] + [keys[n - 1]];
      assert keys[n - 1] !in keys[..n - 1];
    }
  }

  lemma {:induction false} BalanceLinesAre(chart: Chart, ps: seq<Posting>, keys: seq<Id>, n: nat, t: Kind,
                                           debitNature: bool)
    requires n <= |keys|
    ensures BalanceLinesTo(chart, ps, keys, n, t, debitNature) ==
            SectionLines(chart, ps, WithBalance(chart, ps, keys, n, t), debitNature)
  {
    if n > 0 {
      BalanceLinesAre(chart, ps, keys, n - 1, t, debitNature);
      var a, before := keys[n - 1], WithBalance(chart, ps, keys, n - 1, t);
      OneLineMore(chart, ps, before, a, debitNature);
      assert before + [] == before;
      var lines := BalanceLinesTo(chart, ps, keys, n - 1, t, debitNature);
      assert lines + [] == SectionLines(chart, ps, before, debitNature);
    }
  }

  lemma {:induction false} OneLineMore(chart: Chart, ps: seq<Posting>, keys: seq<Id>, a: Id, debitNature: bool)
    ensures SectionLines(chart, ps, keys + [a], debitNature) ==
            SectionLines(chart, ps, keys, debitNature) + [LineFor(chart, ps, a, debitNature)]
  {
  }

  lemma {:induction false} ListedWhen(chart: Chart, ps: seq<Posting>, a: Id, t: Kind)
    requires !t.OtherKind?
    ensures a in ListedAccounts(chart, ps, t, true) <==> a in Accounts(ps) && TypeOf(chart, a) == t
    ensures a in ListedAccounts(chart, ps, t, false) <==>
            a in Accounts(ps) && TypeOf(chart, a) == t && SumOf(ps, Net, a) != 0
  {
    NetIsDebitLessCredit(ps, |ps|, a);
  }

  /** A profit and loss shows every income account posted to by its credits less its
      debits, and every expense account by its debits less its credits, nil or not. */
  lemma {:induction false} ProfitLossShows(pl: ProfitLoss, chart: Chart, ps: seq<Posting>)
    requires IsProfitLoss(pl, chart, ps)
    ensures LinesOf(pl.revenue.lines, chart, ps, Income, false, true)
    ensures LinesOf(pl.expenses.lines, chart, ps, Expense, true, true)
  {
    ProfitSectionShows(pl.revenue.lines, chart, ps, Income, false);
    ProfitSectionShows(pl.expenses.lines, chart, ps, Expense, true);
  }

  lemma {:induction false} ProfitSectionShows(lines: seq<SectionLine>, chart: Chart, ps: seq<Posting>, t: Kind,
                                              debitNature: bool)
    requires !t.OtherKind?
    requires StableOrder(lines, SectionLines(chart, ps, Typed(chart, FirstSeen(ps), t), debitNature), ByName)
    ensures LinesOf(lines, chart, ps, t, debitNature, true)
  {
    var keys := FirstSeen(ps);
    FirstSeenAreAccounts(ps, |ps|);
    TypedMembers(chart, keys, |keys|, t);
    assert keys[..|keys|] == keys;
    forall a ensures a in Typed(chart, keys, t) <==> a in ListedAccounts(chart, ps, t, true) {
      ListedWhen(chart, ps, a, t);
    }
    LinesOfKeys(lines, Typed(chart, keys, t), chart, ps, t, debitNature, true);
  }

  lemma {:induction false} BalanceSectionShows(lines: seq<SectionLine>, chart: Chart, ps: seq<Posting>, t: Kind,
                                               debitNature: bool)
    requires !t.OtherKind? && ListsType(lines, chart, ps, t, debitNature)
    ensures LinesOf(lines, chart, ps, t, debitNature, false)
  {
    var keys := FirstSeen(ps);
    FirstSeenAreAccounts(ps, |ps|);
    WithBalanceIs(chart, ps, keys, |keys|, t);
    BalanceLinesAre(chart, ps, keys, |keys|, t, debitNature);
    assert keys[..|keys|] == keys;
    forall a ensures a in WithBalance(chart, ps, keys, |keys|, t) <==> a in ListedAccounts(chart, ps, t, false) {
      ListedWhen(chart, ps, a, t);
    }
    LinesOfKeys(lines, WithBalance(chart, ps, keys, |keys|, t), chart, ps, t, debitNature, false);
  }

  /** What a sheet's equity shows: the accounts, and last, when there is one, the
      profit by its name. */
  ghost predicate EquityOf(lines: seq<SectionLine>, profit: int, chart: Chart, ps: seq<Posting>) {
    match profit != 0
    case false => LinesOf(lines, chart, ps, Equity, false, false)
    case true =>
      && |lines| > 0 && LinesOf(lines[..|lines| - 1], chart, ps, Equity, false, false)
      && lines[|lines| - 1] == SectionLine("Retained Earnings / Net Profit", profit)
  }

  lemma {:induction false} EquityShows(bs: BalanceSheet, chart: Chart, ps: seq<Posting>)
    requires IsBalanceSheet(bs, chart, ps)
    ensures EquityOf(bs.equity.lines, bs.profit, chart, ps)
  {
    var lines := bs.equity.lines;
    if bs.profit != 0 {
      BalanceSectionShows(lines[..|lines| - 1], chart, ps, Equity, false);
      assert lines[|lines| - 1] == lines[|lines| - 1..][0];
    } else {
      assert lines[..|lines|] == lines;
      BalanceSectionShows(lines, chart, ps, Equity, false);
    }
  }

  /** A balance sheet shows every asset with a balance by its debits less its
      credits, every liability and equity account with one by its credits less its
      debits, and last of the equity the profit. */
  lemma {:induction false} BalanceSheetShows(bs: BalanceSheet, chart: Chart, ps: seq<Posting>)
    requires IsBalanceSheet(bs, chart, ps)
    ensures LinesOf(bs.assets.lines, chart, ps, Asset, true, false)
    ensures LinesOf(bs.liabilities.lines, chart, ps, Liability, false, false)
    ensures EquityOf(bs.equity.lines, bs.profit, chart, ps)
  {
    BalanceSectionShows(bs.assets.lines, chart, ps, Asset, true);
    BalanceSectionShows(bs.liabilities.lines, chart, ps, Liability, false);
    EquityShows(bs, chart, ps);
  }
}
