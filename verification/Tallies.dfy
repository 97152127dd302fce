/** Dictionaries filled posting by posting, as the reports fill them, and what
    they hold: an insertion order and one running sum per account. */
module Tallies {
  import opened Text
  import opened Ledger
  import opened Reports
  import Sorting

  /** Debit and credit totals of every account met in the first `n` postings. */
  function TotalsTo(ps: seq<Posting>, n: nat): map<Id, (int, int)>
    requires n <= |ps|
  {
    if n == 0 then map[]
    else
      var m, ln := TotalsTo(ps, n - 1), ps[n - 1].line;
      var was := if ln.account in m then m[ln.account] else (0, 0);
      m[ln.account := (was.0 + ln.debit, was.1 + ln.credit)]
  }

  /** Net balances of every account met. */
  function NetsTo(ps: seq<Posting>, n: nat): map<Id, int>
    requires n <= |ps|
  {
    if n == 0 then map[]
    else
      var m, ln := NetsTo(ps, n - 1), ps[n - 1].line;
      m[ln.account := (if ln.account in m then m[ln.account] else 0) + ln.debit - ln.credit]
  }

  /** Signed balances of the accounts of one type met. */
  function TypeNetsTo(ps: seq<Posting>, n: nat, chart: Chart, t: Kind, debitNature: bool): map<Id, int>
    requires n <= |ps|
  {
    if n == 0 then map[]
    else
      var m, ln := TypeNetsTo(ps, n - 1, chart, t, debitNature), ps[n - 1].line;
      if TypeOf(chart, ln.account) == t
      then m[ln.account := (if ln.account in m then m[ln.account] else 0) + Signed(ln.debit - ln.credit, debitNature)]
      else m
  }

  /** The accounts of one type, first met first. */
  function TypeSeenTo(ps: seq<Posting>, n: nat, chart: Chart, t: Kind): seq<Id>
    requires n <= |ps|
  {
    if n == 0 then []
    else
      var a := ps[n - 1].line.account;
      TypeSeenTo(ps, n - 1, chart, t) + if a !in AccountsTo(ps, n - 1) && TypeOf(chart, a) == t then [a] else []
  }

  ghost predicate Totalled(order: seq<Id>, m: map<Id, (int, int)>, ps: seq<Posting>, n: nat)
    requires n <= |ps|
  {
    order == FirstSeenTo(ps, n) && m == TotalsTo(ps, n) && m.Keys == AccountsTo(ps, n)
  }

  ghost predicate Netted(order: seq<Id>, m: map<Id, int>, ps: seq<Posting>, n: nat)
    requires n <= |ps|
  {
    order == FirstSeenTo(ps, n) && m == NetsTo(ps, n) && m.Keys == AccountsTo(ps, n)
  }

  ghost predicate TypeNetted(order: seq<Id>, m: map<Id, int>, chart: Chart, t: Kind, debitNature: bool,
                             ps: seq<Posting>, n: nat)
    requires n <= |ps|
  {
    && order == TypeSeenTo(ps, n, chart, t)
    && m == TypeNetsTo(ps, n, chart, t, debitNature)
  }

  lemma {:induction false} TotalsAre(ps: seq<Posting>, n: nat)
    requires n <= |ps|
    ensures TotalsTo(ps, n).Keys == AccountsTo(ps, n)
    ensures forall a :: a in TotalsTo(ps, n) ==>
              TotalsTo(ps, n)[a] == (SumOfTo(ps, n, Debit, a), SumOfTo(ps, n, Credit, a))
  {
    if n > 0 {
      TotalsAre(ps, n - 1);
      UnseenIsZero(ps, n - 1, Debit, ps[n - 1].line.account);
      UnseenIsZero(ps, n - 1, Credit, ps[n - 1].line.account);
    }
  }

  lemma {:induction false} NetsAre(ps: seq<Posting>, n: nat)
    requires n <= |ps|
    ensures NetsTo(ps, n).Keys == AccountsTo(ps, n)
    ensures forall a :: a in NetsTo(ps, n) ==> NetsTo(ps, n)[a] == SumOfTo(ps, n, Net, a)
  {
    if n > 0 {
      NetsAre(ps, n - 1);
      UnseenIsZero(ps, n - 1, Net, ps[n - 1].line.account);
    }
  }

  lemma {:induction false} TypeNetsAre(ps: seq<Posting>, n: nat, chart: Chart, t: Kind, debitNature: bool)
    requires n <= |ps|
    ensures forall a :: a in TypeNetsTo(ps, n, chart, t, debitNature) <==>
            a in AccountsTo(ps, n) && TypeOf(chart, a) == t
    ensures forall a :: a in TypeNetsTo(ps, n, chart, t, debitNature)
                    ==> TypeNetsTo(ps, n, chart, t, debitNature)[a] == Signed(SumOfTo(ps, n, Net, a), debitNature)
  {
    if n > 0 {
      TypeNetsAre(ps, n - 1, chart, t, debitNature);
      UnseenIsZero(ps, n - 1, Net, ps[n - 1].line.account);
    }
  }

  lemma {:induction false} TypeNetsHas(ps: seq<Posting>, n: nat, chart: Chart, t: Kind, debitNature: bool, a: Id)
    requires n <= |ps|
    ensures a in TypeNetsTo(ps, n, chart, t, debitNature) <==> a in AccountsTo(ps, n) && TypeOf(chart, a) == t
  {
    if n > 0 {
      TypeNetsHas(ps, n - 1, chart, t, debitNature, a);
    }
  }

  lemma {:induction false} UnseenIsZero(ps: seq<Posting>, n: nat, m: Measure, a: Id)
    requires n <= |ps|
    ensures a !in AccountsTo(ps, n) ==> SumOfTo(ps, n, m, a) == 0
  {
    if n > 0 {
      UnseenIsZero(ps, n - 1, m, a);
    }
  }

  lemma {:induction false} TypedMembers(chart: Chart, keys: seq<Id>, n: nat, t: Kind)
    requires n <= |keys|
    ensures forall a :: a in TypedTo(chart, keys, n, t) <==> a in keys[..n] && TypeOf(chart, a) == t
    ensures Sorting.Distinct(keys) ==> Sorting.Distinct(TypedTo(chart, keys, n, t))
  {
    if n > 0 {
      TypedMembers(chart, keys, n - 1, t);
      assert keys[..n] == keys[..n - 1] + [keys[n - 1]];
      if Sorting.Distinct(keys) {
        assert keys[n - 1] !in keys[..n - 1];
      }
    }
  }

  lemma {:induction false} TypedOfPrefix(chart: Chart, a: seq<Id>, b: seq<Id>, n: nat, t: Kind)
    requires n <= |a| && a <= b
    ensures TypedTo(chart, a, n, t) == TypedTo(chart, b, n, t)
  {
    if n > 0 {
      TypedOfPrefix(chart, a, b, n - 1, t);
    }
  }

  lemma {:induction false} SumKeysOfPrefix(a: seq<Id>, b: seq<Id>, k: nat, ps: seq<Posting>, m: Measure)
    requires k <= |a| && a <= b
    ensures SumKeysTo(a, k, ps, m) == SumKeysTo(b, k, ps, m)
  {
    if k > 0 {
      SumKeysOfPrefix(a, b, k - 1, ps, m);
    }
  }

  /** The sum over those of the first `n` keys whose account has type `t`. */
  function TypeSumTo(chart: Chart, keys: seq<Id>, n: nat, ps: seq<Posting>, t: Kind): int
    requires n <= |keys|
  {
    if n == 0 then 0
    else
      TypeSumTo(chart, keys, n - 1, ps, t)
      + if TypeOf(chart, keys[n - 1]) == t then SumOf(ps, Net, keys[n - 1]) else 0
  }

  lemma {:induction false} TypeSumIsKeys(chart: Chart, keys: seq<Id>, n: nat, ps: seq<Posting>, t: Kind)
    requires n <= |keys|
    ensures TypeSumTo(chart, keys, n, ps, t) == SumKeys(TypedTo(chart, keys, n, t), ps, Net)
  {
    if n > 0 {
      TypeSumIsKeys(chart, keys, n - 1, ps, t);
      var before := TypedTo(chart, keys, n - 1, t);
      assert before + [] == before;
      SumKeysOfPrefix(before, TypedTo(chart, keys, n, t), |before|, ps, Net);
    }
  }

  /** What the accounts of one type come to, dictionary entry by dictionary entry. */
  lemma {:induction false} TypeTotal(chart: Chart, t: Kind, ps: seq<Posting>)
    requires !t.OtherKind?
    ensures SumKeys(Typed(chart, FirstSeen(ps), t), ps, Net) == SumIn(ps, Net, Charted(chart, t))
    ensures TypeSumTo(chart, FirstSeen(ps), |FirstSeen(ps)|, ps, t) == SumIn(ps, Net, Charted(chart, t))
  {
    var keys := FirstSeen(ps);
    FirstSeenAreAccounts(ps, |ps|);
    TypedMembers(chart, keys, |keys|, t);
    TypeSumIsKeys(chart, keys, |keys|, ps, t);
    assert keys[..|keys|] == keys;
    SumByAccount(Typed(chart, keys, t), ps, Net, Charted(chart, t));
  }

  lemma {:induction false} GrandTotal(ps: seq<Posting>, m: Measure)
    ensures SumKeys(FirstSeen(ps), ps, m) == Sum(ps, m)
  {
    FirstSeenAreAccounts(ps, |ps|);
    SumByAccount(FirstSeen(ps), ps, m, Accounts(ps));
    SumInAll(ps, |ps|, m, Accounts(ps));
  }

  // ---- One entry's lines ------------------------------------------------------

  method CollectLines(rows: seq<LedgerRow>, account: Id, e: EntryRecord, ghost ps: seq<Posting>, ghost k: nat)
    returns (r: seq<LedgerRow>)
    requires Window(ps, k, e) && rows == LedgerLinesTo(ps, k, account)
    ensures r == LedgerLinesTo(ps, k + |e.lines|, account)
  {
    r := rows;
    for j := 0 to |e.lines|
      invariant r == LedgerLinesTo(ps, k + j, account)
    {
      var ln := e.lines[j];
      assert ps[k + j] == Posting(e.date, e.heading, e.id, ln);
      assert r + [] == r;
      if ln.account == account {
        r := r + [LedgerRow(e.date, e.heading, e.id, ln.debit, ln.credit, 0)];
      }
    }
  }

  method TallyTotals(order: seq<Id>, totals: map<Id, (int, int)>, e: EntryRecord, ghost ps: seq<Posting>, ghost k: nat)
    returns (order': seq<Id>, totals': map<Id, (int, int)>)
    requires Window(ps, k, e) && Totalled(order, totals, ps, k)
    ensures Totalled(order', totals', ps, k + |e.lines|)
  {
    order', totals' := order, totals;
    for j := 0 to |e.lines|
      invariant Totalled(order', totals', ps, k + j)
    {
      var ln := e.lines[j];
      assert ps[k + j].line == ln && order' + [] == order';
      if ln.account !in totals' {
        order' := order' + [ln.account];
        totals' := totals'[ln.account := (0, 0)];
      }
      totals' := totals'[ln.account := (totals'[ln.account].0 + ln.debit, totals'[ln.account].1 + ln.credit)];
    }
  }

  method TallyBalances(order: seq<Id>, balances: map<Id, int>, e: EntryRecord, ghost ps: seq<Posting>, ghost k: nat)
    returns (order': seq<Id>, balances': map<Id, int>)
    requires Window(ps, k, e) && Netted(order, balances, ps, k)
    ensures Netted(order', balances', ps, k + |e.lines|)
  {
    order', balances' := order, balances;
    for j := 0 to |e.lines|
      invariant Netted(order', balances', ps, k + j)
    {
      var ln := e.lines[j];
      assert ps[k + j].line == ln && order' + [] == order';
      if ln.account !in balances' {
        order' := order' + [ln.account];
        balances' := balances'[ln.account := 0];
      }
      balances' := balances'[ln.account := balances'[ln.account] + ln.debit - ln.credit];
    }
  }

  lemma {:induction false} TypeSeenIsTyped(ps: seq<Posting>, n: nat, chart: Chart, t: Kind)
    requires n <= |ps|
    ensures TypeSeenTo(ps, n, chart, t) == Typed(chart, FirstSeenTo(ps, n), t)
  {
    if n > 0 {
      TypeSeenIsTyped(ps, n - 1, chart, t);
      var seen, next := FirstSeenTo(ps, n - 1), FirstSeenTo(ps, n);
      TypedOfPrefix(chart, seen, next, |seen|, t);
      assert seen + [] == seen;
    }
  }

  /** A profit and loss keeps one dictionary per section. */
  method TallyType(order: seq<Id>, m: map<Id, int>, chart: Chart, t: Kind, debitNature: bool, ln: Line,
                   ghost ps: seq<Posting>, ghost n: nat)
    returns (order': seq<Id>, m': map<Id, int>)
    requires n < |ps| && ps[n].line == ln && TypeNetted(order, m, chart, t, debitNature, ps, n)
    ensures TypeNetted(order', m', chart, t, debitNature, ps, n + 1)
  {
    TypeNetsHas(ps, n, chart, t, debitNature, ln.account);
    assert order + [] == order;
    order', m' := order, m;
    if TypeOf(chart, ln.account) == t {
      if ln.account !in m {
        order' := order + [ln.account];
      }
      m' := m[ln.account := (if ln.account in m then m[ln.account] else 0) + Signed(ln.debit - ln.credit, debitNature)];
    }
  }

  method TallyProfit(incomeOrder: seq<Id>, income: map<Id, int>, expenseOrder: seq<Id>, expense: map<Id, int>,
                     chart: Chart, e: EntryRecord, ghost ps: seq<Posting>, ghost k: nat)
    returns (io: seq<Id>, im: map<Id, int>, eo: seq<Id>, em: map<Id, int>)
    requires Window(ps, k, e)
    requires TypeNetted(incomeOrder, income, chart, Income, false, ps, k)
    requires TypeNetted(expenseOrder, expense, chart, Expense, true, ps, k)
    ensures TypeNetted(io, im, chart, Income, false, ps, k + |e.lines|)
    ensures TypeNetted(eo, em, chart, Expense, true, ps, k + |e.lines|)
  {
    io, im, eo, em := incomeOrder, income, expenseOrder, expense;
    for j := 0 to |e.lines|
      invariant TypeNetted(io, im, chart, Income, false, ps, k + j)
      invariant TypeNetted(eo, em, chart, Expense, true, ps, k + j)
    {
      assert ps[k + j].line == e.lines[j];
      io, im := TallyType(io, im, chart, Income, false, e.lines[j], ps, k + j);
      eo, em := TallyType(eo, em, chart, Expense, true, e.lines[j], ps, k + j);
    }
  }

  // ---- The finished reports -----------------------------------------------------

  method TrialBalanceFrom(order: seq<Id>, totals: map<Id, (int, int)>, chart: Chart, ghost ps: seq<Posting>)
    returns (tb: TrialBalance)
    requires Totalled(order, totals, ps, |ps|)
    ensures IsTrialBalance(tb, chart, ps)
  {
    var rows, grandDebit, grandCredit := TrialRowsFrom(order, totals, chart, ps);
    NetIsDebitLessCredit(ps, |ps|, Id(""));
    rows := SortByCode(rows);
    var difference := grandDebit - grandCredit;
    tb := TrialBalance(rows, grandDebit, grandCredit, difference == 0, difference);
  }

  method TrialRowsFrom(order: seq<Id>, totals: map<Id, (int, int)>, chart: Chart, ghost ps: seq<Posting>)
    returns (rows: seq<TrialRow>, grandDebit: int, grandCredit: int)
    requires Totalled(order, totals, ps, |ps|)
    ensures rows == TrialRows(chart, ps, FirstSeen(ps))
    ensures grandDebit == Sum(ps, Debit) && grandCredit == Sum(ps, Credit)
  {
    TrialEntries(order, totals, ps);
    rows, grandDebit, grandCredit := [], 0, 0;
    for k := 0 to |order|
      invariant |rows| == k && forall i :: 0 <= i < k ==> rows[i] == TrialRowFor(chart, ps, order[i])
      invariant grandDebit == SumKeysTo(order, k, ps, Debit)
      invariant grandCredit == SumKeysTo(order, k, ps, Credit)
    {
      var a := order[k];
      var t := totals[a];
      rows := rows + [TrialRow(a, TextAt(chart, a, AccountCode, ""), TextAt(chart, a, AccountName, ""),
                               TypeOf(chart, a), t.0, t.1, t.0 - t.1)];
      grandDebit := grandDebit + t.0;
      grandCredit := grandCredit + t.1;
    }
    GrandTotal(ps, Debit);
    GrandTotal(ps, Credit);
  }

  lemma {:induction false} TrialEntries(order: seq<Id>, totals: map<Id, (int, int)>, ps: seq<Posting>)
    requires Totalled(order, totals, ps, |ps|)
    ensures forall i :: 0 <= i < |order| ==>
              && order[i] in totals
              && totals[order[i]] == (SumOf(ps, Debit, order[i]), SumOf(ps, Credit, order[i]))
              && SumOf(ps, Net, order[i]) == SumOf(ps, Debit, order[i]) - SumOf(ps, Credit, order[i])
  {
    FirstSeenAreAccounts(ps, |ps|);
    TotalsAre(ps, |ps|);
    assert forall i :: 0 <= i < |order| ==> order[i] in order;
    forall i | 0 <= i < |order|
      ensures SumOf(ps, Net, order[i]) == SumOf(ps, Debit, order[i]) - SumOf(ps, Credit, order[i])
    {
      NetIsDebitLessCredit(ps, |ps|, order[i]);
    }
  }

  method SortByCode(rows: seq<TrialRow>) returns (r: seq<TrialRow>)
    ensures Sorting.StableOrder(r, rows, ByCode)
  {
    TextOrders();
    r := Sorting.SortBy(rows, ByCode);
  }

  method SortByName(lines: seq<SectionLine>) returns (r: seq<SectionLine>)
    ensures Sorting.StableOrder(r, lines, ByName)
  {
    TextOrders();
    r := Sorting.SortBy(lines, ByName);
  }

  /** The ledger's second pass: the running balance, row by row. */
  method WithRunningBalance(plain: seq<LedgerRow>) returns (rows: seq<LedgerRow>)
    ensures HasRunning(rows, plain)
  {
    rows := [];
    var running := 0;
    for k := 0 to |plain|
      invariant |rows| == k && running == RowNet(plain, k)
      invariant forall i :: 0 <= i < k ==> Alike(rows[i], plain[i]) && rows[i].running == RowNet(plain, i + 1)
    {
      running := running + plain[k].debit - plain[k].credit;
      rows := rows + [plain[k].(running := running)];
    }
  }

  /** The section a profit and loss shows for one dictionary. */
  method ProfitSection(order: seq<Id>, m: map<Id, int>, chart: Chart, ghost t: Kind, ghost debitNature: bool,
                       ghost ps: seq<Posting>)
    returns (s: Section)
    requires TypeNetted(order, m, chart, t, debitNature, ps, |ps|) && !t.OtherKind?
    ensures Sorting.StableOrder(s.lines, SectionLines(chart, ps, Typed(chart, FirstSeen(ps), t), debitNature), ByName)
    ensures s.total == Signed(SumIn(ps, Net, Charted(chart, t)), debitNature)
  {
    TypeSeenIsTyped(ps, |ps|, chart, t);
    var lines, total := ProfitLines(order, m, chart, t, debitNature, ps);
    lines := SortByName(lines);
    s := Section(lines, total);
  }

  method ProfitLines(order: seq<Id>, m: map<Id, int>, chart: Chart, ghost t: Kind, ghost debitNature: bool,
                     ghost ps: seq<Posting>)
    returns (lines: seq<SectionLine>, total: int)
    requires TypeNetted(order, m, chart, t, debitNature, ps, |ps|) && !t.OtherKind?
    ensures lines == SectionLines(chart, ps, order, debitNature)
    ensures total == Signed(SumIn(ps, Net, Charted(chart, t)), debitNature)
  {
    ProfitEntries(order, m, ps, chart, t, debitNature);
    lines, total := [], 0;
    for i := 0 to |order|
      invariant |lines| == i && forall k :: 0 <= k < i ==> lines[k] == LineFor(chart, ps, order[k], debitNature)
      invariant total == Signed(SumKeysTo(order, i, ps, Net), debitNature)
    {
      lines := lines + [SectionLine(TextAt(chart, order[i], AccountName, order[i].text), m[order[i]])];
      total := total + m[order[i]];
    }
    ProfitTotal(order, m, ps, chart, t, debitNature);
  }

  lemma {:induction false} ProfitTotal(order: seq<Id>, m: map<Id, int>, ps: seq<Posting>, chart: Chart, t: Kind,
                                       debitNature: bool)
    requires TypeNetted(order, m, chart, t, debitNature, ps, |ps|) && !t.OtherKind?
    ensures SumKeysTo(order, |order|, ps, Net) == SumIn(ps, Net, Charted(chart, t))
  {
    TypeSeenIsTyped(ps, |ps|, chart, t);
    TypeTotal(chart, t, ps);
  }

  lemma {:induction false} ProfitEntries(order: seq<Id>, m: map<Id, int>, ps: seq<Posting>, chart: Chart, t: Kind,
                                         debitNature: bool)
    requires TypeNetted(order, m, chart, t, debitNature, ps, |ps|)
    ensures forall i :: 0 <= i < |order| ==>
              order[i] in m && m[order[i]] == Signed(SumOf(ps, Net, order[i]), debitNature)
  {
    var keys := FirstSeen(ps);
    FirstSeenAreAccounts(ps, |ps|);
    TypedMembers(chart, keys, |keys|, t);
    assert keys[..|keys|] == keys;
    TypeSeenIsTyped(ps, |ps|, chart, t);
    TypeNetsAre(ps, |ps|, chart, t, debitNature);
    assert forall i :: 0 <= i < |order| ==> order[i] in order;
  }

  /** The section a balance sheet shows for one type: accounts with a balance. */
  method BalanceSection(order: seq<Id>, balances: map<Id, int>, chart: Chart, t: Kind, debitNature: bool,
                        ghost ps: seq<Posting>)
    returns (s: Section)
    requires Netted(order, balances, ps, |ps|) && !t.OtherKind?
    ensures ListsType(s.lines, chart, ps, t, debitNature)
    ensures s.total == Signed(SumIn(ps, Net, Charted(chart, t)), debitNature)
  {
    var lines, total := BalanceLines(order, balances, chart, t, debitNature, ps);
    lines := SortByName(lines);
    s := Section(lines, total);
  }

  method BalanceLines(order: seq<Id>, balances: map<Id, int>, chart: Chart, t: Kind, debitNature: bool,
                      ghost ps: seq<Posting>)
    returns (lines: seq<SectionLine>, total: int)
    requires Netted(order, balances, ps, |ps|) && !t.OtherKind?
    ensures lines == BalanceLinesTo(chart, ps, FirstSeen(ps), |FirstSeen(ps)|, t, debitNature)
    ensures total == Signed(SumIn(ps, Net, Charted(chart, t)), debitNature)
  {
    FirstSeenAreAccounts(ps, |ps|);
    NetsAre(ps, |ps|);
    lines, total := [], 0;
    for i := 0 to |order|
      invariant lines == BalanceLinesTo(chart, ps, order, i, t, debitNature)
      invariant total == Signed(TypeSumTo(chart, order, i, ps, t), debitNature)
    {
      assert order[i] in order && balances[order[i]] == SumOf(ps, Net, order[i]);
      lines, total := AddBalance(order, balances[order[i]], chart, t, debitNature, i, lines, total, ps);
    }
    TypeTotal(chart, t, ps);
  }

  /** The next account of a balance sheet's section: a line, if it is of the type
      and has a balance. */
  method AddBalance(order: seq<Id>, net: int, chart: Chart, t: Kind, debitNature: bool, i: nat,
                    lines: seq<SectionLine>, total: int, ghost ps: seq<Posting>)
    returns (lines': seq<SectionLine>, total': int)
    requires i < |order| && net == SumOf(ps, Net, order[i])
    requires lines == BalanceLinesTo(chart, ps, order, i, t, debitNature)
    requires total == Signed(TypeSumTo(chart, order, i, ps, t), debitNature)
    ensures lines' == BalanceLinesTo(chart, ps, order, i + 1, t, debitNature)
    ensures total' == Signed(TypeSumTo(chart, order, i + 1, ps, t), debitNature)
  {
    var a := order[i];
    assert lines + [] == lines;
    lines', total' := lines, total;
    if TypeOf(chart, a) == t {
      var balance := if debitNature then net else -net;
      if balance != 0 {
        lines' := lines + [SectionLine(TextAt(chart, a, AccountName, a.text), balance)];
        total' := total + balance;
      }
    }
  }

  /** What the accounts of one type come to, for the net profit of all time. */
  method NetOfType(order: seq<Id>, balances: map<Id, int>, chart: Chart, t: Kind, ghost ps: seq<Posting>)
    returns (net: int)
    requires Netted(order, balances, ps, |ps|) && !t.OtherKind?
    ensures net == SumIn(ps, Net, Charted(chart, t))
  {
    FirstSeenAreAccounts(ps, |ps|);
    NetsAre(ps, |ps|);
    net := 0;
    for i := 0 to |order|
      invariant net == TypeSumTo(chart, order, i, ps, t)
    {
      assert order[i] in order;
      if TypeOf(chart, order[i]) == t {
        net := net + balances[order[i]];
      }
    }
    TypeTotal(chart, t, ps);
  }

  method BalanceSheetFrom(order: seq<Id>, balances: map<Id, int>, chart: Chart, ghost ps: seq<Posting>)
    returns (bs: BalanceSheet)
    requires Netted(order, balances, ps, |ps|)
    ensures IsBalanceSheet(bs, chart, ps)
  {
    var assets := BalanceSection(order, balances, chart, Asset, true, ps);
    var liabilities := BalanceSection(order, balances, chart, Liability, false, ps);
    var equity := BalanceSection(order, balances, chart, Equity, false, ps);
    var income := NetOfType(order, balances, chart, Income, ps);
    var expense := NetOfType(order, balances, chart, Expense, ps);
    var profit := -income - expense;
    var lines := equity.lines + if profit != 0 then [SectionLine(NET_PROFIT_LINE, profit)] else [];
    assert lines[..|equity.lines|] == equity.lines;
    var total := equity.total + profit;
    var liabilitiesEquity := liabilities.total + total;
    bs := BalanceSheet(assets, liabilities, Section(lines, total), profit,
                       assets.total, liabilitiesEquity, assets.total - liabilitiesEquity == 0);
  }
}
