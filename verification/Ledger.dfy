/** The arithmetic of a double-entry ledger: postings, per-account sums, and the
    laws the four reports rest on. Amounts are integer paise. */
module Ledger {
  import opened Sorting
  import opened Text

  datatype Line = Line(account: Id, debit: int, credit: int)

  /** The status word. Only "posted" has a meaning to the reports. */
  datatype Status = Draft | Posted | OtherStatus(word: string)

  /** One journal entry as a value. `date` numbers the calendar day: ISO dates
      compare as text the way their days do (`Calendar.IsoOrder`). */
  datatype EntryRecord = EntryRecord(id: Id, client: Id, date: int, heading: Heading, status: Status, lines: seq<Line>)

  /** What an entry says of itself, carried into the ledger as it stands. */
  datatype Heading = Heading(reference: Option<string>, narration: string)

  datatype Measure = Debit | Credit | Net

  function Amount(l: Line, m: Measure): int {
    match m
    case Debit => l.debit
    case Credit => l.credit
    case Net => l.debit - l.credit
  }

  function LineTotalTo(lines: seq<Line>, n: nat, m: Measure): int
    requires n <= |lines|
  {
    if n == 0 then 0 else LineTotalTo(lines, n - 1, m) + Amount(lines[n - 1], m)
  }

  function LineTotal(lines: seq<Line>, m: Measure): int { LineTotalTo(lines, |lines|, m) }

  predicate Balanced(lines: seq<Line>) {
    LineTotal(lines, Debit) == LineTotal(lines, Credit)
  }

  /** The invariant every report rests on. Drafts may be unbalanced. */
  ghost predicate PostedBalance(es: seq<EntryRecord>) {
    forall i :: 0 <= i < |es| && es[i].status.Posted? ==> Balanced(es[i].lines)
  }

  /** Which entries a report reads; None is a bound or filter that was not given. */
  datatype Scope = Scope(start: Option<int>, end: Option<int>, client: Option<Id>)

  predicate Includes(sc: Scope, e: EntryRecord) {
    && e.status.Posted?
    && (sc.start.Some? ==> sc.start.value <= e.date)
    && (sc.end.Some? ==> e.date <= sc.end.value)
    && (sc.client.Some? ==> e.client == sc.client.value)
  }

  /** One line of one posted entry, as a report meets it. */
  datatype Posting = Posting(date: int, heading: Heading, entryId: Id, line: Line)

  function PostingsOf(e: EntryRecord): (ps: seq<Posting>) {
    seq(|e.lines|, i requires 0 <= i < |e.lines| => Posting(e.date, e.heading, e.id, e.lines[i]))
  }

  /** The postings of the first `n` entries that a scope selects. */
  function PostingsTo(es: seq<EntryRecord>, n: nat, sc: Scope): seq<Posting>
    requires n <= |es|
  {
    if n == 0 then []
    else PostingsTo(es, n - 1, sc) + if Includes(sc, es[n - 1]) then PostingsOf(es[n - 1]) else []
  }

  function Postings(es: seq<EntryRecord>, sc: Scope): seq<Posting> { PostingsTo(es, |es|, sc) }

  // Each quantity is defined over the first `n` postings; a loop that has met
  // `n` of them holds the value at `n`, and a report shows the value at the end.

  function SumTo(ps: seq<Posting>, n: nat, m: Measure): int
    requires n <= |ps|
  {
    if n == 0 then 0 else SumTo(ps, n - 1, m) + Amount(ps[n - 1].line, m)
  }

  /** The sum over the postings to the accounts in `sel`. */
  function SumInTo(ps: seq<Posting>, n: nat, m: Measure, sel: set<Id>): int
    requires n <= |ps|
  {
    if n == 0 then 0
    else SumInTo(ps, n - 1, m, sel) + if ps[n - 1].line.account in sel then Amount(ps[n - 1].line, m) else 0
  }

  /** The sum over the postings to one account. */
  function SumOfTo(ps: seq<Posting>, n: nat, m: Measure, a: Id): int
    requires n <= |ps|
  {
    if n == 0 then 0
    else SumOfTo(ps, n - 1, m, a) + if ps[n - 1].line.account == a then Amount(ps[n - 1].line, m) else 0
  }

  function AccountsTo(ps: seq<Posting>, n: nat): set<Id>
    requires n <= |ps|
  {
    if n == 0 then {} else AccountsTo(ps, n - 1) + {ps[n - 1].line.account}
  }

  /** The accounts in the order a dictionary filled posting by posting holds them. */
  function FirstSeenTo(ps: seq<Posting>, n: nat): seq<Id>
    requires n <= |ps|
  {
    if n == 0 then []
    else
      FirstSeenTo(ps, n - 1)
      + if ps[n - 1].line.account in AccountsTo(ps, n - 1) then [] else [ps[n - 1].line.account]
  }

  function Sum(ps: seq<Posting>, m: Measure): int { SumTo(ps, |ps|, m) }
  function SumIn(ps: seq<Posting>, m: Measure, sel: set<Id>): int { SumInTo(ps, |ps|, m, sel) }
  function SumOf(ps: seq<Posting>, m: Measure, a: Id): int { SumOfTo(ps, |ps|, m, a) }
  function Accounts(ps: seq<Posting>): set<Id> { AccountsTo(ps, |ps|) }
  function FirstSeen(ps: seq<Posting>): seq<Id> { FirstSeenTo(ps, |ps|) }

  /** The sum over a dictionary's first `k` keys of what each key's account comes to. */
  function SumKeysTo(keys: seq<Id>, k: nat, ps: seq<Posting>, m: Measure): int
    requires k <= |keys|
  {
    if k == 0 then 0 else SumKeysTo(keys, k - 1, ps, m) + SumOf(ps, m, keys[k - 1])
  }

  function SumKeys(keys: seq<Id>, ps: seq<Posting>, m: Measure): int { SumKeysTo(keys, |keys|, ps, m) }

  // ---- Entries and their postings ------------------------------------------------

  /** `k` postings come before those of `e`, which are in `ps` from there on. */
  ghost predicate Window(ps: seq<Posting>, k: nat, e: EntryRecord) {
    && k + |e.lines| <= |ps|
    && forall j :: 0 <= j < |e.lines| ==> ps[k + j] == Posting(e.date, e.heading, e.id, e.lines[j])
  }

  lemma {:induction false} PostingsGrow(es: seq<EntryRecord>, i: nat, n: nat, sc: Scope)
    requires i <= n <= |es|
    ensures PostingsTo(es, i, sc) <= PostingsTo(es, n, sc)
  {
    if i < n {
      PostingsGrow(es, i, n - 1, sc);
    }
  }

  /** Where the `i`-th entry's postings stand among all of them. */
  lemma {:induction false} EntryWindow(es: seq<EntryRecord>, i: nat, sc: Scope)
    requires i < |es|
    ensures var ps, k := Postings(es, sc), |PostingsTo(es, i, sc)|;
            if Includes(sc, es[i])
            then Window(ps, k, es[i]) && |PostingsTo(es, i + 1, sc)| == k + |es[i].lines|
            else k <= |ps| && |PostingsTo(es, i + 1, sc)| == k
  {
    PostingsGrow(es, i, |es|, sc);
    PostingsGrow(es, i + 1, |es|, sc);
    var ps, k, upto := Postings(es, sc), |PostingsTo(es, i, sc)|, PostingsTo(es, i + 1, sc);
    assert forall j :: 0 <= j < |upto| ==> ps[j] == upto[j];
    if Includes(sc, es[i]) {
      forall j | 0 <= j < |es[i].lines|
        ensures ps[k + j] == Posting(es[i].date, es[i].heading, es[i].id, es[i].lines[j])
      {
        assert upto[k + j] == PostingsOf(es[i])[j];
      }
    }
  }

  lemma {:induction false} SumOfPrefix(a: seq<Posting>, b: seq<Posting>, n: nat, m: Measure, sel: set<Id>)
    requires n <= |a| && a <= b
    ensures SumTo(a, n, m) == SumTo(b, n, m) && SumInTo(a, n, m, sel) == SumInTo(b, n, m, sel)
  {
    if n > 0 {
      SumOfPrefix(a, b, n - 1, m, sel);
    }
  }

  lemma {:induction false} SumConcat(a: seq<Posting>, b: seq<Posting>, n: nat, m: Measure, sel: set<Id>)
    requires n <= |b|
    ensures SumTo(a + b, |a| + n, m) == Sum(a, m) + SumTo(b, n, m)
    ensures SumInTo(a + b, |a| + n, m, sel) == SumIn(a, m, sel) + SumInTo(b, n, m, sel)
  {
    if n == 0 {
      SumOfPrefix(a, a + b, |a|, m, sel);
    } else {
      SumConcat(a, b, n - 1, m, sel);
      assert (a + b)[|a| + n - 1] == b[n - 1];
    }
  }

  lemma {:induction false} SumOfLines(e: EntryRecord, n: nat, m: Measure)
    requires n <= |e.lines|
    ensures SumTo(PostingsOf(e), n, m) == LineTotalTo(e.lines, n, m)
  {
    if n > 0 {
      SumOfLines(e, n - 1, m);
    }
  }

  lemma {:induction false} NetIsDebitLessCredit(ps: seq<Posting>, n: nat, a: Id)
    requires n <= |ps|
    ensures SumTo(ps, n, Net) == SumTo(ps, n, Debit) - SumTo(ps, n, Credit)
    ensures SumOfTo(ps, n, Net, a) == SumOfTo(ps, n, Debit, a) - SumOfTo(ps, n, Credit, a)
  {
    if n > 0 {
      NetIsDebitLessCredit(ps, n - 1, a);
    }
  }

  /** Posted entries balance, so whatever a scope selects nets to nothing. */
  lemma {:induction false} PostingsNetToZero(es: seq<EntryRecord>, n: nat, sc: Scope)
    requires n <= |es| && PostedBalance(es)
    ensures Sum(PostingsTo(es, n, sc), Net) == 0
  {
    if n > 0 {
      PostingsNetToZero(es, n - 1, sc);
      var before, e := PostingsTo(es, n - 1, sc), es[n - 1];
      assert before + [] == before;
      if Includes(sc, e) {
        var ps := PostingsOf(e);
        SumOfLines(e, |e.lines|, Debit);
        SumOfLines(e, |e.lines|, Credit);
        NetIsDebitLessCredit(ps, |ps|, e.id);
        SumConcat(before, ps, |ps|, Net, {});
        assert Balanced(es[n - 1].lines);
      }
    }
  }

  // ---- From per-account sums to totals ---------------------------------------

  lemma {:induction false} FirstSeenAreAccounts(ps: seq<Posting>, n: nat)
    requires n <= |ps|
    ensures Distinct(FirstSeenTo(ps, n))
    ensures forall a :: a in FirstSeenTo(ps, n) <==> a in AccountsTo(ps, n)
  {
    if n > 0 {
      FirstSeenAreAccounts(ps, n - 1);
    }
  }

  /** What one account, and then a list of distinct accounts, come to grows by
      the next posting exactly when it is theirs. */
  lemma {:induction false} SumKeysGrow(keys: seq<Id>, k: nat, ps: seq<Posting>, n: nat, m: Measure)
    requires k <= |keys| && n < |ps| && Distinct(keys)
    ensures SumKeysAt(keys, k, ps, n + 1, m)
            == SumKeysAt(keys, k, ps, n, m) + if ps[n].line.account in keys[..k] then Amount(ps[n].line, m) else 0
  {
    if k > 0 {
      SumKeysGrow(keys, k - 1, ps, n, m);
      assert keys[..k] == keys[..k - 1] + [keys[k - 1]];
      assert keys[k - 1] !in keys[..k - 1];
    }
  }

  /** `SumKeysTo` over the first `n` postings only. */
  function SumKeysAt(keys: seq<Id>, k: nat, ps: seq<Posting>, n: nat, m: Measure): int
    requires k <= |keys| && n <= |ps|
  {
    if k == 0 then 0 else SumKeysAt(keys, k - 1, ps, n, m) + SumOfTo(ps, n, m, keys[k - 1])
  }

  lemma {:induction false} SumKeysAtNothing(keys: seq<Id>, k: nat, ps: seq<Posting>, m: Measure)
    requires k <= |keys|
    ensures SumKeysAt(keys, k, ps, 0, m) == 0
    ensures SumKeysAt(keys, k, ps, |ps|, m) == SumKeysTo(keys, k, ps, m)
  {
    if k > 0 {
      SumKeysAtNothing(keys, k - 1, ps, m);
    }
  }

  lemma {:induction false} SumByAccountTo(keys: seq<Id>, ps: seq<Posting>, n: nat, m: Measure, sel: set<Id>)
    requires n <= |ps| && Distinct(keys)
    requires forall a :: a in AccountsTo(ps, n) ==> (a in keys <==> a in sel)
    ensures SumKeysAt(keys, |keys|, ps, n, m) == SumInTo(ps, n, m, sel)
  {
    SumKeysAtNothing(keys, |keys|, ps, m);
    if n > 0 {
      SumByAccountTo(keys, ps, n - 1, m, sel);
      SumKeysGrow(keys, |keys|, ps, n - 1, m);
      assert keys[..|keys|] == keys;
      assert ps[n - 1].line.account in AccountsTo(ps, n);
    }
  }

  /** Summing a dictionary's values account by account gives the sum over the
      postings, provided its keys are distinct and are exactly the selected
      accounts the postings name. */
  lemma {:induction false} SumByAccount(keys: seq<Id>, ps: seq<Posting>, m: Measure, sel: set<Id>)
    requires Distinct(keys)
    requires forall a :: a in Accounts(ps) ==> (a in keys <==> a in sel)
    ensures SumKeys(keys, ps, m) == SumIn(ps, m, sel)
  {
    SumByAccountTo(keys, ps, |ps|, m, sel);
    SumKeysAtNothing(keys, |keys|, ps, m);
  }

  lemma {:induction false} SumInAll(ps: seq<Posting>, n: nat, m: Measure, sel: set<Id>)
    requires n <= |ps| && AccountsTo(ps, n) <= sel
    ensures SumInTo(ps, n, m, sel) == SumTo(ps, n, m)
  {
    if n > 0 {
      SumInAll(ps, n - 1, m, sel);
    }
  }

  // ---- Scopes ----------------------------------------------------------------

  /** Two scopes that share out what a third includes share out its sums. */
  lemma {:induction false} SumOverScopes(es: seq<EntryRecord>, n: nat, a: Scope, b: Scope, whole: Scope, m: Measure,
                                         sel: set<Id>)
    requires n <= |es|
    requires forall i :: 0 <= i < |es| ==> !(Includes(a, es[i]) && Includes(b, es[i]))
    requires forall i :: 0 <= i < |es| ==> (Includes(whole, es[i]) <==> Includes(a, es[i]) || Includes(b, es[i]))
    ensures SumIn(PostingsTo(es, n, whole), m, sel) ==
            SumIn(PostingsTo(es, n, a), m, sel) + SumIn(PostingsTo(es, n, b), m, sel)
  {
    if n > 0 {
      SumOverScopes(es, n - 1, a, b, whole, m, sel);
      SumStep(es, n, a, m, sel);
      SumStep(es, n, b, m, sel);
      SumStep(es, n, whole, m, sel);
    }
  }

  lemma {:induction false} SumStep(es: seq<EntryRecord>, n: nat, sc: Scope, m: Measure, sel: set<Id>)
    requires 0 < n <= |es|
    ensures SumIn(PostingsTo(es, n, sc), m, sel)
            == SumIn(PostingsTo(es, n - 1, sc), m, sel)
               + if Includes(sc, es[n - 1]) then SumIn(PostingsOf(es[n - 1]), m, sel) else 0
  {
    var before, e := PostingsTo(es, n - 1, sc), es[n - 1];
    assert before + [] == before;
    SumConcat(before, PostingsOf(e), |e.lines|, m, sel);
  }

  /** What the first `n` lines come to on the accounts in `sel`. */
  function LinesIn(lines: seq<Line>, n: nat, m: Measure, sel: set<Id>): int
    requires n <= |lines|
  {
    if n == 0 then 0
    else LinesIn(lines, n - 1, m, sel) + if lines[n - 1].account in sel then Amount(lines[n - 1], m) else 0
  }

  lemma {:induction false} SumOfEntry(e: EntryRecord, n: nat, m: Measure, sel: set<Id>)
    requires n <= |e.lines|
    ensures SumInTo(PostingsOf(e), n, m, sel) == LinesIn(e.lines, n, m, sel)
  {
    if n > 0 {
      SumOfEntry(e, n - 1, m, sel);
    }
  }

  /** What a report over a scope gains when the `i`-th entry turns posted: its own
      lines if the entry lies within the scope, and otherwise nothing. */
  lemma {:induction false} PostingGains(es: seq<EntryRecord>, i: nat, n: nat, sc: Scope, m: Measure, sel: set<Id>)
    requires i < |es| && n <= |es| && !es[i].status.Posted?
    ensures var e := es[i].(status := Posted);
            SumIn(PostingsTo(es[i := e], n, sc), m, sel)
            == SumIn(PostingsTo(es, n, sc), m, sel)
               + if i < n && Includes(sc, e) then LinesIn(e.lines, |e.lines|, m, sel) else 0
  {
    var e := es[i].(status := Posted);
    if n > 0 {
      PostingGains(es, i, n - 1, sc, m, sel);
      SumStep(es, n, sc, m, sel);
      SumStep(es[i := e], n, sc, m, sel);
      if i == n - 1 {
        SumOfEntry(e, |e.lines|, m, sel);
      }
    }
  }

  lemma {:induction false} SameFront(es: seq<EntryRecord>, more: seq<EntryRecord>, n: nat, sc: Scope)
    requires n <= |es|
    ensures PostingsTo(es + more, n, sc) == PostingsTo(es, n, sc)
  {
    if n > 0 {
      SameFront(es, more, n - 1, sc);
    }
  }

  /** And what it gains when an entry is added to the list. */
  lemma {:induction false} EntryGains(es: seq<EntryRecord>, e: EntryRecord, sc: Scope, m: Measure, sel: set<Id>)
    ensures SumIn(Postings(es + [e], sc), m, sel)
            == SumIn(Postings(es, sc), m, sel) + if Includes(sc, e) then LinesIn(e.lines, |e.lines|, m, sel) else 0
  {
    SameFront(es, [e], |es|, sc);
    SumStep(es + [e], |es| + 1, sc, m, sel);
    SumOfEntry(e, |e.lines|, m, sel);
  }

  lemma {:induction false} SameScope(es: seq<EntryRecord>, n: nat, a: Scope, b: Scope)
    requires n <= |es|
    requires forall i :: 0 <= i < |es| ==> (Includes(a, es[i]) <==> Includes(b, es[i]))
    ensures PostingsTo(es, n, a) == PostingsTo(es, n, b)
  {
    if n > 0 {
      SameScope(es, n - 1, a, b);
    }
  }

  /** Every posting is a line of a posted entry. */
  ghost predicate FromEntry(es: seq<EntryRecord>, l: Line) {
    exists e, n :: 0 <= e < |es| && es[e].status.Posted? && 0 <= n < |es[e].lines| && es[e].lines[n] == l
  }

  lemma {:induction false} PostingsComeFromEntries(es: seq<EntryRecord>, n: nat, sc: Scope)
    requires n <= |es|
    ensures forall i :: 0 <= i < |PostingsTo(es, n, sc)| ==> FromEntry(es, PostingsTo(es, n, sc)[i].line)
  {
    if n > 0 {
      PostingsComeFromEntries(es, n - 1, sc);
      var ps, before := PostingsTo(es, n, sc), PostingsTo(es, n - 1, sc);
      forall i | |before| <= i < |ps| ensures FromEntry(es, ps[i].line) {
        assert es[n - 1].lines[i - |before|] == ps[i].line;
      }
    }
  }
}
