/** The live catalogue, read whole or not at all, and the drift reports drawn
    from it (apps/api/core/schema_guard.py). */
module LiveSchema {
  import opened Text
  import opened ExpectedColumns
  import opened Sorting

  /** A table and one of its columns. */
  datatype Column = Column(table: Name, column: Name)

  /** One entry of the column map as it arrives: the columns, unless the value is not a list. */
  datatype Entry = Entry(table: Name, columns: Option<seq<Name>>)

  /** What the client hands back: a list of values, one object (its `tables` and
      `total_columns`, each absent when missing or of the wrong kind), or neither. */
  datatype Value = Listed(items: seq<Value>) | Record(tables: Option<seq<Entry>>, total: Option<int>) | Scalar

  datatype Response = Raised | Answered(value: Value)

  /** A single-element list stands for its element. */
  function Unwrapped(v: Value): Value {
    if v.Listed? then (if |v.items| == 1 then v.items[0] else Scalar) else v
  }

  /** A payload the read accepts: the object itself, or alone in a list, with both its parts. */
  predicate IsPayload(v: Value, tables: seq<Entry>, total: int) {
    v == Record(Some(tables), Some(total)) || v == Listed([Record(Some(tables), Some(total))])
  }

  lemma {:induction false} PayloadIsUnwrapped(v: Value, tables: seq<Entry>, total: int)
    ensures Unwrapped(v) == Record(Some(tables), Some(total)) <==> IsPayload(v, tables, total)
  {
    if v.Listed? && |v.items| == 1 {
      assert v.items == [v.items[0]];
    }
  }

  type Columns = map<Name, set<Name>>

  /** The map's pairs, for the tables in `ts`. */
  ghost function PairsIn(m: Columns, ts: set<Name>): set<Column> {
    set t, c | t in ts && t in m && c in m[t] :: Column(t, c)
  }

  ghost function Pairs(m: Columns): set<Column> { PairsIn(m, m.Keys) }

  /** What the first `n` entries leave in the map: a later spelling of a table replaces an earlier one. */
  ghost function Parsed(es: seq<Entry>, n: nat): Columns
    requires n <= |es|
    requires forall k :: 0 <= k < n ==> es[k].columns.Some?
  {
    if n == 0 then map[]
    else Parsed(es, n - 1)[Low(es[n - 1].table) := LowAll(es[n - 1].columns.value)]
  }

  lemma {:induction false} ImageSize(t: Name, cs: set<Name>)
    ensures |set c | c in cs :: Column(t, c)| == |cs|
  {
    if cs != {} {
      var c :| c in cs;
      ImageSize(t, cs - {c});
      assert (set d | d in cs :: Column(t, d)) == (set d | d in cs - {c} :: Column(t, d)) + {Column(t, c)};
    }
  }

  lemma {:induction false} OneMoreTable(m: Columns, done: set<Name>, t: Name)
    requires t in m && t !in done
    ensures |PairsIn(m, done + {t})| == |PairsIn(m, done)| + |m[t]|
  {
    var more := set c | c in m[t] :: Column(t, c);
    ImageSize(t, m[t]);
    assert PairsIn(m, done + {t}) == PairsIn(m, done) + more;
    assert PairsIn(m, done) !! more;
  }

  /** `sum(len(cols) for cols in actual.values())`: the number of pairs in the map. */
  method CountColumns(m: Columns) returns (received: nat)
    ensures received == |Pairs(m)|
  {
    received := 0;
    var left := m.Keys;
    while left != {}
      invariant left <= m.Keys && received == |PairsIn(m, m.Keys - left)|
      decreases left
    {
      var t :| t in left;
      OneMoreTable(m, m.Keys - left, t);
      assert m.Keys - left + {t} == m.Keys - (left - {t});
      received := received + |m[t]|;
      left := left - {t};
    }
    assert m.Keys - {} == m.Keys;
  }

  /** The live schema, or None when it could not be read in full: the call
      failed, the answer has another shape, a table's columns are not a list, or
      the columns counted here are not as many as the database says it has. */
  method LiveColumns(r: Response) returns (actual: Option<Columns>)
    ensures actual.Some? <==>
            && r.Answered?
            && var v := Unwrapped(r.value);
            && v.Record? && v.tables.Some? && v.total.Some?
            && (forall k :: 0 <= k < |v.tables.value| ==> v.tables.value[k].columns.Some?)
            && |Pairs(Parsed(v.tables.value, |v.tables.value|))| == v.total.value
    ensures actual.Some? ==>
              exists tables: seq<Entry>, total: int ::
                && IsPayload(r.value, tables, total)
                && (forall k :: 0 <= k < |tables| ==> tables[k].columns.Some?)
                && actual.value == Parsed(tables, |tables|) && |Pairs(actual.value)| == total
    ensures actual.Some? ==>
            var es := Unwrapped(r.value).tables.value;
            actual.value == Parsed(es, |es|)
  {
    if r.Raised? {
      return None;
    }
    var v := Unwrapped(r.value);
    if !v.Record? || v.tables.None? || v.total.None? {
      return None;
    }
    var es := v.tables.value;
    var parsed: Columns := map[];
    for k := 0 to |es|
      invariant forall i :: 0 <= i < k ==> es[i].columns.Some?
      invariant parsed == Parsed(es, k)
    {
      if es[k].columns.None? {
        return None;
      }
      parsed := parsed[Low(es[k].table) := LowAll(es[k].columns.value)];
    }
    var received := CountColumns(parsed);
    if received != v.total.value {
      return None;
    }
    PayloadIsUnwrapped(r.value, es, v.total.value);
    return Some(parsed);
  }

  // ---- completeness -----------------------------------------------------------------

  /** The catalogue's columns under their lower-case names. */
  ghost function LowPairs(catalogue: set<Column>): set<Column> {
    set x | x in catalogue :: Column(Low(x.table), Low(x.column))
  }

  /** Everything the payload names is in the catalogue. */
  ghost predicate Within(es: seq<Entry>, catalogue: set<Column>) {
    forall k, i :: 0 <= k < |es| && es[k].columns.Some? && 0 <= i < |es[k].columns.value| ==>
      Column(es[k].table, es[k].columns.value[i]) in catalogue
  }

  lemma {:induction false} LowPairsAreNoMore(catalogue: set<Column>)
    ensures |LowPairs(catalogue)| <= |catalogue|
  {
    if catalogue != {} {
      var x :| x in catalogue;
      LowPairsAreNoMore(catalogue - {x});
      assert LowPairs(catalogue) == LowPairs(catalogue - {x}) + {Column(Low(x.table), Low(x.column))};
    }
  }

  lemma {:induction false} ParsedIsWithin(es: seq<Entry>, n: nat, catalogue: set<Column>)
    requires n <= |es| && Within(es, catalogue)
    requires forall k :: 0 <= k < n ==> es[k].columns.Some?
    ensures Pairs(Parsed(es, n)) <= LowPairs(catalogue)
  {
    if n > 0 {
      ParsedIsWithin(es, n - 1, catalogue);
      var e, m := es[n - 1], Parsed(es, n);
      forall x | x in Pairs(m) ensures x in LowPairs(catalogue) {
        if x.table == Low(e.table) {
          var i :| 0 <= i < |e.columns.value| && Low(e.columns.value[i]) == x.column;
          assert Column(e.table, e.columns.value[i]) in catalogue;
        } else {
          assert x in Pairs(Parsed(es, n - 1));
        }
      }
    }
  }

  lemma {:induction false} FullSubset<T>(a: set<T>, b: set<T>)
    requires a <= b && |b| <= |a|
    ensures a == b
  {
    if !(b <= a) {
      var x :| x in b && x !in a;
      SubsetSize(a, b - {x});
    }
  }

  lemma {:induction false} SubsetSize<T>(a: set<T>, b: set<T>)
    requires a <= b
    ensures |a| <= |b|
  {
    if a != {} {
      var x :| x in a;
      SubsetSize(a - {x}, b - {x});
    }
  }

  /** The completeness proof: an answer that names only what the catalogue holds
      and carries the catalogue's true count is either refused or is the whole
      catalogue, column for column, whatever was cut out of it. */
  lemma {:induction false} ReadIsWhole(es: seq<Entry>, catalogue: set<Column>)
    requires Within(es, catalogue)
    requires forall k :: 0 <= k < |es| ==> es[k].columns.Some?
    requires |Pairs(Parsed(es, |es|))| == |catalogue|
    ensures Pairs(Parsed(es, |es|)) == LowPairs(catalogue)
  {
    ParsedIsWithin(es, |es|, catalogue);
    LowPairsAreNoMore(catalogue);
    FullSubset(Pairs(Parsed(es, |es|)), LowPairs(catalogue));
  }

  /** When it is refused: a whole answer is accepted exactly when no two columns
      of the catalogue share a lower-case name. */
  lemma {:induction false} WholeAnswerAccepted(es: seq<Entry>, catalogue: set<Column>)
    requires forall k :: 0 <= k < |es| ==> es[k].columns.Some?
    requires Pairs(Parsed(es, |es|)) == LowPairs(catalogue)
    ensures |Pairs(Parsed(es, |es|))| == |catalogue| <==>
            forall x, y :: x in catalogue && y in catalogue && x != y ==>
              Column(Low(x.table), Low(x.column)) != Column(Low(y.table), Low(y.column))
  {
    if forall x, y :: x in catalogue && y in catalogue && x != y ==>
         Column(Low(x.table), Low(x.column)) != Column(Low(y.table), Low(y.column)) {
      DistinctKeepSize(catalogue);
    } else {
      var x, y :| x in catalogue && y in catalogue && x != y
                  && Column(Low(x.table), Low(x.column)) == Column(Low(y.table), Low(y.column));
      LowPairsAreNoMore(catalogue - {x});
      assert LowPairs(catalogue) == LowPairs(catalogue - {x}) by {
        assert y in catalogue - {x};
      }
    }
  }

  lemma {:induction false} DistinctKeepSize(catalogue: set<Column>)
    requires forall x, y :: x in catalogue && y in catalogue && x != y ==>
               Column(Low(x.table), Low(x.column)) != Column(Low(y.table), Low(y.column))
    ensures |LowPairs(catalogue)| == |catalogue|
  {
    if catalogue != {} {
      var x :| x in catalogue;
      DistinctKeepSize(catalogue - {x});
      var z := Column(Low(x.table), Low(x.column));
      assert LowPairs(catalogue) == LowPairs(catalogue - {x}) + {z};
      assert z !in LowPairs(catalogue - {x});
    }
  }

  // ---- the column report ------------------------------------------------------------

  const FIRM_ID := Name("firm_id")

  /** Expectations production has superseded. */
  predicate Superseded(x: Column) {
    || x.table == Name("notes_to_accounts")
    || x.table == Name("year_end_reviews")
    || (x.column == FIRM_ID && x.table in {Name("filings"), Name("automation_executions"), Name("permission_grants")})
  }

  /** They are two whole tables, and the firm's id on three that are kept apart another way. */
  lemma {:induction false} SupersededAre(x: Column)
    ensures Superseded(x) <==>
            || x.table.text in {"notes_to_accounts", "year_end_reviews"}
            || (x.table.text, x.column.text) in {("filings", "firm_id"), ("automation_executions", "firm_id"),
                                                 ("permission_grants", "firm_id")}
  {
  }

  datatype Verdict = Verdict(isChecked: bool, missing: seq<Column>)

  predicate Present(actual: Columns, x: Column) { x.table in actual && x.column in actual[x.table] }

  ghost function Elements(s: seq<Column>): set<Column> { set i | 0 <= i < |s| :: s[i] }

  /** What the lists hold once the columns `seen` have been looked at. */
  ghost predicate SortedOut(seen: set<Column>, actual: Columns, missing: seq<Column>, skipped: seq<Column>) {
    && Distinct(missing) && Distinct(skipped)
    && Elements(missing) == (set x | x in seen && !Present(actual, x) && !Superseded(x))
    && Elements(skipped) == (set x | x in seen && !Present(actual, x) && Superseded(x))
  }

  lemma {:induction false} ListOneMore(s: seq<Column>, x: Column)
    requires Distinct(s) && x !in Elements(s)
    ensures Distinct(s + [x]) && Elements(s + [x]) == Elements(s) + {x}
  {
    assert forall i :: 0 <= i < |s| ==> s[i] in Elements(s);
    assert (s + [x])[|s|] == x;
    assert forall i :: 0 <= i < |s| ==> (s + [x])[i] == s[i];
    forall y | y in Elements(s) + {x} ensures y in Elements(s + [x]) {
      if y != x {
        var i :| 0 <= i < |s| && s[i] == y;
        assert (s + [x])[i] == y;
      }
    }
  }

  /** The columns of one table stand together, in the order of their names. */
  ghost predicate InBlocks(s: seq<Column>) {
    forall i, j :: 0 <= i < j < |s| && s[i].table == s[j].table ==>
      && Less(s[i].column.text, s[j].column.text)
      && forall m :: i < m < j ==> s[m].table == s[i].table
  }

  /** Of table `t` only the last entries are, from `from` on, and their columns come before `next`. */
  ghost predicate EndsIn(s: seq<Column>, from: nat, t: Name, next: string) {
    && from <= |s|
    && (forall i :: 0 <= i < from ==> s[i].table != t)
    && forall i :: from <= i < |s| ==> s[i].table == t && Less(s[i].column.text, next)
  }

  lemma {:induction false} BlockOneMore(s: seq<Column>, from: nat, t: Name, c: string)
    requires InBlocks(s) && EndsIn(s, from, t, c)
    ensures InBlocks(s + [Column(t, Name(c))])
  {
    var r := s + [Column(t, Name(c))];
    forall i, j | 0 <= i < j < |r| && r[i].table == r[j].table
      ensures Less(r[i].column.text, r[j].column.text) && forall m :: i < m < j ==> r[m].table == r[i].table
    {
      if j < |s| {
        assert s[i].table == s[j].table;
      } else {
        assert i >= from;
      }
    }
  }

  method SortOut(x: Column, ghost seen: set<Column>, actual: Columns, missing: seq<Column>, skipped: seq<Column>,
                 ghost from: nat)
    returns (missing': seq<Column>, skipped': seq<Column>)
    requires SortedOut(seen, actual, missing, skipped) && x !in seen
    requires InBlocks(missing) && EndsIn(missing, from, x.table, x.column.text)
    ensures SortedOut(seen + {x}, actual, missing', skipped')
    ensures InBlocks(missing') && (missing' == missing || missing' == missing + [x])
  {
    missing', skipped' := missing, skipped;
    if Present(actual, x) {
      return;
    }
    if Superseded(x) {
      ListOneMore(skipped, x);
      skipped' := skipped + [x];
    } else {
      ListOneMore(missing, x);
      BlockOneMore(missing, from, x.table, x.column.text);
      missing' := missing + [x];
    }
  }

  /** `sorted(cols)`. */
  method InNameOrder(cols: set<Name>) returns (w: seq<string>)
    ensures InTextOrder(w)
    ensures forall c :: c in w <==> Name(c) in cols
  {
    w := [];
    var left := cols;
    while left != {}
      invariant left <= cols && InTextOrder(w)
      invariant forall c :: c in w <==> Name(c) in cols - left
      decreases left
    {
      var n :| n in left;
      IncludeKeepsOrder(n.text, w);
      w := Include(n.text, w);
      left := left - {n};
    }
  }

  /** What one table adds to the lists. */
  method SortOutTable(t: Name, cols: set<Name>, ghost seen: set<Column>, actual: Columns,
                      missing: seq<Column>, skipped: seq<Column>)
    returns (missing': seq<Column>, skipped': seq<Column>)
    requires SortedOut(seen, actual, missing, skipped) && InBlocks(missing)
    requires (forall x :: x in seen ==> x.table != t) && forall i :: 0 <= i < |missing| ==> missing[i].table != t
    ensures SortedOut(seen + (set c | c in cols :: Column(t, c)), actual, missing', skipped') && InBlocks(missing')
    ensures |missing| <= |missing'| && missing'[..|missing|] == missing
    ensures forall i :: |missing| <= i < |missing'| ==> missing'[i].table == t
  {
    missing', skipped' := missing, skipped;
    var w := InNameOrder(cols);
    ghost var done: set<Column> := {};
    for k := 0 to |w|
      invariant done == set i | 0 <= i < k :: Column(t, Name(w[i]))
      invariant SortedOut(seen + done, actual, missing', skipped') && InBlocks(missing')
      invariant |missing| <= |missing'| && missing'[..|missing|] == missing
      invariant forall i :: |missing| <= i < |missing'| ==>
        missing'[i].table == t && exists m :: 0 <= m < k && missing'[i].column == Name(w[m])
    {
      var x := Column(t, Name(w[k]));
      forall i | 0 <= i < k ensures w[i] != w[k] {
        LessIrreflexive(w[k]);
      }
      assert x !in seen + done;
      assert forall i :: 0 <= i < |missing| ==> missing'[i] == missing'[..|missing|][i];
      missing', skipped' := SortOut(x, seen + done, actual, missing', skipped', |missing|);
      assert seen + (done + {x}) == seen + done + {x};
      done := done + {x};
    }
    assert done == set c | c in cols :: Column(t, c) by {
      forall c | c in cols ensures Column(t, c) in done {
        assert c.text in w;
        var i :| 0 <= i < |w| && w[i] == c.text;
      }
      forall x | x in done ensures x.table == t && x.column in cols {
        var i :| 0 <= i < |w| && x == Column(t, Name(w[i]));
        assert w[i] in w;
      }
    }
  }

  /** Columns the migrations lead one to expect and the read does not show, the
      superseded ones set aside; those of one table together, in the order of
      their names. Nothing expected is checked without a read; a failed read is
      not checked and names nothing. */
  method CheckSchemaDrift(expected: Columns, actual: Option<Columns>) returns (v: Verdict, ghost skipped: seq<Column>)
    ensures v.isChecked <==> expected == map[] || actual.Some?
    ensures actual.Some? ==> SortedOut(Pairs(expected), actual.value, v.missing, skipped)
    ensures actual.None? ==> v.missing == []
    ensures InBlocks(v.missing)
  {
    skipped := [];
    if expected == map[] {
      return Verdict(true, []), [];
    }
    if actual.None? {
      return Verdict(false, []), [];
    }
    var missing: seq<Column>, aside: seq<Column> := [], [];
    var tables := expected.Keys;
    while tables != {}
      invariant tables <= expected.Keys
      invariant SortedOut(PairsIn(expected, expected.Keys - tables), actual.value, missing, aside) && InBlocks(missing)
      invariant forall i :: 0 <= i < |missing| ==> missing[i].table !in tables
      decreases tables
    {
      var t :| t in tables;
      ghost var seen := PairsIn(expected, expected.Keys - tables);
      missing, aside := SortOutTable(t, expected[t], seen, actual.value, missing, aside);
      assert PairsIn(expected, expected.Keys - (tables - {t})) == seen + set c | c in expected[t] :: Column(t, c);
      tables := tables - {t};
    }
    assert expected.Keys - {} == expected.Keys;
    v := Verdict(true, missing);
    skipped := aside;
  }

  /** The report is sound: read against a whole catalogue, an expectation is
      reported missing exactly when it is not superseded and no column of the
      catalogue has that name in any spelling, and set aside exactly when it is
      superseded and absent; every other expectation is present. */
  lemma {:induction false} ReportIsSound(expected: Columns, actual: Columns, catalogue: set<Column>,
                                         missing: seq<Column>, skipped: seq<Column>, x: Column)
    requires Pairs(actual) == LowPairs(catalogue)
    requires SortedOut(Pairs(expected), actual, missing, skipped)
    ensures x in Elements(missing) <==>
            && x in Pairs(expected) && !Superseded(x)
            && forall y :: y in catalogue ==> Column(Low(y.table), Low(y.column)) != x
    ensures x in Elements(skipped) <==>
            && x in Pairs(expected) && Superseded(x)
            && forall y :: y in catalogue ==> Column(Low(y.table), Low(y.column)) != x
  {
    assert Present(actual, x) <==> x in Pairs(actual);
    assert x in LowPairs(catalogue) <==> exists y :: y in catalogue && Column(Low(y.table), Low(y.column)) == x;
  }

  // ---- the objects the code calls ---------------------------------------------------

  datatype Names = Unread | Read(names: set<Name>)

  /** The functions' answer: a list and a count, or a malformed one. */
  datatype FunctionAnswer = FunctionsRaised | Malformed | Functions(names: seq<Name>, total: int)

  function LiveFunctions(a: FunctionAnswer): Names {
    if a.Functions? && |LowAll(a.names)| == a.total then Read(LowAll(a.names)) else Unread
  }

  datatype Objects = Objects(tablesChecked: bool, functionsChecked: bool, missingTables: set<Name>,
                             missingFunctions: set<Name>)

  function CheckSchemaObjects(tables: set<Name>, functions: set<Name>, actual: Option<Columns>, live: Names): Objects {
    Objects(
      actual.Some?, live.Read?,
      if actual.Some? then set t | t in tables && t !in actual.value else {},
      if live.Read? then functions - live.names else {})
  }

  /** Cut anywhere, the list of functions is refused or whole; so a function
      reported missing is one the database has under no spelling. */
  lemma {:induction false} FunctionsReadWhole(names: seq<Name>, catalogue: set<Name>)
    requires forall i :: 0 <= i < |names| ==> names[i] in catalogue
    requires LiveFunctions(Functions(names, |catalogue|)).Read?
    ensures LiveFunctions(Functions(names, |catalogue|)).names == set n | n in catalogue :: Low(n)
  {
    var low := set n | n in catalogue :: Low(n);
    LowNamesAreNoMore(catalogue);
    FullSubset(LowAll(names), low);
  }

  lemma {:induction false} LowNamesAreNoMore(catalogue: set<Name>)
    ensures |set n | n in catalogue :: Low(n)| <= |catalogue|
  {
    if catalogue != {} {
      var x :| x in catalogue;
      LowNamesAreNoMore(catalogue - {x});
      assert (set n | n in catalogue :: Low(n)) == (set n | n in catalogue - {x} :: Low(n)) + {Low(x)};
    }
  }

  /** The functions the code calls and the database lacks: read whole, one is
      reported exactly when the database has it under no spelling. */
  lemma {:induction false} FunctionReportedWhen(tables: set<Name>, functions: set<Name>, actual: Option<Columns>,
                                                names: seq<Name>, catalogue: set<Name>, f: Name)
    requires forall i :: 0 <= i < |names| ==> names[i] in catalogue
    requires LiveFunctions(Functions(names, |catalogue|)).Read? && f in functions
    ensures var live := LiveFunctions(Functions(names, |catalogue|));
            f in CheckSchemaObjects(tables, functions, actual, live).missingFunctions <==>
            forall n :: n in catalogue ==> Low(n) != f
  {
    FunctionsReadWhole(names, catalogue);
  }

  /** The two flags say which half was read: the tables when the columns were, the
      functions when they came as a list with as many names as were declared. A
      half that was not read reports nothing, and nothing is reported that the code
      does not call. */
  lemma {:induction false} HalvesAreReadApart(tables: set<Name>, functions: set<Name>, actual: Option<Columns>,
                                              answer: FunctionAnswer)
    ensures var o := CheckSchemaObjects(tables, functions, actual, LiveFunctions(answer));
            && (o.tablesChecked <==> actual.Some?)
            && (o.functionsChecked <==> answer.Functions? && answer.total == |set n | n in answer.names :: Low(n)|)
            && o.missingTables <= tables && o.missingFunctions <= functions
            && (!o.tablesChecked ==> o.missingTables == {}) && (!o.functionsChecked ==> o.missingFunctions == {})
  {
    if answer.Functions? {
      assert LowAll(answer.names) == set n | n in answer.names :: Low(n);
    }
  }

  /** The database: its tables, and the columns of those that have any. */
  datatype Database = Database(tables: set<Name>, columns: set<Column>)

  ghost predicate GoodDatabase(db: Database) { forall x :: x in db.columns ==> x.table in db.tables }

  ghost predicate HasTable(db: Database, t: Name) { exists u :: u in db.tables && Low(u) == t }

  ghost predicate HasColumns(db: Database, t: Name) { exists x :: x in db.columns && Low(x.table) == t }

  /** Tables come from the column read. One the code calls is reported missing
      exactly when no column of the database is its and the answer does not list
      it with none. */
  lemma {:induction false} TableReportedWhen(tables: set<Name>, functions: set<Name>, actual: Columns, live: Names,
                                             db: Database, t: Name)
    requires Pairs(actual) == LowPairs(db.columns) && t in tables
    ensures t in CheckSchemaObjects(tables, functions, Some(actual), live).missingTables <==>
            !HasColumns(db, t) && !(t in actual && actual[t] == {})
  {
    if t in actual && actual[t] != {} {
      var c :| c in actual[t];
      assert Column(t, c) in Pairs(actual);
      var x :| x in db.columns && Column(Low(x.table), Low(x.column)) == Column(t, c);
    }
    if x :| x in db.columns && Low(x.table) == t {
      assert Column(Low(x.table), Low(x.column)) in LowPairs(db.columns);
    }
  }

  /** The database's answer lists the tables that have columns and no other. From
      such an answer the report is true of a table exactly when the table is not
      one the database has without columns. */
  lemma {:induction false} TableReportIsTrueWhen(tables: set<Name>, functions: set<Name>, actual: Columns, live: Names,
                                                 db: Database, t: Name)
    requires GoodDatabase(db) && Pairs(actual) == LowPairs(db.columns) && t in tables
    requires forall u :: u in actual ==> actual[u] != {}
    ensures var reported := t in CheckSchemaObjects(tables, functions, Some(actual), live).missingTables;
            (reported <==> !HasTable(db, t)) <==> !(HasTable(db, t) && !HasColumns(db, t))
  {
    TableReportedWhen(tables, functions, actual, live, db, t);
    if x :| x in db.columns && Low(x.table) == t {
      assert x.table in db.tables;
    }
  }

  /** Such a table, reported missing: a database of one table without columns,
      whose whole answer names none and counts none. */
  lemma {:induction false} ColumnlessTableIsReported(n: Name, live: Names)
    ensures var db := Database({n}, {});
            && GoodDatabase(db) && HasTable(db, Low(n))
            && |Pairs(Parsed([], 0))| == |db.columns| && Pairs(Parsed([], 0)) == LowPairs(db.columns)
            && CheckSchemaObjects({Low(n)}, {}, Some(Parsed([], 0)), live).missingTables == {Low(n)}
  {
    assert n in Database({n}, {}).tables;
    assert Parsed([], 0) == map[];
    assert Pairs(map[]) == {};
  }
}
