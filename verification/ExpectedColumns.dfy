/** The columns a directory of migrations leads one to expect: the fold of
    apps/api/core/schema_guard.py over the statements it reads in them. */
module ExpectedColumns {
  import opened Text
  import Sorting

  datatype Name = Name(text: string)

  function Low(n: Name): Name { Name(Lower(n.text)) }

  function LowAll(ns: seq<Name>): set<Name> { set i | 0 <= i < |ns| :: Low(ns[i]) }

  /** A name written with a schema before it, or with none (an empty one). */
  datatype Target = Target(schema: Name, bare: Name)

  const NONE := Name("")
  const PUBLIC := Name("public")

  predicate InPublic(schema: Name) { schema == NONE || Low(schema) == PUBLIC }

  /** One statement, as the patterns cut it: an ALTER TABLE with the columns it
      adds and drops, or the list of tables a DROP TABLE names. */
  datatype Statement =
    | Alter(schema: Name, table: Name, adds: seq<Name>, drops: seq<Name>)
    | DropTables(targets: seq<Target>)

  datatype File = File(name: string, statements: seq<Statement>)

  type Expected = map<Name, set<Name>>

  predicate Has(e: Expected, t: Name, c: Name) { t in e && c in e[t] }

  function TablesDropped(targets: seq<Target>): set<Name> {
    set i | 0 <= i < |targets| && InPublic(targets[i].schema) && targets[i].bare != NONE :: Low(targets[i].bare)
  }

  /** The statement leaves the column standing. */
  predicate Adds(s: Statement, t: Name, c: Name) {
    s.Alter? && InPublic(s.schema) && Low(s.table) == t && c in LowAll(s.adds) && c !in LowAll(s.drops)
  }

  /** The statement takes the column away, alone or with its table. */
  predicate Removes(s: Statement, t: Name, c: Name) {
    match s
    case Alter(schema, table, _, drops) => InPublic(schema) && Low(table) == t && c in LowAll(drops)
    case DropTables(targets) => t in TablesDropped(targets)
  }

  /** Written for the public schema: with no schema, or with that one in any case. */
  predicate ForPublic(schema: Name) { schema.text == "" || Lower(schema.text) == "public" }

  lemma {:induction false} PublicWhen(schema: Name)
    ensures InPublic(schema) <==> ForPublic(schema)
  {
    LowIs(schema, PUBLIC);
    assert schema == NONE <==> schema.text == "";
  }

  lemma {:induction false} LowIs(n: Name, m: Name)
    ensures Low(n) == m <==> Lower(n.text) == m.text
  {
  }

  /** Some name of the list is `c` once lower-cased. */
  predicate Spelt(ns: seq<Name>, c: string) { exists i :: 0 <= i < |ns| && Lower(ns[i].text) == c }

  lemma {:induction false} SpeltWhen(ns: seq<Name>, c: Name)
    ensures c in LowAll(ns) <==> Spelt(ns, c.text)
  {
    forall i | 0 <= i < |ns| ensures Low(ns[i]) == c <==> Lower(ns[i].text) == c.text {
      LowIs(ns[i], c);
    }
  }

  predicate NamesTable(target: Target, t: Name) {
    ForPublic(target.schema) && target.bare.text != "" && Lower(target.bare.text) == t.text
  }

  lemma {:induction false} NamesTableWhen(target: Target, t: Name)
    ensures NamesTable(target, t) <==> InPublic(target.schema) && target.bare != NONE && Low(target.bare) == t
  {
    PublicWhen(target.schema);
    LowIs(target.bare, t);
    assert target.bare == NONE <==> target.bare.text == "";
  }

  /** A statement adds a column when it is an ALTER of the table, for the public
      schema, that adds it in some spelling and drops it in none; it takes one away
      when it is such an ALTER that drops it, or a DROP that names its table. */
  lemma {:induction false} StatementsMean(s: Statement, t: Name, c: Name)
    ensures s.Alter? ==>
              var here := ForPublic(s.schema) && Lower(s.table.text) == t.text;
              && (Adds(s, t, c) <==> here && Spelt(s.adds, c.text) && !Spelt(s.drops, c.text))
              && (Removes(s, t, c) <==> here && Spelt(s.drops, c.text))
    ensures s.DropTables? ==>
              && !Adds(s, t, c)
              && (Removes(s, t, c) <==> exists i :: 0 <= i < |s.targets| && NamesTable(s.targets[i], t))
  {
    match s
    case Alter(schema, table, adds, drops) =>
      PublicWhen(schema);
      LowIs(table, t);
      SpeltWhen(adds, c);
      SpeltWhen(drops, c);
    case DropTables(targets) =>
      forall i | 0 <= i < |targets|
        ensures NamesTable(targets[i], t) <==>
                InPublic(targets[i].schema) && targets[i].bare != NONE && Low(targets[i].bare) == t
      {
        NamesTableWhen(targets[i], t);
      }
  }

  ghost predicate NoneEmpty(e: Expected) { forall t :: t in e ==> e[t] != {} }

  // ---- the fold ---------------------------------------------------------------------

  function AfterAdds(e: Expected, t: Name, cols: set<Name>): Expected {
    if cols == {} then e else e[t := (if t in e then e[t] else {}) + cols]
  }

  function AfterDrops(e: Expected, t: Name, cols: set<Name>): Expected {
    if cols == {} || t !in e then e
    else if e[t] - cols == {} then e - {t}
    else e[t := e[t] - cols]
  }

  function After(e: Expected, s: Statement): Expected {
    match s
    case DropTables(targets) => e - TablesDropped(targets)
    case Alter(schema, table, adds, drops) =>
      if !InPublic(schema) then e else AfterDrops(AfterAdds(e, Low(table), LowAll(adds)), Low(table), LowAll(drops))
  }

  function Fold(ss: seq<Statement>, n: nat): Expected
    requires n <= |ss|
  {
    if n == 0 then map[] else After(Fold(ss, n - 1), ss[n - 1])
  }

  lemma {:induction false} AfterMeans(e: Expected, s: Statement, t: Name, c: Name)
    ensures Has(After(e, s), t, c) <==> Adds(s, t, c) || (Has(e, t, c) && !Removes(s, t, c))
    ensures NoneEmpty(e) ==> NoneEmpty(After(e, s))
  {
    if s.Alter? && InPublic(s.schema) {
      var table, adds, drops := Low(s.table), LowAll(s.adds), LowAll(s.drops);
      AddsMean(e, table, adds, t, c);
      DropsMean(AfterAdds(e, table, adds), table, drops, t, c);
    }
  }

  lemma {:induction false} AddsMean(e: Expected, table: Name, cols: set<Name>, t: Name, c: Name)
    ensures Has(AfterAdds(e, table, cols), t, c) <==> (t == table && c in cols) || Has(e, t, c)
    ensures NoneEmpty(e) ==> NoneEmpty(AfterAdds(e, table, cols))
  {
  }

  lemma {:induction false} DropsMean(e: Expected, table: Name, cols: set<Name>, t: Name, c: Name)
    ensures Has(AfterDrops(e, table, cols), t, c) <==> Has(e, t, c) && !(t == table && c in cols)
    ensures NoneEmpty(e) ==> NoneEmpty(AfterDrops(e, table, cols))
  {
    if table in e && c in e[table] && e[table] - cols == {} {
      assert c !in e[table] - cols;
    }
  }

  /** The statement at `i` adds the column and none of those from `i + 1` up to
      `n` takes it away. */
  ghost predicate StandsFrom(ss: seq<Statement>, n: nat, i: nat, t: Name, c: Name) {
    i < n <= |ss| && Adds(ss[i], t, c) && forall j :: i < j < n ==> !Removes(ss[j], t, c)
  }

  /** The last word on a column wins: it is expected exactly when some statement
      adds it and nothing later, in file and statement order, drops it or its
      table. No table is left with nothing expected of it. */
  lemma {:induction false} LastEventWins(ss: seq<Statement>, n: nat, t: Name, c: Name)
    requires n <= |ss|
    ensures Has(Fold(ss, n), t, c) <==> exists i: nat :: StandsFrom(ss, n, i, t, c)
    ensures NoneEmpty(Fold(ss, n))
  {
    if n > 0 {
      var m := n - 1;
      LastEventWins(ss, m, t, c);
      AfterMeans(Fold(ss, m), ss[m], t, c);
      if Adds(ss[m], t, c) {
        assert StandsFrom(ss, n, m, t, c);
      } else if Has(Fold(ss, m), t, c) && !Removes(ss[m], t, c) {
        var i: nat :| StandsFrom(ss, m, i, t, c);
        assert StandsFrom(ss, n, i, t, c);
      }
      if i: nat :| StandsFrom(ss, n, i, t, c) {
        assert i < m ==> StandsFrom(ss, m, i, t, c) && !Removes(ss[m], t, c);
      }
    }
  }

  // ---- the files --------------------------------------------------------------------

  predicate StartsWith(s: string, p: string) { p <= s }

  predicate Occurs(word: string, s: string) {
    exists i :: 0 <= i <= |s| && StartsWith(s[i..], word)
  }

  /** The runner applies neither a file set aside with an underscore nor a rollback. */
  predicate Skipped(f: File) { StartsWith(f.name, "_") || Occurs("rollback", f.name) }

  lemma {:induction false} OccursWhen(word: string, s: string)
    ensures Occurs(word, s) <==> exists a, b :: s == a + word + b
  {
    if Occurs(word, s) {
      var i :| 0 <= i <= |s| && StartsWith(s[i..], word);
      var a, b := s[..i], s[i..][|word|..];
      assert s == a + word + b;
    }
    if a, b :| s == a + word + b {
      assert s[|a|..] == word + b;
      assert StartsWith(s[|a|..], word);
    }
  }

  /** Left out are the names that begin with an underscore and those with "rollback" in them. */
  lemma {:induction false} SkippedWhen(f: File)
    ensures Skipped(f) <==> (f.name != [] && f.name[0] == '_') || exists a, b :: f.name == a + "rollback" + b
  {
    OccursWhen("rollback", f.name);
    assert StartsWith(f.name, "_") <==> f.name != [] && f.name[0] == '_';
  }

  predicate FileOrder(a: File, b: File) { AtMost(a.name, b.name) }

  lemma {:induction false} FileOrderIsPreorder()
    ensures Sorting.Preorder(FileOrder)
  {
    forall x, y: File ensures FileOrder(x, y) || FileOrder(y, x) {
      AtMostIsTotal(x.name, y.name);
    }
    forall x, y, z: File | FileOrder(x, y) && FileOrder(y, z) ensures FileOrder(x, z) {
      AtMostTransitive(x.name, y.name, z.name);
    }
  }

  /** The statements of the first `n` files, rollbacks and set-aside files left out. */
  function Script(fs: seq<File>, n: nat): seq<Statement>
    requires n <= |fs|
  {
    if n == 0 then [] else Script(fs, n - 1) + if Skipped(fs[n - 1]) then [] else fs[n - 1].statements
  }

  function FoldAll(ss: seq<Statement>): Expected { Fold(ss, |ss|) }

  lemma {:induction false} FoldOfPrefix(a: seq<Statement>, b: seq<Statement>, n: nat)
    requires n <= |a|
    ensures Fold(a + b, n) == Fold(a, n)
  {
    if n > 0 {
      FoldOfPrefix(a, b, n - 1);
    }
  }

  lemma {:induction false} FoldOneMore(a: seq<Statement>, s: Statement)
    ensures FoldAll(a + [s]) == After(FoldAll(a), s)
  {
    FoldOfPrefix(a, [s], |a|);
    assert (a + [s])[|a|] == s;
  }

  ghost predicate LeavesAlone(ss: seq<Statement>, t: Name, c: Name) {
    forall j :: 0 <= j < |ss| ==> !Removes(ss[j], t, c)
  }

  /** What a stretch of statements does to a column, whatever came before it. */
  lemma {:induction false} FoldOver(a: seq<Statement>, b: seq<Statement>, n: nat, t: Name, c: Name)
    requires n <= |b|
    ensures Has(FoldAll(a + b[..n]), t, c) <==>
            (exists i: nat :: StandsFrom(b, n, i, t, c)) || (Has(FoldAll(a), t, c) && LeavesAlone(b[..n], t, c))
  {
    if n == 0 {
      assert a + b[..0] == a;
    } else {
      var m := n - 1;
      FoldOver(a, b, m, t, c);
      assert a + b[..n] == a + b[..m] + [b[m]];
      OneStatementMore(a + b[..m], b[m], t, c);
      StandsOneMore(b, n, t, c);
      assert b[..n] == b[..m] + [b[m]];
      LeavesOneMore(b[..m], b[m], t, c);
    }
  }

  lemma {:induction false} OneStatementMore(a: seq<Statement>, s: Statement, t: Name, c: Name)
    ensures Has(FoldAll(a + [s]), t, c) <==> Adds(s, t, c) || (Has(FoldAll(a), t, c) && !Removes(s, t, c))
  {
    FoldOneMore(a, s);
    AfterMeans(FoldAll(a), s, t, c);
  }

  lemma {:induction false} LeavesOneMore(a: seq<Statement>, s: Statement, t: Name, c: Name)
    ensures LeavesAlone(a + [s], t, c) <==> LeavesAlone(a, t, c) && !Removes(s, t, c)
  {
    var b := a + [s];
    assert b[|a|] == s && forall j :: 0 <= j < |a| ==> b[j] == a[j];
  }

  lemma {:induction false} StandsOneMore(b: seq<Statement>, n: nat, t: Name, c: Name)
    requires 0 < n <= |b|
    ensures (exists i: nat :: StandsFrom(b, n, i, t, c)) <==>
            || Adds(b[n - 1], t, c)
            || (!Removes(b[n - 1], t, c) && StandsAlready(b, n - 1, t, c))
  {
    var m := n - 1;
    if Adds(b[m], t, c) {
      assert StandsFrom(b, n, m, t, c);
    } else if !Removes(b[m], t, c) {
      if i: nat :| StandsFrom(b, m, i, t, c) {
        assert StandsFrom(b, n, i, t, c);
      }
    }
    if i: nat :| StandsFrom(b, n, i, t, c) {
      assert i < m ==> StandsFrom(b, m, i, t, c);
    }
  }

  ghost predicate StandsAlready(b: seq<Statement>, n: nat, t: Name, c: Name) {
    exists i: nat :: StandsFrom(b, n, i, t, c)
  }

  /** The file has the last word on the column: it is not left out, it adds the
      column after anything it takes away, and no later file that is not left out
      takes it away. */
  ghost predicate HasLastWord(fs: seq<File>, n: nat, k: nat, t: Name, c: Name) {
    && k < n <= |fs| && !Skipped(fs[k])
    && (exists i: nat :: StandsFrom(fs[k].statements, |fs[k].statements|, i, t, c))
    && forall m :: k < m < n ==> Skipped(fs[m]) || LeavesAlone(fs[m].statements, t, c)
  }

  /** Over the files: a column is expected exactly when some file has the last word on it. */
  lemma {:induction false} LastFileWins(fs: seq<File>, n: nat, t: Name, c: Name)
    requires n <= |fs|
    ensures Has(FoldAll(Script(fs, n)), t, c) <==> exists k: nat :: HasLastWord(fs, n, k, t, c)
  {
    if n > 0 {
      var m := n - 1;
      LastFileWins(fs, m, t, c);
      var before, ss := Script(fs, m), fs[m].statements;
      FoldOver(before, ss, |ss|, t, c);
      assert ss[..|ss|] == ss && before + [] == before;
      LastWordOneMore(fs, n, t, c);
      assert SomeLastWord(fs, m, t, c) <==> Has(FoldAll(before), t, c);
    }
  }

  ghost predicate SomeLastWord(fs: seq<File>, n: nat, t: Name, c: Name) {
    exists k: nat :: HasLastWord(fs, n, k, t, c)
  }

  lemma {:induction false} LastWordOneMore(fs: seq<File>, n: nat, t: Name, c: Name)
    requires 0 < n <= |fs|
    ensures var f := fs[n - 1];
            SomeLastWord(fs, n, t, c) <==>
            if Skipped(f) then SomeLastWord(fs, n - 1, t, c)
            else StandsAlready(f.statements, |f.statements|, t, c)
                 || (LeavesAlone(f.statements, t, c) && SomeLastWord(fs, n - 1, t, c))
  {
    var m, ss := n - 1, fs[n - 1].statements;
    if k: nat :| HasLastWord(fs, n, k, t, c) {
      assert k < m ==> HasLastWord(fs, m, k, t, c);
    }
    if !Skipped(fs[m]) && StandsAlready(ss, |ss|, t, c) {
      assert HasLastWord(fs, n, m, t, c);
    }
    if k: nat :| HasLastWord(fs, m, k, t, c) && (Skipped(fs[m]) || LeavesAlone(ss, t, c)) {
      assert HasLastWord(fs, n, k, t, c);
    }
  }

  method RemoveTables(e: Expected, gone: set<Name>) returns (r: Expected)
    ensures r == e - gone
  {
    r := e;
    var left := gone;
    while left != {}
      invariant left <= gone && r == e - (gone - left)
      decreases left
    {
      var t :| t in left;
      r := r - {t};
      left := left - {t};
    }
    assert gone - {} == gone;
  }

  method Read(e: Expected, s: Statement) returns (r: Expected)
    ensures r == After(e, s)
  {
    r := e;
    match s
    case DropTables(targets) =>
      r := RemoveTables(e, TablesDropped(targets));
    case Alter(schema, table, adds, drops) =>
      if InPublic(schema) {
        var t := Low(table);
        if |adds| > 0 {
          assert Low(adds[0]) in LowAll(adds);
          r := r[t := (if t in r then r[t] else {}) + LowAll(adds)];
        }
        var dropped := LowAll(drops);
        if dropped != {} && t in r {
          r := r[t := r[t] - dropped];
          if r[t] == {} {
            r := r - {t};
          }
        }
      }
  }

  /** The fold over the files of a directory in the order of their names. */
  ghost predicate FoldsDirectory(expected: Expected, directory: seq<File>) {
    exists files :: Sorting.StableOrder(files, directory, FileOrder) && expected == FoldAll(Script(files, |files|))
  }

  /** Every statement of every file the runner applies, files in the order of their names. */
  method ExpectedColumns(directory: seq<File>) returns (expected: Expected)
    ensures FoldsDirectory(expected, directory) && NoneEmpty(expected)
  {
    FileOrderIsPreorder();
    var files := Sorting.SortBy(directory, FileOrder);
    expected := map[];
    for k := 0 to |files|
      invariant expected == FoldAll(Script(files, k))
    {
      if Skipped(files[k]) {
        assert Script(files, k + 1) == Script(files, k);
        continue;
      }
      var ss := files[k].statements;
      ghost var before := Script(files, k);
      assert before + ss[..0] == before;
      for i := 0 to |ss|
        invariant expected == FoldAll(before + ss[..i])
      {
        FoldOneMore(before + ss[..i], ss[i]);
        assert before + ss[..i + 1] == (before + ss[..i]) + [ss[i]];
        expected := Read(expected, ss[i]);
      }
      assert ss[..|ss|] == ss;
    }
    LastEventWins(Script(files, |files|), |Script(files, |files|)|, NONE, NONE);
  }

  /** What is expected does not depend on the order the directory is listed in. */
  lemma {:induction false} ListingOrderIsIrrelevant(a: seq<File>, b: seq<File>, x: Expected, y: Expected)
    requires multiset(a) == multiset(b)
    requires forall f, g :: f in a && g in a && f.name == g.name ==> f == g
    requires FoldsDirectory(x, a) && FoldsDirectory(y, b)
    ensures x == y
  {
    var sa :| Sorting.StableOrder(sa, a, FileOrder) && x == FoldAll(Script(sa, |sa|));
    var sb :| Sorting.StableOrder(sb, b, FileOrder) && y == FoldAll(Script(sb, |sb|));
    OneOrder(a, b, sa, sb);
  }

  lemma {:induction false} OneOrder(a: seq<File>, b: seq<File>, sa: seq<File>, sb: seq<File>)
    requires multiset(a) == multiset(b)
    requires forall f, g :: f in a && g in a && f.name == g.name ==> f == g
    requires Sorting.StableOrder(sa, a, FileOrder) && Sorting.StableOrder(sb, b, FileOrder)
    ensures sa == sb
  {
    Sorting.SameElements(sa, a);
    forall x, y | x in sa && y in sa && FileOrder(x, y) && FileOrder(y, x) ensures x == y {
      AtMostIsTotal(x.name, y.name);
    }
    Sorting.SortedIsUnique(sa, sb, FileOrder);
  }
}
