/** What the statements promise: every error leaves the database alone, and every run keeps its tables sound. */
module RelationalLaws {
  import opened Prelude
  import opened Bytes
  import Floats
  import opened SqlLexer
  import opened SqlGrammar
  import opened Relational

  // ---- Atomicity ----

  /** A statement that fails changes nothing, and neither does a SELECT. */
  lemma FailuresChangeNothing(db: Db, source: Text, reals: Reals)
    requires DbOk(db)
    ensures ExecuteText(db, source, reals).r.Failure? ==> ExecuteText(db, source, reals).db == db
    ensures Parse(source, reals).Success? && Parse(source, reals).value.operation.Select? ==> ExecuteText(db, source, reals).db == db
  {
    hide Parse, InsertedRow, UpdateIn, SelectFrom, DefinedColumns, DbOk, WellFormed;
  }

  // ---- Soundness of the tables ----

  /** Distinct indices below `n`, `n` of them: none is missing. */
  lemma {:induction false} NoneMissing(ix: seq<nat>, n: nat, k: nat)
    requires |ix| == n && k < n && (forall j :: 0 <= j < |ix| ==> ix[j] < n)
    requires forall i, j :: 0 <= i < j < |ix| ==> ix[i] != ix[j]
    ensures k in ix
  {
    if k !in ix {
      var all := Below(n);
      var used := set j | 0 <= j < |ix| :: ix[j];
      Counted(ix);
      assert used <= all - {k};
      Smaller(used, all - {k});
    }
  }

  ghost function Below(n: nat): (r: set<nat>)
    ensures |r| == n && forall i: nat :: i in r <==> i < n
  {
    if n == 0 then {} else Below(n - 1) + {n - 1}
  }

  lemma {:induction false} Counted(ix: seq<nat>)
    requires forall i, j :: 0 <= i < j < |ix| ==> ix[i] != ix[j]
    ensures |set j | 0 <= j < |ix| :: ix[j]| == |ix|
  {
    var s := set j | 0 <= j < |ix| :: ix[j];
    if ix == [] {
      assert s == {};
    } else {
      var n := |ix| - 1;
      Counted(ix[..n]);
      assert s == (set j | 0 <= j < n :: ix[..n][j]) + {ix[n]};
    }
  }

  lemma {:induction false} Smaller<T>(a: set<T>, b: set<T>)
    requires a <= b
    ensures |a| <= |b|
  {
    if x :| x in a {
      Smaller(a - {x}, b - {x});
    }
  }

  /** An inserted row has, at every column, the value given for that column: no placeholder is left. */
  lemma InsertedCell(t: Table, s: Statement, k: nat) returns (j: nat)
    requires InsertedRow(t, s).Success? && k < |t.columns|
    ensures j < |s.columns| == |s.values| && ColumnIndex(t.columns, s.columns[j].name) == Some(k)
    ensures InsertedRow(t, s).value[k] == s.values[j].value && s.values[j].value.Type() == t.columns[k].ty
  {
    hide Assigned, Assignable;
    var ix := Resolve(t.columns, s.columns, s.values, {}).value;
    AssignableFacts(t.columns, ix, s.values);
    NoneMissing(ix, |t.columns|, k);
    j :| 0 <= j < |ix| && ix[j] == k;
    AssignedCell(seq(|t.columns|, _ => IntegerValue(0)), ix, s.values, k);
    ResolvedIndex(t.columns, s.columns, s.values, {}, j);
  }

  lemma AssignableFacts(cols: seq<Column>, ix: seq<nat>, vs: seq<Literal>)
    requires Assignable(cols, ix, vs)
    ensures |ix| == |vs| && (forall j :: 0 <= j < |ix| ==> ix[j] < |cols| && cols[ix[j]].ty == vs[j].value.Type())
    ensures forall i, j :: 0 <= i < j < |ix| ==> ix[i] != ix[j]
  {
  }

  lemma {:induction false} ResolvedIndex(cols: seq<Column>, ids: seq<Identifier>, vs: seq<Literal>, seen: set<nat>, j: nat)
    requires |ids| == |vs| && Resolve(cols, ids, vs, seen).Success? && j < |ids|
    ensures ColumnIndex(cols, ids[j].name) == Some(Resolve(cols, ids, vs, seen).value[j])
    decreases ids
  {
    hide ColumnIndex, Assignable;
    assert CheckColumn(cols, ids[0], vs[0], seen).value == FindColumn(cols, ids[0]).value;
    if j > 0 {
      ResolvedIndex(cols, ids[1..], vs[1..], seen + {FindColumn(cols, ids[0]).value}, j - 1);
    }
  }

  lemma InsertKeeps(t: Table, s: Statement)
    requires TableOk(t) && InsertedRow(t, s).Success?
    ensures TableOk(t.(rows := t.rows + [InsertedRow(t, s).value]))
  {
    hide InsertedRow, Distinct;
    var row := InsertedRow(t, s).value;
    forall k | 0 <= k < |t.columns| ensures row[k].Type() == t.columns[k].ty {
      var j := InsertedCell(t, s, k);
    }
    assert RowOk(t.columns, row);
  }

  lemma AssignedOk(cols: seq<Column>, row: Cells, ix: seq<nat>, vs: seq<Literal>)
    requires RowOk(cols, row) && Assignable(cols, ix, vs)
    ensures RowOk(cols, Assigned(row, ix, vs))
  {
    hide Assigned;
    forall k | 0 <= k < |cols| ensures Assigned(row, ix, vs)[k].Type() == cols[k].ty {
      AssignedCell(row, ix, vs, k);
      if k in ix {
        var j :| 0 <= j < |ix| && ix[j] == k;
      }
    }
  }

  lemma UpdateKeeps(t: Table, s: Statement)
    requires TableOk(t) && |s.columns| == |s.values| && s.condition.Some? && AllWide(t.rows, |t.columns|) && UpdateIn(t, s).Success?
    ensures TableOk(t.(rows := UpdateIn(t, s).value))
  {
    hide Assigned, Distinct, Assignable, Matches;
    var ix := Resolve(t.columns, s.columns, s.values, {}).value;
    var rows := UpdateIn(t, s).value;
    forall row | row in rows ensures RowOk(t.columns, row) {
      var k :| 0 <= k < |rows| && rows[k] == row;
      assert t.rows[k] in t.rows;
      AssignedOk(t.columns, t.rows[k], ix, s.values);
    }
  }

  /** One statement, whatever it is, keeps the database sound. */
  lemma StatementKeeps(db: Db, s: Statement)
    requires DbOk(db) && WellFormed(s)
    ensures DbOk(Execute(db, s).db)
  {
    hide InsertedRow, UpdateIn, SelectFrom, DefinedColumns, TableOk, RowOk;
    var name := s.table.name;
    if s.operation.Create? {
      if name !in db && DefinedColumns(s.definitions, {}).Success? {
        NewTableOk(DefinedColumns(s.definitions, {}).value);
      }
    } else if name in db {
      WideRows(db[name]);
      if s.operation.Insert? && InsertedRow(db[name], s).Success? {
        InsertKeeps(db[name], s);
      } else if s.operation.Update? && UpdateIn(db[name], s).Success? {
        UpdateKeeps(db[name], s);
      }
    }
  }

  lemma NewTableOk(cols: seq<Column>)
    requires Distinct(cols)
    ensures TableOk(Table(cols, []))
  {
  }

  lemma WideRows(t: Table)
    requires TableOk(t)
    ensures AllWide(t.rows, |t.columns|)
  {
  }

  // ---- When statements succeed ----

  /** No name twice, and none of those already taken. */
  ghost predicate NamesFree(ds: seq<ColumnDefinition>, names: set<Text>) {
    && (forall i :: 0 <= i < |ds| ==> ds[i].id.name !in names)
    && (forall i, j :: 0 <= i < j < |ds| ==> ds[i].id.name != ds[j].id.name)
  }

  /** CREATE succeeds exactly when no column is named twice; the table then has the columns as written. */
  lemma {:induction false} DefinedExactly(ds: seq<ColumnDefinition>, names: set<Text>)
    ensures DefinedColumns(ds, names).Success? <==> NamesFree(ds, names)
    ensures DefinedColumns(ds, names).Success? ==>
              forall k :: 0 <= k < |ds| ==> DefinedColumns(ds, names).value[k] == Column(ds[k].id.name, ds[k].ty)
    decreases ds
  {
    hide Distinct;
    if ds != [] && ds[0].id.name !in names {
      var names' := names + {ds[0].id.name};
      DefinedExactly(ds[1..], names');
      if NamesFree(ds, names) {
        assert NamesFree(ds[1..], names');
      }
      if NamesFree(ds[1..], names') {
        forall i, j | 0 <= i < j < |ds| ensures ds[i].id.name != ds[j].id.name {
          assert ds[j] == ds[1..][j - 1];
          if i > 0 {
            assert ds[i] == ds[1..][i - 1];
          }
        }
        forall i | 0 <= i < |ds| ensures ds[i].id.name !in names {
          if i > 0 {
            assert ds[i] == ds[1..][i - 1];
          }
        }
      }
    }
  }

  /** Every named column exists, outside `seen` and with the type of its value, and none is named twice. */
  ghost predicate Resolvable(cols: seq<Column>, ids: seq<Identifier>, vs: seq<Literal>, seen: set<nat>)
    requires |ids| == |vs|
  {
    && (forall j :: 0 <= j < |ids| ==>
          var i := ColumnIndex(cols, ids[j].name);
          i.Some? && i.value !in seen && cols[i.value].ty == vs[j].value.Type())
    && (forall j, k :: 0 <= j < k < |ids| ==> ColumnIndex(cols, ids[j].name) != ColumnIndex(cols, ids[k].name))
  }

  lemma {:induction false} ResolvesExactly(cols: seq<Column>, ids: seq<Identifier>, vs: seq<Literal>, seen: set<nat>)
    requires |ids| == |vs|
    ensures Resolve(cols, ids, vs, seen).Success? <==> Resolvable(cols, ids, vs, seen)
    decreases ids
  {
    hide ColumnIndex, Assignable, Avoids;
    if ids != [] && CheckColumn(cols, ids[0], vs[0], seen).Success? {
      var i := CheckColumn(cols, ids[0], vs[0], seen).value;
      ResolvesExactly(cols, ids[1..], vs[1..], seen + {i});
      if Resolvable(cols, ids, vs, seen) {
        assert Resolvable(cols, ids[1..], vs[1..], seen + {i});
      }
      if Resolvable(cols, ids[1..], vs[1..], seen + {i}) {
        forall j | 0 <= j < |ids|
          ensures var x := ColumnIndex(cols, ids[j].name); x.Some? && x.value !in seen && cols[x.value].ty == vs[j].value.Type()
        {
          if j > 0 {
            assert ids[j] == ids[1..][j - 1] && vs[j] == vs[1..][j - 1];
          }
        }
        forall j, k | 0 <= j < k < |ids| ensures ColumnIndex(cols, ids[j].name) != ColumnIndex(cols, ids[k].name) {
          assert ids[k] == ids[1..][k - 1];
          if j > 0 {
            assert ids[j] == ids[1..][j - 1];
          }
        }
      }
    }
  }

  /** INSERT succeeds exactly when it gives every column of the table one value, of the column's type. */
  lemma InsertsExactly(t: Table, s: Statement)
    ensures InsertedRow(t, s).Success?
            <==> |s.columns| == |s.values| == |t.columns| && Resolvable(t.columns, s.columns, s.values, {})
  {
    hide Assigned, Resolve, Resolvable;
    if |s.columns| == |s.values| {
      ResolvesExactly(t.columns, s.columns, s.values, {});
    }
  }

  // ---- Whole sessions ----

  /** The database after a session of statement texts, with every answer. */
  function Session(db: Db, texts: seq<Text>, reals: Reals): (r: (Db, seq<Result<QueryResult, SqlError>>))
    requires DbOk(db)
    ensures |r.1| == |texts|
    decreases texts
  {
    if texts == [] then (db, [])
    else
      var e := ExecuteText(db, texts[0], reals);
      TextKeeps(db, texts[0], reals);
      var rest := Session(e.db, texts[1..], reals);
      (rest.0, [e.r] + rest.1)
  }

  lemma TextKeeps(db: Db, source: Text, reals: Reals)
    requires DbOk(db)
    ensures DbOk(ExecuteText(db, source, reals).db)
  {
    hide Parse, Execute, DbOk, WellFormed;
    if Parse(source, reals).Success? {
      StatementKeeps(db, Parse(source, reals).value);
    }
  }

  /** Over every session, starting from the empty database, the tables stay sound. */
  lemma {:induction false} SessionsStaySound(db: Db, texts: seq<Text>, reals: Reals)
    requires DbOk(db)
    ensures DbOk(Session(db, texts, reals).0)
    decreases texts
  {
    hide DbOk, ExecuteText;
    if texts != [] {
      TextKeeps(db, texts[0], reals);
      SessionsStaySound(ExecuteText(db, texts[0], reals).db, texts[1..], reals);
    }
  }

  /** A session can be cut anywhere. */
  lemma {:induction false} SessionAppend(db: Db, a: seq<Text>, b: seq<Text>, reals: Reals)
    requires DbOk(db)
    ensures DbOk(Session(db, a, reals).0)
    ensures Session(db, a + b, reals).0 == Session(Session(db, a, reals).0, b, reals).0
    ensures Session(db, a + b, reals).1 == Session(db, a, reals).1 + Session(Session(db, a, reals).0, b, reals).1
    decreases a
  {
    hide DbOk, ExecuteText;
    SessionsStaySound(db, a, reals);
    if a == [] {
      assert a + b == b;
    } else {
      assert (a + b)[1..] == a[1..] + b;
      TextKeeps(db, a[0], reals);
      SessionAppend(ExecuteText(db, a[0], reals).db, a[1..], b, reals);
    }
  }

  lemma EmptySession(db: Db, reals: Reals)
    requires DbOk(db)
    ensures Session(db, [], reals) == (db, [])
  {
  }

  lemma OneSession(db: Db, text: Text, reals: Reals)
    requires DbOk(db)
    ensures var e := ExecuteText(db, text, reals); Session(db, [text], reals) == (e.db, [e.r])
  {
    hide ExecuteText, DbOk;
    TextKeeps(db, text, reals);
    var e := ExecuteText(db, text, reals);
    var none: seq<Result<QueryResult, SqlError>> := [];
    var one: seq<Text> := [text];
    assert one[1..] == [];
    assert [e.r] + none == [e.r];
  }

  // ---- SELECT ----

  /** The rows that match, by their position in the table: each once, in order. */
  function Matching(rows: seq<Cells>, w: Where, from: nat): (m: seq<nat>)
    requires from <= |rows|
    ensures forall i, j :: 0 <= i < j < |m| ==> m[i] < m[j]
    ensures forall i :: i in m <==> from <= i < |rows| && Matches(rows[i], w)
    decreases |rows| - from
  {
    if from == |rows| then []
    else
      var rest := Matching(rows, w, from + 1);
      assert forall j :: 0 <= j < |rest| ==> rest[j] in rest;
      if Matches(rows[from], w) then [from] + rest else rest
  }

  /** The chosen rows, cut down to the selected columns. */
  function Projected(rows: seq<Cells>, chosen: seq<nat>, sel: seq<nat>, width: nat): seq<Cells>
    requires AllWide(rows, width) && (forall i :: i in sel ==> i < width) && forall i :: i in chosen ==> i < |rows|
    decreases chosen
  {
    if chosen == [] then []
    else
      assert chosen[0] in chosen && rows[chosen[0]] in rows && forall i :: i in chosen[1..] ==> i in chosen;
      [Project(rows[chosen[0]], sel)] + Projected(rows, chosen[1..], sel, width)
  }

  /** A SELECT returns exactly the matching rows, in table order, cut down to the selected columns. */
  lemma {:induction false} SelectedExactly(rows: seq<Cells>, sel: seq<nat>, w: Where, width: nat, from: nat)
    requires AllWide(rows, width) && (forall i :: i in sel ==> i < width) && from <= |rows|
    ensures AllWide(rows[from..], width)
    ensures SelectedRows(rows[from..], sel, w, width) == Projected(rows, Matching(rows, w, from), sel, width)
    decreases |rows| - from
  {
    hide Matches, Project;
    if from < |rows| {
      assert rows[from..][0] == rows[from] && rows[from..][1..] == rows[from + 1..];
      assert rows[from] in rows;
      SelectedExactly(rows, sel, w, width, from + 1);
      var rest := Matching(rows, w, from + 1);
      assert ([from] + rest)[1..] == rest;
    }
  }

  // ---- UPDATE ----

  lemma {:induction false} AssignedTwice(row: Cells, ix: seq<nat>, vs: seq<Literal>)
    requires |ix| == |vs| && (forall j :: 0 <= j < |ix| ==> ix[j] < |row|)
    requires forall i, j :: 0 <= i < j < |ix| ==> ix[i] != ix[j]
    ensures Assigned(Assigned(row, ix, vs), ix, vs) == Assigned(row, ix, vs)
  {
    hide Assigned;
    var once := Assigned(row, ix, vs);
    var twice := Assigned(once, ix, vs);
    forall k | 0 <= k < |row| ensures twice[k] == once[k] {
      AssignedCell(row, ix, vs, k);
      AssignedCell(once, ix, vs, k);
      if k in ix {
        var j :| 0 <= j < |ix| && ix[j] == k;
      }
    }
  }

  /** Even when the condition column is among those set, doing it again does nothing. */
  lemma UpdatedTwice(row: Cells, ix: seq<nat>, vs: seq<Literal>, w: Where)
    requires |ix| == |vs| && (forall j :: 0 <= j < |ix| ==> ix[j] < |row|)
    requires forall i, j :: 0 <= i < j < |ix| ==> ix[i] != ix[j]
    ensures UpdatedRow(UpdatedRow(row, ix, vs, w), ix, vs, w) == UpdatedRow(row, ix, vs, w)
  {
    hide Assigned, Matches;
    AssignedTwice(row, ix, vs);
  }

  lemma RowsUpdatedTwice(rows: seq<Cells>, ix: seq<nat>, vs: seq<Literal>, w: Where, width: nat)
    requires AllWide(rows, width) && |ix| == |vs| && (forall j :: 0 <= j < |ix| ==> ix[j] < width)
    requires forall i, j :: 0 <= i < j < |ix| ==> ix[i] != ix[j]
    ensures UpdatedRows(UpdatedRows(rows, ix, vs, w, width), ix, vs, w, width) == UpdatedRows(rows, ix, vs, w, width)
  {
    hide UpdatedRow;
    var once := UpdatedRows(rows, ix, vs, w, width);
    var twice := UpdatedRows(once, ix, vs, w, width);
    forall k | 0 <= k < |rows| ensures twice[k] == once[k] {
      assert rows[k] in rows;
      UpdatedTwice(rows[k], ix, vs, w);
    }
  }

  /** Running the same UPDATE twice is the same as running it once. */
  lemma UpdateIsIdempotent(db: Db, s: Statement)
    requires DbOk(db) && WellFormed(s) && s.operation.Update?
    ensures DbOk(Execute(db, s).db) && Execute(Execute(db, s).db, s) == Execute(db, s)
  {
    hide UpdatedRows, Assignable, WellFormed;
    assert |s.columns| == |s.values| && s.condition.Some? by { UpdateFacts(s); }
    StatementKeeps(db, s);
    var name := s.table.name;
    if name in db {
      var t := db[name];
      WideRows(t);
      if UpdateIn(t, s).Success? {
        var ix := Resolve(t.columns, s.columns, s.values, {}).value;
        AssignableFacts(t.columns, ix, s.values);
        var w := Some((Filter(t, s.condition.value).value, s.condition.value.literal.value));
        RowsUpdatedTwice(t.rows, ix, s.values, w, |t.columns|);
      }
    }
  }

  lemma UpdateFacts(s: Statement)
    requires WellFormed(s) && s.operation.Update?
    ensures |s.columns| == |s.values| && s.condition.Some?
  {
  }
}
