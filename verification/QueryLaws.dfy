/**
  What each statement means for the cells of a table, in terms of column names, row numbers and equality of
  values written out by type.
 */
module QueryLaws {
  import opened Prelude
  import opened Bytes
  import Floats
  import Arithmetic
  import opened SqlLexer
  import opened SqlGrammar
  import opened SqlPrinting
  import opened SqlRoundTrip
  import opened Relational
  import opened RelationalLaws

  // ---- Equality and columns ----

  /** INTEGER by value, TEXT by bytes, REAL by pattern except that both zeros are equal. */
  predicate SameCell(a: SqlValue, b: SqlValue) {
    || (a.IntegerValue? && b.IntegerValue? && a.n == b.n)
    || (a.TextValue? && b.TextValue? && |a.t| == |b.t| && forall i :: 0 <= i < |a.t| ==> a.t[i] == b.t[i])
    || (a.RealValue? && b.RealValue? && (a.x == b.x || (Arithmetic.ZeroBits(a.x) && Arithmetic.ZeroBits(b.x))))
  }

  lemma SameByType(a: SqlValue, b: SqlValue)
    ensures SameValue(a, b) <==> SameCell(a, b)
  {
    if a.RealValue? && b.RealValue? {
      Arithmetic.FiniteIs(a.x);
      Arithmetic.FiniteIs(b.x);
      Arithmetic.ComparedByBits(a.x, b.x);
    } else if a.TextValue? && b.TextValue? && SameCell(a, b) {
      assert a.t == b.t;
    }
  }

  /** Column `k` of the table has this name. */
  predicate Named(t: Table, k: nat, name: Text) {
    k < |t.columns| && t.columns[k].name == name
  }

  predicate HasColumn(t: Table, name: Text) {
    exists k :: 0 <= k < |t.columns| && t.columns[k].name == name
  }

  predicate IsOf(v: SqlValue, ty: SqlType) {
    (ty == IntegerType && v.IntegerValue?) || (ty == RealType && v.RealValue?) || (ty == TextType && v.TextValue?)
  }

  predicate HasTyped(t: Table, name: Text, v: SqlValue) {
    exists k :: 0 <= k < |t.columns| && t.columns[k].name == name && IsOf(v, t.columns[k].ty)
  }

  lemma OnlyOne(t: Table, j: nat, k: nat, name: Text)
    requires Distinct(t.columns) && Named(t, j, name) && Named(t, k, name)
    ensures j == k
  {
  }

  lemma FoundExactly(t: Table, name: Text)
    requires Distinct(t.columns)
    ensures ColumnIndex(t.columns, name).Some? <==> HasColumn(t, name)
    ensures ColumnIndex(t.columns, name).Some? ==> forall k :: Named(t, k, name) <==> k == ColumnIndex(t.columns, name).value
    ensures forall v: SqlValue :: HasTyped(t, name, v) <==>
              ColumnIndex(t.columns, name).Some? && t.columns[ColumnIndex(t.columns, name).value].ty == v.Type()
  {
    hide ColumnIndex;
    var r := ColumnIndex(t.columns, name);
    assert forall v: SqlValue, ty: SqlType :: IsOf(v, ty) <==> ty == v.Type();
    if r.Some? {
      forall k | Named(t, k, name) ensures k == r.value {
        OnlyOne(t, k, r.value, name);
      }
    } else {
      forall k | 0 <= k < |t.columns| ensures t.columns[k].name != name {
        assert t.columns[k] in t.columns;
      }
    }
  }

  // ---- The condition ----

  /** The condition names a column whose type its literal has. */
  predicate ConditionFits(t: Table, c: Condition) {
    HasTyped(t, c.column.name, c.literal.value)
  }

  /** Row `r` has the literal's value in the column the condition names. */
  predicate Hit(t: Table, c: Condition, r: nat)
    requires r < |t.rows|
  {
    exists k :: 0 <= k < |t.columns| && k < |t.rows[r]| && t.columns[k].name == c.column.name && SameCell(t.rows[r][k], c.literal.value)
  }

  lemma FilterExactly(t: Table, c: Condition)
    requires TableOk(t)
    ensures Filter(t, c).Success? <==> ConditionFits(t, c)
    ensures Filter(t, c).Success? ==> Named(t, Filter(t, c).value, c.column.name)
  {
    hide ColumnIndex;
    FoundExactly(t, c.column.name);
  }

  lemma MatchesExactly(t: Table, c: Condition, r: nat)
    requires TableOk(t) && r < |t.rows| && Filter(t, c).Success?
    ensures Matches(t.rows[r], Some((Filter(t, c).value, c.literal.value))) <==> Hit(t, c, r)
  {
    hide ColumnIndex, SameValue, SameCell, Filter;
    FilterExactly(t, c);
    var k := Filter(t, c).value;
    WidthOf(t, r);
    SameByType(t.rows[r][k], c.literal.value);
    if Hit(t, c, r) {
      var j :| 0 <= j < |t.columns| && j < |t.rows[r]| && t.columns[j].name == c.column.name && SameCell(t.rows[r][j], c.literal.value);
      OnlyOne(t, j, k, c.column.name);
    }
  }

  lemma WidthOf(t: Table, r: nat)
    requires TableOk(t) && r < |t.rows|
    ensures |t.rows[r]| == |t.columns| && Distinct(t.columns)
  {
    assert t.rows[r] in t.rows;
  }

  // ---- INSERT and UPDATE: the columns that are set ----

  /** Every named column exists with the type of its value, and none is named twice. */
  predicate Settable(t: Table, s: Statement) {
    && |s.columns| == |s.values|
    && (forall j :: 0 <= j < |s.columns| ==> HasTyped(t, s.columns[j].name, s.values[j].value))
    && (forall i, j :: 0 <= i < j < |s.columns| ==> s.columns[i].name != s.columns[j].name)
  }

  lemma {:induction false} ResolvedNames(cols: seq<Column>, ids: seq<Identifier>, vs: seq<Literal>, seen: set<nat>)
    requires |ids| == |vs| && Resolve(cols, ids, vs, seen).Success?
    ensures forall j :: 0 <= j < |ids| ==> Resolve(cols, ids, vs, seen).value[j] < |cols|
    ensures forall j :: 0 <= j < |ids| ==> cols[Resolve(cols, ids, vs, seen).value[j]].name == ids[j].name
    decreases ids
  {
    hide CheckColumn, Assignable, Avoids;
    if ids != [] {
      var i := CheckColumn(cols, ids[0], vs[0], seen).value;
      ResolvedNames(cols, ids[1..], vs[1..], seen + {i});
      var rest := Resolve(cols, ids[1..], vs[1..], seen + {i}).value;
      forall j | 0 <= j < |ids| ensures ([i] + rest)[j] < |cols| && cols[([i] + rest)[j]].name == ids[j].name {
        if j > 0 {
          assert ids[j] == ids[1..][j - 1] && ([i] + rest)[j] == rest[j - 1];
        }
      }
    }
  }

  lemma ResolvedExactly(t: Table, s: Statement)
    requires TableOk(t) && |s.columns| == |s.values|
    ensures Resolve(t.columns, s.columns, s.values, {}).Success? <==> Settable(t, s)
  {
    hide Resolve, ColumnIndex, HasTyped, TableOk;
    ResolvesExactly(t.columns, s.columns, s.values, {});
    assert Distinct(t.columns) by { ColumnsDistinct(t); }
    forall j | 0 <= j < |s.columns|
      ensures HasTyped(t, s.columns[j].name, s.values[j].value)
         <==> ColumnIndex(t.columns, s.columns[j].name).Some?
              && t.columns[ColumnIndex(t.columns, s.columns[j].name).value].ty == s.values[j].value.Type()
    {
      FoundExactly(t, s.columns[j].name);
    }
  }

  lemma ColumnsDistinct(t: Table)
    requires TableOk(t)
    ensures Distinct(t.columns)
  {
  }

  /** The cell of column `c` after values have been put into the named columns of a row that had `old`. */
  predicate CellSet(t: Table, s: Statement, c: nat, was: SqlValue, now: SqlValue)
    requires |s.columns| == |s.values| && c < |t.columns|
  {
    && (forall j :: 0 <= j < |s.columns| && s.columns[j].name == t.columns[c].name ==> now == s.values[j].value)
    && ((forall j :: 0 <= j < |s.columns| ==> s.columns[j].name != t.columns[c].name) ==> now == was)
  }

  lemma AssignedByName(t: Table, s: Statement, row: Cells, c: nat)
    requires TableOk(t) && |s.columns| == |s.values| && Resolve(t.columns, s.columns, s.values, {}).Success?
    requires |row| == |t.columns| && c < |row|
    ensures var ix := Resolve(t.columns, s.columns, s.values, {}).value;
            && (forall j :: 0 <= j < |ix| ==> ix[j] < |row|)
            && CellSet(t, s, c, row[c], Assigned(row, ix, s.values)[c])
  {
    hide Resolve, Assigned, TableOk;
    ColumnsDistinct(t);
    var ix := Resolve(t.columns, s.columns, s.values, {}).value;
    ResolvedNames(t.columns, s.columns, s.values, {});
    AssignedCell(row, ix, s.values, c);
    forall j | 0 <= j < |s.columns| && s.columns[j].name == t.columns[c].name ensures ix[j] == c {
      OnlyOne(t, ix[j], c, t.columns[c].name);
    }
  }

  // ---- The laws ----

  /** CREATE: a new table with the columns as they are written, exactly if its name is free and no column is named twice. */
  lemma CreateLaw(db: Db, s: Statement)
    requires DbOk(db) && WellFormed(s) && s.operation.Create?
    ensures Execute(db, s).r.Success? <==>
            s.table.name !in db && forall i, j :: 0 <= i < j < |s.definitions| ==> s.definitions[i].id.name != s.definitions[j].id.name
    ensures Execute(db, s).r.Success? ==>
              var db' := Execute(db, s).db;
              && Execute(db, s).r == Success(QueryResult([], [], []))
              && db'.Keys == db.Keys + {s.table.name} && (forall n :: n in db ==> db'[n] == db[n])
              && db'[s.table.name].rows == [] && |db'[s.table.name].columns| == |s.definitions|
              && forall k :: 0 <= k < |s.definitions| ==>
                   db'[s.table.name].columns[k] == Column(s.definitions[k].id.name, s.definitions[k].ty)
    ensures s.table.name in db ==> Execute(db, s).r == Failure(SqlError(s.table.position, TableExists))
  {
    hide DefinedColumns, DbOk, WellFormed;
    DefinedExactly(s.definitions, {});
  }

  /** INSERT: one more row, at the end, exactly if every column gets one value of its type. */
  lemma InsertLaw(db: Db, s: Statement)
    requires DbOk(db) && WellFormed(s) && s.operation.Insert?
    ensures Execute(db, s).r.Success? <==>
            s.table.name in db && Settable(db[s.table.name], s) && |s.columns| == |db[s.table.name].columns|
    ensures Execute(db, s).r.Success? ==>
              var db', t := Execute(db, s).db, db[s.table.name];
              && Execute(db, s).r == Success(QueryResult([], [], []))
              && db'.Keys == db.Keys && (forall n :: n in db && n != s.table.name ==> db'[n] == db[n])
              && db'[s.table.name].columns == t.columns && |db'[s.table.name].rows| == |t.rows| + 1
              && db'[s.table.name].rows[..|t.rows|] == t.rows
              && var row := db'[s.table.name].rows[|t.rows|];
                 && |row| == |t.columns|
                 && forall c, j :: 0 <= c < |t.columns| && 0 <= j < |s.columns| && s.columns[j].name == t.columns[c].name ==> row[c] == s.values[j].value
  {
    hide Resolve, Assigned, TableOk, WellFormed, Settable, Resolvable;
    if s.table.name in db {
      var t := db[s.table.name];
      if |s.columns| == |s.values| {
        ResolvedExactly(t, s);
      } else {
        NotSettable(t, s);
      }
      if Execute(db, s).r.Success? {
        var start := seq(|t.columns|, _ => IntegerValue(0));
        forall c | 0 <= c < |t.columns| ensures CellSet(t, s, c, start[c], InsertedRow(t, s).value[c]) {
          AssignedByName(t, s, start, c);
        }
      }
    }
  }

  lemma NotSettable(t: Table, s: Statement)
    requires |s.columns| != |s.values|
    ensures !Settable(t, s)
  {
  }

  /**
    UPDATE: in the rows whose condition column equals the literal, the named columns get their values. All
    other cells, rows and tables stay as they are, and so do the number and the order of the rows.
   */
  lemma UpdateLaw(db: Db, s: Statement)
    requires DbOk(db) && WellFormed(s) && s.operation.Update?
    ensures s.condition.Some? && |s.columns| == |s.values|
    ensures Execute(db, s).r.Success? <==>
            s.table.name in db && Settable(db[s.table.name], s) && ConditionFits(db[s.table.name], s.condition.value)
    ensures Execute(db, s).r.Success? ==>
              var db', t := Execute(db, s).db, db[s.table.name];
              && Execute(db, s).r == Success(QueryResult([], [], []))
              && db'.Keys == db.Keys && (forall n :: n in db && n != s.table.name ==> db'[n] == db[n])
              && var t' := db'[s.table.name];
                 && t'.columns == t.columns && |t'.rows| == |t.rows|
                 && (forall r :: 0 <= r < |t.rows| ==> |t'.rows[r]| == |t.rows[r]| == |t.columns|)
                 && forall r, c :: 0 <= r < |t.rows| && 0 <= c < |t.columns| ==>
                      if Hit(t, s.condition.value, r) then CellSet(t, s, c, t.rows[r][c], t'.rows[r][c]) else t'.rows[r][c] == t.rows[r][c]
  {
    hide Resolve, Assigned, TableOk, Settable, Hit, ConditionFits, Filter, Matches, CellSet, Assignable;
    assert s.condition.Some? && |s.columns| == |s.values|;
    if s.table.name in db {
      var t := db[s.table.name];
      WideRows(t);
      ResolvedExactly(t, s);
      FilterExactly(t, s.condition.value);
      if Execute(db, s).r.Success? {
        var ix := Resolve(t.columns, s.columns, s.values, {}).value;
        AssignableFacts(t.columns, ix, s.values);
        forall r | 0 <= r < |t.rows| ensures |t.rows[r]| == |t.columns| {
          WidthOf(t, r);
        }
        forall r, c | 0 <= r < |t.rows| && 0 <= c < |t.columns|
          ensures var now := UpdateIn(t, s).value[r][c];
                  if Hit(t, s.condition.value, r) then CellSet(t, s, c, t.rows[r][c], now) else now == t.rows[r][c]
        {
          MatchesExactly(t, s.condition.value, r);
          AssignedByName(t, s, t.rows[r], c);
        }
      }
    }
  }

  // ---- SELECT ----

  /** Column `j` of the result is column `c` of the table. */
  predicate Selects(t: Table, s: Statement, j: nat, c: nat) {
    c < |t.columns| && if s.all then j == c else j < |s.columns| && t.columns[c].name == s.columns[j].name
  }

  function Width(t: Table, s: Statement): nat {
    if s.all then |t.columns| else |s.columns|
  }

  /** The rows the condition picks, all of them without one: each once and in table order. */
  ghost predicate Chosen(t: Table, s: Statement, chosen: seq<nat>) {
    && (forall i, j :: 0 <= i < j < |chosen| ==> chosen[i] < chosen[j])
    && (forall i :: 0 <= i < |chosen| ==> chosen[i] < |t.rows|)
    && (forall r :: 0 <= r < |t.rows| ==> (r in chosen <==> s.condition.None? || Hit(t, s.condition.value, r)))
  }

  /** The rows of the result are the chosen ones, cut down to the selected columns. */
  ghost predicate Shown(t: Table, s: Statement, chosen: seq<nat>, rows: seq<Cells>) {
    && |rows| == |chosen|
    && (forall i :: 0 <= i < |rows| ==> |rows[i]| == Width(t, s))
    && (forall i, j, c: nat :: 0 <= i < |rows| && 0 <= j < Width(t, s) && Selects(t, s, j, c) ==>
          chosen[i] < |t.rows| && c < |t.rows[chosen[i]]| && rows[i][j] == t.rows[chosen[i]][c])
  }

  lemma {:induction false} ProjectedRows(rows: seq<Cells>, chosen: seq<nat>, sel: seq<nat>, width: nat)
    requires AllWide(rows, width) && (forall i :: i in sel ==> i < width) && forall i :: i in chosen ==> i < |rows|
    ensures var p := Projected(rows, chosen, sel, width);
            && |p| == |chosen|
            && forall i :: 0 <= i < |p| ==> |p[i]| == |sel| && chosen[i] < |rows|
    ensures forall i, j :: 0 <= i < |chosen| && 0 <= j < |sel| ==>
              chosen[i] < |rows| && sel[j] < |rows[chosen[i]]| && Projected(rows, chosen, sel, width)[i][j] == rows[chosen[i]][sel[j]]
    decreases chosen
  {
    if chosen != [] {
      assert chosen[0] in chosen && rows[chosen[0]] in rows && forall i :: i in chosen[1..] ==> i in chosen;
      ProjectedRows(rows, chosen[1..], sel, width);
      assert forall j :: 0 <= j < |sel| ==> sel[j] in sel;
      forall i, j | 0 <= i < |chosen| && 0 <= j < |sel|
        ensures chosen[i] < |rows| && sel[j] < |rows[chosen[i]]| && Projected(rows, chosen, sel, width)[i][j] == rows[chosen[i]][sel[j]]
      {
        if i > 0 {
          assert chosen[i] == chosen[1..][i - 1];
          assert Projected(rows, chosen, sel, width)[i] == Projected(rows, chosen[1..], sel, width)[i - 1];
        }
      }
    }
  }

  lemma {:induction false} FindsAll(t: Table, ids: seq<Identifier>)
    requires Distinct(t.columns)
    ensures FindColumns(t.columns, ids).Success? <==> forall j :: 0 <= j < |ids| ==> HasColumn(t, ids[j].name)
    decreases ids
  {
    hide ColumnIndex, HasColumn, Distinct;
    if ids != [] {
      FoundExactly(t, ids[0].name);
      FindsAll(t, ids[1..]);
      if HasColumn(t, ids[0].name) && forall j :: 0 <= j < |ids[1..]| ==> HasColumn(t, ids[1..][j].name) {
        forall j | 0 <= j < |ids| ensures HasColumn(t, ids[j].name) {
          assert j > 0 ==> ids[j] == ids[1..][j - 1];
        }
      }
    }
  }

  /** The columns found are those selected. */
  lemma SelectionExactly(t: Table, s: Statement)
    requires TableOk(t)
    ensures Selection(t, s).Success? <==> s.all || forall j :: 0 <= j < |s.columns| ==> HasColumn(t, s.columns[j].name)
    ensures Selection(t, s).Success? ==>
              && |Selection(t, s).value| == Width(t, s)
              && forall j, c: nat :: 0 <= j < Width(t, s) && Selects(t, s, j, c) ==> Selection(t, s).value[j] == c
  {
    hide FindColumns, HasColumn;
    if !s.all {
      FindsAll(t, s.columns);
      if Selection(t, s).Success? {
        forall j, c: nat | 0 <= j < Width(t, s) && Selects(t, s, j, c) ensures Selection(t, s).value[j] == c {
          OnlyOne(t, Selection(t, s).value[j], c, s.columns[j].name);
        }
      }
    }
  }

  lemma MatchingIsChosen(t: Table, s: Statement)
    requires TableOk(t) && WhereOf(t, s).Success?
    ensures Chosen(t, s, Matching(t.rows, WhereOf(t, s).value, 0))
  {
    hide Filter, TableOk, Matches, Hit;
    var w := WhereOf(t, s).value;
    var m := Matching(t.rows, w, 0);
    forall i | 0 <= i < |m| ensures m[i] < |t.rows| {
      assert m[i] in m;
    }
    forall r | 0 <= r < |t.rows| ensures r in m <==> s.condition.None? || Hit(t, s.condition.value, r) {
      if s.condition.Some? {
        MatchesExactly(t, s.condition.value, r);
      } else {
        NoCondition(t.rows[r]);
      }
    }
  }

  lemma NoCondition(row: Cells)
    ensures Matches(row, None)
  {
  }

  /**
    SELECT: the names and types of the selected columns, and the cells of these columns in the rows that the
    condition picks; exactly if every column it names exists and the literal of the condition has the type of
    its column.
   */
  lemma SelectLaw(db: Db, s: Statement)
    requires DbOk(db) && WellFormed(s) && s.operation.Select?
    ensures Execute(db, s).db == db
    ensures Execute(db, s).r.Success? <==>
            && s.table.name in db
            && (s.all || forall j :: 0 <= j < |s.columns| ==> HasColumn(db[s.table.name], s.columns[j].name))
            && (s.condition.Some? ==> ConditionFits(db[s.table.name], s.condition.value))
    ensures Execute(db, s).r.Success? ==>
              var t, q := db[s.table.name], Execute(db, s).r.value;
              && |q.columns| == |q.types| == Width(t, s)
              && (forall j, c: nat :: 0 <= j < Width(t, s) && Selects(t, s, j, c) ==> q.columns[j] == t.columns[c].name && q.types[j] == t.columns[c].ty)
              && (forall r :: 0 <= r < |t.rows| ==> |t.rows[r]| == |t.columns|)
              && exists chosen :: Chosen(t, s, chosen) && Shown(t, s, chosen, q.rows)
  {
    hide TableOk, Selection, Filter, SelectedRows, Hit, HasColumn, ConditionFits, Matches, WellFormed, Projected, Matching;
    if s.table.name in db {
      var t := db[s.table.name];
      WideRows(t);
      SelectionExactly(t, s);
      if s.condition.Some? {
        FilterExactly(t, s.condition.value);
      }
      if Execute(db, s).r.Success? {
        RowsShown(t, s);
      }
    }
  }

  lemma RowsShown(t: Table, s: Statement)
    requires TableOk(t) && AllWide(t.rows, |t.columns|) && SelectFrom(t, s).Success?
    ensures exists chosen :: Chosen(t, s, chosen) && Shown(t, s, chosen, SelectFrom(t, s).value.rows)
    ensures forall r :: 0 <= r < |t.rows| ==> |t.rows[r]| == |t.columns|
  {
    hide TableOk, AllWide, Selection, Filter, SelectedRows, Matches, WhereOf, Projected, Chosen, Shown, NamesOf, TypesOf;
    var sel, w := Selection(t, s).value, WhereOf(t, s).value;
    forall r | 0 <= r < |t.rows| ensures |t.rows[r]| == |t.columns| {
      WidthOf(t, r);
    }
    MatchingIsChosen(t, s);
    assert t.rows[0..] == t.rows;
    SelectedExactly(t.rows, sel, w, |t.columns|, 0);
    ShownByProjection(t, s, Matching(t.rows, w, 0), sel);
  }

  lemma ShownByProjection(t: Table, s: Statement, chosen: seq<nat>, sel: seq<nat>)
    requires TableOk(t) && AllWide(t.rows, |t.columns|) && Selection(t, s) == Success(sel) && forall i :: i in chosen ==> i < |t.rows|
    requires forall r :: 0 <= r < |t.rows| ==> |t.rows[r]| == |t.columns|
    ensures Shown(t, s, chosen, Projected(t.rows, chosen, sel, |t.columns|))
  {
    hide TableOk, AllWide, Selection, Projected;
    SelectionExactly(t, s);
    ProjectedRows(t.rows, chosen, sel, |t.columns|);
  }

  // ---- Which error ----

  /** What is wrong with the `j`-th column of an INSERT or UPDATE, if anything. */
  ghost function Problem(t: Table, s: Statement, j: nat): Option<SqlError>
    requires j < |s.columns| == |s.values|
  {
    if !HasColumn(t, s.columns[j].name) then Some(SqlError(s.columns[j].position, UnknownColumn))
    else if exists i :: 0 <= i < j && s.columns[i].name == s.columns[j].name then Some(SqlError(s.columns[j].position, DuplicateColumn))
    else if !HasTyped(t, s.columns[j].name, s.values[j].value) then Some(SqlError(s.values[j].position, TypeMismatch))
    else None
  }

  /** The `j`-th column is the first with a problem. */
  ghost predicate FirstProblem(t: Table, s: Statement, j: nat)
    requires |s.columns| == |s.values|
  {
    j < |s.columns| && Problem(t, s, j).Some? && forall i :: 0 <= i < j ==> Problem(t, s, i).None?
  }

  /** The columns of the first `k` names. */
  ghost predicate SeenAre(t: Table, s: Statement, k: nat, seen: set<nat>) {
    && k <= |s.columns|
    && (forall c :: c in seen ==> exists i :: 0 <= i < k && Named(t, c, s.columns[i].name))
    && (forall i, c: nat :: 0 <= i < k && Named(t, c, s.columns[i].name) ==> c in seen)
  }

  lemma CheckColumnExactly(t: Table, s: Statement, k: nat, seen: set<nat>)
    requires Distinct(t.columns) && |s.columns| == |s.values| && k < |s.columns| && SeenAre(t, s, k, seen)
    ensures var r := CheckColumn(t.columns, s.columns[k], s.values[k], seen);
            && (Problem(t, s, k).Some? ==> r == Failure(Problem(t, s, k).value))
            && (Problem(t, s, k).None? ==> r.Success? && SeenAre(t, s, k + 1, seen + {r.value}))
  {
    hide ColumnIndex, HasColumn, HasTyped;
    var name := s.columns[k].name;
    FoundExactly(t, name);
    var c := ColumnIndex(t.columns, name);
    if c.Some? {
      assert Named(t, c.value, name);
      if c.value in seen {
        var i :| 0 <= i < k && Named(t, c.value, s.columns[i].name);
      }
      if i :| 0 <= i < k && s.columns[i].name == name {
        assert Named(t, c.value, s.columns[i].name);
      }
      if Problem(t, s, k).None? {
        SeenOneMore(t, s, k, seen, c.value);
      }
    }
  }

  lemma SeenOneMore(t: Table, s: Statement, k: nat, seen: set<nat>, c: nat)
    requires Distinct(t.columns) && k < |s.columns| && SeenAre(t, s, k, seen) && Named(t, c, s.columns[k].name)
    ensures SeenAre(t, s, k + 1, seen + {c})
  {
    forall d | d in seen + {c} ensures exists i :: 0 <= i < k + 1 && Named(t, d, s.columns[i].name) {
      if d in seen {
        var i :| 0 <= i < k && Named(t, d, s.columns[i].name);
      } else {
        assert Named(t, d, s.columns[k].name);
      }
    }
    forall i, d: nat | 0 <= i < k + 1 && Named(t, d, s.columns[i].name) ensures d in seen + {c} {
      if i == k {
        OnlyOne(t, c, d, s.columns[k].name);
      }
    }
  }

  lemma {:induction false} ResolveFails(t: Table, s: Statement, k: nat, seen: set<nat>, j: nat)
    requires Distinct(t.columns) && |s.columns| == |s.values| && SeenAre(t, s, k, seen) && k <= j && FirstProblem(t, s, j)
    ensures Resolve(t.columns, s.columns[k..], s.values[k..], seen) == Failure(Problem(t, s, j).value)
    decreases j - k
  {
    hide CheckColumn, Problem, SeenAre, Assignable, Avoids, Distinct;
    var ids, vs := s.columns[k..], s.values[k..];
    assert ids[0] == s.columns[k] && vs[0] == s.values[k] && ids[1..] == s.columns[k + 1..] && vs[1..] == s.values[k + 1..];
    CheckColumnExactly(t, s, k, seen);
    if k < j {
      ResolveFails(t, s, k + 1, seen + {CheckColumn(t.columns, ids[0], vs[0], seen).value}, j);
    }
  }

  lemma NothingSeen(t: Table, s: Statement)
    ensures SeenAre(t, s, 0, {})
  {
  }

  /** The errors of an INSERT, in the order they are looked for. */
  lemma InsertErrors(db: Db, s: Statement)
    requires DbOk(db) && WellFormed(s) && s.operation.Insert?
    ensures s.table.name !in db ==> Execute(db, s).r == Failure(SqlError(s.table.position, UnknownTable))
    ensures s.table.name in db && |s.columns| != |s.values| ==> Execute(db, s).r == Failure(SqlError(s.table.position, CountMismatch))
    ensures s.table.name in db && |s.columns| == |s.values| ==>
              forall j :: FirstProblem(db[s.table.name], s, j) ==> Execute(db, s).r == Failure(Problem(db[s.table.name], s, j).value)
    ensures s.table.name in db && Settable(db[s.table.name], s) && |s.columns| != |db[s.table.name].columns| ==>
              Execute(db, s).r == Failure(SqlError(s.table.position, MissingColumns))
  {
    hide Resolve, Problem, WellFormed, Settable, TableOk;
    if s.table.name in db && |s.columns| == |s.values| {
      var t := db[s.table.name];
      ColumnsDistinct(t);
      ResolvedExactly(t, s);
      forall j | FirstProblem(t, s, j) ensures Resolve(t.columns, s.columns, s.values, {}) == Failure(Problem(t, s, j).value) {
        assert s.columns[0..] == s.columns && s.values[0..] == s.values;
        NothingSeen(t, s);
        ResolveFails(t, s, 0, {}, j);
      }
    } else if s.table.name in db {
      NotSettable(db[s.table.name], s);
    }
  }

  /** The error of a condition: its column is unknown, or its literal has another type. */
  ghost function ConditionError(t: Table, c: Condition): SqlError {
    if !HasColumn(t, c.column.name) then SqlError(c.column.position, UnknownColumn) else SqlError(c.literal.position, TypeMismatch)
  }

  lemma FilterErrors(t: Table, c: Condition)
    requires TableOk(t) && !ConditionFits(t, c)
    ensures Filter(t, c) == Failure(ConditionError(t, c))
  {
    hide ColumnIndex;
    FoundExactly(t, c.column.name);
  }

  /** The errors of an UPDATE: the columns first, then the condition. */
  lemma UpdateErrors(db: Db, s: Statement)
    requires DbOk(db) && WellFormed(s) && s.operation.Update?
    ensures s.condition.Some? && |s.columns| == |s.values|
    ensures s.table.name !in db ==> Execute(db, s).r == Failure(SqlError(s.table.position, UnknownTable))
    ensures s.table.name in db ==>
              forall j :: FirstProblem(db[s.table.name], s, j) ==> Execute(db, s).r == Failure(Problem(db[s.table.name], s, j).value)
    ensures s.table.name in db && Settable(db[s.table.name], s) && !ConditionFits(db[s.table.name], s.condition.value) ==>
              Execute(db, s).r == Failure(ConditionError(db[s.table.name], s.condition.value))
  {
    hide Resolve, Problem, Settable, TableOk, Filter, ConditionFits, ConditionError, UpdatedRows;
    assert s.condition.Some? && |s.columns| == |s.values|;
    if s.table.name in db {
      var t := db[s.table.name];
      ColumnsDistinct(t);
      ResolvedExactly(t, s);
      WideRows(t);
      if !ConditionFits(t, s.condition.value) {
        FilterErrors(t, s.condition.value);
      }
      forall j | FirstProblem(t, s, j) ensures Resolve(t.columns, s.columns, s.values, {}) == Failure(Problem(t, s, j).value) {
        assert s.columns[0..] == s.columns && s.values[0..] == s.values;
        NothingSeen(t, s);
        ResolveFails(t, s, 0, {}, j);
      }
    }
  }

  lemma {:induction false} FindFails(t: Table, ids: seq<Identifier>, j: nat)
    requires Distinct(t.columns) && j < |ids| && !HasColumn(t, ids[j].name) && forall i :: 0 <= i < j ==> HasColumn(t, ids[i].name)
    ensures FindColumns(t.columns, ids) == Failure(SqlError(ids[j].position, UnknownColumn))
    decreases ids
  {
    hide ColumnIndex, HasColumn, Distinct;
    FoundExactly(t, ids[0].name);
    if j > 0 {
      forall i | 0 <= i < j - 1 ensures HasColumn(t, ids[1..][i].name) {
        assert ids[1..][i] == ids[i + 1];
      }
      FindFails(t, ids[1..], j - 1);
    }
  }

  /** The errors of a SELECT: the first unknown column, then the condition. */
  lemma SelectErrors(db: Db, s: Statement)
    requires DbOk(db) && WellFormed(s) && s.operation.Select?
    ensures s.table.name !in db ==> Execute(db, s).r == Failure(SqlError(s.table.position, UnknownTable))
    ensures s.table.name in db && !s.all ==>
              forall j :: 0 <= j < |s.columns| && !HasColumn(db[s.table.name], s.columns[j].name)
                          && (forall i :: 0 <= i < j ==> HasColumn(db[s.table.name], s.columns[i].name)) ==>
                Execute(db, s).r == Failure(SqlError(s.columns[j].position, UnknownColumn))
    ensures s.table.name in db && s.condition.Some? && !ConditionFits(db[s.table.name], s.condition.value)
            && (s.all || forall j :: 0 <= j < |s.columns| ==> HasColumn(db[s.table.name], s.columns[j].name)) ==>
              Execute(db, s).r == Failure(ConditionError(db[s.table.name], s.condition.value))
  {
    hide TableOk, FindColumns, Filter, HasColumn, ConditionFits, ConditionError, SelectedRows, WellFormed;
    if s.table.name in db {
      var t := db[s.table.name];
      ColumnsDistinct(t);
      WideRows(t);
      SelectionExactly(t, s);
      if s.condition.Some? && !ConditionFits(t, s.condition.value) {
        FilterErrors(t, s.condition.value);
      }
      if !s.all {
        forall j | 0 <= j < |s.columns| && !HasColumn(t, s.columns[j].name) && forall i :: 0 <= i < j ==> HasColumn(t, s.columns[i].name)
          ensures FindColumns(t.columns, s.columns) == Failure(SqlError(s.columns[j].position, UnknownColumn))
        {
          FindFails(t, s.columns, j);
        }
      }
    }
  }

  /** The error of a CREATE: the table exists, or the first column whose name came before. */
  lemma CreateErrors(db: Db, s: Statement)
    requires DbOk(db) && WellFormed(s) && s.operation.Create? && s.table.name !in db
    ensures forall j: nat :: FirstRepeated(s.definitions, {}, j) ==> Execute(db, s).r == Failure(SqlError(s.definitions[j].id.position, DuplicateColumn))
  {
    hide DefinedColumns, FirstRepeated, DbOk, WellFormed;
    forall j: nat | FirstRepeated(s.definitions, {}, j)
      ensures j < |s.definitions| && DefinedColumns(s.definitions, {}) == Failure(SqlError(s.definitions[j].id.position, DuplicateColumn))
    {
      DefineFails(s.definitions, {}, j);
    }
  }

  predicate Repeated(ds: seq<ColumnDefinition>, names: set<Text>, j: nat)
    requires j < |ds|
  {
    ds[j].id.name in names || exists i :: 0 <= i < j && ds[i].id.name == ds[j].id.name
  }

  predicate FirstRepeated(ds: seq<ColumnDefinition>, names: set<Text>, j: nat) {
    j < |ds| && Repeated(ds, names, j) && forall i :: 0 <= i < j ==> !Repeated(ds, names, i)
  }

  lemma {:induction false} DefineFails(ds: seq<ColumnDefinition>, names: set<Text>, j: nat)
    requires FirstRepeated(ds, names, j)
    ensures j < |ds| && DefinedColumns(ds, names) == Failure(SqlError(ds[j].id.position, DuplicateColumn))
    decreases ds
  {
    hide Distinct;
    if j > 0 {
      var names', rest := names + {ds[0].id.name}, ds[1..];
      assert !Repeated(ds, names, 0);
      RepeatedShift(ds, names, j);
      forall i | 0 <= i < j - 1 ensures !Repeated(rest, names', i) {
        RepeatedShift(ds, names, i + 1);
      }
      assert FirstRepeated(rest, names', j - 1);
      DefineFails(rest, names', j - 1);
    }
  }

  lemma RepeatedShift(ds: seq<ColumnDefinition>, names: set<Text>, i: nat)
    requires 1 <= i < |ds|
    ensures Repeated(ds[1..], names + {ds[0].id.name}, i - 1) <==> Repeated(ds, names, i)
  {
    var rest := ds[1..];
    assert rest[i - 1] == ds[i];
    if k :| 0 <= k < i && ds[k].id.name == ds[i].id.name {
      assert k > 0 ==> rest[k - 1] == ds[k];
    }
    if k :| 0 <= k < i - 1 && rest[k].id.name == rest[i - 1].id.name {
      assert rest[k] == ds[k + 1];
    }
  }

  // ---- Statement texts ----

  /** A text that is no statement fails with the error of the parser and changes nothing. */
  lemma BadTextFails(db: Db, source: Text, reals: Reals)
    requires DbOk(db) && Parse(source, reals).Failure?
    ensures ExecuteText(db, source, reals) == Effect(Failure(Parse(source, reals).error), db)
  {
    hide Parse, Execute, DbOk;
  }

  /** The text of a statement does what the statement does, up to the positions in its errors. */
  lemma TextRuns(db: Db, s: Statement, reals: Reals, spell: Speller) returns (parsed: Statement)
    requires DbOk(db) && Renderable(s, reals, spell)
    ensures Bare(parsed) == Bare(s) && WellFormed(parsed)
    ensures ExecuteText(db, Render(s, reals, spell), reals) == Execute(db, parsed)
  {
    hide Parse, Execute, Render, Renderable, DbOk, Bare, WellFormed;
    RenderRoundTrip(s, reals, spell);
    parsed := Parse(Render(s, reals, spell), reals).value;
  }
}
