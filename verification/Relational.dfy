/** What each statement does to the tables, as functions on values. */
module Relational {
  import opened Prelude
  import opened Bytes
  import Floats
  import opened SqlLexer
  import opened SqlGrammar

  datatype Column = Column(name: Text, ty: SqlType)

  type Cells = seq<SqlValue>

  datatype Table = Table(columns: seq<Column>, rows: seq<Cells>)

  type Db = map<Text, Table>

  datatype QueryResult = QueryResult(columns: seq<Text>, types: seq<SqlType>, rows: seq<Cells>)

  const NOTHING := QueryResult([], [], [])

  /** What a statement returns and what it leaves behind. */
  datatype Effect = Effect(r: Result<QueryResult, SqlError>, db: Db)

  /** Equality of cells; the two zeros of REAL are the same value. */
  predicate SameValue(a: SqlValue, b: SqlValue) {
    match (a, b)
    case (IntegerValue(m), IntegerValue(n)) => m == n
    case (RealValue(x), RealValue(y)) => Floats.Equal(x, y)
    case (TextValue(s), TextValue(t)) => s == t
    case _ => false
  }

  // ---- Columns ----

  function ColumnIndex(cols: seq<Column>, name: Text): (r: Option<nat>)
    ensures r.Some? ==> r.value < |cols| && cols[r.value].name == name
    ensures r.None? ==> forall c :: c in cols ==> c.name != name
  {
    if cols == [] then None
    else if cols[0].name == name then Some(0)
    else
      var r := ColumnIndex(cols[1..], name);
      assert cols == [cols[0]] + cols[1..];
      if r.None? then None else Some(r.value + 1)
  }

  function FindColumn(cols: seq<Column>, id: Identifier): (r: Result<nat, SqlError>)
    ensures r.Success? ==> r.value < |cols| && cols[r.value].name == id.name
  {
    var i := ColumnIndex(cols, id.name);
    if i.None? then Failure(SqlError(id.position, UnknownColumn)) else Success(i.value)
  }

  function CheckType(cols: seq<Column>, index: nat, v: Literal): (r: Result<(), SqlError>)
    requires index < |cols|
    ensures r.Success? <==> cols[index].ty == v.value.Type()
  {
    if cols[index].ty != v.value.Type() then Failure(SqlError(v.position, TypeMismatch)) else Success(())
  }

  /** The checks of one column in an INSERT or an UPDATE. */
  function CheckColumn(cols: seq<Column>, id: Identifier, v: Literal, seen: set<nat>): (r: Result<nat, SqlError>)
    ensures r.Success? ==> r.value < |cols| && cols[r.value].name == id.name && cols[r.value].ty == v.value.Type() && r.value !in seen
  {
    var i :- FindColumn(cols, id);
    if i in seen then Failure(SqlError(id.position, DuplicateColumn)) else
    var _ :- CheckType(cols, i, v);
    Success(i)
  }

  /** The indices of the named columns: each known, none twice, each value of the column's type. */
  function Resolve(cols: seq<Column>, ids: seq<Identifier>, vs: seq<Literal>, seen: set<nat>): (r: Result<seq<nat>, SqlError>)
    requires |ids| == |vs|
    ensures r.Success? ==> |r.value| == |ids| && Assignable(cols, r.value, vs) && Avoids(r.value, seen)
    decreases ids
  {
    if ids == [] then Success([])
    else
      var i :- CheckColumn(cols, ids[0], vs[0], seen);
      var rest :- Resolve(cols, ids[1..], vs[1..], seen + {i});
      assert forall j :: 0 <= j < |rest| ==> rest[j] != i;
      Success([i] + rest)
  }

  predicate Avoids(ix: seq<nat>, seen: set<nat>) {
    forall j :: 0 <= j < |ix| ==> ix[j] !in seen
  }

  /** Distinct columns, each with a value of its type. */
  predicate Assignable(cols: seq<Column>, ix: seq<nat>, vs: seq<Literal>) {
    && |ix| == |vs|
    && (forall j :: 0 <= j < |ix| ==> ix[j] < |cols| && cols[ix[j]].ty == vs[j].value.Type())
    && (forall j, k :: 0 <= j < k < |ix| ==> ix[j] != ix[k])
  }

  /** The cells with new values at the given columns. */
  function Assigned(row: Cells, ix: seq<nat>, vs: seq<Literal>): (r: Cells)
    requires |ix| == |vs| && forall j :: 0 <= j < |ix| ==> ix[j] < |row|
    ensures |r| == |row|
    decreases ix
  {
    if ix == [] then row else Assigned(row[ix[0] := vs[0].value], ix[1..], vs[1..])
  }

  /** A cell has the value assigned to its column, or the one it had. */
  lemma {:induction false} AssignedCell(row: Cells, ix: seq<nat>, vs: seq<Literal>, k: nat)
    requires |ix| == |vs| && (forall j :: 0 <= j < |ix| ==> ix[j] < |row|) && k < |row|
    requires forall i, j :: 0 <= i < j < |ix| ==> ix[i] != ix[j]
    ensures k !in ix ==> Assigned(row, ix, vs)[k] == row[k]
    ensures forall j :: 0 <= j < |ix| && ix[j] == k ==> Assigned(row, ix, vs)[k] == vs[j].value
    decreases ix
  {
    if ix != [] {
      var row' := row[ix[0] := vs[0].value];
      AssignedCell(row', ix[1..], vs[1..], k);
      assert ix == [ix[0]] + ix[1..];
      forall j | 0 <= j < |ix| && ix[j] == k ensures Assigned(row, ix, vs)[k] == vs[j].value {
        if j == 0 {
          assert forall i :: 0 <= i < |ix| - 1 ==> ix[1..][i] == ix[i + 1] != k;
        } else {
          assert ix[1..][j - 1] == k && vs[1..][j - 1] == vs[j];
        }
      }
    }
  }

  // ---- Statements ----

  function DefinedColumns(ds: seq<ColumnDefinition>, names: set<Text>): (r: Result<seq<Column>, SqlError>)
    ensures r.Success? ==> |r.value| == |ds| && Distinct(r.value)
    ensures r.Success? ==> forall c :: c in r.value ==> c.name !in names
    decreases ds
  {
    if ds == [] then Success([])
    else if ds[0].id.name in names then Failure(SqlError(ds[0].id.position, DuplicateColumn))
    else
      var rest :- DefinedColumns(ds[1..], names + {ds[0].id.name});
      assert forall c :: c in rest ==> c.name != ds[0].id.name;
      Success([Column(ds[0].id.name, ds[0].ty)] + rest)
  }

  predicate Distinct(cols: seq<Column>) {
    forall i, j :: 0 <= i < j < |cols| ==> cols[i].name != cols[j].name
  }

  /** The row an INSERT adds, starting from placeholder cells. */
  function InsertedRow(t: Table, s: Statement): (r: Result<Cells, SqlError>)
    ensures r.Success? ==> |r.value| == |t.columns|
  {
    if |s.columns| != |s.values| then Failure(SqlError(s.table.position, CountMismatch)) else
    var ix :- Resolve(t.columns, s.columns, s.values, {});
    if |ix| != |t.columns| then Failure(SqlError(s.table.position, MissingColumns))
    else Success(Assigned(seq(|t.columns|, _ => IntegerValue(0)), ix, s.values))
  }

  /** The columns a SELECT names. */
  function FindColumns(cols: seq<Column>, ids: seq<Identifier>): (r: Result<seq<nat>, SqlError>)
    ensures r.Success? ==> |r.value| == |ids| && forall j :: 0 <= j < |ids| ==> r.value[j] < |cols| && cols[r.value[j]].name == ids[j].name
    decreases ids
  {
    if ids == [] then Success([])
    else
      var i :- FindColumn(cols, ids[0]);
      var rest :- FindColumns(cols, ids[1..]);
      Success([i] + rest)
  }

  function Selection(t: Table, s: Statement): (r: Result<seq<nat>, SqlError>)
    ensures r.Success? ==> forall i :: i in r.value ==> i < |t.columns|
  {
    if s.all then Success(seq(|t.columns|, i => i)) else FindColumns(t.columns, s.columns)
  }

  /** The column of the condition. */
  function Filter(t: Table, c: Condition): (r: Result<nat, SqlError>)
    ensures r.Success? ==> r.value < |t.columns| && t.columns[r.value].ty == c.literal.value.Type()
  {
    var i :- FindColumn(t.columns, c.column);
    var _ :- CheckType(t.columns, i, c.literal);
    Success(i)
  }

  /** The condition in force: none, or a column and the value it must have. */
  type Where = Option<(nat, SqlValue)>

  predicate Matches(row: Cells, w: Where) {
    w.None? || (w.value.0 < |row| && SameValue(row[w.value.0], w.value.1))
  }

  function WhereOf(t: Table, s: Statement): (r: Result<Where, SqlError>)
    ensures r.Success? && r.value.Some? ==> r.value.value.0 < |t.columns|
  {
    if s.condition.None? then Success(None) else
    var i :- Filter(t, s.condition.value);
    Success(Some((i, s.condition.value.literal.value)))
  }

  function Project(row: Cells, sel: seq<nat>): (r: Cells)
    requires forall i :: i in sel ==> i < |row|
    ensures |r| == |sel|
  {
    seq(|sel|, k requires 0 <= k < |sel| => assert sel[k] in sel; row[sel[k]])
  }

  predicate AllWide(rows: seq<Cells>, width: nat) {
    forall row :: row in rows ==> |row| == width
  }

  function SelectedRows(rows: seq<Cells>, sel: seq<nat>, w: Where, width: nat): (r: seq<Cells>)
    requires AllWide(rows, width) && forall i :: i in sel ==> i < width
    decreases rows
  {
    if rows == [] then []
    else
      var rest := SelectedRows(rows[1..], sel, w, width);
      if Matches(rows[0], w) then [Project(rows[0], sel)] + rest else rest
  }

  function NamesOf(t: Table, sel: seq<nat>): (r: seq<Text>)
    requires forall i :: i in sel ==> i < |t.columns|
    ensures |r| == |sel|
  {
    seq(|sel|, k requires 0 <= k < |sel| => assert sel[k] in sel; t.columns[sel[k]].name)
  }

  function TypesOf(t: Table, sel: seq<nat>): (r: seq<SqlType>)
    requires forall i :: i in sel ==> i < |t.columns|
    ensures |r| == |sel|
  {
    seq(|sel|, k requires 0 <= k < |sel| => assert sel[k] in sel; t.columns[sel[k]].ty)
  }

  function SelectFrom(t: Table, s: Statement): Result<QueryResult, SqlError>
    requires AllWide(t.rows, |t.columns|)
  {
    var sel :- Selection(t, s);
    var w :- WhereOf(t, s);
    Success(QueryResult(NamesOf(t, sel), TypesOf(t, sel), SelectedRows(t.rows, sel, w, |t.columns|)))
  }

  function UpdatedRow(row: Cells, ix: seq<nat>, vs: seq<Literal>, w: Where): (r: Cells)
    requires |ix| == |vs| && forall j :: 0 <= j < |ix| ==> ix[j] < |row|
    ensures |r| == |row|
  {
    if Matches(row, w) then Assigned(row, ix, vs) else row
  }

  /** Every row is judged by the values it had. */
  function UpdatedRows(rows: seq<Cells>, ix: seq<nat>, vs: seq<Literal>, w: Where, width: nat): (r: seq<Cells>)
    requires AllWide(rows, width) && |ix| == |vs| && forall j :: 0 <= j < |ix| ==> ix[j] < width
    ensures |r| == |rows| && AllWide(r, width)
  {
    seq(|rows|, k requires 0 <= k < |rows| => assert rows[k] in rows; UpdatedRow(rows[k], ix, vs, w))
  }

  function UpdateIn(t: Table, s: Statement): (r: Result<seq<Cells>, SqlError>)
    requires AllWide(t.rows, |t.columns|) && |s.columns| == |s.values| && s.condition.Some?
    ensures r.Success? ==> |r.value| == |t.rows| && AllWide(r.value, |t.columns|)
  {
    var ix :- Resolve(t.columns, s.columns, s.values, {});
    var i :- Filter(t, s.condition.value);
    Success(UpdatedRows(t.rows, ix, s.values, Some((i, s.condition.value.literal.value)), |t.columns|))
  }

  // ---- The database ----

  /** Every row has a value of the right type for every column, and no table has a column twice. */
  predicate RowOk(cols: seq<Column>, row: Cells) {
    |row| == |cols| && forall k :: 0 <= k < |cols| ==> row[k].Type() == cols[k].ty
  }

  predicate TableOk(t: Table) {
    Distinct(t.columns) && forall row :: row in t.rows ==> RowOk(t.columns, row)
  }

  predicate DbOk(db: Db) {
    forall name :: name in db ==> TableOk(db[name])
  }

  /** Carry out one parsed statement. */
  function Execute(db: Db, s: Statement): Effect
    requires DbOk(db) && WellFormed(s)
  {
    var name := s.table.name;
    if s.operation.Create? then
      if name in db then Effect(Failure(SqlError(s.table.position, TableExists)), db) else
      match DefinedColumns(s.definitions, {})
      case Failure(e) => Effect(Failure(e), db)
      case Success(cols) => Effect(Success(NOTHING), db[name := Table(cols, [])])
    else if name !in db then Effect(Failure(SqlError(s.table.position, UnknownTable)), db)
    else
      var t := db[name];
      if s.operation.Insert? then
        match InsertedRow(t, s)
        case Failure(e) => Effect(Failure(e), db)
        case Success(row) => Effect(Success(NOTHING), db[name := t.(rows := t.rows + [row])])
      else if s.operation.Update? then
        match UpdateIn(t, s)
        case Failure(e) => Effect(Failure(e), db)
        case Success(rows) => Effect(Success(NOTHING), db[name := t.(rows := rows)])
      else Effect(SelectFrom(t, s), db)
  }

  /** Carry out one statement text. */
  function ExecuteText(db: Db, source: Text, reals: Reals): Effect
    requires DbOk(db)
  {
    match Parse(source, reals)
    case Failure(e) => Effect(Failure(e), db)
    case Success(s) => Execute(db, s)
  }
}
