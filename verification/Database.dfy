/** The database as it runs: a map of tables whose rows are changed in place. */
module Database {
  import opened Prelude
  import opened Bytes
  import opened SqlLexer
  import opened SqlGrammar
  import opened SqlParser
  import opened Relational
  import opened RelationalLaws
  import opened Storage

  /** The answer is the specified one, in arrays of its own. */
  ghost predicate Agrees(spec: Result<QueryResult, SqlError>, r: Result<Answer, SqlError>)
    reads if r.Success? then set a | a in r.value.rows else {}
  {
    match spec
    case Failure(e) => r == Failure(e)
    case Success(q) => r.Success? && r.value.columns == q.columns && r.value.types == q.types && Contents(r.value.rows) == q.rows
  }

  class Database {
    const reals: Reals
    var tables: map<Text, StoredTable>
    ghost var repr: set<object> // the database object, its tables and their rows
    ghost var ownerOf: map<array<SqlValue>, Text>

    constructor (reals: Reals)
      ensures this.reals == reals && Valid() && View() == map[] && fresh(repr)
    {
      this.reals, tables, repr, ownerOf := reals, map[], {this}, map[];
    }

    /** Every table and every row belongs to the database, and to one name only. */
    ghost predicate Owned()
      reads this, repr
    {
      && this in repr
      && forall n :: n in tables ==>
           && tables[n] in repr && tables[n].name == n
           && forall i :: 0 <= i < |tables[n].rows| ==> tables[n].rows[i] in repr && tables[n].rows[i] in ownerOf && ownerOf[tables[n].rows[i]] == n
    }

    ghost predicate Valid()
      reads this, repr
    {
      Owned() && forall n :: n in tables ==> tables[n].Valid()
    }

    ghost function View(): Db
      reads this, repr
      requires Owned()
    {
      map n | n in tables :: tables[n].View()
    }

    lemma ViewOk()
      requires Valid()
      ensures DbOk(View())
    {
      hide TableOk;
    }

    /** A new, empty table. */
    method AddTable(name: Text, columns: seq<Column>)
      requires Valid() && name !in tables && Distinct(columns)
      modifies this
      ensures Valid() && View() == old(View())[name := Table(columns, [])] && fresh(repr - old(repr))
    {
      hide StoredTable.Valid, StoredTable.View, Distinct, Owned;
      var t := new StoredTable(columns, name);
      t.NewIsValid();
      Register(name, t);
      ViewExtended(name);
    }

    /** There is one more table, and the others are as they were. */
    twostate lemma ViewExtended(name: Text)
      requires old(Owned()) && Owned() && name !in old(tables) && tables.Keys == old(tables).Keys + {name}
      requires forall n :: n in old(tables) ==> tables[n].View() == old(tables[n].View())
      ensures View() == old(View())[name := tables[name].View()]
    {
      hide StoredTable.View;
    }

    method Register(name: Text, t: StoredTable)
      requires Owned() && name !in tables && t.rows == [] && t.name == name
      modifies this`tables, this`repr
      ensures Owned() && tables == old(tables)[name := t] && repr == old(repr) + {t}
    {
      tables := tables[name := t];
      repr := repr + {t};
    }

    method CreateTable(s: Statement) returns (r: Result<Answer, SqlError>)
      requires Valid() && WellFormed(s) && s.operation.Create? && DbOk(View())
      modifies this
      ensures Valid() && View() == Execute(old(View()), s).db && Agrees(Execute(old(View()), s).r, r)
      ensures fresh(repr - old(repr)) && (r.Success? ==> r.value.rows == [])
    {
      hide Database.Owned, StoredTable.Valid, StoredTable.View, Contents, DefinedColumns, Execute, DbOk, WellFormed, Distinct;
      CreateEffect(View(), s);
      if s.table.name in tables {
        return Failure(SqlError(s.table.position, TableExists));
      }
      var columns := DefineColumns(s.definitions);
      if columns.Failure? {
        return Failure(columns.error);
      }
      AddTable(s.table.name, columns.value);
      r := Success(Answer([], [], []));
      NoContents();
    }

    method DefineColumns(ds: seq<ColumnDefinition>) returns (r: Result<seq<Column>, SqlError>)
      ensures r == DefinedColumns(ds, {})
    {
      var names: set<Text> := {};
      var columns: seq<Column> := [];
      ghost var whole := DefinedColumns(ds, {});
      assert ds[0..] == ds && (whole.Success? ==> [] + whole.value == whole.value);
      for i := 0 to |ds|
        invariant match DefinedColumns(ds[i..], names)
                  case Success(rest) => whole == Success(columns + rest)
                  case Failure(e) => whole == Failure(e)
      {
        assert ds[i..][0] == ds[i] && ds[i..][1..] == ds[i + 1..];
        if ds[i].id.name in names {
          return Failure(SqlError(ds[i].id.position, DuplicateColumn));
        }
        var c := Column(ds[i].id.name, ds[i].ty);
        ghost var rest := DefinedColumns(ds[i + 1..], names + {c.name});
        assert rest.Success? ==> columns + ([c] + rest.value) == columns + [c] + rest.value;
        names := names + {c.name};
        columns := columns + [c];
      }
      assert ds[|ds|..] == [] && columns + [] == columns;
      r := Success(columns);
    }

    /** The table gets its row, which nobody owns yet. */
    method InsertUnowned(name: Text, s: Statement) returns (err: Option<SqlError>, ghost row: array<SqlValue>)
      requires Valid() && name in tables
      modifies tables[name]
      ensures if err.None? then fresh(row) && OwnedBut(row, name) else Owned()
      ensures forall n :: n in tables ==> tables[n].Valid()
      ensures forall n :: n in tables && n != name ==> tables[n].View() == old(tables[n].View())
      ensures match InsertedRow(old(tables[name].View()), s)
              case Failure(e) => err == Some(e) && tables[name].View() == old(tables[name].View())
              case Success(cells) =>
                err.None? && tables[name].View() == old(tables[name].View()).(rows := old(tables[name].View()).rows + [cells])
    {
      hide StoredTable.Valid, StoredTable.View, Contents, InsertedRow;
      var t := tables[name];
      ghost var was := t.rows;
      err := t.InsertRow(s);
      row := new SqlValue[0];
      if err.None? {
        row := t.rows[|was|];
        assert t.rows == was + [row];
      }
    }

    method InsertAt(name: Text, s: Statement) returns (err: Option<SqlError>)
      requires Valid() && name in tables
      modifies tables[name], this`repr, this`ownerOf
      ensures Valid() && fresh(repr - old(repr))
      ensures var t := old(View())[name];
              match InsertedRow(t, s)
              case Failure(e) => err == Some(e) && View() == old(View())
              case Success(row) => err.None? && View() == old(View())[name := t.(rows := t.rows + [row])]
    {
      hide StoredTable.Valid, StoredTable.View, Contents, InsertedRow, OwnedBut, Owned;
      ghost var row;
      err, row := InsertUnowned(name, s);
      if err.None? {
        Adopt(row, name);
      }
      ViewChangedAt(name);
    }

    /** Only one table looks different. */
    twostate lemma ViewChangedAt(name: Text)
      requires old(Owned()) && Owned() && tables == old(tables) && name in tables
      requires forall n :: n in tables && n != name ==> tables[n].View() == old(tables[n].View())
      ensures View() == old(View())[name := tables[name].View()]
      ensures old(View())[name] == old(tables[name].View())
    {
      hide StoredTable.View;
    }

    /** Everything is owned, except that the table `name` may hold `row` as well. */
    ghost predicate OwnedBut(row: array<SqlValue>, name: Text)
      reads this, repr
    {
      && this in repr
      && forall n :: n in tables ==>
           && tables[n] in repr && tables[n].name == n
           && forall i :: 0 <= i < |tables[n].rows| ==>
                if tables[n].rows[i] == row then n == name
                else tables[n].rows[i] in repr && tables[n].rows[i] in ownerOf && ownerOf[tables[n].rows[i]] == n
    }

    ghost method Adopt(row: array<SqlValue>, name: Text)
      requires OwnedBut(row, name)
      modifies this`repr, this`ownerOf
      ensures Owned() && repr == old(repr) + {row}
    {
      repr, ownerOf := repr + {row}, ownerOf[row := name];
    }

    method InsertInto(s: Statement) returns (r: Result<Answer, SqlError>)
      requires Valid() && WellFormed(s) && s.operation.Insert? && s.table.name in tables && DbOk(View())
      modifies tables[s.table.name], this`repr, this`ownerOf
      ensures Valid() && View() == Execute(old(View()), s).db && Agrees(Execute(old(View()), s).r, r)
      ensures fresh(repr - old(repr)) && (r.Success? ==> r.value.rows == [])
    {
      hide Database.Owned, StoredTable.Valid, StoredTable.View, Contents, InsertedRow, Execute, DbOk, WellFormed;
      InsertEffect(View(), s);
      var err := InsertAt(s.table.name, s);
      r := if err.Some? then Failure(err.value) else Success(Answer([], [], []));
      NoContents();
    }

    method UpdateAt(name: Text, s: Statement) returns (err: Option<SqlError>)
      requires Valid() && name in tables && |s.columns| == |s.values| && s.condition.Some? && AllWide(View()[name].rows, |View()[name].columns|)
      modifies tables[name].rows
      ensures Valid()
      ensures var t := old(View())[name];
              match UpdateIn(t, s)
              case Failure(e) => err == Some(e) && View() == old(View())
              case Success(rows) => err.None? && View() == old(View())[name := t.(rows := rows)]
    {
      hide StoredTable.Valid, StoredTable.View, Contents, UpdateIn, AllWide;
      ghost var db := View();
      var t := tables[name];
      err := t.UpdateRows(s);
      assert forall n :: n in tables && n != name ==> tables[n].View() == db[n] && tables[n].Valid();
      ViewChangedAt(name);
    }

    method UpdateTable(s: Statement) returns (r: Result<Answer, SqlError>)
      requires Valid() && WellFormed(s) && s.operation.Update? && s.table.name in tables && DbOk(View())
      modifies tables[s.table.name].rows
      ensures Valid() && View() == Execute(old(View()), s).db && Agrees(Execute(old(View()), s).r, r)
      ensures r.Success? ==> r.value.rows == []
    {
      hide Database.Owned, StoredTable.Valid, StoredTable.View, Contents, UpdateIn, Execute, DbOk, WellFormed, AllWide;
      UpdateEffect(View(), s);
      var err := UpdateAt(s.table.name, s);
      r := if err.Some? then Failure(err.value) else Success(Answer([], [], []));
      NoContents();
    }

    method SelectFromTable(s: Statement) returns (r: Result<Answer, SqlError>)
      requires Valid() && WellFormed(s) && s.operation.Select? && s.table.name in tables && DbOk(View())
      ensures View() == Execute(View(), s).db && Agrees(Execute(View(), s).r, r)
      ensures r.Success? ==> fresh(r.value.rows)
    {
      hide TableOk, Contents, SelectFrom;
      WideRows(tables[s.table.name].View());
      r := tables[s.table.name].SelectRows(s);
    }

    /**
      One statement text. The database and the answer are the specified ones; an error leaves every table as
      it was; and the arrays of the answer are new and stay outside the database.
     */
    method ExecuteSource(source: Text) returns (r: Result<Answer, SqlError>)
      requires Valid()
      modifies repr
      ensures Valid() && View() == ExecuteText(old(View()), source, reals).db
      ensures Agrees(ExecuteText(old(View()), source, reals).r, r)
      ensures r.Failure? ==> View() == old(View())
      ensures fresh(repr - old(repr)) && (r.Success? ==> fresh(r.value.rows) && forall a :: a in r.value.rows ==> a !in repr)
    {
      hide StoredTable.Valid, StoredTable.View, TableOk, DbOk, Contents, Parse, Execute, WellFormed;
      ViewOk();
      FailuresChangeNothing(View(), source, reals);
      var s := ParseStatement(source, reals);
      if s.Failure? {
        return Failure(s.error);
      }
      ghost var db := View();
      if s.value.operation.Create? {
        r := CreateTable(s.value);
      } else if s.value.table.name !in tables {
        UnknownTableFails(db, s.value);
        r := Failure(SqlError(s.value.table.position, UnknownTable));
      } else if s.value.operation.Insert? {
        r := InsertInto(s.value);
      } else if s.value.operation.Update? {
        r := UpdateTable(s.value);
      } else {
        r := SelectFromTable(s.value);
      }
    }
  }

  /** The arrays of an answer are not part of the database. */
  ghost predicate Apart(db: Database, r: Result<Answer, SqlError>)
    reads db
  {
    r.Success? ==> forall j :: 0 <= j < |r.value.rows| ==> r.value.rows[j] !in db.repr
  }

  /**
    A session of statement texts. The database and all answers are those of the specification, and at the
    end every earlier answer still is what it was: no later INSERT or UPDATE shows through.
   */
  method RunSession(db: Database, texts: seq<Text>) returns (answers: seq<Result<Answer, SqlError>>)
    requires db.Valid()
    modifies db.repr
    ensures db.Valid() && db.View() == Session(old(db.View()), texts, db.reals).0
    ensures |answers| == |texts| && forall k :: 0 <= k < |texts| ==> Agrees(Session(old(db.View()), texts, db.reals).1[k], answers[k])
  {
    hide Session, ExecuteText, DbOk, Agrees, Database.Owned, StoredTable.Valid, Contents;
    db.ViewOk();
    answers := [];
    ghost var start := db.View();
    assert |texts[..0]| == 0;
    EmptySession(start, db.reals);
    for i := 0 to |texts|
      invariant db.Valid() && DbOk(db.View()) && fresh(db.repr - old(db.repr))
      invariant db.View() == Session(start, texts[..i], db.reals).0 && |answers| == i
      invariant forall k :: 0 <= k < i ==> Agrees(Session(start, texts[..i], db.reals).1[k], answers[k]) && Apart(db, answers[k])
    {
      SessionStep(start, texts, i, db.reals);
      var r := db.ExecuteSource(texts[i]);
      answers := answers + [r];
    }
    assert texts[..|texts|] == texts;
  }

  lemma SessionStep(db: Db, texts: seq<Text>, i: nat, reals: Reals)
    requires DbOk(db) && i < |texts|
    ensures DbOk(Session(db, texts[..i], reals).0)
    ensures var e := ExecuteText(Session(db, texts[..i], reals).0, texts[i], reals);
            && DbOk(e.db) && Session(db, texts[..i + 1], reals) == (e.db, Session(db, texts[..i], reals).1 + [e.r])
  {
    hide ExecuteText, DbOk;
    assert texts[..i + 1] == texts[..i] + [texts[i]];
    SessionAppend(db, texts[..i], [texts[i]], reals);
    var mid := Session(db, texts[..i], reals).0;
    TextKeeps(mid, texts[i], reals);
    OneSession(mid, texts[i], reals);
  }

  lemma CreateEffect(db: Db, s: Statement)
    requires DbOk(db) && WellFormed(s) && s.operation.Create?
    ensures Execute(db, s) == if s.table.name in db then Effect(Failure(SqlError(s.table.position, TableExists)), db)
                              else match DefinedColumns(s.definitions, {})
                                   case Failure(e) => Effect(Failure(e), db)
                                   case Success(cols) => Effect(Success(NOTHING), db[s.table.name := Table(cols, [])])
  {
  }

  lemma InsertEffect(db: Db, s: Statement)
    requires DbOk(db) && WellFormed(s) && s.operation.Insert? && s.table.name in db
    ensures var t := db[s.table.name];
            Execute(db, s) == match InsertedRow(t, s)
                              case Failure(e) => Effect(Failure(e), db)
                              case Success(row) => Effect(Success(NOTHING), db[s.table.name := t.(rows := t.rows + [row])])
  {
    hide InsertedRow;
  }

  lemma UpdateEffect(db: Db, s: Statement)
    requires DbOk(db) && WellFormed(s) && s.operation.Update? && s.table.name in db
    ensures var t := db[s.table.name];
            && AllWide(t.rows, |t.columns|) && |s.columns| == |s.values| && s.condition.Some?
            && Execute(db, s) == match UpdateIn(t, s)
                                 case Failure(e) => Effect(Failure(e), db)
                                 case Success(rows) => Effect(Success(NOTHING), db[s.table.name := t.(rows := rows)])
  {
    hide UpdateIn;
  }

  lemma UnknownTableFails(db: Db, s: Statement)
    requires DbOk(db) && WellFormed(s) && !s.operation.Create? && s.table.name !in db
    ensures Execute(db, s) == Effect(Failure(SqlError(s.table.position, UnknownTable)), db)
  {
  }
}
