/** One table as it is stored: rows are arrays, changed in place. */
module Storage {
  import opened Prelude
  import opened Bytes
  import opened SqlLexer
  import opened SqlGrammar
  import opened Relational
  import opened RelationalLaws

  /** The contents of row arrays. */
  ghost function Contents(rows: seq<array<SqlValue>>): (r: seq<Cells>)
    reads rows
    ensures |r| == |rows|
  {
    if rows == [] then [] else [rows[0][..]] + Contents(rows[1..])
  }

  lemma {:induction false} ContentsAt(rows: seq<array<SqlValue>>, i: nat)
    requires i < |rows|
    ensures Contents(rows)[i] == rows[i][..]
  {
    if i > 0 {
      ContentsAt(rows[1..], i - 1);
    }
  }

  lemma ContentsEverywhere(rows: seq<array<SqlValue>>)
    ensures forall i :: 0 <= i < |rows| ==> Contents(rows)[i] == rows[i][..]
  {
    forall i | 0 <= i < |rows| ensures Contents(rows)[i] == rows[i][..] {
      ContentsAt(rows, i);
    }
  }

  /** What a statement returns: the rows are new arrays. */
  datatype Answer = Answer(columns: seq<Text>, types: seq<SqlType>, rows: seq<array<SqlValue>>)

  lemma {:induction false} AssignedSnoc(row: Cells, ix: seq<nat>, vs: seq<Literal>, i: nat, v: Literal)
    requires |ix| == |vs| && i < |row| && forall j :: 0 <= j < |ix| ==> ix[j] < |row|
    ensures Assigned(row, ix + [i], vs + [v]) == Assigned(row, ix, vs)[i := v.value]
    decreases ix
  {
    if ix == [] {
      assert [i][1..] == [] && [v][1..] == [];
      assert ix + [i] == [i] && vs + [v] == [v];
    } else {
      assert (ix + [i])[1..] == ix[1..] + [i] && (vs + [v])[1..] == vs[1..] + [v];
      AssignedSnoc(row[ix[0] := vs[0].value], ix[1..], vs[1..], i, v);
    }
  }

  /** One column of a list, then the others. */
  lemma ResolveFrom(cols: seq<Column>, ids: seq<Identifier>, vs: seq<Literal>, seen: set<nat>, k: nat)
    requires |ids| == |vs| && k < |ids|
    ensures match CheckColumn(cols, ids[k], vs[k], seen)
            case Failure(e) => Resolve(cols, ids[k..], vs[k..], seen) == Failure(e)
            case Success(i) =>
              match Resolve(cols, ids[k + 1..], vs[k + 1..], seen + {i})
              case Failure(e) => Resolve(cols, ids[k..], vs[k..], seen) == Failure(e)
              case Success(rest) => Resolve(cols, ids[k..], vs[k..], seen) == Success([i] + rest)
  {
    hide CheckColumn, Assignable, Avoids;
    assert ids[k..][0] == ids[k] && vs[k..][0] == vs[k];
    assert ids[k..][1..] == ids[k + 1..] && vs[k..][1..] == vs[k + 1..];
  }

  class StoredTable {
    const columns: seq<Column>
    ghost const name: Text // under which the database keeps the table
    var rows: seq<array<SqlValue>>

    constructor (columns: seq<Column>, ghost name: Text)
      ensures this.columns == columns && this.name == name && rows == []
    {
      this.columns, this.name, rows := columns, name, [];
    }

    ghost function View(): Table
      reads this, rows
    {
      Table(columns, Contents(rows))
    }

    /** No two rows share an array. */
    ghost predicate Valid()
      reads this, rows
    {
      TableOk(View()) && forall i, j :: 0 <= i < j < |rows| ==> rows[i] != rows[j]
    }

    lemma NewIsValid()
      requires rows == [] && Distinct(columns)
      ensures Valid() && View() == Table(columns, [])
    {
    }

    method FindColumnIndex(id: Identifier) returns (r: Result<nat, SqlError>)
      ensures r == FindColumn(columns, id)
    {
      assert columns[0..] == columns;
      for i := 0 to |columns|
        invariant ColumnIndex(columns, id.name) == match ColumnIndex(columns[i..], id.name) case None => None case Some(k) => Some(k + i)
      {
        assert columns[i..][0] == columns[i] && columns[i..][1..] == columns[i + 1..];
        if columns[i].name == id.name {
          return Success(i);
        }
      }
      r := Failure(SqlError(id.position, UnknownColumn));
    }

    method CheckColumnType(index: nat, v: Literal) returns (r: Result<(), SqlError>)
      requires index < |columns|
      ensures r == CheckType(columns, index, v)
    {
      if columns[index].ty != v.value.Type() {
        return Failure(SqlError(v.position, TypeMismatch));
      }
      r := Success(());
    }

    method CheckColumnOnce(id: Identifier, v: Literal, seen: set<nat>) returns (r: Result<nat, SqlError>)
      ensures r == CheckColumn(columns, id, v, seen)
    {
      var index :- FindColumnIndex(id);
      if index in seen {
        return Failure(SqlError(id.position, DuplicateColumn));
      }
      var _ :- CheckColumnType(index, v);
      r := Success(index);
    }

    /** Put each value into its column; how many columns were set. */
    method FillRow(s: Statement, row: array<SqlValue>) returns (r: Result<nat, SqlError>)
      requires |s.columns| == |s.values| && row.Length == |columns|
      modifies row
      ensures match Resolve(columns, s.columns, s.values, {})
              case Failure(e) => r == Failure(e)
              case Success(ix) => r == Success(|ix|) && row[..] == Assigned(old(row[..]), ix, s.values)
    {
      hide Assigned, CheckColumn, Assignable, Avoids, Resolve;
      var seen: set<nat> := {};
      ghost var blank, ids, vs := row[..], s.columns, s.values;
      ghost var done: seq<nat> := [];
      ghost var whole := Resolve(columns, ids, vs, {});
      assert ids[0..] == ids && vs[0..] == vs && vs[..0] == [] && (whole.Success? ==> [] + whole.value == whole.value);
      AssignedNothing(blank);
      for i := 0 to |s.columns|
        invariant |done| == i == |seen| && forall j :: 0 <= j < |done| ==> done[j] < |columns|
        invariant row[..] == Assigned(blank, done, vs[..i])
        invariant match Resolve(columns, ids[i..], vs[i..], seen)
                  case Success(rest) => whole == Success(done + rest)
                  case Failure(e) => whole == Failure(e)
      {
        ResolveFrom(columns, ids, vs, seen, i);
        var index :- CheckColumnOnce(s.columns[i], s.values[i], seen);
        AssignedSnoc(blank, done, vs[..i], index, vs[i]);
        assert vs[..i + 1] == vs[..i] + [vs[i]];
        ghost var rest := Resolve(columns, ids[i + 1..], vs[i + 1..], seen + {index});
        assert rest.Success? ==> done + ([index] + rest.value) == done + [index] + rest.value;
        seen := seen + {index};
        row[index] := s.values[i].value;
        done := done + [index];
      }
      ResolveNothing(columns, seen);
      assert ids[|ids|..] == [] && vs[|vs|..] == [] && vs[..|vs|] == vs && done + [] == done;
      r := Success(|seen|);
    }

    method InsertRow(s: Statement) returns (err: Option<SqlError>)
      requires Valid()
      modifies this`rows
      ensures Valid()
      ensures match InsertedRow(old(View()), s)
              case Failure(e) => err == Some(e) && rows == old(rows) && View() == old(View())
              case Success(cells) =>
                && err.None? && View() == old(View()).(rows := old(View()).rows + [cells])
                && |rows| == |old(rows)| + 1 && rows[..|old(rows)|] == old(rows) && fresh(rows[|old(rows)|])
      ensures err.Some? ==> rows == old(rows) && View() == old(View())
    {
      hide Assigned, Resolve, TableOk, Contents;
      ghost var before := View();
      if |s.columns| != |s.values| {
        return Some(SqlError(s.table.position, CountMismatch));
      }
      var row := new SqlValue[|columns|](_ => IntegerValue(0));
      assert row[..] == seq(|columns|, _ => IntegerValue(0));
      var count := FillRow(s, row);
      if count.Failure? {
        return Some(count.error);
      }
      if count.value != |columns| {
        return Some(SqlError(s.table.position, MissingColumns));
      }
      ContentsSnoc(rows, row);
      InsertKeeps(before, s);
      rows := rows + [row];
      err := None;
    }

    /** The columns to set and the column of the condition, all checked before the first write. */
    method UpdateColumns(s: Statement) returns (r: Result<seq<nat>, SqlError>)
      requires |s.columns| == |s.values|
      ensures r == Resolve(columns, s.columns, s.values, {})
    {
      hide CheckColumn, Assignable, Avoids, Resolve;
      var indices: seq<nat> := [];
      var seen: set<nat> := {};
      ghost var ids, vs := s.columns, s.values;
      ghost var whole := Resolve(columns, ids, vs, {});
      assert ids[0..] == ids && vs[0..] == vs && (whole.Success? ==> [] + whole.value == whole.value);
      for i := 0 to |s.columns|
        invariant match Resolve(columns, ids[i..], vs[i..], seen)
                  case Success(rest) => whole == Success(indices + rest)
                  case Failure(e) => whole == Failure(e)
      {
        ResolveFrom(columns, ids, vs, seen, i);
        var index :- CheckColumnOnce(s.columns[i], s.values[i], seen);
        ghost var rest := Resolve(columns, ids[i + 1..], vs[i + 1..], seen + {index});
        assert rest.Success? ==> indices + ([index] + rest.value) == indices + [index] + rest.value;
        seen := seen + {index};
        indices := indices + [index];
      }
      ResolveNothing(columns, seen);
      assert ids[|ids|..] == [] && vs[|vs|..] == [] && indices + [] == indices;
      r := Success(indices);
    }

    method FilterColumn(c: Condition) returns (r: Result<nat, SqlError>)
      ensures r == Filter(Table(columns, []), c)
    {
      hide FindColumn;
      var i :- FindColumnIndex(c.column);
      var _ :- CheckColumnType(i, c.literal);
      r := Success(i);
    }

    /** Overwrite cells of one row. */
    method AssignRow(row: array<SqlValue>, indices: seq<nat>, vs: seq<Literal>)
      requires |indices| == |vs| && forall j :: 0 <= j < |indices| ==> indices[j] < row.Length
      modifies row
      ensures row[..] == Assigned(old(row[..]), indices, vs)
    {
      hide Assigned;
      ghost var before := row[..];
      AssignedNothing(before);
      assert indices[..0] == [] && vs[..0] == [];
      for i := 0 to |indices|
        invariant row[..] == Assigned(before, indices[..i], vs[..i])
      {
        AssignedSnoc(before, indices[..i], vs[..i], indices[i], vs[i]);
        assert indices[..i + 1] == indices[..i] + [indices[i]] && vs[..i + 1] == vs[..i] + [vs[i]];
        row[indices[i]] := vs[i].value;
      }
      assert indices[..|indices|] == indices && vs[..|vs|] == vs;
    }

    lemma WideArrays()
      requires Valid()
      ensures AllWide(Contents(rows), |columns|) && forall k :: 0 <= k < |rows| ==> rows[k].Length == |columns|
    {
      var cells := Contents(rows);
      ContentsEverywhere(rows);
      forall k | 0 <= k < |rows| ensures rows[k].Length == |columns| {
        assert cells[k] in cells && RowOk(columns, cells[k]);
      }
    }

    /** Every row is tested before it is changed, and no other row is touched meanwhile. */
    method WriteRows(indices: seq<nat>, vs: seq<Literal>, filter: nat, value: SqlValue)
      requires Valid() && Assignable(columns, indices, vs) && filter < |columns|
      modifies rows
      ensures Contents(rows) == UpdatedRows(old(Contents(rows)), indices, vs, Some((filter, value)), |columns|)
    {
      hide Assigned, SameValue, TableOk, Contents;
      WideArrays();
      ghost var w := Some((filter, value));
      ghost var before := Contents(rows);
      ContentsEverywhere(rows);
      for i := 0 to |rows|
        invariant forall k :: 0 <= k < i ==> rows[k][..] == UpdatedRow(before[k], indices, vs, w)
        invariant forall k :: i <= k < |rows| ==> rows[k][..] == before[k]
      {
        var row := rows[i];
        if SameValue(row[filter], value) {
          AssignRow(row, indices, vs);
        }
      }
      ContentsEverywhere(rows);
      assert Contents(rows) == UpdatedRows(before, indices, vs, w, |columns|);
    }

    method UpdateRows(s: Statement) returns (err: Option<SqlError>)
      requires Valid() && |s.columns| == |s.values| && s.condition.Some?
      modifies rows
      ensures Valid()
      ensures match UpdateIn(old(View()), s)
              case Failure(e) => err == Some(e) && View() == old(View())
              case Success(cells) => err.None? && View() == old(View()).(rows := cells)
      ensures err.Some? ==> View() == old(View())
    {
      hide Assignable, Resolve, UpdatedRows, Contents, FindColumn, CheckType, Avoids, TableOk;
      ghost var before := View();
      WideRows(before);
      var indices := UpdateColumns(s);
      if indices.Failure? {
        return Some(indices.error);
      }
      var filter := FilterColumn(s.condition.value);
      if filter.Failure? {
        return Some(filter.error);
      }
      // All checks are done before the first write, even when no row matches.
      WriteRows(indices.value, s.values, filter.value, s.condition.value.literal.value);
      UpdateKeeps(before, s);
      err := None;
    }

    method SelectColumns(s: Statement) returns (r: Result<seq<nat>, SqlError>)
      ensures r == Selection(Table(columns, []), s)
    {
      hide FindColumn;
      var selected: seq<nat> := [];
      if s.all {
        for i := 0 to |columns|
          invariant selected == seq(i, k => k)
        {
          selected := selected + [i];
        }
        return Success(selected);
      }
      ghost var ids := s.columns;
      ghost var whole := FindColumns(columns, ids);
      assert ids[0..] == ids && (whole.Success? ==> [] + whole.value == whole.value);
      for i := 0 to |s.columns|
        invariant match FindColumns(columns, ids[i..])
                  case Success(rest) => whole == Success(selected + rest)
                  case Failure(e) => whole == Failure(e)
      {
        assert ids[i..][0] == ids[i] && ids[i..][1..] == ids[i + 1..];
        var index :- FindColumnIndex(s.columns[i]);
        ghost var rest := FindColumns(columns, ids[i + 1..]);
        assert rest.Success? ==> selected + ([index] + rest.value) == selected + [index] + rest.value;
        selected := selected + [index];
      }
      assert ids[|ids|..] == [] && selected + [] == selected;
      r := Success(selected);
    }

    /** A copy of the selected cells of one row. */
    method ProjectRow(row: array<SqlValue>, selected: seq<nat>) returns (projected: array<SqlValue>)
      requires forall i :: i in selected ==> i < row.Length
      ensures fresh(projected) && projected[..] == Project(row[..], selected)
    {
      projected := new SqlValue[|selected|](_ => IntegerValue(0));
      assert forall k :: 0 <= k < |selected| ==> selected[k] in selected;
      for i := 0 to |selected|
        invariant forall k :: 0 <= k < i ==> selected[k] < row.Length && projected[k] == row[selected[k]]
      {
        projected[i] := row[selected[i]];
      }
      assert projected[..] == Project(row[..], selected);
    }

    method CopyRows(selected: seq<nat>, w: Where) returns (result: seq<array<SqlValue>>)
      requires Valid() && (forall i :: i in selected ==> i < |columns|) && (w.Some? ==> w.value.0 < |columns|)
      ensures fresh(result) && Contents(result) == SelectedRows(Contents(rows), selected, w, |columns|)
    {
      hide SameValue, Project, TableOk, Contents, SelectedRows, AllWide;
      WideArrays();
      result := [];
      NoContents();
      ghost var cells, done: seq<Cells> := Contents(rows), [];
      ghost var whole := SelectedRows(cells, selected, w, |columns|);
      assert cells[0..] == cells && [] + whole == whole;
      for i := 0 to |rows|
        invariant fresh(result) && Contents(rows) == cells && Contents(result) == done
        invariant AllWide(cells[i..], |columns|) && done + SelectedRows(cells[i..], selected, w, |columns|) == whole
      {
        RowSelected(cells, selected, w, |columns|, i);
        ContentsAt(rows, i);
        var keep := w.None? || SameValue(rows[i][w.value.0], w.value.1);
        assert keep == Matches(cells[i], w);
        if keep {
          var projected := ProjectRow(rows[i], selected);
          ContentsSnoc(result, projected);
          Regrouped(done, projected[..], SelectedRows(cells[i + 1..], selected, w, |columns|));
          result := result + [projected];
          done := done + [projected[..]];
        }
      }
      NoneSelected(selected, w, |columns|);
      assert cells[|rows|..] == [] && done + [] == done;
    }

    method SelectRows(s: Statement) returns (r: Result<Answer, SqlError>)
      requires Valid()
      ensures match SelectFrom(View(), s)
              case Failure(e) => r == Failure(e)
              case Success(q) => r.Success? && r.value.columns == q.columns && r.value.types == q.types
                                 && fresh(r.value.rows) && Contents(r.value.rows) == q.rows
    {
      hide Contents, SelectedRows, TableOk, FindColumns;
      var selected :- SelectColumns(s);
      var w: Where := None;
      if s.condition.Some? {
        var filter :- FilterColumn(s.condition.value);
        w := Some((filter, s.condition.value.literal.value));
      }
      var rows := CopyRows(selected, w);
      r := Success(Answer(NamesOf(Table(columns, []), selected), TypesOf(Table(columns, []), selected), rows));
    }
  }

  /** One row of a table, then the others. */
  lemma RowSelected(cells: seq<Cells>, sel: seq<nat>, w: Where, width: nat, i: nat)
    requires i < |cells| && AllWide(cells, width) && forall k :: k in sel ==> k < width
    ensures AllWide(cells[i..], width) && AllWide(cells[i + 1..], width) && |cells[i]| == width
    ensures SelectedRows(cells[i..], sel, w, width)
            == if Matches(cells[i], w) then [Project(cells[i], sel)] + SelectedRows(cells[i + 1..], sel, w, width) else SelectedRows(cells[i + 1..], sel, w, width)
  {
    hide Matches, Project;
    assert cells[i] in cells && cells[i..][0] == cells[i] && cells[i..][1..] == cells[i + 1..];
  }

  lemma NoneSelected(sel: seq<nat>, w: Where, width: nat)
    requires forall k :: k in sel ==> k < width
    ensures SelectedRows([], sel, w, width) == []
  {
  }

  lemma Regrouped(a: seq<Cells>, x: Cells, b: seq<Cells>)
    ensures a + ([x] + b) == a + [x] + b
  {
  }

  lemma NoContents()
    ensures Contents([]) == []
  {
  }

  lemma {:induction false} ContentsSnoc(rows: seq<array<SqlValue>>, row: array<SqlValue>)
    ensures Contents(rows + [row]) == Contents(rows) + [row[..]]
  {
    ContentsEverywhere(rows + [row]);
    ContentsEverywhere(rows);
  }

  lemma ResolveNothing(cols: seq<Column>, seen: set<nat>)
    ensures Resolve(cols, [], [], seen) == Success([])
  {
  }

  lemma AssignedNothing(row: Cells)
    ensures Assigned(row, [], []) == row
  {
  }
}
