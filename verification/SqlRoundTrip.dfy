/** Every rendering of a statement parses back to that statement. */
module SqlRoundTrip {
  import opened Prelude
  import opened Bytes
  import opened Floats
  import opened SqlLexer
  import opened SqlGrammar
  import opened SqlPrinting

  // ---- Statements and their items ----

  /** The fields its operation uses are filled, and the others are empty. */
  predicate Formed(s: Statement) {
    match s.operation
    case Create => s.definitions != [] && s.columns == [] && s.values == [] && !s.all && s.condition.None?
    case Insert => s.definitions == [] && s.columns != [] && s.values != [] && !s.all && s.condition.None?
    case Select => s.definitions == [] && s.values == [] && s.all == (s.columns == [])
    case Update => s.definitions == [] && |s.columns| == |s.values| > 0 && !s.all && s.condition.Some?
  }

  /** The assignments of an UPDATE, as pairs. */
  function SetsOf(s: Statement): (sets: seq<Condition>)
    requires |s.columns| == |s.values|
    ensures |sets| == |s.columns|
  {
    seq(|s.columns|, k requires 0 <= k < |s.columns| => Condition(s.columns[k], s.values[k]))
  }

  function WhereItems(s: Statement, reals: Reals): seq<Item>
    requires Formed(s)
  {
    if s.condition.None? then [] else [Key("WHERE")] + AssignmentItem(s.condition.value, reals)
  }

  /** What a SELECT selects: the columns, or `*`. */
  function SelectedItems(s: Statement): seq<Item> {
    if s.all then [Punct(Star)] else NamesItems(s.columns)
  }

  /** Everything between the first keyword and the semicolon. */
  function BodyItems(s: Statement, reals: Reals): seq<Item>
    requires Formed(s)
  {
    match s.operation
    case Create =>
      [Key("TABLE"), NameItem(s.table), Punct(LeftParen)] + DefinitionItems(s.definitions) + [Punct(RightParen)]
    case Insert =>
      [Key("INTO"), NameItem(s.table), Punct(LeftParen)] + NamesItems(s.columns)
      + [Punct(RightParen), Key("VALUES"), Punct(LeftParen)] + ValuesItems(s.values, reals) + [Punct(RightParen)]
    case Select =>
      SelectedItems(s) + [Key("FROM"), NameItem(s.table)] + WhereItems(s, reals)
    case Update =>
      [NameItem(s.table), Key("SET")] + AssignmentItems(SetsOf(s), reals) + WhereItems(s, reals)
  }

  function Verb(op: Operation): string {
    match op
    case Create => "CREATE"
    case Insert => "INSERT"
    case Select => "SELECT"
    case Update => "UPDATE"
  }

  function StatementItems(s: Statement, reals: Reals): seq<Item>
    requires Formed(s)
  {
    [Key(Verb(s.operation))] + BodyItems(s, reals) + [Punct(Semicolon)]
  }

  // ---- Tokens that show items ----

  function LexemeOf(t: Token): Lexeme {
    Lexeme(t.kind, t.text)
  }

  ghost predicate Shows(ts: seq<Token>, i: nat, items: seq<Item>) {
    && i + |items| < |ts|
    && forall k :: 0 <= k < |items| ==> Fits(LexemeOf(ts[i + k]), items[k])
  }

  lemma ShowsParts(ts: seq<Token>, i: nat, a: seq<Item>, b: seq<Item>)
    requires Shows(ts, i, a + b)
    ensures Shows(ts, i, a) && Shows(ts, i + |a|, b)
  {
    hide Fits;
    forall k | 0 <= k < |a| ensures Fits(LexemeOf(ts[i + k]), a[k]) {
      assert (a + b)[k] == a[k];
    }
    forall k | 0 <= k < |b| ensures Fits(LexemeOf(ts[i + |a| + k]), b[k]) {
      assert (a + b)[|a| + k] == b[k] && Fits(LexemeOf(ts[i + (|a| + k)]), (a + b)[|a| + k]);
    }
  }

  lemma ShowsFirst(ts: seq<Token>, i: nat, item: Item, rest: seq<Item>)
    requires Shows(ts, i, [item] + rest)
    ensures Fits(LexemeOf(ts[i]), item) && Shows(ts, i + 1, rest)
  {
    hide Fits;
    ShowsParts(ts, i, [item], rest);
    assert Fits(LexemeOf(ts[i + 0]), [item][0]);
  }

  /** A phrase is read back and ends at `next`. */
  ghost predicate Back<T>(r: Phrase<T>, next: nat) {
    r.Success? && r.value.1 == next
  }

  // ---- Lists ----

  lemma {:induction false} NamesBack(ts: seq<Token>, i: nat, ids: seq<Identifier>)
    requires Cursor(ts, i) && ids != [] && Shows(ts, i, NamesItems(ids)) && ts[i + |NamesItems(ids)|].kind != Comma
    ensures Back(ParseIdentifiers(ts, i), i + |NamesItems(ids)|)
    ensures BareNames(ParseIdentifiers(ts, i).value.0) == BareNames(ids)
    decreases ids
  {
    hide BareNames, Shows, ParseIdentifier, NameItem, Fits;
    if |ids| == 1 {
      assert NamesItems(ids) == [NameItem(ids[0])] + [];
      ShowsFirst(ts, i, NameItem(ids[0]), []);
      NameBack(ts, i, ids[0]);
      NoBareNames();
      BareNamesCons(ParseIdentifier(ts, i).value.0, [], ids);
      assert [ParseIdentifier(ts, i).value.0] + [] == [ParseIdentifier(ts, i).value.0];
    } else {
      var rest := NamesItems(ids[1..]);
      assert NamesItems(ids) == [NameItem(ids[0])] + ([Punct(Comma)] + rest);
      ShowsFirst(ts, i, NameItem(ids[0]), [Punct(Comma)] + rest);
      ShowsFirst(ts, i + 1, Punct(Comma), rest);
      ShowsLength(ts, i + 2, rest);
      CommaBack(ts, i + 1);
      NameBack(ts, i, ids[0]);
      NamesBack(ts, i + 2, ids[1..]);
      BareNamesCons(ParseIdentifier(ts, i).value.0, ParseIdentifiers(ts, i + 2).value.0, ids);
    }
  }

  lemma NameBack(ts: seq<Token>, i: nat, id: Identifier)
    requires Cursor(ts, i) && Fits(LexemeOf(ts[i]), NameItem(id))
    ensures Back(ParseIdentifier(ts, i), i + 1) && BareName(ParseIdentifier(ts, i).value.0) == BareName(id)
  {
  }

  lemma CommaBack(ts: seq<Token>, i: nat)
    requires i < |ts| && Fits(LexemeOf(ts[i]), Punct(Comma))
    ensures ts[i].kind == Comma
  {
  }

  lemma KeywordBack(ts: seq<Token>, i: nat, w: string)
    requires Cursor(ts, i) && Fits(LexemeOf(ts[i]), Key(w))
    ensures IsKeyword(ts[i], w) && ts[i].kind == Word && ExpectKeyword(ts, i, w) == Success(((), i + 1))
  {
    hide EqualFold, Ascii;
  }

  lemma PunctBack(ts: seq<Token>, i: nat, k: Kind)
    requires Cursor(ts, i) && k != End && Fits(LexemeOf(ts[i]), Punct(k))
    ensures ts[i].kind == k && Expect(ts, i, k, ExpectedPunctuation) == Success(((), i + 1))
  {
  }

  lemma NoBareNames()
    ensures BareNames([]) == []
  {
  }

  lemma BareNamesCons(id: Identifier, tail: seq<Identifier>, ids: seq<Identifier>)
    requires ids != [] && BareName(id) == BareName(ids[0]) && BareNames(tail) == BareNames(ids[1..])
    ensures BareNames([id] + tail) == BareNames(ids)
  {
    assert |tail| == |BareNames(tail)| == |ids| - 1;
    forall k | 0 <= k < |tail| ensures BareName(tail[k]) == BareName(ids[k + 1]) {
      assert BareNames(tail)[k] == BareNames(ids[1..])[k];
    }
  }

  lemma LiteralBack(ts: seq<Token>, i: nat, v: Literal, reals: Reals)
    requires Cursor(ts, i) && Fits(LexemeOf(ts[i]), ValueItem(v, reals))
    ensures Back(ParseLiteral(ts, i, reals), i + 1) && BareValue(ParseLiteral(ts, i, reals).value.0) == BareValue(v)
  {
    hide ParseInteger;
  }

  lemma {:induction false} LiteralsBack(ts: seq<Token>, i: nat, vs: seq<Literal>, reals: Reals)
    requires Cursor(ts, i) && vs != []
    requires Shows(ts, i, ValuesItems(vs, reals)) && ts[i + |ValuesItems(vs, reals)|].kind != Comma
    ensures Back(ParseLiterals(ts, i, reals), i + |ValuesItems(vs, reals)|)
    ensures BareValues(ParseLiterals(ts, i, reals).value.0) == BareValues(vs)
    decreases vs
  {
    hide ParseLiteral, ValueItem;
    if |vs| == 1 {
      ShowsFirst(ts, i, ValueItem(vs[0], reals), []);
      LiteralBack(ts, i, vs[0], reals);
    } else {
      var rest := ValuesItems(vs[1..], reals);
      assert ValuesItems(vs, reals) == [ValueItem(vs[0], reals)] + ([Punct(Comma)] + rest);
      ShowsFirst(ts, i, ValueItem(vs[0], reals), [Punct(Comma)] + rest);
      ShowsFirst(ts, i + 1, Punct(Comma), rest);
      LiteralBack(ts, i, vs[0], reals);
      LiteralsBack(ts, i + 2, vs[1..], reals);
      BareValuesCons(ParseLiteral(ts, i, reals).value.0, ParseLiterals(ts, i + 2, reals).value.0, vs);
    }
  }

  lemma BareValuesCons(v: Literal, tail: seq<Literal>, vs: seq<Literal>)
    requires vs != [] && BareValue(v) == BareValue(vs[0]) && BareValues(tail) == BareValues(vs[1..])
    ensures BareValues([v] + tail) == BareValues(vs)
  {
    assert |tail| == |BareValues(tail)| == |vs| - 1;
    forall k | 0 <= k < |tail| ensures BareValue(tail[k]) == BareValue(vs[k + 1]) {
      assert BareValues(tail)[k] == BareValues(vs[1..])[k];
    }
  }

  lemma KeywordsDiffer()
    ensures !EqualFold(Ascii("REAL"), Ascii("INTEGER")) && !EqualFold(Ascii("TEXT"), Ascii("INTEGER")) && !EqualFold(Ascii("TEXT"), Ascii("REAL"))
    ensures !EqualFold(Ascii("INSERT"), Ascii("CREATE")) && !EqualFold(Ascii("SELECT"), Ascii("CREATE")) && !EqualFold(Ascii("UPDATE"), Ascii("CREATE"))
    ensures !EqualFold(Ascii("SELECT"), Ascii("INSERT")) && !EqualFold(Ascii("UPDATE"), Ascii("INSERT")) && !EqualFold(Ascii("UPDATE"), Ascii("SELECT"))
  {
    assert Lower(Ascii("TEXT")[0]) != Lower(Ascii("REAL")[0]);
    assert Lower(Ascii("INSERT")[0]) != Lower(Ascii("CREATE")[0]);
    assert Lower(Ascii("SELECT")[0]) != Lower(Ascii("CREATE")[0]);
    assert Lower(Ascii("UPDATE")[0]) != Lower(Ascii("CREATE")[0]);
    assert Lower(Ascii("SELECT")[0]) != Lower(Ascii("INSERT")[0]);
    assert Lower(Ascii("UPDATE")[0]) != Lower(Ascii("INSERT")[0]);
    assert Lower(Ascii("UPDATE")[0]) != Lower(Ascii("SELECT")[0]);
  }

  /** A word that is one keyword is no other. */
  lemma FoldOther(t: Text, a: Text, b: Text)
    requires EqualFold(t, a) && EqualFold(t, b)
    ensures EqualFold(a, b)
  {
  }

  lemma TypeBack(ts: seq<Token>, i: nat, ty: SqlType)
    requires Cursor(ts, i) && Fits(LexemeOf(ts[i]), Key(TypeWord(ty)))
    ensures ParseType(ts, i) == Success((ty, i + 1))
  {
    hide EqualFold;
    KeywordsDiffer();
    var t := ts[i].text;
    if EqualFold(t, Ascii("INTEGER")) && !ty.IntegerType? { FoldOther(t, Ascii(TypeWord(ty)), Ascii("INTEGER")); }
    if EqualFold(t, Ascii("REAL")) && ty.TextType? { FoldOther(t, Ascii(TypeWord(ty)), Ascii("REAL")); }
  }

  lemma DefinitionBack(ts: seq<Token>, i: nat, d: ColumnDefinition)
    requires Cursor(ts, i) && Shows(ts, i, DefinitionItem(d))
    ensures Back(ParseDefinition(ts, i), i + 2)
    ensures BareName(ParseDefinition(ts, i).value.0.id) == BareName(d.id) && ParseDefinition(ts, i).value.0.ty == d.ty
  {
    hide ParseType, EqualFold, Ascii;
    assert DefinitionItem(d) == [NameItem(d.id)] + [Key(TypeWord(d.ty))];
    ShowsFirst(ts, i, NameItem(d.id), [Key(TypeWord(d.ty))]);
    ShowsFirst(ts, i + 1, Key(TypeWord(d.ty)), []);
    TypeBack(ts, i + 1, d.ty);
  }

  lemma {:induction false} DefinitionsBack(ts: seq<Token>, i: nat, ds: seq<ColumnDefinition>)
    requires Cursor(ts, i) && ds != [] && Shows(ts, i, DefinitionItems(ds)) && ts[i + |DefinitionItems(ds)|].kind != Comma
    ensures Back(ParseDefinitions(ts, i), i + |DefinitionItems(ds)|)
    ensures BareDefinitions(ParseDefinitions(ts, i).value.0) == BareDefinitions(ds)
    decreases ds
  {
    hide ParseDefinition, BareDefinitions, Shows, DefinitionItem;
    ItemWidths(ds[0]);
    if |ds| == 1 {
      DefinitionBack(ts, i, ds[0]);
      NoBareDefinitions();
      BareDefinitionsCons(ParseDefinition(ts, i).value.0, [], ds);
      assert [ParseDefinition(ts, i).value.0] + [] == [ParseDefinition(ts, i).value.0];
    } else {
      var head, rest := DefinitionItem(ds[0]), DefinitionItems(ds[1..]);
      assert DefinitionItems(ds) == head + ([Punct(Comma)] + rest);
      ShowsParts(ts, i, head, [Punct(Comma)] + rest);
      ShowsFirst(ts, i + 2, Punct(Comma), rest);
      ShowsLength(ts, i + 3, rest);
      DefinitionBack(ts, i, ds[0]);
      DefinitionsBack(ts, i + 3, ds[1..]);
      BareDefinitionsCons(ParseDefinition(ts, i).value.0, ParseDefinitions(ts, i + 3).value.0, ds);
    }
  }

  lemma ItemWidths(d: ColumnDefinition)
    ensures |DefinitionItem(d)| == 2
  {
  }

  lemma NoBareDefinitions()
    ensures BareDefinitions([]) == []
  {
  }

  lemma ShowsLength(ts: seq<Token>, i: nat, items: seq<Item>)
    requires Shows(ts, i, items)
    ensures i + |items| < |ts|
  {
  }

  lemma BareDefinitionsCons(d: ColumnDefinition, tail: seq<ColumnDefinition>, ds: seq<ColumnDefinition>)
    requires ds != [] && BareName(d.id) == BareName(ds[0].id) && d.ty == ds[0].ty && BareDefinitions(tail) == BareDefinitions(ds[1..])
    ensures BareDefinitions([d] + tail) == BareDefinitions(ds)
  {
    assert |tail| == |BareDefinitions(tail)| == |ds| - 1;
    forall k | 0 <= k < |tail| ensures BareName(tail[k].id) == BareName(ds[k + 1].id) && tail[k].ty == ds[k + 1].ty {
      assert BareDefinitions(tail)[k] == BareDefinitions(ds[1..])[k];
    }
  }

  lemma AssignmentBack(ts: seq<Token>, i: nat, a: Condition, reals: Reals)
    requires Cursor(ts, i) && Shows(ts, i, AssignmentItem(a, reals))
    ensures Back(ParseAssignment(ts, i, reals), i + 3) && BareCondition(ParseAssignment(ts, i, reals).value.0) == BareCondition(a)
  {
    hide ParseLiteral, ValueItem;
    assert AssignmentItem(a, reals) == [NameItem(a.column)] + ([Punct(Equal)] + [ValueItem(a.literal, reals)]);
    ShowsFirst(ts, i, NameItem(a.column), [Punct(Equal)] + [ValueItem(a.literal, reals)]);
    ShowsFirst(ts, i + 1, Punct(Equal), [ValueItem(a.literal, reals)]);
    ShowsFirst(ts, i + 2, ValueItem(a.literal, reals), []);
    LiteralBack(ts, i + 2, a.literal, reals);
  }

  lemma {:induction false} AssignmentsBack(ts: seq<Token>, i: nat, sets: seq<Condition>, reals: Reals)
    requires Cursor(ts, i) && sets != []
    requires Shows(ts, i, AssignmentItems(sets, reals)) && ts[i + |AssignmentItems(sets, reals)|].kind != Comma
    ensures Back(ParseAssignments(ts, i, reals), i + |AssignmentItems(sets, reals)|)
    ensures BareConditions(ParseAssignments(ts, i, reals).value.0) == BareConditions(sets)
    decreases sets
  {
    hide ParseAssignment, BareConditions, Shows, AssignmentItem;
    AssignmentWidth(sets[0], reals);
    if |sets| == 1 {
      AssignmentBack(ts, i, sets[0], reals);
      NoBareConditions();
      BareConditionsCons(ParseAssignment(ts, i, reals).value.0, [], sets);
      assert [ParseAssignment(ts, i, reals).value.0] + [] == [ParseAssignment(ts, i, reals).value.0];
    } else {
      var head, rest := AssignmentItem(sets[0], reals), AssignmentItems(sets[1..], reals);
      assert AssignmentItems(sets, reals) == head + ([Punct(Comma)] + rest);
      ShowsParts(ts, i, head, [Punct(Comma)] + rest);
      ShowsFirst(ts, i + 3, Punct(Comma), rest);
      ShowsLength(ts, i + 4, rest);
      AssignmentBack(ts, i, sets[0], reals);
      AssignmentsBack(ts, i + 4, sets[1..], reals);
      BareConditionsCons(ParseAssignment(ts, i, reals).value.0, ParseAssignments(ts, i + 4, reals).value.0, sets);
    }
  }

  lemma AssignmentWidth(a: Condition, reals: Reals)
    ensures |AssignmentItem(a, reals)| == 3
  {
  }

  lemma NoBareConditions()
    ensures BareConditions([]) == []
  {
  }

  lemma BareConditionsCons(c: Condition, tail: seq<Condition>, cs: seq<Condition>)
    requires cs != [] && BareCondition(c) == BareCondition(cs[0]) && BareConditions(tail) == BareConditions(cs[1..])
    ensures BareConditions([c] + tail) == BareConditions(cs)
  {
    assert |tail| == |BareConditions(tail)| == |cs| - 1;
    forall k | 0 <= k < |tail| ensures BareCondition(tail[k]) == BareCondition(cs[k + 1]) {
      assert BareConditions(tail)[k] == BareConditions(cs[1..])[k];
    }
  }

  // ---- Statements ----

  lemma CursorAt(ts: seq<Token>, i: nat, j: nat)
    requires Cursor(ts, i) && j < |ts|
    ensures Cursor(ts, j)
  {
  }

  lemma SameBare(x: Statement, s: Statement)
    requires x.operation == s.operation && BareName(x.table) == BareName(s.table) && x.all == s.all
    requires BareDefinitions(x.definitions) == BareDefinitions(s.definitions)
    requires BareNames(x.columns) == BareNames(s.columns) && BareValues(x.values) == BareValues(s.values)
    requires if s.condition.None? then x.condition.None? else x.condition.Some? && BareCondition(x.condition.value) == BareCondition(s.condition.value)
    ensures Bare(x) == Bare(s)
  {
    hide BareName, BareNames, BareValues, BareDefinitions, BareCondition;
  }

  lemma CreateItems(s: Statement, reals: Reals)
    requires Formed(s) && s.operation.Create?
    ensures BodyItems(s, reals) == [Key("TABLE"), NameItem(s.table), Punct(LeftParen)] + (DefinitionItems(s.definitions) + [Punct(RightParen)])
  {
    hide DefinitionItems, NameItem, Punct;
  }

  lemma InsertItems(s: Statement, reals: Reals)
    requires Formed(s) && s.operation.Insert?
    ensures BodyItems(s, reals) == [Key("INTO"), NameItem(s.table), Punct(LeftParen)] + (NamesItems(s.columns) + TailItems(s, reals))
  {
    hide NamesItems, ValuesItems, NameItem, Punct;
  }

  lemma SelectItems(s: Statement, reals: Reals)
    requires Formed(s) && s.operation.Select?
    ensures BodyItems(s, reals) == SelectedItems(s) + ([Key("FROM")] + ([NameItem(s.table)] + WhereItems(s, reals)))
  {
    hide NamesItems, WhereItems, NameItem, Punct;
  }

  lemma UpdateItems(s: Statement, reals: Reals)
    requires Formed(s) && s.operation.Update?
    ensures BodyItems(s, reals) == [NameItem(s.table)] + ([Key("SET")] + (AssignmentItems(SetsOf(s), reals) + WhereItems(s, reals)))
  {
    hide AssignmentItems, WhereItems, NameItem, SetsOf;
  }

  /** A keyword, a table name and an opening parenthesis. */
  lemma ListStart(ts: seq<Token>, i: nat, w: string, id: Identifier, rest: seq<Item>)
    requires Cursor(ts, i) && Shows(ts, i, [Key(w), NameItem(id), Punct(LeftParen)] + rest)
    ensures Cursor(ts, i + 1) && Cursor(ts, i + 2) && Cursor(ts, i + 3) && Shows(ts, i + 3, rest)
    ensures ExpectKeyword(ts, i, w) == Success(((), i + 1))
    ensures Back(ParseIdentifier(ts, i + 1), i + 2) && BareName(ParseIdentifier(ts, i + 1).value.0) == BareName(id)
    ensures Expect(ts, i + 2, LeftParen, ExpectedPunctuation) == Success(((), i + 3))
  {
    hide Shows, Fits, Expect, ExpectKeyword, ParseIdentifier, NameItem, Punct;
    var items := [Key(w), NameItem(id), Punct(LeftParen)] + rest;
    ShowsLength(ts, i, items);
    assert items == [Key(w)] + ([NameItem(id)] + ([Punct(LeftParen)] + rest));
    ShowsFirst(ts, i, Key(w), [NameItem(id)] + ([Punct(LeftParen)] + rest));
    KeywordBack(ts, i, w);
    ShowsFirst(ts, i + 1, NameItem(id), [Punct(LeftParen)] + rest);
    NameBack(ts, i + 1, id);
    ShowsFirst(ts, i + 2, Punct(LeftParen), rest);
    PunctBack(ts, i + 2, LeftParen);
  }

  /** A list and its closing parenthesis. */
  lemma ListEnd(ts: seq<Token>, i: nat, items: seq<Item>)
    requires Cursor(ts, i) && Shows(ts, i, items + [Punct(RightParen)])
    ensures Shows(ts, i, items) && Cursor(ts, i + |items|) && ts[i + |items|].kind == RightParen
    ensures i + |items| + 1 < |ts| && Expect(ts, i + |items|, RightParen, ExpectedPunctuation) == Success(((), i + |items| + 1))
  {
    hide Shows, Fits, Expect, Punct;
    ShowsLength(ts, i, items + [Punct(RightParen)]);
    ShowsParts(ts, i, items, [Punct(RightParen)]);
    assert [Punct(RightParen)] + [] == [Punct(RightParen)];
    ShowsFirst(ts, i + |items|, Punct(RightParen), []);
    PunctBack(ts, i + |items|, RightParen);
  }

  lemma CreateParsed(ts: seq<Token>, i: nat, id: Identifier, definitions: seq<ColumnDefinition>, d: nat)
    requires Cursor(ts, i) && i + 3 < |ts| && d + 1 < |ts|
    requires ExpectKeyword(ts, i, "TABLE") == Success(((), i + 1)) && ParseIdentifier(ts, i + 1) == Success((id, i + 2))
    requires Expect(ts, i + 2, LeftParen, ExpectedPunctuation) == Success(((), i + 3))
    requires ParseDefinitions(ts, i + 3) == Success((definitions, d)) && Expect(ts, d, RightParen, ExpectedPunctuation) == Success(((), d + 1))
    ensures ParseCreate(ts, i) == Success((Empty(Create).(table := id, definitions := definitions), d + 1))
  {
    hide ExpectKeyword, ParseIdentifier, Expect, ParseDefinitions;
  }

  lemma CreateBack(ts: seq<Token>, i: nat, s: Statement, reals: Reals)
    requires Cursor(ts, i) && Formed(s) && s.operation.Create? && Shows(ts, i, BodyItems(s, reals))
    ensures Back(ParseCreate(ts, i), i + |BodyItems(s, reals)|) && Bare(ParseCreate(ts, i).value.0) == Bare(s)
  {
    hide ParseCreate, ParseIdentifier, ParseDefinitions, DefinitionItems, Expect, ExpectKeyword, Shows, Fits, NameItem, Punct,
         BareName, BareNames, BareValues, BareDefinitions, BodyItems, Bare, Cursor;
    var ds := DefinitionItems(s.definitions);
    CreateItems(s, reals);
    ListStart(ts, i, "TABLE", s.table, ds + [Punct(RightParen)]);
    ListEnd(ts, i + 3, ds);
    DefinitionsBack(ts, i + 3, s.definitions);
    CreateParsed(ts, i, ParseIdentifier(ts, i + 1).value.0, ParseDefinitions(ts, i + 3).value.0, i + 3 + |ds|);
    SameBare(ParseCreate(ts, i).value.0, s);
  }

  /** The second half of an INSERT: `) VALUES ( ... )`. */
  function TailItems(s: Statement, reals: Reals): seq<Item>
    requires Formed(s)
  {
    [Punct(RightParen)] + ([Key("VALUES")] + ([Punct(LeftParen)] + (ValuesItems(s.values, reals) + [Punct(RightParen)])))
  }

  lemma TailLength(s: Statement, reals: Reals)
    requires Formed(s)
    ensures |TailItems(s, reals)| == |ValuesItems(s.values, reals)| + 4
  {
    hide ValuesItems;
  }

  lemma NamesEnd(ts: seq<Token>, j: nat, s: Statement, reals: Reals)
    requires Cursor(ts, j) && Formed(s) && s.operation.Insert? && Shows(ts, j, TailItems(s, reals))
    ensures j + 3 + |ValuesItems(s.values, reals)| + 1 < |ts| && ts[j].kind == RightParen
    ensures Cursor(ts, j + 1) && Cursor(ts, j + 2) && Cursor(ts, j + 3) && Cursor(ts, j + 3 + |ValuesItems(s.values, reals)|)
    ensures Expect(ts, j, RightParen, ExpectedPunctuation) == Success(((), j + 1))
    ensures ExpectKeyword(ts, j + 1, "VALUES") == Success(((), j + 2))
    ensures Expect(ts, j + 2, LeftParen, ExpectedPunctuation) == Success(((), j + 3))
    ensures Back(ParseLiterals(ts, j + 3, reals), j + 3 + |ValuesItems(s.values, reals)|)
    ensures BareValues(ParseLiterals(ts, j + 3, reals).value.0) == BareValues(s.values)
    ensures Expect(ts, j + 3 + |ValuesItems(s.values, reals)|, RightParen, ExpectedPunctuation) == Success(((), j + 3 + |ValuesItems(s.values, reals)| + 1))
  {
    hide ParseLiterals, ValuesItems, BareValues, Shows, Fits, Expect, ExpectKeyword, Punct;
    var vs := ValuesItems(s.values, reals);
    var last := vs + [Punct(RightParen)];
    ShowsLength(ts, j, TailItems(s, reals));
    ShowsFirst(ts, j, Punct(RightParen), [Key("VALUES")] + ([Punct(LeftParen)] + last));
    PunctBack(ts, j, RightParen);
    ShowsFirst(ts, j + 1, Key("VALUES"), [Punct(LeftParen)] + last);
    KeywordBack(ts, j + 1, "VALUES");
    ShowsFirst(ts, j + 2, Punct(LeftParen), last);
    PunctBack(ts, j + 2, LeftParen);
    ListEnd(ts, j + 3, vs);
    LiteralsBack(ts, j + 3, s.values, reals);
  }

  lemma InsertParsed(ts: seq<Token>, i: nat, reals: Reals, id: Identifier, columns: seq<Identifier>, d: nat, values: seq<Literal>, h: nat)
    requires Cursor(ts, i) && i + 3 < |ts| && d + 3 < |ts| && h + 1 < |ts|
    requires ExpectKeyword(ts, i, "INTO") == Success(((), i + 1)) && ParseIdentifier(ts, i + 1) == Success((id, i + 2))
    requires Expect(ts, i + 2, LeftParen, ExpectedPunctuation) == Success(((), i + 3)) && ParseIdentifiers(ts, i + 3) == Success((columns, d))
    requires Expect(ts, d, RightParen, ExpectedPunctuation) == Success(((), d + 1)) && ExpectKeyword(ts, d + 1, "VALUES") == Success(((), d + 2))
    requires Expect(ts, d + 2, LeftParen, ExpectedPunctuation) == Success(((), d + 3)) && ParseLiterals(ts, d + 3, reals) == Success((values, h))
    requires Expect(ts, h, RightParen, ExpectedPunctuation) == Success(((), h + 1))
    ensures ParseInsert(ts, i, reals) == Success((Empty(Insert).(table := id, columns := columns, values := values), h + 1))
  {
    hide ExpectKeyword, ParseIdentifier, Expect, ParseIdentifiers, ParseLiterals;
  }

  lemma InsertBack(ts: seq<Token>, i: nat, s: Statement, reals: Reals)
    requires Cursor(ts, i) && Formed(s) && s.operation.Insert? && Shows(ts, i, BodyItems(s, reals))
    ensures Back(ParseInsert(ts, i, reals), i + |BodyItems(s, reals)|) && Bare(ParseInsert(ts, i, reals).value.0) == Bare(s)
  {
    hide ParseInsert, ParseIdentifier, ParseIdentifiers, ParseLiterals, NamesItems, ValuesItems, BareName, BareNames, BareValues, BareDefinitions,
         Shows, Fits, Expect, ExpectKeyword, NameItem, Punct, BodyItems, Bare, TailItems, Cursor;
    var ns, mid := NamesItems(s.columns), TailItems(s, reals);
    InsertItems(s, reals);
    TailLength(s, reals);
    ListStart(ts, i, "INTO", s.table, ns + mid);
    ShowsLength(ts, i + 3, ns + mid);
    ShowsParts(ts, i + 3, ns, mid);
    var d := i + 3 + |ns|;
    CursorAt(ts, i, d);
    NamesEnd(ts, d, s, reals);
    NamesBack(ts, i + 3, s.columns);
    InsertParsed(ts, i, reals, ParseIdentifier(ts, i + 1).value.0, ParseIdentifiers(ts, i + 3).value.0, d,
                 ParseLiterals(ts, d + 3, reals).value.0, d + 3 + |ValuesItems(s.values, reals)|);
    SameBare(ParseInsert(ts, i, reals).value.0, s);
  }

  lemma WhereBack(ts: seq<Token>, i: nat, s: Statement, reals: Reals)
    requires Cursor(ts, i) && Formed(s) && s.condition.Some? && Shows(ts, i, WhereItems(s, reals))
    ensures IsKeyword(ts[i], "WHERE") && ts[i].kind == Word && Cursor(ts, i + 1) && ExpectKeyword(ts, i, "WHERE") == Success(((), i + 1))
    ensures i + |WhereItems(s, reals)| < |ts| && Back(ParseAssignment(ts, i + 1, reals), i + |WhereItems(s, reals)|)
    ensures BareCondition(ParseAssignment(ts, i + 1, reals).value.0) == BareCondition(s.condition.value)
  {
    hide ParseAssignment, EqualFold, Ascii, Shows, Fits, AssignmentItem, ExpectKeyword, BareCondition;
    ShowsLength(ts, i, WhereItems(s, reals));
    ShowsFirst(ts, i, Key("WHERE"), AssignmentItem(s.condition.value, reals));
    KeywordBack(ts, i, "WHERE");
    AssignmentWidth(s.condition.value, reals);
    AssignmentBack(ts, i + 1, s.condition.value, reals);
  }

  lemma SelectParsed(ts: seq<Token>, i: nat, reals: Reals, all: bool, columns: seq<Identifier>, a: nat, id: Identifier, condition: Option<Condition>, d: nat)
    requires Cursor(ts, i) && a + 2 < |ts| && ParseSelection(ts, i) == Success(((all, columns), a))
    requires ExpectKeyword(ts, a, "FROM") == Success(((), a + 1)) && ParseIdentifier(ts, a + 1) == Success((id, a + 2))
    requires if condition.None? then !IsKeyword(ts[a + 2], "WHERE") && d == a + 2
             else IsKeyword(ts[a + 2], "WHERE") && a + 3 < |ts| && ParseAssignment(ts, a + 3, reals) == Success((condition.value, d))
    ensures ParseSelect(ts, i, reals) == Success((Empty(Select).(table := id, all := all, columns := columns, condition := condition), d))
  {
    hide ParseSelection, ExpectKeyword, ParseIdentifier, ParseAssignment, IsKeyword;
  }

  lemma SelectBack(ts: seq<Token>, i: nat, s: Statement, reals: Reals)
    requires Cursor(ts, i) && Formed(s) && s.operation.Select? && Shows(ts, i, BodyItems(s, reals))
    requires ts[i + |BodyItems(s, reals)|].kind == Semicolon
    ensures Back(ParseSelect(ts, i, reals), i + |BodyItems(s, reals)|) && Bare(ParseSelect(ts, i, reals).value.0) == Bare(s)
  {
    hide ParseSelect, ParseIdentifiers, ParseSelection, ParseAssignment, NamesItems, WhereItems, BareNames, BareCondition,
         BareName, BareValues, BareDefinitions, Shows, Fits, ExpectKeyword, ParseIdentifier, NameItem, Punct, IsKeyword, BodyItems, Bare,
         SelectedItems;
    var ns := SelectedItems(s);
    var after := [NameItem(s.table)] + WhereItems(s, reals);
    SelectItems(s, reals);
    ShowsLength(ts, i, BodyItems(s, reals));
    ShowsParts(ts, i, ns, [Key("FROM")] + after);
    var j := i + |ns|;
    ShowsFirst(ts, j, Key("FROM"), after);
    KeywordBack(ts, j, "FROM");
    ShowsFirst(ts, j + 1, NameItem(s.table), WhereItems(s, reals));
    NameBack(ts, j + 1, s.table);
    SelectionBack(ts, i, s);
    var columns, id := ParseSelection(ts, i).value.0.1, ParseIdentifier(ts, j + 1).value.0;
    if s.condition.Some? {
      WhereBack(ts, j + 2, s, reals);
      var (p, d) := ParseAssignment(ts, j + 3, reals).value;
      SelectParsed(ts, i, reals, s.all, columns, j, id, Some(p), d);
    } else {
      NoWhere(s, reals);
      NotAWord(ts[j + 2]);
      SelectParsed(ts, i, reals, s.all, columns, j, id, None, j + 2);
    }
    SameBare(ParseSelect(ts, i, reals).value.0, s);
  }

  lemma NotAWord(t: Token)
    requires t.kind == Semicolon
    ensures !IsKeyword(t, "WHERE")
  {
  }

  lemma NoWhere(s: Statement, reals: Reals)
    requires Formed(s) && s.condition.None?
    ensures WhereItems(s, reals) == []
  {
  }

  lemma SelectionBack(ts: seq<Token>, i: nat, s: Statement)
    requires Cursor(ts, i) && Formed(s) && s.operation.Select?
    requires Shows(ts, i, SelectedItems(s)) && ts[i + |SelectedItems(s)|].kind == Word
    ensures Back(ParseSelection(ts, i), i + |SelectedItems(s)|)
            && ParseSelection(ts, i).value.0.0 == s.all && BareNames(ParseSelection(ts, i).value.0.1) == BareNames(s.columns)
  {
    hide ParseIdentifiers, NamesItems, BareNames;
    if s.all {
      ShowsFirst(ts, i, Punct(Star), []);
    } else {
      NamesStart(ts, i, s.columns);
      NamesBack(ts, i, s.columns);
    }
  }

  lemma NamesStart(ts: seq<Token>, i: nat, ids: seq<Identifier>)
    requires ids != [] && Shows(ts, i, NamesItems(ids))
    ensures ts[i].kind == Word
  {
    assert Fits(LexemeOf(ts[i + 0]), NamesItems(ids)[0]);
  }

  lemma UpdateParsed(ts: seq<Token>, i: nat, reals: Reals, id: Identifier, sets: seq<Condition>, c: nat, p: Condition, e: nat)
    requires Cursor(ts, i) && i + 2 < |ts| && c + 1 < |ts|
    requires ParseIdentifier(ts, i) == Success((id, i + 1)) && ExpectKeyword(ts, i + 1, "SET") == Success(((), i + 2))
    requires ParseAssignments(ts, i + 2, reals) == Success((sets, c)) && ExpectKeyword(ts, c, "WHERE") == Success(((), c + 1))
    requires ParseAssignment(ts, c + 1, reals) == Success((p, e))
    ensures ParseUpdate(ts, i, reals) ==
            Success((Empty(Update).(table := id, columns := ColumnsOf(sets), values := LiteralsOf(sets), condition := Some(p)), e))
  {
    hide ParseIdentifier, ExpectKeyword, ParseAssignments, ParseAssignment;
  }

  lemma UpdateBack(ts: seq<Token>, i: nat, s: Statement, reals: Reals)
    requires Cursor(ts, i) && Formed(s) && s.operation.Update? && Shows(ts, i, BodyItems(s, reals))
    ensures Back(ParseUpdate(ts, i, reals), i + |BodyItems(s, reals)|) && Bare(ParseUpdate(ts, i, reals).value.0) == Bare(s)
  {
    hide ParseUpdate, ParseIdentifier, ParseAssignments, ParseAssignment, AssignmentItems, WhereItems, BareCondition, BareConditions,
         BareName, BareNames, BareValues, BareDefinitions, Shows, Fits, ExpectKeyword, NameItem, SetsOf, ColumnsOf, LiteralsOf,
         BodyItems, Bare, IsKeyword;
    var sets := SetsOf(s);
    var ss, last := AssignmentItems(sets, reals), WhereItems(s, reals);
    UpdateItems(s, reals);
    ShowsLength(ts, i, BodyItems(s, reals));
    ShowsFirst(ts, i, NameItem(s.table), [Key("SET")] + (ss + last));
    NameBack(ts, i, s.table);
    ShowsFirst(ts, i + 1, Key("SET"), ss + last);
    KeywordBack(ts, i + 1, "SET");
    ShowsParts(ts, i + 2, ss, last);
    var c := i + 2 + |ss|;
    WhereBack(ts, c, s, reals);
    AssignmentsBack(ts, i + 2, sets, reals);
    var parsed := ParseAssignments(ts, i + 2, reals).value.0;
    SetsBack(parsed, s);
    var (p, e) := ParseAssignment(ts, c + 1, reals).value;
    UpdateParsed(ts, i, reals, ParseIdentifier(ts, i).value.0, parsed, c, p, e);
    SameBare(ParseUpdate(ts, i, reals).value.0, s);
  }

  lemma SetsBack(parsed: seq<Condition>, s: Statement)
    requires |s.columns| == |s.values| && BareConditions(parsed) == BareConditions(SetsOf(s))
    ensures BareNames(ColumnsOf(parsed)) == BareNames(s.columns) && BareValues(LiteralsOf(parsed)) == BareValues(s.values)
  {
    assert |parsed| == |BareConditions(parsed)| == |s.columns|;
    forall k | 0 <= k < |parsed| ensures BareName(parsed[k].column) == BareName(s.columns[k]) && BareValue(parsed[k].literal) == BareValue(s.values[k]) {
      assert BareConditions(parsed)[k] == BareConditions(SetsOf(s))[k];
    }
  }

  /** Tokens that show a statement parse to it. */
  lemma TokensBack(ts: seq<Token>, s: Statement, reals: Reals)
    requires Cursor(ts, 0) && Formed(s) && Shows(ts, 0, StatementItems(s, reals)) && |ts| == |StatementItems(s, reals)| + 1
    ensures ParseTokens(ts, reals).Success? && Bare(ParseTokens(ts, reals).value) == Bare(s)
  {
    hide ParseCreate, ParseInsert, ParseSelect, ParseUpdate, BodyItems, EqualFold, Ascii, Formed, Bare;
    var body := BodyItems(s, reals);
    assert StatementItems(s, reals) == [Key(Verb(s.operation))] + (body + [Punct(Semicolon)]);
    ShowsFirst(ts, 0, Key(Verb(s.operation)), body + [Punct(Semicolon)]);
    ShowsParts(ts, 1, body, [Punct(Semicolon)]);
    ShowsFirst(ts, 1 + |body|, Punct(Semicolon), []);
    VerbBack(ts, s.operation);
    match s.operation
    case Create => CreateBack(ts, 1, s, reals);
    case Insert => InsertBack(ts, 1, s, reals);
    case Select => SelectBack(ts, 1, s, reals);
    case Update => UpdateBack(ts, 1, s, reals);
  }

  lemma VerbBack(ts: seq<Token>, op: Operation)
    requires ts != [] && Fits(LexemeOf(ts[0]), Key(Verb(op)))
    ensures IsKeyword(ts[0], "CREATE") <==> op.Create?
    ensures IsKeyword(ts[0], "INSERT") <==> op.Insert?
    ensures IsKeyword(ts[0], "SELECT") <==> op.Select?
    ensures IsKeyword(ts[0], "UPDATE") <==> op.Update?
  {
    hide EqualFold, Ascii;
    KeywordsDiffer();
    var t := ts[0].text;
    forall other | other != op && EqualFold(t, Ascii(Verb(other))) ensures false {
      FoldOther(t, Ascii(Verb(op)), Ascii(Verb(other)));
      FoldOther(t, Ascii(Verb(other)), Ascii(Verb(op)));
    }
    assert EqualFold(t, Ascii(Verb(Create))) ==> op == Create;
    assert EqualFold(t, Ascii(Verb(Insert))) ==> op == Insert;
    assert EqualFold(t, Ascii(Verb(Select))) ==> op == Select;
    assert EqualFold(t, Ascii(Verb(Update))) ==> op == Update;
  }

  // ---- The round trip ----

  /** The pieces spell the statement: keywords in any case, and a semicolon at the end. */
  ghost predicate Renders(ps: seq<Piece>, s: Statement, reals: Reals)
    requires Formed(s)
  {
    && |ps| == |StatementItems(s, reals)|
    && forall k :: 0 <= k < |ps| ==> Fits(ps[k].lexeme, StatementItems(s, reals)[k])
  }

  /**
    Whatever the names, the 64-bit numbers and the texts in it, and however it is spaced and its keywords
    are written, a rendered statement is parsed back.
   */
  lemma PrintParseRoundTrip(s: Statement, ps: seq<Piece>, tail: Text, reals: Reals)
    requires Formed(s) && Separated(ps, tail) && Renders(ps, s, reals)
    ensures Parse(Layout(ps, tail), reals).Success? && Bare(Parse(Layout(ps, tail), reals).value) == Bare(s)
  {
    hide Lex, Layout, Separated, ParseTokens, StatementItems, Formed, Bare, Fits;
    var source := Layout(ps, tail);
    assert source[0..] == source;
    LexLayout(source, 0, ps, tail);
    var ts := Lex(source, 0).value;
    forall k | 0 <= k < |ps| ensures Fits(LexemeOf(ts[0 + k]), StatementItems(s, reals)[k]) {
      assert SameLexeme(ts[k], ps[k].lexeme);
      assert LexemeOf(ts[k]) == ps[k].lexeme;
    }
    TokensBack(ts, s, reals);
  }

  // ---- One rendering ----

  /** How a REAL value is written down. */
  type Speller = Finite -> Text

  function Spelled(item: Item, spell: Speller): Lexeme {
    match item
    case Key(w) => Lexeme(Word, Ascii(w))
    case Mark(k) => Lexeme(k, MarkText(k))
    case Exactly(l) => l
    case Denoting(IntegerValue(n), _) => Lexeme(IntegerLiteral, IntegerText(n))
    case Denoting(TextValue(t), _) => Lexeme(TextLiteral, t)
    case Denoting(RealValue(x), _) => Lexeme(RealLiteral, spell(x))
  }

  /** A REAL value is spelt as digits on both sides of a point, and the conversion takes that back to it. */
  predicate Writable(v: SqlValue, reals: Reals, spell: Speller) {
    v.RealValue? ==> IsReal(spell(v.x)) && reals(spell(v.x)) == Some(v.x)
  }

  /** Legal names, and REAL values that are spelt so that they can be read back. */
  predicate Renderable(s: Statement, reals: Reals, spell: Speller) {
    && Formed(s) && LegalName(s.table.name)
    && (forall id :: id in s.columns ==> LegalName(id.name))
    && (forall d :: d in s.definitions ==> LegalName(d.id.name))
    && (forall v :: v in s.values ==> Writable(v.value, reals, spell))
    && (s.condition.Some? ==> LegalName(s.condition.value.column.name) && Writable(s.condition.value.literal.value, reals, spell))
  }

  /** Upper-case keywords, one space before every token. */
  function Pieces(items: seq<Item>, spell: Speller): (ps: seq<Piece>)
    ensures |ps| == |items|
  {
    if |items| == 0 then [] else [Piece([32], Spelled(items[0], spell))] + Pieces(items[1..], spell)
  }

  function Render(s: Statement, reals: Reals, spell: Speller): Text
    requires Renderable(s, reals, spell)
  {
    Layout(Pieces(StatementItems(s, reals), spell), [])
  }

  predicate AllSpellable(items: seq<Item>, spell: Speller) {
    forall k :: 0 <= k < |items| ==> Spellable(Spelled(items[k], spell))
  }

  lemma {:induction false} PiecesSeparated(items: seq<Item>, spell: Speller)
    requires AllSpellable(items, spell)
    ensures Separated(Pieces(items, spell), [])
    ensures Pieces(items, spell) != [] ==> Layout(Pieces(items, spell), []) != [] && Layout(Pieces(items, spell), [])[0] == 32
    ensures forall k :: 0 <= k < |items| ==> Pieces(items, spell)[k].lexeme == Spelled(items[k], spell)
    decreases items
  {
    hide Spellable;
    if items != [] {
      assert AllSpellable(items[1..], spell);
      PiecesSeparated(items[1..], spell);
    }
  }

  predicate Upper(w: string) {
    w != "" && forall k :: 0 <= k < |w| ==> 'A' <= w[k] <= 'Z'
  }

  lemma KeywordsSpellable(w: string)
    requires Upper(w)
    ensures LegalName(Ascii(w)) && EqualFold(Ascii(w), Ascii(w))
  {
  }

  predicate Good(item: Item, spell: Speller) {
    match item
    case Key(w) => Upper(w)
    case Mark(k) => Spellable(Lexeme(k, MarkText(k)))
    case Exactly(l) => Spellable(l)
    case Denoting(v, reals) => Writable(v, reals, spell)
  }

  ghost predicate AllGood(items: seq<Item>, spell: Speller) {
    forall x :: x in items ==> Good(x, spell)
  }

  lemma {:induction false} NamesGood(ids: seq<Identifier>, spell: Speller)
    requires forall id :: id in ids ==> LegalName(id.name)
    ensures AllGood(NamesItems(ids), spell)
  {
    hide LegalName;
    if |ids| > 1 {
      NamesGood(ids[1..], spell);
    }
  }

  lemma {:induction false} ValuesGood(vs: seq<Literal>, reals: Reals, spell: Speller)
    requires forall v :: v in vs ==> Writable(v.value, reals, spell)
    ensures AllGood(ValuesItems(vs, reals), spell)
  {
    if vs != [] {
      ValuesGood(vs[1..], reals, spell);
    }
  }

  lemma {:induction false} DefinitionsGood(ds: seq<ColumnDefinition>, spell: Speller)
    requires forall d :: d in ds ==> LegalName(d.id.name)
    ensures AllGood(DefinitionItems(ds), spell)
  {
    hide LegalName;
    if |ds| > 1 {
      DefinitionsGood(ds[1..], spell);
    }
  }

  lemma {:induction false} AssignmentsGood(sets: seq<Condition>, reals: Reals, spell: Speller)
    requires forall a :: a in sets ==> LegalName(a.column.name) && Writable(a.literal.value, reals, spell)
    ensures AllGood(AssignmentItems(sets, reals), spell)
  {
    hide LegalName;
    if sets != [] {
      NameGood(sets[0].column, spell);
      AssignmentsGood(sets[1..], reals, spell);
    }
  }

  lemma KeysGood(spell: Speller)
    ensures Good(Key("TABLE"), spell) && Good(Key("INTO"), spell) && Good(Key("VALUES"), spell) && Good(Key("FROM"), spell) && Good(Key("SET"), spell) && Good(Key("WHERE"), spell)
  {
  }

  lemma VerbGood(op: Operation, spell: Speller)
    ensures Good(Key(Verb(op)), spell)
  {
  }

  lemma PunctuationGood(spell: Speller)
    ensures Good(Punct(LeftParen), spell) && Good(Punct(RightParen), spell) && Good(Punct(Star), spell) && Good(Punct(Semicolon), spell) && Good(Punct(Equal), spell)
  {
  }

  lemma NameGood(id: Identifier, spell: Speller)
    requires LegalName(id.name)
    ensures Good(NameItem(id), spell)
  {
  }

  lemma WhereGood(s: Statement, reals: Reals, spell: Speller)
    requires Renderable(s, reals, spell)
    ensures AllGood(WhereItems(s, reals), spell)
  {
    hide LegalName, NameItem, Punct;
    KeysGood(spell);
    PunctuationGood(spell);
    if s.condition.Some? {
      assert Good(ValueItem(s.condition.value.literal, reals), spell);
      NameGood(s.condition.value.column, spell);
    }
  }

  lemma SetsGood(s: Statement, reals: Reals, spell: Speller)
    requires Renderable(s, reals, spell) && s.operation.Update?
    ensures forall a :: a in SetsOf(s) ==> LegalName(a.column.name) && Writable(a.literal.value, reals, spell)
    ensures AllGood(AssignmentItems(SetsOf(s), reals), spell)
  {
    hide LegalName;
    var sets := SetsOf(s);
    forall a | a in sets ensures LegalName(a.column.name) && Writable(a.literal.value, reals, spell) {
      var k :| 0 <= k < |sets| && sets[k] == a;
      assert s.columns[k] in s.columns && s.values[k] in s.values;
    }
    AssignmentsGood(sets, reals, spell);
  }

  lemma ItemsGood(s: Statement, reals: Reals, spell: Speller)
    requires Renderable(s, reals, spell)
    ensures AllGood(StatementItems(s, reals), spell)
  {
    hide LegalName, NamesItems, ValuesItems, DefinitionItems, AssignmentItems, WhereItems, Good, NameItem, Punct, Verb;
    NamesGood(s.columns, spell);
    ValuesGood(s.values, reals, spell);
    DefinitionsGood(s.definitions, spell);
    WhereGood(s, reals, spell);
    KeysGood(spell);
    VerbGood(s.operation, spell);
    PunctuationGood(spell);
    NameGood(s.table, spell);
    match s.operation
    case Update => SetsGood(s, reals, spell);
    case _ =>
  }

  /** The plain rendering is one of them, so every statement can be written down and read back. */
  lemma RenderRoundTrip(s: Statement, reals: Reals, spell: Speller)
    requires Renderable(s, reals, spell)
    ensures Parse(Render(s, reals, spell), reals).Success? && Bare(Parse(Render(s, reals, spell), reals).value) == Bare(s)
  {
    hide Parse, StatementItems, Formed, Bare, Layout, Separated, LegalName;
    ItemsGood(s, reals, spell);
    var items := StatementItems(s, reals);
    forall k | 0 <= k < |items| ensures Spellable(Spelled(items[k], spell)) && Fits(Spelled(items[k], spell), items[k]) {
      assert items[k] in items && Good(items[k], spell);
      if items[k].Key? {
        KeywordsSpellable(items[k].word);
      } else if items[k].Denoting? && items[k].value.IntegerValue? {
        IntegerBack(items[k].value.n);
      }
    }
    PiecesSeparated(items, spell);
    PrintParseRoundTrip(s, Pieces(items, spell), [], reals);
  }
}
