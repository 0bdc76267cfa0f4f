/** The parser accepts exactly the token sequences of statements. */
module SqlLanguage {
  import opened Prelude
  import opened Bytes
  import opened SqlLexer
  import opened SqlGrammar
  import opened SqlPrinting
  import opened SqlRoundTrip

  /** The tokens from `i` to `j` show the items. */
  ghost predicate Shown(ts: seq<Token>, i: nat, items: seq<Item>, j: nat) {
    Shows(ts, i, items) && j == i + |items|
  }

  lemma Joined(ts: seq<Token>, i: nat, a: seq<Item>, j: nat, b: seq<Item>, k: nat)
    requires Shown(ts, i, a, j) && Shown(ts, j, b, k)
    ensures Shown(ts, i, a + b, k)
  {
    hide Fits;
    var c := a + b;
    forall x | 0 <= x < |c| ensures Fits(LexemeOf(ts[i + x]), c[x]) {
      if x >= |a| {
        assert Fits(LexemeOf(ts[j + (x - |a|)]), b[x - |a|]);
      }
    }
  }

  lemma ShownOne(ts: seq<Token>, i: nat, item: Item)
    requires i + 1 < |ts| && Fits(LexemeOf(ts[i]), item)
    ensures Shown(ts, i, [item], i + 1)
  {
    hide Fits;
  }

  lemma KeywordShown(ts: seq<Token>, i: nat, w: string)
    requires Cursor(ts, i) && ExpectKeyword(ts, i, w).Success?
    ensures ExpectKeyword(ts, i, w) == Success(((), i + 1)) && Shown(ts, i, [Key(w)], i + 1)
  {
    hide EqualFold, Ascii;
    ShownOne(ts, i, Key(w));
  }

  lemma MarkShown(ts: seq<Token>, i: nat, k: Kind)
    requires Cursor(ts, i) && k != End && Expect(ts, i, k, ExpectedPunctuation).Success?
    ensures Expect(ts, i, k, ExpectedPunctuation) == Success(((), i + 1)) && Shown(ts, i, [Punct(k)], i + 1)
  {
    ShownOne(ts, i, Punct(k));
  }

  lemma NameShown(ts: seq<Token>, i: nat)
    requires Cursor(ts, i) && ParseIdentifier(ts, i).Success?
    ensures ParseIdentifier(ts, i).value.1 == i + 1 && Shown(ts, i, [NameItem(ParseIdentifier(ts, i).value.0)], i + 1)
  {
    ShownOne(ts, i, NameItem(ParseIdentifier(ts, i).value.0));
  }

  lemma LiteralShown(ts: seq<Token>, i: nat, reals: Reals)
    requires Cursor(ts, i) && ParseLiteral(ts, i, reals).Success?
    ensures ParseLiteral(ts, i, reals).value.1 == i + 1 && Shown(ts, i, [ValueItem(ParseLiteral(ts, i, reals).value.0, reals)], i + 1)
  {
    hide ParseInteger;
    ShownOne(ts, i, ValueItem(ParseLiteral(ts, i, reals).value.0, reals));
  }

  lemma CommaShown(ts: seq<Token>, i: nat)
    requires Cursor(ts, i) && ts[i].kind == Comma
    ensures i + 1 < |ts| && Shown(ts, i, [Punct(Comma)], i + 1)
  {
    ShownOne(ts, i, Punct(Comma));
  }

  lemma {:induction false} NamesShown(ts: seq<Token>, i: nat)
    requires Cursor(ts, i) && ParseIdentifiers(ts, i).Success?
    ensures var (ids, j) := ParseIdentifiers(ts, i).value; ids != [] && Shown(ts, i, NamesItems(ids), j)
    decreases |ts| - i
  {
    hide ParseIdentifier, Shown, NameItem;
    NameShown(ts, i);
    var (id, j) := ParseIdentifier(ts, i).value;
    if ts[j].kind == Comma {
      CommaShown(ts, j);
      NamesShown(ts, j + 1);
      var (rest, k) := ParseIdentifiers(ts, j + 1).value;
      Joined(ts, i, [NameItem(id)], j, [Punct(Comma)], j + 1);
      Joined(ts, i, [NameItem(id)] + [Punct(Comma)], j + 1, NamesItems(rest), k);
      assert ([id] + rest)[1..] == rest && [NameItem(id), Punct(Comma)] == [NameItem(id)] + [Punct(Comma)];
    }
  }

  lemma {:induction false} LiteralsShown(ts: seq<Token>, i: nat, reals: Reals)
    requires Cursor(ts, i) && ParseLiterals(ts, i, reals).Success?
    ensures var (vs, j) := ParseLiterals(ts, i, reals).value; vs != [] && Shown(ts, i, ValuesItems(vs, reals), j)
    decreases |ts| - i
  {
    hide ParseLiteral, Shown, ValueItem;
    LiteralShown(ts, i, reals);
    var (v, j) := ParseLiteral(ts, i, reals).value;
    if ts[j].kind == Comma {
      CommaShown(ts, j);
      LiteralsShown(ts, j + 1, reals);
      var (rest, k) := ParseLiterals(ts, j + 1, reals).value;
      var one := ValueItem(v, reals);
      Joined(ts, i, [one], j, [Punct(Comma)], j + 1);
      Joined(ts, i, [one] + [Punct(Comma)], j + 1, ValuesItems(rest, reals), k);
      assert ([v] + rest)[1..] == rest && [one, Punct(Comma)] == [one] + [Punct(Comma)];
    }
  }

  lemma DefinitionShown(ts: seq<Token>, i: nat)
    requires Cursor(ts, i) && ParseDefinition(ts, i).Success?
    ensures var (d, j) := ParseDefinition(ts, i).value; Shown(ts, i, DefinitionItem(d), j)
  {
    hide EqualFold, Ascii, ParseIdentifier, Shown, NameItem;
    NameShown(ts, i);
    var (d, j) := ParseDefinition(ts, i).value;
    ShownOne(ts, i + 1, Key(TypeWord(d.ty)));
    Joined(ts, i, [NameItem(d.id)], i + 1, [Key(TypeWord(d.ty))], i + 2);
    assert DefinitionItem(d) == [NameItem(d.id)] + [Key(TypeWord(d.ty))];
  }

  lemma {:induction false} DefinitionsShown(ts: seq<Token>, i: nat)
    requires Cursor(ts, i) && ParseDefinitions(ts, i).Success?
    ensures var (ds, j) := ParseDefinitions(ts, i).value; ds != [] && Shown(ts, i, DefinitionItems(ds), j)
    decreases |ts| - i
  {
    hide ParseDefinition, Shown, DefinitionItem;
    DefinitionShown(ts, i);
    var (d, j) := ParseDefinition(ts, i).value;
    if ts[j].kind == Comma {
      CommaShown(ts, j);
      DefinitionsShown(ts, j + 1);
      var (rest, k) := ParseDefinitions(ts, j + 1).value;
      Joined(ts, i, DefinitionItem(d), j, [Punct(Comma)], j + 1);
      Joined(ts, i, DefinitionItem(d) + [Punct(Comma)], j + 1, DefinitionItems(rest), k);
      assert ([d] + rest)[1..] == rest;
    }
  }

  lemma AssignmentShown(ts: seq<Token>, i: nat, reals: Reals)
    requires Cursor(ts, i) && ParseAssignment(ts, i, reals).Success?
    ensures var (a, j) := ParseAssignment(ts, i, reals).value; Shown(ts, i, AssignmentItem(a, reals), j)
  {
    hide ParseIdentifier, Expect, ParseLiteral, Shown, NameItem, ValueItem;
    NameShown(ts, i);
    MarkShown(ts, i + 1, Equal);
    LiteralShown(ts, i + 2, reals);
    var (a, j) := ParseAssignment(ts, i, reals).value;
    Joined(ts, i, [NameItem(a.column)], i + 1, [Punct(Equal)], i + 2);
    Joined(ts, i, [NameItem(a.column)] + [Punct(Equal)], i + 2, [ValueItem(a.literal, reals)], i + 3);
    assert AssignmentItem(a, reals) == [NameItem(a.column)] + [Punct(Equal)] + [ValueItem(a.literal, reals)];
  }

  lemma {:induction false} AssignmentsShown(ts: seq<Token>, i: nat, reals: Reals)
    requires Cursor(ts, i) && ParseAssignments(ts, i, reals).Success?
    ensures var (sets, j) := ParseAssignments(ts, i, reals).value; sets != [] && Shown(ts, i, AssignmentItems(sets, reals), j)
    decreases |ts| - i
  {
    hide ParseAssignment, Shown, AssignmentItem;
    AssignmentShown(ts, i, reals);
    var (a, j) := ParseAssignment(ts, i, reals).value;
    if ts[j].kind == Comma {
      CommaShown(ts, j);
      AssignmentsShown(ts, j + 1, reals);
      var (rest, k) := ParseAssignments(ts, j + 1, reals).value;
      Joined(ts, i, AssignmentItem(a, reals), j, [Punct(Comma)], j + 1);
      Joined(ts, i, AssignmentItem(a, reals) + [Punct(Comma)], j + 1, AssignmentItems(rest, reals), k);
      assert ([a] + rest)[1..] == rest;
    }
  }

  // ---- Statements ----

  lemma CreateShown(ts: seq<Token>, i: nat, reals: Reals)
    requires Cursor(ts, i) && ParseCreate(ts, i).Success?
    ensures var (s, j) := ParseCreate(ts, i).value; s.operation == Create && Formed(s) && Shown(ts, i, BodyItems(s, reals), j)
  {
    hide ParseIdentifier, Expect, ExpectKeyword, ParseDefinitions, Shown, NameItem, DefinitionItems;
    KeywordShown(ts, i, "TABLE");
    NameShown(ts, i + 1);
    MarkShown(ts, i + 2, LeftParen);
    DefinitionsShown(ts, i + 3);
    var (s, j) := ParseCreate(ts, i).value;
    var k := ParseDefinitions(ts, i + 3).value.1;
    MarkShown(ts, k, RightParen);
    var a, b := [Key("TABLE"), NameItem(s.table)], [Key("TABLE"), NameItem(s.table), Punct(LeftParen)];
    Joined(ts, i, [Key("TABLE")], i + 1, [NameItem(s.table)], i + 2);
    assert a == [Key("TABLE")] + [NameItem(s.table)] && b == a + [Punct(LeftParen)];
    Joined(ts, i, a, i + 2, [Punct(LeftParen)], i + 3);
    Joined(ts, i, b, i + 3, DefinitionItems(s.definitions), k);
    Joined(ts, i, b + DefinitionItems(s.definitions), k, [Punct(RightParen)], j);
  }

  lemma InsertShown(ts: seq<Token>, i: nat, reals: Reals)
    requires Cursor(ts, i) && ParseInsert(ts, i, reals).Success?
    ensures var (s, j) := ParseInsert(ts, i, reals).value; s.operation == Insert && Formed(s) && Shown(ts, i, BodyItems(s, reals), j)
  {
    hide ParseIdentifier, Expect, ExpectKeyword, ParseIdentifiers, ParseLiterals, Shown, NameItem, NamesItems, ValuesItems;
    KeywordShown(ts, i, "INTO");
    NameShown(ts, i + 1);
    MarkShown(ts, i + 2, LeftParen);
    NamesShown(ts, i + 3);
    var (s, j) := ParseInsert(ts, i, reals).value;
    var k := ParseIdentifiers(ts, i + 3).value.1;
    MarkShown(ts, k, RightParen);
    KeywordShown(ts, k + 1, "VALUES");
    MarkShown(ts, k + 2, LeftParen);
    LiteralsShown(ts, k + 3, reals);
    var n := ParseLiterals(ts, k + 3, reals).value.1;
    MarkShown(ts, n, RightParen);
    InsertJoined(ts, i, s, k, n, reals);
  }

  lemma InsertJoined(ts: seq<Token>, i: nat, s: Statement, k: nat, n: nat, reals: Reals)
    requires Formed(s) && s.operation.Insert?
    requires Shown(ts, i, [Key("INTO")], i + 1) && Shown(ts, i + 1, [NameItem(s.table)], i + 2) && Shown(ts, i + 2, [Punct(LeftParen)], i + 3)
    requires Shown(ts, i + 3, NamesItems(s.columns), k) && Shown(ts, k, [Punct(RightParen)], k + 1)
    requires Shown(ts, k + 1, [Key("VALUES")], k + 2) && Shown(ts, k + 2, [Punct(LeftParen)], k + 3)
    requires Shown(ts, k + 3, ValuesItems(s.values, reals), n) && Shown(ts, n, [Punct(RightParen)], n + 1)
    ensures Shown(ts, i, BodyItems(s, reals), n + 1)
  {
    hide Shown, NameItem, NamesItems, ValuesItems, Punct;
    var head := [Key("INTO"), NameItem(s.table), Punct(LeftParen)];
    Joined(ts, i, [Key("INTO")], i + 1, [NameItem(s.table)], i + 2);
    Joined(ts, i, [Key("INTO")] + [NameItem(s.table)], i + 2, [Punct(LeftParen)], i + 3);
    assert head == [Key("INTO")] + [NameItem(s.table)] + [Punct(LeftParen)];
    Joined(ts, i, head, i + 3, NamesItems(s.columns), k);
    var mid := [Punct(RightParen), Key("VALUES"), Punct(LeftParen)];
    Joined(ts, k, [Punct(RightParen)], k + 1, [Key("VALUES")], k + 2);
    Joined(ts, k, [Punct(RightParen)] + [Key("VALUES")], k + 2, [Punct(LeftParen)], k + 3);
    assert mid == [Punct(RightParen)] + [Key("VALUES")] + [Punct(LeftParen)];
    Joined(ts, i, head + NamesItems(s.columns), k, mid, k + 3);
    Joined(ts, i, head + NamesItems(s.columns) + mid, k + 3, ValuesItems(s.values, reals), n);
    Joined(ts, i, head + NamesItems(s.columns) + mid + ValuesItems(s.values, reals), n, [Punct(RightParen)], n + 1);
  }

  lemma SelectionShown(ts: seq<Token>, i: nat)
    requires Cursor(ts, i) && ParseSelection(ts, i).Success?
    ensures var (sel, j) := ParseSelection(ts, i).value;
            sel.0 == (sel.1 == []) && Shown(ts, i, if sel.0 then [Punct(Star)] else NamesItems(sel.1), j)
  {
    hide ParseIdentifiers, NamesItems;
    if ts[i].kind == Star {
      ShownOne(ts, i, Punct(Star));
    } else {
      NamesShown(ts, i);
    }
  }

  lemma WhereShown(ts: seq<Token>, i: nat, s: Statement, reals: Reals)
    requires Cursor(ts, i) && Formed(s) && s.condition.Some? && IsKeyword(ts[i], "WHERE") && i + 1 < |ts|
    requires ParseAssignment(ts, i + 1, reals).Success? && ParseAssignment(ts, i + 1, reals).value.0 == s.condition.value
    ensures Shown(ts, i, WhereItems(s, reals), ParseAssignment(ts, i + 1, reals).value.1)
  {
    hide ParseAssignment, Shown, EqualFold, Ascii;
    ShownOne(ts, i, Key("WHERE"));
    AssignmentShown(ts, i + 1, reals);
    Joined(ts, i, [Key("WHERE")], i + 1, AssignmentItem(s.condition.value, reals), ParseAssignment(ts, i + 1, reals).value.1);
  }

  lemma SelectShown(ts: seq<Token>, i: nat, reals: Reals)
    requires Cursor(ts, i) && ParseSelect(ts, i, reals).Success?
    ensures var (s, j) := ParseSelect(ts, i, reals).value; s.operation == Select && Formed(s) && Shown(ts, i, BodyItems(s, reals), j)
  {
    hide ParseIdentifier, ExpectKeyword, ParseSelection, ParseAssignment, Shown, NameItem, NamesItems, WhereItems;
    SelectionShown(ts, i);
    var (s, j) := ParseSelect(ts, i, reals).value;
    var a := ParseSelection(ts, i).value.1;
    KeywordShown(ts, a, "FROM");
    NameShown(ts, a + 1);
    var sel := if s.all then [Punct(Star)] else NamesItems(s.columns);
    Joined(ts, a, [Key("FROM")], a + 1, [NameItem(s.table)], a + 2);
    assert [Key("FROM"), NameItem(s.table)] == [Key("FROM")] + [NameItem(s.table)];
    Joined(ts, i, sel, a, [Key("FROM"), NameItem(s.table)], a + 2);
    if s.condition.Some? {
      WhereShown(ts, a + 2, s, reals);
      Joined(ts, i, sel + [Key("FROM"), NameItem(s.table)], a + 2, WhereItems(s, reals), j);
    } else {
      NoWhere(s, reals);
      assert sel + [Key("FROM"), NameItem(s.table)] + [] == sel + [Key("FROM"), NameItem(s.table)];
    }
  }

  lemma SetsOfParsed(s: Statement, sets: seq<Condition>)
    requires s.columns == ColumnsOf(sets) && s.values == LiteralsOf(sets)
    ensures SetsOf(s) == sets
  {
  }

  lemma UpdateShown(ts: seq<Token>, i: nat, reals: Reals)
    requires Cursor(ts, i) && ParseUpdate(ts, i, reals).Success?
    ensures var (s, j) := ParseUpdate(ts, i, reals).value; s.operation == Update && Formed(s) && Shown(ts, i, BodyItems(s, reals), j)
  {
    hide ParseIdentifier, ParseAssignments, ParseAssignment, Shown, NameItem, AssignmentItems, WhereItems, EqualFold, Ascii;
    NameShown(ts, i);
    KeywordShown(ts, i + 1, "SET");
    AssignmentsShown(ts, i + 2, reals);
    var (s, j) := ParseUpdate(ts, i, reals).value;
    var (sets, k) := ParseAssignments(ts, i + 2, reals).value;
    SetsOfParsed(s, sets);
    WhereShown(ts, k, s, reals);
    Joined(ts, i, [NameItem(s.table)], i + 1, [Key("SET")], i + 2);
    assert [NameItem(s.table), Key("SET")] == [NameItem(s.table)] + [Key("SET")];
    Joined(ts, i, [NameItem(s.table), Key("SET")], i + 2, AssignmentItems(sets, reals), k);
    Joined(ts, i, [NameItem(s.table), Key("SET")] + AssignmentItems(sets, reals), k, WhereItems(s, reals), j);
  }

  lemma BodyShown(ts: seq<Token>, reals: Reals)
    requires Cursor(ts, 0) && ParseBody(ts, reals).Success?
    ensures var (s, j) := ParseBody(ts, reals).value;
            Formed(s) && IsKeyword(ts[0], Verb(s.operation)) && |ts| > 1 && Shown(ts, 1, BodyItems(s, reals), j)
  {
    hide ParseCreate, ParseInsert, ParseSelect, ParseUpdate, Shown, BodyItems, Formed, EqualFold, Ascii;
    if IsKeyword(ts[0], "CREATE") {
      CreateShown(ts, 1, reals);
    } else if IsKeyword(ts[0], "INSERT") {
      InsertShown(ts, 1, reals);
    } else if IsKeyword(ts[0], "SELECT") {
      SelectShown(ts, 1, reals);
    } else {
      UpdateShown(ts, 1, reals);
    }
  }

  /** Tokens that are, from the first to the last, those of a statement. */
  ghost predicate Spells(ts: seq<Token>, s: Statement, reals: Reals) {
    Formed(s) && |ts| == |StatementItems(s, reals)| + 1 && Shows(ts, 0, StatementItems(s, reals))
  }

  /** What is parsed is what the tokens say: the converse of reading back a rendered statement. */
  lemma ParsedIsSpelled(ts: seq<Token>, reals: Reals)
    requires Cursor(ts, 0) && ParseTokens(ts, reals).Success?
    ensures Spells(ts, ParseTokens(ts, reals).value, reals)
  {
    hide ParseBody, BodyItems, Formed, Shows, EqualFold, Ascii;
    BodyShown(ts, reals);
    var (s, j) := ParseBody(ts, reals).value;
    MarkShown(ts, j, Semicolon);
    ShownOne(ts, 0, Key(Verb(s.operation)));
    Joined(ts, 0, [Key(Verb(s.operation))], 1, BodyItems(s, reals), j);
    Joined(ts, 0, [Key(Verb(s.operation))] + BodyItems(s, reals), j, [Punct(Semicolon)], j + 1);
  }

  /** A source text is accepted exactly when its tokens are those of some statement. */
  lemma AcceptedExactly(source: Text, reals: Reals)
    ensures Parse(source, reals).Success?
            <==> Lex(source, 0).Success? && exists s :: Spells(Lex(source, 0).value, s, reals)
  {
    hide Lex, ParseTokens, StatementItems, Formed, Shows;
    if Lex(source, 0).Success? {
      var ts := Lex(source, 0).value;
      if ParseTokens(ts, reals).Success? {
        ParsedIsSpelled(ts, reals);
      }
      if s :| Spells(ts, s, reals) {
        TokensBack(ts, s, reals);
      }
    }
  }

  // ---- Characters ----

  /** The bytes the lexer tells apart, as characters. */
  lemma CharacterClasses(c: Byte)
    ensures Letter(c) <==> 'a' <= c as char <= 'z' || 'A' <= c as char <= 'Z' || c as char == '_'
    ensures Digit(c) <==> '0' <= c as char <= '9'
    ensures Whitespace(c) <==> c as char == ' ' || c as char == '\t' || c as char == '\n' || c as char == '\r' || c == 11 || c == 12
    ensures Punctuation(c) == Some(LeftParen) <==> c as char == '('
    ensures Punctuation(c) == Some(RightParen) <==> c as char == ')'
    ensures Punctuation(c) == Some(Comma) <==> c as char == ','
    ensures Punctuation(c) == Some(Equal) <==> c as char == '='
    ensures Punctuation(c) == Some(Star) <==> c as char == '*'
    ensures Punctuation(c) == Some(Semicolon) <==> c as char == ';'
  {
  }

  /** A word is a keyword exactly if each of its letters is that of the keyword, as a capital or as a small letter. */
  lemma KeywordsInAnyCase(t: Text, w: string)
    requires forall k :: 0 <= k < |w| ==> 'A' <= w[k] <= 'Z'
    ensures EqualFold(t, Ascii(w)) <==> |t| == |w| && forall k :: 0 <= k < |w| ==> t[k] == w[k] as int || t[k] == w[k] as int + 32
  {
    var a := Ascii(w);
    assert forall k :: 0 <= k < |w| ==> a[k] == w[k] as int;
    if EqualFold(t, a) {
      forall k | 0 <= k < |w| ensures t[k] == w[k] as int || t[k] == w[k] as int + 32 {
        assert Lower(t[k]) == Lower(a[k]);
      }
    }
    if |t| == |w| && forall k :: 0 <= k < |w| ==> t[k] == w[k] as int || t[k] == w[k] as int + 32 {
      forall k | 0 <= k < |t| ensures Lower(t[k]) == Lower(a[k]) {
      }
    }
  }
}
