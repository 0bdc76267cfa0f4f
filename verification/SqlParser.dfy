/** The parser as it runs: an index that advances through the tokens. */
module SqlParser {
  import opened Prelude
  import opened Bytes
  import opened Floats
  import opened SqlLexer
  import opened SqlGrammar

  /** The phrase and the new index are as specified, or the specified error was raised. */
  ghost predicate Reads<T>(spec: Phrase<T>, r: Result<T, SqlError>, after: nat) {
    match spec
    case Success((x, next)) => r == Success(x) && after == next
    case Failure(e) => r == Failure(e)
  }

  /** What was read of a list so far, in front of the rest of it. */
  ghost function After<T>(done: seq<T>, rest: Phrase<seq<T>>): Phrase<seq<T>> {
    if rest.Failure? then rest else Success((done + rest.value.0, rest.value.1))
  }

  lemma AfterNothing<T>(rest: Phrase<seq<T>>)
    ensures After([], rest) == rest
  {
    if rest.Success? {
      assert [] + rest.value.0 == rest.value.0;
    }
  }

  lemma AfterFailure<T>(done: seq<T>, rest: Phrase<seq<T>>)
    ensures rest.Failure? ==> After(done, rest) == rest
  {
  }

  /** One more item, the last or not. */
  lemma AfterItem<T>(done: seq<T>, x: T, rest: Phrase<seq<T>>, k: nat)
    ensures After(done, After([x], rest)) == After(done + [x], rest)
    ensures After(done, Success(([x], k))) == Success((done + [x], k))
  {
    if rest.Success? {
      assert done + ([x] + rest.value.0) == done + [x] + rest.value.0;
    }
  }

  lemma NamesStep(ts: seq<Token>, i: nat)
    requires Cursor(ts, i)
    ensures var item, all := ParseIdentifier(ts, i), ParseIdentifiers(ts, i);
            if item.Failure? then all == Failure(item.error)
            else
              var j := item.value.1;
              && i < j && Cursor(ts, j)
              && if ts[j].kind != Comma then all == Success(([item.value.0], j))
                 else Cursor(ts, j + 1) && all == After([item.value.0], ParseIdentifiers(ts, j + 1))
  {
    hide ParseIdentifier;
  }

  lemma ValuesStep(ts: seq<Token>, i: nat, reals: Reals)
    requires Cursor(ts, i)
    ensures var item, all := ParseLiteral(ts, i, reals), ParseLiterals(ts, i, reals);
            if item.Failure? then all == Failure(item.error)
            else
              var j := item.value.1;
              && i < j && Cursor(ts, j)
              && if ts[j].kind != Comma then all == Success(([item.value.0], j))
                 else Cursor(ts, j + 1) && all == After([item.value.0], ParseLiterals(ts, j + 1, reals))
  {
    hide ParseLiteral;
  }

  lemma DefinitionsStep(ts: seq<Token>, i: nat)
    requires Cursor(ts, i)
    ensures var item, all := ParseDefinition(ts, i), ParseDefinitions(ts, i);
            if item.Failure? then all == Failure(item.error)
            else
              var j := item.value.1;
              && i < j && Cursor(ts, j)
              && if ts[j].kind != Comma then all == Success(([item.value.0], j))
                 else Cursor(ts, j + 1) && all == After([item.value.0], ParseDefinitions(ts, j + 1))
  {
    hide ParseDefinition;
  }

  lemma AssignmentsStep(ts: seq<Token>, i: nat, reals: Reals)
    requires Cursor(ts, i)
    ensures var item, all := ParseAssignment(ts, i, reals), ParseAssignments(ts, i, reals);
            if item.Failure? then all == Failure(item.error)
            else
              var j := item.value.1;
              && i < j && Cursor(ts, j)
              && if ts[j].kind != Comma then all == Success(([item.value.0], j))
                 else Cursor(ts, j + 1) && all == After([item.value.0], ParseAssignments(ts, j + 1, reals))
  {
    hide ParseAssignment;
  }

  class Parser {
    const tokens: seq<Token>
    const reals: Reals
    var index: nat

    ghost predicate Valid()
      reads this
    {
      Cursor(tokens, index)
    }

    constructor (tokens: seq<Token>, reals: Reals)
      ensures this.tokens == tokens && this.reals == reals && index == 0
    {
      this.tokens, this.reals, index := tokens, reals, 0;
    }

    method Take(k: Kind) returns (taken: bool)
      requires Valid() && k != End
      modifies this
      ensures Valid() && taken == (tokens[old(index)].kind == k) && index == old(index) + (if taken then 1 else 0)
    {
      if tokens[index].kind != k {
        return false;
      }
      index := index + 1;
      taken := true;
    }

    method TakeKeyword(text: string) returns (taken: bool)
      requires Valid()
      modifies this
      ensures Valid() && taken == IsKeyword(tokens[old(index)], text) && index == old(index) + (if taken then 1 else 0)
    {
      if !IsKeyword(tokens[index], text) {
        return false;
      }
      index := index + 1;
      taken := true;
    }

    method Require(k: Kind, why: Reason) returns (r: Result<(), SqlError>)
      requires Valid() && k != End && why != TrailingInput
      modifies this
      ensures Valid() && Reads(Expect(tokens, old(index), k, why), r, index)
    {
      var taken := Take(k);
      r := if taken then Success(()) else Failure(SqlError(tokens[index].position, why));
    }

    method RequireKeyword(text: string) returns (r: Result<(), SqlError>)
      requires Valid()
      modifies this
      ensures Valid() && Reads(ExpectKeyword(tokens, old(index), text), r, index)
    {
      hide IsKeyword;
      var taken := TakeKeyword(text);
      r := if taken then Success(()) else Failure(SqlError(tokens[index].position, ExpectedKeyword));
    }

    method Name() returns (r: Result<Identifier, SqlError>)
      requires Valid()
      modifies this
      ensures Valid() && Reads(ParseIdentifier(tokens, old(index)), r, index)
    {
      var t := tokens[index];
      var taken := Take(Word);
      r := if taken then Success(Identifier(t.text, t.position)) else Failure(SqlError(t.position, ExpectedIdentifier));
    }

    method Names() returns (r: Result<seq<Identifier>, SqlError>)
      requires Valid()
      modifies this
      ensures Valid() && Reads(ParseIdentifiers(tokens, old(index)), r, index)
    {
      hide ParseIdentifier, ParseIdentifiers, After;
      var result: seq<Identifier> := [];
      ghost var whole := ParseIdentifiers(tokens, index);
      AfterNothing(whole);
      while true
        invariant Valid() && whole == After(result, ParseIdentifiers(tokens, index))
        decreases |tokens| - index
      {
        NamesStep(tokens, index);
        AfterFailure(result, ParseIdentifiers(tokens, index));
        var id :- Name();
        var more := Take(Comma);
        AfterItem(result, id, if more then ParseIdentifiers(tokens, index) else whole, index);
        result := result + [id];
        if !more {
          return Success(result);
        }
      }
    }

    method TypeName() returns (r: Result<SqlType, SqlError>)
      requires Valid()
      modifies this
      ensures Valid() && Reads(ParseType(tokens, old(index)), r, index)
    {
      hide IsKeyword;
      var taken := TakeKeyword("INTEGER");
      if taken { return Success(IntegerType); }
      taken := TakeKeyword("REAL");
      if taken { return Success(RealType); }
      taken := TakeKeyword("TEXT");
      if taken { return Success(TextType); }
      r := Failure(SqlError(tokens[index].position, ExpectedType));
    }

    method Value() returns (r: Result<Literal, SqlError>)
      requires Valid()
      modifies this
      ensures Valid() && Reads(ParseLiteral(tokens, old(index), reals), r, index)
    {
      hide ParseInteger;
      var t := tokens[index];
      var taken := Take(TextLiteral);
      if taken { return Success(Literal(TextValue(t.text), t.position)); }
      taken := Take(IntegerLiteral);
      if taken {
        var n := ParseInteger(t.text);
        return if n.None? then Failure(SqlError(t.position, IntegerOutOfRange)) else Success(Literal(IntegerValue(n.value), t.position));
      }
      taken := Take(RealLiteral);
      if taken {
        var x := reals(t.text);
        return if x.None? then Failure(SqlError(t.position, RealOutOfRange)) else Success(Literal(RealValue(x.value), t.position));
      }
      r := Failure(SqlError(t.position, ExpectedLiteral));
    }

    method Values() returns (r: Result<seq<Literal>, SqlError>)
      requires Valid()
      modifies this
      ensures Valid() && Reads(ParseLiterals(tokens, old(index), reals), r, index)
    {
      hide ParseLiteral, ParseLiterals, After;
      var result: seq<Literal> := [];
      ghost var whole := ParseLiterals(tokens, index, reals);
      AfterNothing(whole);
      while true
        invariant Valid() && whole == After(result, ParseLiterals(tokens, index, reals))
        decreases |tokens| - index
      {
        ValuesStep(tokens, index, reals);
        AfterFailure(result, ParseLiterals(tokens, index, reals));
        var v :- Value();
        var more := Take(Comma);
        AfterItem(result, v, if more then ParseLiterals(tokens, index, reals) else whole, index);
        result := result + [v];
        if !more {
          return Success(result);
        }
      }
    }

    method Definition() returns (r: Result<ColumnDefinition, SqlError>)
      requires Valid()
      modifies this
      ensures Valid() && Reads(ParseDefinition(tokens, old(index)), r, index)
    {
      hide ParseType, ParseIdentifier;
      var id :- Name();
      var ty :- TypeName();
      r := Success(ColumnDefinition(id, ty));
    }

    method Definitions() returns (r: Result<seq<ColumnDefinition>, SqlError>)
      requires Valid()
      modifies this
      ensures Valid() && Reads(ParseDefinitions(tokens, old(index)), r, index)
    {
      hide ParseDefinition, ParseDefinitions, After;
      var result: seq<ColumnDefinition> := [];
      ghost var whole := ParseDefinitions(tokens, index);
      AfterNothing(whole);
      while true
        invariant Valid() && whole == After(result, ParseDefinitions(tokens, index))
        decreases |tokens| - index
      {
        DefinitionsStep(tokens, index);
        AfterFailure(result, ParseDefinitions(tokens, index));
        var d :- Definition();
        var more := Take(Comma);
        AfterItem(result, d, if more then ParseDefinitions(tokens, index) else whole, index);
        result := result + [d];
        if !more {
          return Success(result);
        }
      }
    }

    method Assignment() returns (r: Result<Condition, SqlError>)
      requires Valid()
      modifies this
      ensures Valid() && Reads(ParseAssignment(tokens, old(index), reals), r, index)
    {
      hide ParseIdentifier, ParseLiteral, Expect;
      var id :- Name();
      var _ :- Require(Equal, ExpectedPunctuation);
      var v :- Value();
      r := Success(Condition(id, v));
    }

    method Assignments() returns (r: Result<seq<Condition>, SqlError>)
      requires Valid()
      modifies this
      ensures Valid() && Reads(ParseAssignments(tokens, old(index), reals), r, index)
    {
      hide ParseAssignment, ParseAssignments, After;
      var result: seq<Condition> := [];
      ghost var whole := ParseAssignments(tokens, index, reals);
      AfterNothing(whole);
      while true
        invariant Valid() && whole == After(result, ParseAssignments(tokens, index, reals))
        decreases |tokens| - index
      {
        AssignmentsStep(tokens, index, reals);
        AfterFailure(result, ParseAssignments(tokens, index, reals));
        var a :- Assignment();
        var more := Take(Comma);
        AfterItem(result, a, if more then ParseAssignments(tokens, index, reals) else whole, index);
        result := result + [a];
        if !more {
          return Success(result);
        }
      }
    }

    method CreateStatement() returns (r: Result<Statement, SqlError>)
      requires Valid()
      modifies this
      ensures Valid() && Reads(ParseCreate(tokens, old(index)), r, index)
    {
      hide ExpectKeyword, ParseIdentifier, Expect, ParseDefinitions;
      var _ :- RequireKeyword("TABLE");
      var table :- Name();
      var _ :- Require(LeftParen, ExpectedPunctuation);
      var definitions :- Definitions();
      var _ :- Require(RightParen, ExpectedPunctuation);
      r := Success(Empty(Create).(table := table, definitions := definitions));
    }

    method InsertStatement() returns (r: Result<Statement, SqlError>)
      requires Valid()
      modifies this
      ensures Valid() && Reads(ParseInsert(tokens, old(index), reals), r, index)
    {
      hide ExpectKeyword, ParseIdentifier, Expect, ParseIdentifiers, ParseLiterals;
      var _ :- RequireKeyword("INTO");
      var table :- Name();
      var _ :- Require(LeftParen, ExpectedPunctuation);
      var columns :- Names();
      var _ :- Require(RightParen, ExpectedPunctuation);
      var _ :- RequireKeyword("VALUES");
      var _ :- Require(LeftParen, ExpectedPunctuation);
      var values :- Values();
      var _ :- Require(RightParen, ExpectedPunctuation);
      r := Success(Empty(Insert).(table := table, columns := columns, values := values));
    }

    method SelectStatement() returns (r: Result<Statement, SqlError>)
      requires Valid()
      modifies this
      ensures Valid() && Reads(ParseSelect(tokens, old(index), reals), r, index)
    {
      hide ExpectKeyword, ParseIdentifier, ParseIdentifiers, ParseAssignment, IsKeyword;
      var all := Take(Star);
      var columns: seq<Identifier> := [];
      if !all {
        columns :- Names();
      }
      var _ :- RequireKeyword("FROM");
      var table :- Name();
      var s := Empty(Select).(table := table, all := all, columns := columns);
      var where := TakeKeyword("WHERE");
      if where {
        var p :- Assignment();
        s := s.(condition := Some(p));
      }
      r := Success(s);
    }

    method UpdateStatement() returns (r: Result<Statement, SqlError>)
      requires Valid()
      modifies this
      ensures Valid() && Reads(ParseUpdate(tokens, old(index), reals), r, index)
    {
      hide ExpectKeyword, ParseIdentifier, ParseAssignment, ParseAssignments;
      var table :- Name();
      var _ :- RequireKeyword("SET");
      var sets :- Assignments();
      var _ :- RequireKeyword("WHERE");
      var p :- Assignment();
      r := Success(Empty(Update).(table := table, columns := ColumnsOf(sets), values := LiteralsOf(sets), condition := Some(p)));
    }

    method Body() returns (r: Result<Statement, SqlError>)
      requires Valid() && index == 0
      modifies this
      ensures Valid() && Reads(ParseBody(tokens, reals), r, index)
    {
      hide IsKeyword, ParseCreate, ParseInsert, ParseSelect, ParseUpdate;
      var taken := TakeKeyword("CREATE");
      if taken { r := CreateStatement(); return; }
      taken := TakeKeyword("INSERT");
      if taken { r := InsertStatement(); return; }
      taken := TakeKeyword("SELECT");
      if taken { r := SelectStatement(); return; }
      taken := TakeKeyword("UPDATE");
      if taken { r := UpdateStatement(); return; }
      r := Failure(SqlError(tokens[index].position, UnsupportedStatement));
    }
  }

  /** Lex and parse one statement. No token behind the end token is ever looked at. */
  method ParseStatement(source: Text, reals: Reals) returns (r: Result<Statement, SqlError>)
    ensures r == Parse(source, reals)
  {
    hide Lex, ParseBody;
    var tokens :- Tokens(source);
    var p := new Parser(tokens, reals);
    var s :- p.Body();
    var _ :- p.Require(Semicolon, ExpectedPunctuation);
    if p.tokens[p.index].kind != End {
      return Failure(SqlError(p.tokens[p.index].position, TrailingInput));
    }
    r := Success(s);
  }
}
