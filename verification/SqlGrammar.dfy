/** The statements of the SQL subset, and what a token sequence means. */
module SqlGrammar {
  import opened Prelude
  import opened Bytes
  import opened Floats
  import opened SqlLexer

  datatype SqlType = IntegerType | RealType | TextType

  datatype SqlValue = IntegerValue(n: I64) | RealValue(x: Finite) | TextValue(t: Text) {
    function Type(): SqlType {
      match this
      case IntegerValue(_) => IntegerType
      case RealValue(_) => RealType
      case TextValue(_) => TextType
    }
  }

  /** Decimal to binary64 conversion; `None` if the result is not finite. */
  type Reals = Text -> Option<Finite>

  datatype Identifier = Identifier(name: Text, position: nat)

  datatype Literal = Literal(value: SqlValue, position: nat)

  datatype ColumnDefinition = ColumnDefinition(id: Identifier, ty: SqlType)

  datatype Condition = Condition(column: Identifier, literal: Literal)

  datatype Operation = Create | Insert | Select | Update

  datatype Statement = Statement(
    operation: Operation,
    table: Identifier,
    definitions: seq<ColumnDefinition>,
    columns: seq<Identifier>,
    values: seq<Literal>,
    all: bool,
    condition: Option<Condition>)

  /** A phrase and the index of the token behind it. */
  type Phrase<+T> = Result<(T, nat), SqlError>

  predicate Cursor(ts: seq<Token>, i: nat) {
    i < |ts| && forall k :: 0 <= k < |ts| ==> (ts[k].kind == End <==> k == |ts| - 1)
  }

  /** A phrase ends before the end token, and an error is at some token and says that the phrase is wrong. */
  ghost predicate Within<T>(ts: seq<Token>, i: nat, r: Phrase<T>) {
    match r
    case Success((_, j)) => i < j < |ts|
    case Failure(e) => e.reason != TrailingInput && exists k :: 0 <= k < |ts| && e.position == ts[k].position
  }

  function Lower(c: Byte): Byte {
    if 65 <= c <= 90 then c + 32 else c
  }

  /** Equal up to the case of ASCII letters: a word has no other bytes with case. */
  predicate EqualFold(a: Text, b: Text) {
    |a| == |b| && forall k :: 0 <= k < |a| ==> Lower(a[k]) == Lower(b[k])
  }

  predicate IsKeyword(t: Token, keyword: string) {
    t.kind == Word && EqualFold(t.text, Ascii(keyword))
  }

  function Expect(ts: seq<Token>, i: nat, k: Kind, why: Reason): (r: Phrase<()>)
    requires Cursor(ts, i) && k != End && why != TrailingInput
    ensures Within(ts, i, r)
  {
    if ts[i].kind == k then Success(((), i + 1)) else Failure(SqlError(ts[i].position, why))
  }

  function ExpectKeyword(ts: seq<Token>, i: nat, keyword: string): (r: Phrase<()>)
    requires Cursor(ts, i)
    ensures Within(ts, i, r)
  {
    if IsKeyword(ts[i], keyword) then Success(((), i + 1)) else Failure(SqlError(ts[i].position, ExpectedKeyword))
  }

  function ParseIdentifier(ts: seq<Token>, i: nat): (r: Phrase<Identifier>)
    requires Cursor(ts, i)
    ensures Within(ts, i, r)
  {
    if ts[i].kind == Word then Success((Identifier(ts[i].text, ts[i].position), i + 1))
    else Failure(SqlError(ts[i].position, ExpectedIdentifier))
  }

  function ParseIdentifiers(ts: seq<Token>, i: nat): (r: Phrase<seq<Identifier>>)
    requires Cursor(ts, i)
    ensures Within(ts, i, r)
    decreases |ts| - i
  {
    var (id, j) :- ParseIdentifier(ts, i);
    if ts[j].kind != Comma then Success(([id], j)) else
    var (rest, k) :- ParseIdentifiers(ts, j + 1);
    Success(([id] + rest, k))
  }

  function ParseType(ts: seq<Token>, i: nat): (r: Phrase<SqlType>)
    requires Cursor(ts, i)
    ensures Within(ts, i, r)
  {
    if IsKeyword(ts[i], "INTEGER") then Success((IntegerType, i + 1))
    else if IsKeyword(ts[i], "REAL") then Success((RealType, i + 1))
    else if IsKeyword(ts[i], "TEXT") then Success((TextType, i + 1))
    else Failure(SqlError(ts[i].position, ExpectedType))
  }

  function DigitsValue(t: Text): int {
    if t == [] then 0 else 10 * DigitsValue(t[..|t| - 1]) + (t[|t| - 1] as int - 48)
  }

  /** A decimal number in the signed 64-bit range. */
  function ParseInteger(t: Text): Option<I64> {
    var digits := if t != [] && t[0] == MINUS then t[1..] else t;
    var n := if digits == t then DigitsValue(digits) else -DigitsValue(digits);
    if digits != [] && (forall k :: 0 <= k < |digits| ==> Digit(digits[k])) && -0x8000_0000_0000_0000 <= n < 0x8000_0000_0000_0000
    then Some(n) else None
  }

  function ParseLiteral(ts: seq<Token>, i: nat, reals: Reals): (r: Phrase<Literal>)
    requires Cursor(ts, i)
    ensures Within(ts, i, r)
  {
    var t := ts[i];
    match t.kind
    case TextLiteral => Success((Literal(TextValue(t.text), t.position), i + 1))
    case IntegerLiteral =>
      var n := ParseInteger(t.text);
      if n.None? then Failure(SqlError(t.position, IntegerOutOfRange))
      else Success((Literal(IntegerValue(n.value), t.position), i + 1))
    case RealLiteral =>
      var x := reals(t.text);
      if x.None? then Failure(SqlError(t.position, RealOutOfRange))
      else Success((Literal(RealValue(x.value), t.position), i + 1))
    case _ => Failure(SqlError(t.position, ExpectedLiteral))
  }

  function ParseLiterals(ts: seq<Token>, i: nat, reals: Reals): (r: Phrase<seq<Literal>>)
    requires Cursor(ts, i)
    ensures Within(ts, i, r)
    decreases |ts| - i
  {
    var (v, j) :- ParseLiteral(ts, i, reals);
    if ts[j].kind != Comma then Success(([v], j)) else
    var (rest, k) :- ParseLiterals(ts, j + 1, reals);
    Success(([v] + rest, k))
  }

  function ParseDefinition(ts: seq<Token>, i: nat): (r: Phrase<ColumnDefinition>)
    requires Cursor(ts, i)
    ensures Within(ts, i, r)
  {
    var (id, j) :- ParseIdentifier(ts, i);
    var (ty, k) :- ParseType(ts, j);
    Success((ColumnDefinition(id, ty), k))
  }

  function ParseDefinitions(ts: seq<Token>, i: nat): (r: Phrase<seq<ColumnDefinition>>)
    requires Cursor(ts, i)
    ensures Within(ts, i, r)
    decreases |ts| - i
  {
    var (d, j) :- ParseDefinition(ts, i);
    if ts[j].kind != Comma then Success(([d], j)) else
    var (rest, k) :- ParseDefinitions(ts, j + 1);
    Success(([d] + rest, k))
  }

  /** `column = value`, in SET and in WHERE. */
  function ParseAssignment(ts: seq<Token>, i: nat, reals: Reals): (r: Phrase<Condition>)
    requires Cursor(ts, i)
    ensures Within(ts, i, r)
  {
    var (id, j) :- ParseIdentifier(ts, i);
    var (_, k) :- Expect(ts, j, Equal, ExpectedPunctuation);
    var (v, n) :- ParseLiteral(ts, k, reals);
    Success((Condition(id, v), n))
  }

  function ParseAssignments(ts: seq<Token>, i: nat, reals: Reals): (r: Phrase<seq<Condition>>)
    requires Cursor(ts, i)
    ensures Within(ts, i, r)
    decreases |ts| - i
  {
    var (a, j) :- ParseAssignment(ts, i, reals);
    if ts[j].kind != Comma then Success(([a], j)) else
    var (rest, k) :- ParseAssignments(ts, j + 1, reals);
    Success(([a] + rest, k))
  }

  /** What the executor may rely on: an UPDATE has a condition and a value for every column it sets. */
  predicate WellFormed(s: Statement) {
    && (s.operation.Update? ==> s.condition.Some? && |s.columns| == |s.values|)
    && (s.operation.Create? ==> s.definitions != [])
  }

  function Empty(operation: Operation): Statement {
    Statement(operation, Identifier([], 0), [], [], [], false, None)
  }

  function ParseCreate(ts: seq<Token>, i: nat): (r: Phrase<Statement>)
    requires Cursor(ts, i)
    ensures Within(ts, i, r) && (r.Success? ==> WellFormed(r.value.0))
  {
    var (_, a) :- ExpectKeyword(ts, i, "TABLE");
    var (table, b) :- ParseIdentifier(ts, a);
    var (_, c) :- Expect(ts, b, LeftParen, ExpectedPunctuation);
    var (definitions, d) :- ParseDefinitions(ts, c);
    var (_, e) :- Expect(ts, d, RightParen, ExpectedPunctuation);
    Success((Empty(Create).(table := table, definitions := definitions), e))
  }

  function ParseInsert(ts: seq<Token>, i: nat, reals: Reals): (r: Phrase<Statement>)
    requires Cursor(ts, i)
    ensures Within(ts, i, r) && (r.Success? ==> WellFormed(r.value.0))
  {
    var (_, a) :- ExpectKeyword(ts, i, "INTO");
    var (table, b) :- ParseIdentifier(ts, a);
    var (_, c) :- Expect(ts, b, LeftParen, ExpectedPunctuation);
    var (columns, d) :- ParseIdentifiers(ts, c);
    var (_, e) :- Expect(ts, d, RightParen, ExpectedPunctuation);
    var (_, f) :- ExpectKeyword(ts, e, "VALUES");
    var (_, g) :- Expect(ts, f, LeftParen, ExpectedPunctuation);
    var (values, h) :- ParseLiterals(ts, g, reals);
    var (_, j) :- Expect(ts, h, RightParen, ExpectedPunctuation);
    Success((Empty(Insert).(table := table, columns := columns, values := values), j))
  }

  /** The columns, or `*`. */
  function ParseSelection(ts: seq<Token>, i: nat): (r: Phrase<(bool, seq<Identifier>)>)
    requires Cursor(ts, i)
    ensures Within(ts, i, r)
  {
    if ts[i].kind == Star then Success(((true, []), i + 1)) else
    var (columns, j) :- ParseIdentifiers(ts, i);
    Success(((false, columns), j))
  }

  function ParseSelect(ts: seq<Token>, i: nat, reals: Reals): (r: Phrase<Statement>)
    requires Cursor(ts, i)
    ensures Within(ts, i, r) && (r.Success? ==> WellFormed(r.value.0))
  {
    var (selection, a) :- ParseSelection(ts, i);
    var (_, b) :- ExpectKeyword(ts, a, "FROM");
    var (table, c) :- ParseIdentifier(ts, b);
    var s := Empty(Select).(table := table, all := selection.0, columns := selection.1);
    if !IsKeyword(ts[c], "WHERE") then Success((s, c)) else
    var (p, d) :- ParseAssignment(ts, c + 1, reals);
    Success((s.(condition := Some(p)), d))
  }

  function ColumnsOf(ps: seq<Condition>): (r: seq<Identifier>)
    ensures |r| == |ps|
  {
    seq(|ps|, k requires 0 <= k < |ps| => ps[k].column)
  }

  function LiteralsOf(ps: seq<Condition>): (r: seq<Literal>)
    ensures |r| == |ps|
  {
    seq(|ps|, k requires 0 <= k < |ps| => ps[k].literal)
  }

  function ParseUpdate(ts: seq<Token>, i: nat, reals: Reals): (r: Phrase<Statement>)
    requires Cursor(ts, i)
    ensures Within(ts, i, r) && (r.Success? ==> WellFormed(r.value.0))
  {
    var (table, a) :- ParseIdentifier(ts, i);
    var (_, b) :- ExpectKeyword(ts, a, "SET");
    var (sets, c) :- ParseAssignments(ts, b, reals);
    var (_, d) :- ExpectKeyword(ts, c, "WHERE");
    var (p, e) :- ParseAssignment(ts, d, reals);
    Success((Empty(Update).(table := table, columns := ColumnsOf(sets), values := LiteralsOf(sets), condition := Some(p)), e))
  }

  function ParseBody(ts: seq<Token>, reals: Reals): (r: Phrase<Statement>)
    requires Cursor(ts, 0)
    ensures Within(ts, 0, r) && (r.Success? ==> WellFormed(r.value.0))
  {
    if IsKeyword(ts[0], "CREATE") then ParseCreate(ts, 1)
    else if IsKeyword(ts[0], "INSERT") then ParseInsert(ts, 1, reals)
    else if IsKeyword(ts[0], "SELECT") then ParseSelect(ts, 1, reals)
    else if IsKeyword(ts[0], "UPDATE") then ParseUpdate(ts, 1, reals)
    else Failure(SqlError(ts[0].position, UnsupportedStatement))
  }

  /** Exactly one statement, closed by a semicolon. */
  function ParseTokens(ts: seq<Token>, reals: Reals): (r: Result<Statement, SqlError>)
    requires Cursor(ts, 0)
    ensures r.Success? ==> WellFormed(r.value)
    ensures r.Failure? ==> exists k :: 0 <= k < |ts| && r.error.position == ts[k].position
  {
    var (s, i) :- ParseBody(ts, reals);
    var (_, j) :- Expect(ts, i, Semicolon, ExpectedPunctuation);
    if ts[j].kind != End then Failure(SqlError(ts[j].position, TrailingInput)) else Success(s)
  }

  /** Every error points into the source or just behind it. */
  function Parse(source: Text, reals: Reals): (r: Result<Statement, SqlError>)
    ensures r.Success? ==> WellFormed(r.value)
    ensures r.Failure? ==> r.error.position <= |source|
  {
    var ts :- Lex(source, 0);
    ParseTokens(ts, reals)
  }
}
