/** Rendering a statement and reading it back: any spacing, any case of the keywords, any text. */
module SqlPrinting {
  import opened Prelude
  import opened Bytes
  import opened SqlLexer
  import opened SqlGrammar

  // ---- Spelling ----

  datatype Lexeme = Lexeme(kind: Kind, text: Text)

  predicate AllDigits(t: Text) {
    t != [] && forall k :: 0 <= k < |t| ==> Digit(t[k])
  }

  predicate IsInteger(t: Text) {
    AllDigits(t) || (t != [] && t[0] == MINUS && AllDigits(t[1..]))
  }

  /** Digits on both sides of a point. */
  predicate IsReal(t: Text) {
    exists j :: 0 < j < |t| && t[j] == DOT && IsInteger(t[..j]) && AllDigits(t[j + 1..])
  }

  /** A name as the lexer sees one; a keyword is as good as any other. */
  predicate LegalName(t: Text) {
    t != [] && Letter(t[0]) && forall k :: 0 <= k < |t| ==> Letter(t[k]) || Digit(t[k])
  }

  predicate Spellable(l: Lexeme) {
    match l.kind
    case Word => LegalName(l.text)
    case IntegerLiteral => IsInteger(l.text)
    case RealLiteral => IsReal(l.text)
    case TextLiteral => true
    case End => false
    case _ => |l.text| == 1 && Punctuation(l.text[0]) == Some(l.kind)
  }

  /** Every apostrophe doubled. */
  function Doubled(t: Text): Text {
    if t == [] then [] else (if t[0] == QUOTE then [QUOTE, QUOTE] else [t[0]]) + Doubled(t[1..])
  }

  /** A TEXT literal. */
  function SqlString(t: Text): Text {
    [QUOTE] + Doubled(t) + [QUOTE]
  }

  function Spelling(l: Lexeme): Text {
    if l.kind == TextLiteral then SqlString(l.text) else l.text
  }

  /** What follows does not run into a token of this kind. */
  predicate Clear(kind: Kind, rest: Text) {
    rest == [] ||
    match kind
    case Word => !Letter(rest[0]) && !Digit(rest[0])
    case IntegerLiteral => !Digit(rest[0]) && rest[0] != DOT
    case RealLiteral => !Digit(rest[0])
    case TextLiteral => rest[0] != QUOTE
    case _ => true
  }

  // ---- Scanning what was spelled ----

  lemma {:induction false} ScanDoubled(s: Text, i: nat, t: Text, rest: Text)
    requires i <= |s| && s[i..] == Doubled(t) + [QUOTE] + rest && Clear(TextLiteral, rest)
    ensures ScanText(s, i) == Some((t, i + |Doubled(t)| + 1))
    decreases t
  {
    var n := |Doubled(t)|;
    assert s[i..][n] == QUOTE && (rest != [] ==> s[i..][n + 1] == rest[0]);
    if t != [] {
      var w := if t[0] == QUOTE then 2 else 1;
      assert s[i + w..] == s[i..][w..] == Doubled(t[1..]) + [QUOTE] + rest;
      assert s[i] == s[i..][0] == Doubled(t)[0];
      if t[0] == QUOTE {
        assert s[i + 1] == s[i..][1] == Doubled(t)[1] == QUOTE;
      }
      ScanDoubled(s, i + w, t[1..], rest);
      assert [t[0]] + t[1..] == t;
    }
  }

  lemma WordEnds(s: Text, i: nat, t: Text, rest: Text)
    requires i <= |s| && s[i..] == t + rest && LegalName(t) && Clear(Word, rest)
    ensures WordEnd(s, i) == i + |t|
  {
    assert forall k :: i <= k < i + |t| ==> s[k] == s[i..][k - i] == t[k - i];
    assert rest != [] ==> s[i + |t|] == s[i..][|t|] == rest[0];
  }

  lemma DigitsEnds(s: Text, i: nat, t: Text, rest: Text)
    requires i <= |s| && s[i..] == t + rest && AllDigits(t) && (rest == [] || !Digit(rest[0]))
    ensures DigitsEnd(s, i) == i + |t|
  {
    assert forall k :: i <= k < i + |t| ==> s[k] == s[i..][k - i] == t[k - i];
    assert rest != [] ==> s[i + |t|] == s[i..][|t|] == rest[0];
  }

  /** The digits of a number, behind its sign. */
  lemma WholeDigits(s: Text, i: nat, t: Text, rest: Text) returns (first: nat)
    requires i <= |s| && s[i..] == t + rest && IsInteger(t) && (rest == [] || !Digit(rest[0]))
    ensures i < |s| && s[i] == t[0] && first == (if s[i] == MINUS then i + 1 else i)
    ensures first < |s| && Digit(s[first]) && DigitsEnd(s, first) == i + |t|
    ensures !Letter(s[i]) && (Digit(s[i]) || s[i] == MINUS)
  {
    hide DigitsEnd;
    assert s[i] == s[i..][0] == t[0];
    if AllDigits(t) {
      first := i;
      DigitsEnds(s, i, t, rest);
    } else {
      first := i + 1;
      assert s[i + 1] == s[i..][1] == t[1..][0];
      assert s[i + 1..] == s[i..][1..] == t[1..] + rest;
      DigitsEnds(s, i + 1, t[1..], rest);
    }
  }

  lemma ScanInteger(s: Text, i: nat, t: Text, rest: Text)
    requires i <= |s| && s[i..] == t + rest && IsInteger(t) && Clear(IntegerLiteral, rest)
    ensures i < |s| && !Letter(s[i]) && (Digit(s[i]) || s[i] == MINUS)
    ensures ScanNumber(s, i) == Scanned(Token(IntegerLiteral, t, i), i + |t|)
  {
    hide DigitsEnd;
    var first := WholeDigits(s, i, t, rest);
    assert s[i..i + |t|] == s[i..][..|t|] == t;
    assert rest != [] ==> s[i + |t|] == s[i..][|t|] == rest[0];
  }

  lemma ScanReal(s: Text, i: nat, t: Text, rest: Text)
    requires i <= |s| && s[i..] == t + rest && IsReal(t) && Clear(RealLiteral, rest)
    ensures i < |s| && !Letter(s[i]) && (Digit(s[i]) || s[i] == MINUS)
    ensures ScanNumber(s, i) == Scanned(Token(RealLiteral, t, i), i + |t|)
  {
    hide ScanNumber, IsInteger, AllDigits, Digit, Letter;
    var j :| 0 < j < |t| && t[j] == DOT && IsInteger(t[..j]) && AllDigits(t[j + 1..]);
    ScanRealAt(s, i, t, rest, j);
  }

  lemma ScanRealAt(s: Text, i: nat, t: Text, rest: Text, j: nat)
    requires i <= |s| && s[i..] == t + rest && (rest == [] || !Digit(rest[0]))
    requires 0 < j < |t| && t[j] == DOT && IsInteger(t[..j]) && AllDigits(t[j + 1..])
    ensures i < |s| && !Letter(s[i]) && (Digit(s[i]) || s[i] == MINUS)
    ensures ScanNumber(s, i) == Scanned(Token(RealLiteral, t, i), i + |t|)
  {
    hide DigitsEnd, IsInteger, AllDigits, Digit, Letter;
    FractionDigits(t[j + 1..]);
    RealParts(s, i, t, rest, j);
    var first := WholeDigits(s, i, t[..j], t[j..] + rest);
    DigitsEnds(s, i + j + 1, t[j + 1..], rest);
  }

  lemma FractionDigits(t: Text)
    requires AllDigits(t)
    ensures |t| > 0 && Digit(t[0]) && !Digit(DOT)
  {
  }

  lemma RealParts(s: Text, i: nat, t: Text, rest: Text, j: nat)
    requires i <= |s| && s[i..] == t + rest && 0 < j < |t| - 1
    ensures s[i..] == t[..j] + (t[j..] + rest) && (t[j..] + rest)[0] == t[j]
    ensures i + |t| <= |s| && s[i + j] == t[j] && s[i + j + 1..] == t[j + 1..] + rest && s[i + j + 1] == t[j + 1..][0]
    ensures s[i..i + |t|] == t && s[i] == t[..j][0]
  {
    assert t == t[..j] + t[j..];
    assert s[i + j] == s[i..][j] && s[i] == s[i..][0] && s[i + j + 1] == s[i..][j + 1];
    assert s[i + j + 1..] == s[i..][j + 1..];
    assert s[i..i + |t|] == s[i..][..|t|];
  }

  /** A spelled token is scanned back, whatever follows it, if that does not run into it. */
  lemma ScanSpelled(s: Text, i: nat, l: Lexeme, rest: Text)
    requires i <= |s| && Spellable(l) && s[i..] == Spelling(l) + rest && Clear(l.kind, rest)
    ensures i < |s| && !Whitespace(s[i]) && Scan(s, i) == Scanned(Token(l.kind, l.text, i), i + |Spelling(l)|)
  {
    hide ScanNumber, ScanText, WordEnd, LegalName, IsInteger, IsReal, Doubled;
    match l.kind
    case Word => ScanWord(s, i, l.text, rest);
    case IntegerLiteral => ScanInteger(s, i, l.text, rest);
    case RealLiteral => ScanReal(s, i, l.text, rest);
    case TextLiteral => ScanString(s, i, l.text, rest);
    case _ => ScanMark(s, i, l, rest);
  }

  lemma ScanWord(s: Text, i: nat, t: Text, rest: Text)
    requires i <= |s| && s[i..] == t + rest && LegalName(t) && Clear(Word, rest)
    ensures i < |s| && !Whitespace(s[i]) && Scan(s, i) == Scanned(Token(Word, t, i), i + |t|)
  {
    hide WordEnd;
    assert s[i] == s[i..][0] == t[0];
    WordEnds(s, i, t, rest);
    assert s[i..i + |t|] == s[i..][..|t|] == t;
  }

  lemma ScanString(s: Text, i: nat, t: Text, rest: Text)
    requires i <= |s| && s[i..] == SqlString(t) + rest && Clear(TextLiteral, rest)
    ensures i < |s| && !Whitespace(s[i]) && Scan(s, i) == Scanned(Token(TextLiteral, t, i), i + |SqlString(t)|)
  {
    hide ScanText, Doubled;
    assert s[i] == s[i..][0] == QUOTE;
    assert s[i + 1..] == s[i..][1..] == Doubled(t) + [QUOTE] + rest;
    ScanDoubled(s, i + 1, t, rest);
  }

  lemma ScanMark(s: Text, i: nat, l: Lexeme, rest: Text)
    requires i <= |s| && s[i..] == l.text + rest && |l.text| == 1 && Punctuation(l.text[0]) == Some(l.kind)
    ensures i < |s| && !Whitespace(s[i]) && Scan(s, i) == Scanned(Token(l.kind, l.text, i), i + 1)
  {
    hide ScanNumber, ScanText, WordEnd;
    assert s[i] == s[i..][0] == l.text[0];
    assert [s[i]] == l.text;
  }

  // ---- Layouts ----

  /** A token and the white space before it. */
  datatype Piece = Piece(gap: Text, lexeme: Lexeme)

  predicate Blank(t: Text) {
    forall k :: 0 <= k < |t| ==> Whitespace(t[k])
  }

  function Layout(ps: seq<Piece>, tail: Text): Text {
    if ps == [] then tail else ps[0].gap + Spelling(ps[0].lexeme) + Layout(ps[1..], tail)
  }

  /** White space may be left out only where two tokens do not run together. */
  predicate Separated(ps: seq<Piece>, tail: Text) {
    if ps == [] then Blank(tail)
    else
      && Blank(ps[0].gap) && Spellable(ps[0].lexeme)
      && Clear(ps[0].lexeme.kind, Layout(ps[1..], tail))
      && Separated(ps[1..], tail)
  }

  predicate SameLexeme(t: Token, l: Lexeme) {
    t.kind == l.kind && t.text == l.text
  }

  lemma {:induction false} SkipBlank(s: Text, i: nat, gap: Text, rest: Text)
    requires i <= |s| && s[i..] == gap + rest && Blank(gap)
    ensures Lex(s, i) == Lex(s, i + |gap|)
    decreases gap
  {
    hide Scan, Ended;
    if gap != [] {
      assert s[i] == s[i..][0] == gap[0];
      assert s[i + 1..] == s[i..][1..] == gap[1..] + rest;
      SkipBlank(s, i + 1, gap[1..], rest);
    }
  }

  /** One piece of a layout gives one token. */
  lemma LexPiece(s: Text, i: nat, gap: Text, l: Lexeme, rest: Text)
    requires i <= |s| && s[i..] == gap + Spelling(l) + rest && Blank(gap) && Spellable(l) && Clear(l.kind, rest)
    ensures var n := i + |gap| + |Spelling(l)|;
            && n <= |s| && s[n..] == rest
            && (Lex(s, n).Success? ==> Lex(s, i) == Success([Token(l.kind, l.text, i + |gap|)] + Lex(s, n).value))
  {
    hide Scan, Ended, Spellable, Clear, Blank, Spelling;
    var j := i + |gap|;
    assert s[i..] == gap + (Spelling(l) + rest);
    SkipBlank(s, i, gap, Spelling(l) + rest);
    assert s[j..] == s[i..][|gap|..] == Spelling(l) + rest;
    ScanSpelled(s, j, l, rest);
    assert s[j + |Spelling(l)|..] == s[j..][|Spelling(l)|..] == rest;
  }

  /** The tokens of a layout are its lexemes, and nothing else. */
  lemma {:induction false} LexLayout(s: Text, i: nat, ps: seq<Piece>, tail: Text)
    requires i <= |s| && s[i..] == Layout(ps, tail) && Separated(ps, tail)
    ensures Lex(s, i).Success? && |Lex(s, i).value| == |ps| + 1
    ensures forall k :: 0 <= k < |ps| ==> SameLexeme(Lex(s, i).value[k], ps[k].lexeme)
    decreases ps
  {
    hide Lex, Ended, Spellable, Clear, Blank, Spelling;
    if ps == [] {
      LexBlank(s, i);
    } else {
      var p := ps[0];
      LexPiece(s, i, p.gap, p.lexeme, Layout(ps[1..], tail));
      LexLayout(s, i + |p.gap| + |Spelling(p.lexeme)|, ps[1..], tail);
    }
  }

  lemma LexBlank(s: Text, i: nat)
    requires i <= |s| && Blank(s[i..])
    ensures Lex(s, i) == Success([Token(End, [], |s|)])
  {
    hide Scan, Ended;
    assert s[i..] + [] == s[i..];
    SkipBlank(s, i, s[i..], []);
  }

  // ---- Numbers ----

  function Decimal(n: nat): (t: Text)
    ensures AllDigits(t)
  {
    if n < 10 then [n + 48] else Decimal(n / 10) + [n % 10 + 48]
  }

  function IntegerText(n: int): Text {
    if n < 0 then [MINUS] + Decimal(-n) else Decimal(n)
  }

  lemma {:induction false} DecimalBack(n: nat)
    ensures DigitsValue(Decimal(n)) == n
  {
    var t := Decimal(n);
    if n < 10 {
      assert t[..0] == [];
      assert DigitsValue(t) == 10 * DigitsValue(t[..0]) + n;
    } else {
      DecimalBack(n / 10);
      assert t[..|t| - 1] == Decimal(n / 10);
    }
  }

  lemma IntegerBack(n: I64)
    ensures IsInteger(IntegerText(n)) && ParseInteger(IntegerText(n)) == Some(n)
  {
    var m: int := n;
    DecimalBack(if m < 0 then -m else m);
    var t := IntegerText(n);
    if n < 0 {
      assert t[1..] == Decimal(-m);
    } else {
      assert t[0] != MINUS;
    }
  }

  // ---- Items: what the tokens of a statement have to be ----

  datatype Item = Key(word: string) | Mark(kind: Kind) | Exactly(lexeme: Lexeme) | Denoting(value: SqlValue, reals: Reals)

  /** The literal has this value; there may be many spellings of it. */
  predicate Denotes(l: Lexeme, v: SqlValue, reals: Reals) {
    match l.kind
    case TextLiteral => v == TextValue(l.text)
    case IntegerLiteral => v.IntegerValue? && ParseInteger(l.text) == Some(v.n)
    case RealLiteral => v.RealValue? && reals(l.text) == Some(v.x)
    case _ => false
  }

  predicate Fits(l: Lexeme, item: Item) {
    match item
    case Key(w) => l.kind == Word && EqualFold(l.text, Ascii(w))
    case Mark(k) => l.kind == k
    case Exactly(x) => l == x
    case Denoting(v, reals) => Denotes(l, v, reals)
  }

  function NameItem(id: Identifier): Item {
    Exactly(Lexeme(Word, id.name))
  }

  function Punct(k: Kind): Item {
    Mark(k)
  }

  function MarkText(k: Kind): Text {
    match k
    case LeftParen => [40]
    case RightParen => [41]
    case Comma => [44]
    case Equal => [61]
    case Star => [42]
    case _ => [SEMICOLON]
  }

  function ValueItem(v: Literal, reals: Reals): Item {
    Denoting(v.value, reals)
  }

  function NamesItems(ids: seq<Identifier>): seq<Item> {
    if ids == [] then []
    else if |ids| == 1 then [NameItem(ids[0])]
    else [NameItem(ids[0]), Punct(Comma)] + NamesItems(ids[1..])
  }

  function ValuesItems(vs: seq<Literal>, reals: Reals): seq<Item> {
    if vs == [] then []
    else if |vs| == 1 then [ValueItem(vs[0], reals)]
    else [ValueItem(vs[0], reals), Punct(Comma)] + ValuesItems(vs[1..], reals)
  }

  function TypeWord(ty: SqlType): string {
    match ty
    case IntegerType => "INTEGER"
    case RealType => "REAL"
    case TextType => "TEXT"
  }

  function DefinitionItem(d: ColumnDefinition): seq<Item> {
    [NameItem(d.id), Key(TypeWord(d.ty))]
  }

  function DefinitionItems(ds: seq<ColumnDefinition>): seq<Item> {
    if ds == [] then []
    else if |ds| == 1 then DefinitionItem(ds[0])
    else DefinitionItem(ds[0]) + [Punct(Comma)] + DefinitionItems(ds[1..])
  }

  function AssignmentItem(a: Condition, reals: Reals): seq<Item> {
    [NameItem(a.column), Punct(Equal), ValueItem(a.literal, reals)]
  }

  function AssignmentItems(sets: seq<Condition>, reals: Reals): seq<Item> {
    if sets == [] then []
    else if |sets| == 1 then AssignmentItem(sets[0], reals)
    else AssignmentItem(sets[0], reals) + [Punct(Comma)] + AssignmentItems(sets[1..], reals)
  }

  // ---- Statements without their positions ----

  function BareName(id: Identifier): Identifier {
    id.(position := 0)
  }

  function BareNames(ids: seq<Identifier>): seq<Identifier> {
    seq(|ids|, k requires 0 <= k < |ids| => BareName(ids[k]))
  }

  function BareValue(v: Literal): Literal {
    v.(position := 0)
  }

  function BareValues(vs: seq<Literal>): seq<Literal> {
    seq(|vs|, k requires 0 <= k < |vs| => BareValue(vs[k]))
  }

  function BareDefinitions(ds: seq<ColumnDefinition>): seq<ColumnDefinition> {
    seq(|ds|, k requires 0 <= k < |ds| => ds[k].(id := BareName(ds[k].id)))
  }

  function BareCondition(c: Condition): Condition {
    Condition(BareName(c.column), BareValue(c.literal))
  }

  function BareConditions(cs: seq<Condition>): seq<Condition> {
    seq(|cs|, k requires 0 <= k < |cs| => BareCondition(cs[k]))
  }

  function Bare(s: Statement): Statement {
    Statement(s.operation, BareName(s.table), BareDefinitions(s.definitions), BareNames(s.columns), BareValues(s.values), s.all,
              if s.condition.None? then None else Some(BareCondition(s.condition.value)))
  }
}
