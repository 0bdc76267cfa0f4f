/** Lexical analysis of one SQL statement. */
module SqlLexer {
  import opened Prelude
  import opened Bytes

  datatype Kind =
    | Word | IntegerLiteral | RealLiteral | TextLiteral
    | LeftParen | RightParen | Comma | Equal | Star | Semicolon | End

  /** `position` is a zero-based byte offset. */
  datatype Token = Token(kind: Kind, text: Text, position: nat)

  /** Why a statement is refused; the position says where. */
  datatype Reason =
    | ExpectedDigits | ExpectedFraction | UnterminatedText | UnsupportedCharacter
    | ExpectedKeyword | ExpectedIdentifier | ExpectedType | ExpectedLiteral | ExpectedPunctuation
    | IntegerOutOfRange | RealOutOfRange | UnsupportedStatement | TrailingInput
    | TableExists | UnknownTable | DuplicateColumn | UnknownColumn | TypeMismatch | CountMismatch | MissingColumns

  datatype SqlError = SqlError(position: nat, reason: Reason)

  const QUOTE: Byte := 39
  const MINUS: Byte := 45
  const DOT: Byte := 46
  const SEMICOLON: Byte := 59

  predicate Digit(c: Byte) {
    48 <= c <= 57
  }

  predicate Letter(c: Byte) {
    65 <= c <= 90 || 97 <= c <= 122 || c == 95
  }

  predicate Whitespace(c: Byte) {
    c == 32 || 9 <= c <= 13
  }

  /** The punctuation with one byte. */
  function Punctuation(c: Byte): Option<Kind> {
    match c
    case 40 => Some(LeftParen)
    case 41 => Some(RightParen)
    case 44 => Some(Comma)
    case 61 => Some(Equal)
    case 42 => Some(Star)
    case 59 => Some(Semicolon)
    case _ => None
  }

  // ---- Specification ----

  function DigitsEnd(s: Text, i: nat): (j: nat)
    requires i <= |s|
    ensures i <= j <= |s| && (j < |s| ==> !Digit(s[j])) && forall k :: i <= k < j ==> Digit(s[k])
    decreases |s| - i
  {
    if i < |s| && Digit(s[i]) then DigitsEnd(s, i + 1) else i
  }

  function WordEnd(s: Text, i: nat): (j: nat)
    requires i <= |s|
    ensures i <= j <= |s| && (j < |s| ==> !Letter(s[j]) && !Digit(s[j])) && forall k :: i <= k < j ==> Letter(s[k]) || Digit(s[k])
    decreases |s| - i
  {
    if i < |s| && (Letter(s[i]) || Digit(s[i])) then WordEnd(s, i + 1) else i
  }

  datatype Scanned = Scanned(token: Token, next: nat) | Bad(error: SqlError)

  function ScanNumber(s: Text, start: nat): (r: Scanned)
    requires start < |s|
    ensures r.Scanned? ==> start < r.next <= |s|
    ensures r.Bad? ==> r.error.position <= |s|
  {
    var i := if s[start] == MINUS then start + 1 else start;
    if i == |s| || !Digit(s[i]) then Bad(SqlError(start, ExpectedDigits)) else
    var j := DigitsEnd(s, i);
    if j < |s| && s[j] == DOT then
      if j + 1 == |s| || !Digit(s[j + 1]) then Bad(SqlError(j + 1, ExpectedFraction))
      else Scanned(Token(RealLiteral, s[start..DigitsEnd(s, j + 1)], start), DigitsEnd(s, j + 1))
    else Scanned(Token(IntegerLiteral, s[start..j], start), j)
  }

  /** The decoded text from `i` to the closing apostrophe, and the offset behind it. */
  function ScanText(s: Text, i: nat): (r: Option<(Text, nat)>)
    requires i <= |s|
    ensures r.Some? ==> i < r.value.1 <= |s|
    decreases |s| - i
  {
    if i == |s| then None
    else if s[i] != QUOTE then Before(s[i], ScanText(s, i + 1))
    else if i + 1 < |s| && s[i + 1] == QUOTE then Before(QUOTE, ScanText(s, i + 2))
    else Some(([], i + 1))
  }

  function Before(c: Byte, r: Option<(Text, nat)>): Option<(Text, nat)> {
    if r.None? then None else Some(([c] + r.value.0, r.value.1))
  }

  /** The token that starts at `i`. */
  function Scan(s: Text, i: nat): (r: Scanned)
    requires i < |s|
    ensures r.Scanned? ==> i < r.next <= |s| && r.token.position == i && r.token.kind != End
    ensures r.Bad? ==> r.error.position <= |s|
  {
    var c := s[i];
    if Letter(c) then Scanned(Token(Word, s[i..WordEnd(s, i)], i), WordEnd(s, i))
    else if Digit(c) || c == MINUS then ScanNumber(s, i)
    else if c == QUOTE then
      var t := ScanText(s, i + 1);
      if t.None? then Bad(SqlError(i, UnterminatedText)) else Scanned(Token(TextLiteral, t.value.0, i), t.value.1)
    else
      var k := Punctuation(c);
      if k.None? then Bad(SqlError(i, UnsupportedCharacter)) else Scanned(Token(k.value, [c], i), i + 1)
  }

  /** The tokens from `i` on, closed by an end token; or the first error. */
  function Lex(s: Text, i: nat): (r: Result<seq<Token>, SqlError>)
    requires i <= |s|
    ensures r.Success? ==> Ended(r.value, |s|)
    ensures r.Failure? ==> r.error.position <= |s|
    decreases |s| - i
  {
    if i == |s| then Success([Token(End, [], |s|)])
    else if Whitespace(s[i]) then Lex(s, i + 1)
    else match Scan(s, i)
      case Bad(e) => Failure(e)
      case Scanned(t, next) =>
        var rest :- Lex(s, next);
        Success([t] + rest)
  }

  /** One end token, at the end; every token starts within the source. */
  predicate Ended(ts: seq<Token>, length: nat) {
    && ts != [] && (forall k :: 0 <= k < |ts| ==> ts[k].position <= length)
    && (forall k :: 0 <= k < |ts| ==> (ts[k].kind == End <==> k == |ts| - 1))
  }

  // ---- The scanner as it runs ----

  method SkipDigits(source: Text, start: nat) returns (i: nat)
    requires start <= |source|
    ensures i == DigitsEnd(source, start)
  {
    i := start;
    while i < |source| && Digit(source[i])
      invariant start <= i <= |source| && DigitsEnd(source, i) == DigitsEnd(source, start)
    {
      i := i + 1;
    }
  }

  method SkipWord(source: Text, start: nat) returns (i: nat)
    requires start <= |source|
    ensures i == WordEnd(source, start)
  {
    i := start;
    while i < |source| && (Letter(source[i]) || Digit(source[i]))
      invariant start <= i <= |source| && WordEnd(source, i) == WordEnd(source, start)
    {
      i := i + 1;
    }
  }

  method LexNumber(source: Text, start: nat) returns (r: Scanned)
    requires start < |source| && (Digit(source[start]) || source[start] == MINUS)
    ensures r == ScanNumber(source, start)
  {
    hide DigitsEnd, Digit;
    var i := start;
    if source[i] == MINUS {
      i := i + 1;
      if i == |source| || !Digit(source[i]) {
        return Bad(SqlError(start, ExpectedDigits));
      }
    }
    i := SkipDigits(source, i);
    var kind := IntegerLiteral;
    if i < |source| && source[i] == DOT {
      kind := RealLiteral;
      i := i + 1;
      if i == |source| || !Digit(source[i]) {
        return Bad(SqlError(i, ExpectedFraction));
      }
      i := SkipDigits(source, i);
    }
    r := Scanned(Token(kind, source[start..i], start), i);
  }

  method LexText(source: Text, start: nat) returns (r: Option<(Text, nat)>)
    requires start < |source|
    ensures r == ScanText(source, start + 1)
  {
    hide ScanText, Decoded;
    var i := start + 1;
    var decoded: Text := [];
    DecodedNothing(ScanText(source, i));
    while i < |source|
      invariant start < i <= |source|
      invariant ScanText(source, start + 1) == Decoded(decoded, ScanText(source, i))
    {
      DecodedStep(source, i, decoded);
      if source[i] != QUOTE {
        decoded := decoded + [source[i]];
        i := i + 1;
      } else if i + 1 < |source| && source[i + 1] == QUOTE {
        decoded := decoded + [QUOTE];
        i := i + 2;
      } else {
        return Some((decoded, i + 1));
      }
    }
    DecodedEnd(source, decoded);
    r := None;
  }

  /** What was decoded so far, in front of the rest. */
  ghost function Decoded(t: Text, rest: Option<(Text, nat)>): Option<(Text, nat)> {
    if rest.None? then None else Some((t + rest.value.0, rest.value.1))
  }

  lemma DecodedNothing(rest: Option<(Text, nat)>)
    ensures Decoded([], rest) == rest
  {
    if rest.Some? {
      assert [] + rest.value.0 == rest.value.0;
    }
  }

  lemma DecodedEnd(s: Text, t: Text)
    ensures Decoded(t, ScanText(s, |s|)) == None
  {
  }

  lemma DecodedBefore(t: Text, c: Byte, rest: Option<(Text, nat)>)
    ensures Decoded(t, Before(c, rest)) == Decoded(t + [c], rest)
  {
    if rest.Some? {
      assert t + ([c] + rest.value.0) == t + [c] + rest.value.0;
    }
  }

  /** One byte, an apostrophe written twice, or the end of the text. */
  lemma DecodedStep(s: Text, i: nat, t: Text)
    requires i < |s|
    ensures Decoded(t, ScanText(s, i)) ==
            if s[i] != QUOTE then Decoded(t + [s[i]], ScanText(s, i + 1))
            else if i + 1 < |s| && s[i + 1] == QUOTE then Decoded(t + [QUOTE], ScanText(s, i + 2))
            else Some((t, i + 1))
  {
    hide Decoded;
    if s[i] != QUOTE {
      DecodedBefore(t, s[i], ScanText(s, i + 1));
    } else if i + 1 < |s| && s[i + 1] == QUOTE {
      DecodedBefore(t, QUOTE, ScanText(s, i + 2));
    } else {
      DecodedLast(t, i + 1);
    }
  }

  lemma DecodedLast(t: Text, end: nat)
    ensures Decoded(t, Some(([], end))) == Some((t, end))
  {
    assert t + [] == t;
  }

  /** One token, starting at a byte that is not white space. */
  method LexToken(source: Text, start: nat) returns (r: Scanned)
    requires start < |source|
    ensures r == Scan(source, start)
  {
    hide ScanNumber, ScanText, WordEnd, Digit, Letter;
    var c := source[start];
    if Letter(c) {
      var i := SkipWord(source, start);
      return Scanned(Token(Word, source[start..i], start), i);
    }
    if Digit(c) || c == MINUS {
      r := LexNumber(source, start);
      return;
    }
    if c == QUOTE {
      var t := LexText(source, start);
      if t.None? {
        return Bad(SqlError(start, UnterminatedText));
      }
      return Scanned(Token(TextLiteral, t.value.0, start), t.value.1);
    }
    var k := Punctuation(c);
    if k.None? {
      return Bad(SqlError(start, UnsupportedCharacter));
    }
    r := Scanned(Token(k.value, [c], start), start + 1);
  }

  method Tokens(source: Text) returns (r: Result<seq<Token>, SqlError>)
    ensures r == Lex(source, 0)
  {
    hide Scan, Ended, Whitespace;
    var i, tokens: seq<Token> := 0, [];
    ghost var whole := Lex(source, 0);
    assert whole.Success? ==> [] + whole.value == whole.value;
    while i < |source|
      invariant i <= |source|
      invariant match Lex(source, i)
                case Success(rest) => whole == Success(tokens + rest)
                case Failure(e) => whole == Failure(e)
    {
      if Whitespace(source[i]) {
        i := i + 1;
        continue;
      }
      var scanned := LexToken(source, i);
      if scanned.Bad? {
        return Failure(scanned.error);
      }
      ghost var rest := Lex(source, scanned.next);
      assert rest.Success? ==> tokens + ([scanned.token] + rest.value) == tokens + [scanned.token] + rest.value;
      tokens, i := tokens + [scanned.token], scanned.next;
    }
    r := Success(tokens + [Token(End, [], |source|)]);
  }
}
