/** Cutting an input stream into statements, and why that agrees with the lexer. */
module StatementFraming {
  import opened Prelude
  import opened Bytes
  import opened SqlLexer
  import opened SqlGrammar
  import opened SqlPrinting

  // ---- Specification ----

  /** Where the frame that is being read at `i` ends: behind a semicolon outside quotes, or at the end of input. */
  function FrameEnd(s: Text, i: nat, quoted: bool): (e: nat)
    requires i <= |s|
    ensures i <= e <= |s| && (i < |s| ==> i < e)
    decreases |s| - i
  {
    if i == |s| then i
    else if s[i] == QUOTE then
      if quoted && i + 1 < |s| && s[i + 1] == QUOTE then FrameEnd(s, i + 2, true) else FrameEnd(s, i + 1, !quoted)
    else if s[i] == SEMICOLON && !quoted then i + 1
    else FrameEnd(s, i + 1, quoted)
  }

  /** The next frame, or nothing if only white space is left. */
  function NextFrame(s: Text, start: nat): Option<Text>
    requires start <= |s|
  {
    if Blank(s[start..]) then None else Some(s[start..FrameEnd(s, start, false)])
  }

  /** All frames of an input. */
  function Frames(s: Text, start: nat): seq<Text>
    requires start <= |s|
    decreases |s| - start
  {
    if start == |s| || Blank(s[start..]) then []
    else [s[start..FrameEnd(s, start, false)]] + Frames(s, FrameEnd(s, start, false))
  }

  // ---- The reader as it runs ----

  class StatementReader {
    const input: Text
    var position: nat

    ghost predicate Valid()
      reads this
    {
      position <= |input|
    }

    constructor (input: Text)
      ensures this.input == input && position == 0
    {
      this.input, position := input, 0;
    }

    /** Byte by byte, with one byte of lookahead behind an apostrophe. */
    method ReadStatement() returns (frame: Option<Text>)
      requires Valid()
      modifies this
      ensures Valid() && frame == NextFrame(input, old(position))
      ensures frame.Some? ==> position == FrameEnd(input, old(position), false)
    {
      hide FrameEnd, Blank;
      ghost var start := position;
      var source: Text := [];
      var quoted, hasContent := false, false;
      EmptyIsBlank();
      while position < |input|
        invariant start <= position <= |input| && source == input[start..position]
        invariant hasContent == !Blank(source)
        invariant FrameEnd(input, position, quoted) == FrameEnd(input, start, false)
        decreases |input| - position
      {
        FrameStep(input, position, quoted);
        var c := input[position];
        BlankSnoc(source, c);
        position := position + 1;
        source := source + [c];
        hasContent := hasContent || !Whitespace(c);
        if c == QUOTE {
          if quoted && position < |input| && input[position] == QUOTE {
            BlankSnoc(source, QUOTE);
            position := position + 1;
            source := source + [QUOTE];
            continue;
          }
          quoted := !quoted;
        } else if c == SEMICOLON && !quoted {
          assert source == input[start..position];
          BlankPrefix(input, start, position);
          return Some(source);
        }
      }
      assert source == input[start..];
      FrameAtEnd(input, quoted);
      frame := if hasContent then Some(source) else None;
    }
  }

  lemma FrameStep(s: Text, i: nat, quoted: bool)
    requires i < |s|
    ensures s[i] == QUOTE && quoted && i + 1 < |s| && s[i + 1] == QUOTE ==> FrameEnd(s, i, quoted) == FrameEnd(s, i + 2, true)
    ensures s[i] == QUOTE && !(quoted && i + 1 < |s| && s[i + 1] == QUOTE) ==> FrameEnd(s, i, quoted) == FrameEnd(s, i + 1, !quoted)
    ensures s[i] == SEMICOLON && !quoted ==> FrameEnd(s, i, quoted) == i + 1
    ensures s[i] != QUOTE && !(s[i] == SEMICOLON && !quoted) ==> FrameEnd(s, i, quoted) == FrameEnd(s, i + 1, quoted)
  {
  }

  lemma FrameAtEnd(s: Text, quoted: bool)
    ensures FrameEnd(s, |s|, quoted) == |s|
  {
  }

  lemma BlankSnoc(t: Text, c: Byte)
    ensures Blank(t + [c]) <==> Blank(t) && Whitespace(c)
  {
    if Blank(t + [c]) {
      forall k | 0 <= k < |t| ensures Whitespace(t[k]) {
        assert (t + [c])[k] == t[k];
      }
      assert (t + [c])[|t|] == c;
    }
  }

  lemma BlankPrefix(s: Text, start: nat, e: nat)
    requires start <= e <= |s| && !Blank(s[start..e])
    ensures !Blank(s[start..])
  {
    var k :| 0 <= k < e - start && !Whitespace(s[start..e][k]);
    assert s[start..][k] == s[start..e][k];
  }

  // ---- Nothing is lost ----

  function Concat(ts: seq<Text>): Text {
    if ts == [] then [] else ts[0] + Concat(ts[1..])
  }

  /** The frames, put together, are the input up to a blank rest. */
  lemma {:induction false} FramesCover(s: Text, start: nat) returns (rest: Text)
    requires start <= |s|
    ensures Concat(Frames(s, start)) + rest == s[start..] && Blank(rest)
    decreases |s| - start
  {
    hide FrameEnd, Blank;
    if start == |s| || Blank(s[start..]) {
      rest := s[start..];
      EmptyIsBlank();
      assert start == |s| ==> rest == [];
    } else {
      var e := FrameEnd(s, start, false);
      NotEmpty(s, start);
      rest := FramesCover(s, e);
      assert s[start..] == s[start..e] + s[e..];
      assert Concat(Frames(s, start)) == s[start..e] + Concat(Frames(s, e));
    }
  }

  lemma EmptyIsBlank()
    ensures Blank([])
  {
  }

  lemma NotEmpty(s: Text, start: nat)
    requires start <= |s| && !Blank(s[start..])
    ensures start < |s|
  {
    assert s[|s|..] == [];
  }

  // ---- What a frame is ----

  function Quotes(t: Text): nat {
    if t == [] then 0 else Quotes(t[..|t| - 1]) + if t[|t| - 1] == QUOTE then 1 else 0
  }

  /** A semicolon behind an even number of apostrophes: outside of quotes. */
  predicate Terminates(t: Text, i: nat) {
    i < |t| && t[i] == SEMICOLON && Quotes(t[..i]) % 2 == 0
  }

  lemma QuotesSnoc(t: Text, c: Byte)
    ensures Quotes(t + [c]) == Quotes(t) + if c == QUOTE then 1 else 0
  {
    assert (t + [c])[..|t|] == t;
  }

  lemma QuotesNext(s: Text, start: nat, i: nat)
    requires start <= i < |s|
    ensures Quotes(s[start..i + 1]) == Quotes(s[start..i]) + if s[i] == QUOTE then 1 else 0
  {
    QuotesSnoc(s[start..i], s[i]);
    assert s[start..i + 1] == s[start..i] + [s[i]];
  }

  /** From a point with the right parity on, the frame ends behind the first semicolon outside of quotes. */
  lemma {:induction false} EndsAtFirst(s: Text, start: nat, i: nat, quoted: bool)
    requires start <= i <= |s| && quoted == (Quotes(s[start..i]) % 2 == 1)
    ensures var e := FrameEnd(s, i, quoted);
            && (forall j :: i <= j < e - 1 ==> !(s[j] == SEMICOLON && Quotes(s[start..j]) % 2 == 0))
            && (e < |s| ==> i < e && s[e - 1] == SEMICOLON && Quotes(s[start..e - 1]) % 2 == 0)
    decreases |s| - i
  {
    hide Quotes;
    if i < |s| {
      QuotesNext(s, start, i);
      if s[i] == QUOTE {
        if quoted && i + 1 < |s| && s[i + 1] == QUOTE {
          QuotesNext(s, start, i + 1);
          EndsAtFirst(s, start, i + 2, true);
        } else {
          EndsAtFirst(s, start, i + 1, !quoted);
        }
      } else if !(s[i] == SEMICOLON && !quoted) {
        EndsAtFirst(s, start, i + 1, quoted);
      }
    }
  }

  /** A frame that is cut out of the input: it ends with its first semicolon outside of quotes, or at the end of the input. */
  ghost predicate IsFrame(f: Text, atEnd: bool) {
    && !Blank(f)
    && (forall j :: 0 <= j < |f| - 1 ==> !Terminates(f, j))
    && (!atEnd ==> f != [] && Terminates(f, |f| - 1))
  }

  lemma NextIsFrame(s: Text, start: nat)
    requires start <= |s| && !Blank(s[start..])
    ensures var e := FrameEnd(s, start, false);
            start < e && IsFrame(s[start..e], e == |s|)
  {
    hide FrameEnd, Quotes, Blank, Terminates;
    var e := FrameEnd(s, start, false);
    NotEmpty(s, start);
    NoQuotes();
    assert s[start..start] == [];
    EndsAtFirst(s, start, start, false);
    var f := s[start..e];
    forall j | 0 <= j < |f| ensures Terminates(f, j) <==> s[start + j] == SEMICOLON && Quotes(s[start..start + j]) % 2 == 0 {
      TerminatesThere(s, start, e, j);
    }
    FrameNotBlank(s, start, e);
  }

  lemma TerminatesThere(s: Text, start: nat, e: nat, j: nat)
    requires start <= e <= |s| && j < e - start
    ensures Terminates(s[start..e], j) <==> s[start + j] == SEMICOLON && Quotes(s[start..start + j]) % 2 == 0
  {
    hide Quotes;
    assert s[start..e][..j] == s[start..start + j] && s[start..e][j] == s[start + j];
  }

  lemma NoQuotes()
    ensures Quotes([]) == 0
  {
  }

  /** A semicolon is not white space. */
  lemma FrameNotBlank(s: Text, start: nat, e: nat)
    requires start < e <= |s| && (e < |s| ==> s[e - 1] == SEMICOLON) && !Blank(s[start..])
    ensures !Blank(s[start..e])
  {
    if e == |s| {
      assert s[start..e] == s[start..];
    } else {
      assert s[start..e][e - 1 - start] == SEMICOLON;
    }
  }

  /** All statements of an input, read one after the other until nothing is left. */
  method ReadAll(input: Text) returns (frames: seq<Text>)
    ensures Concat(frames) <= input && Blank(input[|Concat(frames)|..])
    ensures forall k :: 0 <= k < |frames| ==> IsFrame(frames[k], k == |frames| - 1 && Concat(frames) == input)
  {
    hide FrameEnd, Blank, IsFrame;
    var reader := new StatementReader(input);
    frames := [];
    ghost var done := 0;
    EmptyIsBlank();
    assert input[..0] == [];
    while true
      invariant reader.input == input && reader.Valid() && done == reader.position && fresh(reader)
      invariant Concat(frames) == input[..done]
      invariant forall k :: 0 <= k < |frames| ==> IsFrame(frames[k], k == |frames| - 1 && done == |input|)
      decreases |input| - done
    {
      if !Blank(input[done..]) {
        NextIsFrame(input, done);
        NotEmpty(input, done);
      }
      var f := reader.ReadStatement();
      if f.None? {
        assert input == input[..done] + input[done..];
        assert done == |input| ==> input[..done] == input;
        return;
      }
      ConcatSnoc(frames, f.value);
      assert input[..reader.position] == input[..done] + input[done..reader.position];
      frames := frames + [f.value];
      done := reader.position;
    }
  }

  lemma {:induction false} ConcatSnoc(ts: seq<Text>, t: Text)
    ensures Concat(ts + [t]) == Concat(ts) + t
    decreases ts
  {
    if ts == [] {
      assert Concat([t][1..]) == [] && [] + [t] == [t];
    } else {
      ConcatSnoc(ts[1..], t);
      assert (ts + [t])[1..] == ts[1..] + [t];
    }
  }

  // ---- Agreement with the lexer ----

  /** A frame, read by itself, is one frame. */
  lemma {:induction false} FrameAlone(s: Text, start: nat, i: nat, quoted: bool)
    requires start <= i <= |s|
    ensures var e := FrameEnd(s, i, quoted); FrameEnd(s[start..e], i - start, quoted) == e - start
    decreases |s| - i
  {
    var e := FrameEnd(s, i, quoted);
    var f := s[start..e];
    if i < |s| {
      assert f[i - start] == s[i];
      if s[i] == QUOTE {
        if quoted && i + 1 < |s| && s[i + 1] == QUOTE {
          assert f[i + 1 - start] == s[i + 1];
          FrameAlone(s, start, i + 2, true);
        } else {
          FrameAlone(s, start, i + 1, !quoted);
          assert i + 1 < e ==> f[i + 1 - start] == s[i + 1];
        }
      } else if !(s[i] == SEMICOLON && !quoted) {
        FrameAlone(s, start, i + 1, quoted);
      }
    }
  }

  /** Bytes that are neither apostrophes nor semicolons do not matter to the reader. */
  lemma {:induction false} PlainBytes(f: Text, i: nat, j: nat)
    requires i <= j <= |f| && forall k :: i <= k < j ==> f[k] != QUOTE && f[k] != SEMICOLON
    ensures FrameEnd(f, i, false) == FrameEnd(f, j, false)
    decreases j - i
  {
    if i < j {
      PlainBytes(f, i + 1, j);
    }
  }

  /** Inside a TEXT literal the reader is inside quotes, and leaves them where the lexer does. */
  lemma {:induction false} QuotedBytes(f: Text, i: nat)
    requires i <= |f| && ScanText(f, i).Some?
    ensures FrameEnd(f, i, true) == FrameEnd(f, ScanText(f, i).value.1, false)
    decreases |f| - i
  {
    if f[i] != QUOTE {
      QuotedBytes(f, i + 1);
    } else if i + 1 < |f| && f[i + 1] == QUOTE {
      QuotedBytes(f, i + 2);
    }
  }

  lemma NumberBytes(f: Text, i: nat)
    requires i < |f| && ScanNumber(f, i).Scanned?
    ensures forall k :: i <= k < ScanNumber(f, i).next ==> f[k] != QUOTE && f[k] != SEMICOLON
  {
  }

  /** Over one token that is no semicolon, lexer and reader move on together. */
  lemma TokenBytes(f: Text, i: nat)
    requires i < |f| && Scan(f, i).Scanned? && f[i] != SEMICOLON
    ensures FrameEnd(f, i, false) == FrameEnd(f, Scan(f, i).next, false)
  {
    hide FrameEnd, ScanText, ScanNumber, WordEnd;
    if Letter(f[i]) {
      PlainBytes(f, i, WordEnd(f, i));
    } else if Digit(f[i]) || f[i] == MINUS {
      NumberBytes(f, i);
      PlainBytes(f, i, ScanNumber(f, i).next);
    } else if f[i] == QUOTE {
      QuoteOpens(f, i);
      QuotedBytes(f, i + 1);
    } else {
      PlainBytes(f, i, i + 1);
    }
  }

  lemma QuoteOpens(f: Text, i: nat)
    requires i < |f| && f[i] == QUOTE
    ensures FrameEnd(f, i, false) == FrameEnd(f, i + 1, true)
  {
  }

  lemma SemicolonCloses(f: Text, i: nat)
    requires i < |f| && f[i] == SEMICOLON
    ensures FrameEnd(f, i, false) == i + 1 && Scan(f, i) == Scanned(Token(Semicolon, [SEMICOLON], i), i + 1)
  {
    hide WordEnd, ScanNumber, ScanText;
  }

  predicate SemicolonsLast(ts: seq<Token>, length: nat) {
    forall k :: 0 <= k < |ts| && ts[k].kind == Semicolon ==> ts[k].position == length - 1
  }

  lemma KindOfScanned(f: Text, i: nat)
    requires i < |f| && Scan(f, i).Scanned? && f[i] != SEMICOLON
    ensures Scan(f, i).token.kind != Semicolon
  {
    hide WordEnd, ScanText, DigitsEnd;
  }

  lemma {:induction false} LexedFrame(f: Text, i: nat)
    requires i <= |f| && FrameEnd(f, i, false) == |f| && Lex(f, i).Success?
    ensures SemicolonsLast(Lex(f, i).value, |f|)
    decreases |f| - i
  {
    hide Scan, FrameEnd, Ended;
    if i == |f| {
    } else if Whitespace(f[i]) {
      PlainBytes(f, i, i + 1);
      LexedFrame(f, i + 1);
    } else if f[i] == SEMICOLON {
      SemicolonCloses(f, i);
      LexedFrame(f, i + 1);
    } else {
      TokenBytes(f, i);
      KindOfScanned(f, i);
      LexedFrame(f, Scan(f, i).next);
    }
  }

  /**
    In every frame of every input that the lexer accepts, a semicolon token can only be the last byte; so no
    statement that was cut out is ever refused for having more behind its semicolon.
   */
  lemma FramesHoldOneStatement(s: Text, start: nat, reals: Reals)
    requires start <= |s| && NextFrame(s, start).Some?
    ensures var f := NextFrame(s, start).value;
            && (Lex(f, 0).Success? ==> SemicolonsLast(Lex(f, 0).value, |f|))
            && (Parse(f, reals).Failure? ==> Parse(f, reals).error.reason != TrailingInput)
  {
    hide Lex, FrameEnd, ParseBody, Blank;
    var f := NextFrame(s, start).value;
    FrameAlone(s, start, start, false);
    if Lex(f, 0).Success? {
      LexedFrame(f, 0);
      NoTrailingInput(f, Lex(f, 0).value, reals);
    } else {
      LexReason(f, 0);
    }
  }

  lemma {:induction false} LexReason(f: Text, i: nat)
    requires i <= |f| && Lex(f, i).Failure?
    ensures Lex(f, i).error.reason != TrailingInput
    decreases |f| - i
  {
    hide DigitsEnd, WordEnd, ScanText, Ended;
    if !Whitespace(f[i]) {
      if Scan(f, i).Scanned? {
        LexReason(f, Scan(f, i).next);
      }
    } else {
      LexReason(f, i + 1);
    }
  }

  lemma NoTrailingInput(f: Text, ts: seq<Token>, reals: Reals)
    requires Lex(f, 0) == Success(ts) && SemicolonsLast(ts, |f|)
    ensures ParseTokens(ts, reals).Failure? ==> ParseTokens(ts, reals).error.reason != TrailingInput
  {
    hide Lex, ParseBody;
    LexSorted(f, 0);
  }

  /** Tokens start at increasing offsets. */
  lemma {:induction false} LexSorted(f: Text, i: nat)
    requires i <= |f| && Lex(f, i).Success?
    ensures forall k :: 0 <= k < |Lex(f, i).value| ==> i <= Lex(f, i).value[k].position
    ensures forall j, k :: 0 <= j < k < |Lex(f, i).value| ==> Lex(f, i).value[j].position < Lex(f, i).value[k].position
    ensures forall k :: 0 <= k < |Lex(f, i).value| && Lex(f, i).value[k].kind != End ==> Lex(f, i).value[k].position < |f|
    decreases |f| - i
  {
    hide Scan, Ended, Whitespace;
    if i < |f| {
      if Whitespace(f[i]) {
        LexSorted(f, i + 1);
      } else {
        LexSorted(f, Scan(f, i).next);
      }
    }
  }
}
