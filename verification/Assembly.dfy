/** Code as a list of instructions: what the linear sweep sees. */
module Assembly {
  import opened Prelude
  import opened Bytes
  import opened Values
  import opened Bytecode
  import opened FileFormat

  function EncodeAll(code: seq<Instr>): seq<Byte> {
    if code == [] then [] else Encode(code[0]) + EncodeAll(code[1..])
  }

  lemma {:induction false} EncodeAppend(a: seq<Instr>, b: seq<Instr>)
    ensures EncodeAll(a + b) == EncodeAll(a) + EncodeAll(b)
  {
    hide Encode;
    if a == [] {
      assert a + b == b;
    } else {
      EncodeAppend(a[1..], b);
      assert (a + b)[1..] == a[1..] + b;
    }
  }

  lemma EncodeOne(i: Instr)
    ensures EncodeAll([i]) == Encode(i)
  {
    assert EncodeAll([i][1..]) == [];
  }

  /** The offset of instruction `k`; for `k == |code|`, the length of the code. */
  function Offset(code: seq<Instr>, k: nat): nat
    requires k <= |code|
  {
    |EncodeAll(code[..k])|
  }

  lemma OffsetAppend(a: seq<Instr>, b: seq<Instr>, k: nat)
    requires k <= |a + b|
    ensures k <= |a| ==> Offset(a + b, k) == Offset(a, k)
    ensures k >= |a| ==> Offset(a + b, k) == |EncodeAll(a)| + Offset(b, k - |a|)
  {
    hide Encode;
    if k <= |a| {
      assert (a + b)[..k] == a[..k];
    }
    if k >= |a| {
      assert (a + b)[..k] == a + b[..k - |a|];
      EncodeAppend(a, b[..k - |a|]);
    }
  }

  lemma OffsetLess(code: seq<Instr>, k: nat)
    requires k < |code|
    ensures Offset(code, k) < |EncodeAll(code)|
  {
    hide EncodeAll;
    assert code == code[..k] + code[k..];
    EncodeAppend(code[..k], code[k..]);
    NonEmptyCode(code[k..]);
  }

  lemma NonEmptyCode(code: seq<Instr>)
    requires code != []
    ensures EncodeAll(code) != []
  {
  }

  predicate IsJump(i: Instr) {
    i.Jmp? || i.JmpIfFalse?
  }

  /** `t` is where an instruction of the code at `at` starts, or where the code ends. */
  ghost predicate Lands(code: seq<Instr>, at: nat, t: int) {
    exists k: nat :: k <= |code| && t == at + Offset(code, k)
  }

  ghost predicate JumpsLand(code: seq<Instr>, at: nat) {
    forall i :: i in code && IsJump(i) ==> Lands(code, at, i.target)
  }

  /** Some jump goes to the end of the code. */
  ghost predicate JumpsToEnd(code: seq<Instr>, at: nat) {
    exists i :: i in code && IsJump(i) && i.target == at + |EncodeAll(code)|
  }

  lemma LandsAppend(a: seq<Instr>, b: seq<Instr>, at: nat, t: int)
    ensures Lands(a, at, t) ==> Lands(a + b, at, t)
    ensures Lands(b, at + |EncodeAll(a)|, t) ==> Lands(a + b, at, t)
  {
    hide EncodeAll, Offset;
    if Lands(a, at, t) {
      var k: nat :| k <= |a| && t == at + Offset(a, k);
      OffsetAppend(a, b, k);
      assert k <= |a + b| && t == at + Offset(a + b, k);
    }
    if Lands(b, at + |EncodeAll(a)|, t) {
      var k: nat :| k <= |b| && t == at + |EncodeAll(a)| + Offset(b, k);
      OffsetAppend(a, b, k + |a|);
      assert k + |a| <= |a + b| && t == at + Offset(a + b, k + |a|);
    }
  }

  lemma StartLands(code: seq<Instr>, at: nat)
    ensures Lands(code, at, at) && Lands(code, at, at + |EncodeAll(code)|)
  {
    assert code[..0] == [] && code[..|code|] == code;
    assert Offset(code, 0) == 0 && Offset(code, |code|) == |EncodeAll(code)|;
  }

  lemma JumpsLandAppend(a: seq<Instr>, b: seq<Instr>, at: nat)
    requires JumpsLand(a, at) && JumpsLand(b, at + |EncodeAll(a)|)
    ensures JumpsLand(a + b, at)
  {
    hide EncodeAll, Lands;
    forall i | i in a + b && IsJump(i) ensures Lands(a + b, at, i.target) {
      LandsAppend(a, b, at, i.target);
    }
  }

  lemma LandBounds(code: seq<Instr>, at: nat, t: int)
    requires Lands(code, at, t)
    ensures at <= t <= at + |EncodeAll(code)|
  {
    hide EncodeAll;
    var k: nat :| k <= |code| && t == at + Offset(code, k);
    if k < |code| {
      OffsetLess(code, k);
    } else {
      assert code[..k] == code;
    }
  }

  lemma ToEndInSecond(a: seq<Instr>, b: seq<Instr>, at: nat)
    requires JumpsLand(a, at) && b != [] && JumpsToEnd(a + b, at)
    ensures JumpsToEnd(b, at + |EncodeAll(a)|)
  {
    hide EncodeAll, Lands;
    EncodeAppend(a, b);
    NonEmptyCode(b);
    var i :| i in a + b && IsJump(i) && i.target == at + |EncodeAll(a + b)|;
    if i in a {
      LandBounds(a, at, i.target);
    }
    assert i in b;
  }

  lemma ToEndFromSecond(a: seq<Instr>, b: seq<Instr>, at: nat)
    requires JumpsToEnd(b, at + |EncodeAll(a)|)
    ensures JumpsToEnd(a + b, at)
  {
    hide EncodeAll, Lands;
    EncodeAppend(a, b);
    var i :| i in b && IsJump(i) && i.target == at + |EncodeAll(a)| + |EncodeAll(b)|;
    assert i in a + b;
  }

  /** Code followed by more code: its jumps cannot reach the new end. */
  lemma ToEndAppend(a: seq<Instr>, b: seq<Instr>, at: nat)
    requires JumpsLand(a, at) && b != []
    ensures JumpsToEnd(a + b, at) == JumpsToEnd(b, at + |EncodeAll(a)|)
  {
    hide EncodeAll, JumpsLand, JumpsToEnd;
    if JumpsToEnd(a + b, at) {
      ToEndInSecond(a, b, at);
    }
    if JumpsToEnd(b, at + |EncodeAll(a)|) {
      ToEndFromSecond(a, b, at);
    }
  }

  // ---- The sweep over assembled code ----

  /** Each instruction fits its encoding and passes the loader's test. */
  ghost predicate AllPass(code: seq<Instr>, p: Program, f: Function, version: int) {
    forall i :: i in code ==> OperandsFit(i) && InstrError(p, f, version, i).None?
  }

  function TargetsOf(code: seq<Instr>): seq<int> {
    if code == [] then [] else JumpTargets(code[0]) + TargetsOf(code[1..])
  }

  lemma {:induction false} TargetsAre(code: seq<Instr>, t: int)
    ensures t in TargetsOf(code) <==> exists i :: i in code && IsJump(i) && i.target == t
  {
    if code != [] {
      TargetsAre(code[1..], t);
      assert code == [code[0]] + code[1..];
      if exists i :: i in code[1..] && IsJump(i) && i.target == t {
        var i :| i in code[1..] && IsJump(i) && i.target == t;
        assert i in code;
      }
    }
  }

  /** The sweep finds exactly the instruction starts and the jump targets. */
  lemma {:induction false} SweepAssembled(p: Program, f: Function, version: int, at: nat, code: seq<Instr>)
    requires at <= |f.code| && f.code[at..] == EncodeAll(code) && AllPass(code, p, f, version)
    ensures var r := Sweep(p, f, version, at);
            && r.Success? && r.value.targets == TargetsOf(code)
            && forall o: nat :: o in r.value.boundaries <==> exists k: nat :: k < |code| && o == at + Offset(code, k)
    decreases |code|
  {
    hide Encode, InstrError, Decode, Offset;
    if code != [] {
      var i, rest := code[0], code[1..];
      var next := at + |Encode(i)|;
      FirstDecoded(f.code, at, code);
      assert AllPass(rest, p, f, version);
      SweepAssembled(p, f, version, next, rest);
      var q := Sweep(p, f, version, next).value;
      forall o: nat ensures o in {at} + q.boundaries <==> exists k: nat :: k < |code| && o == at + Offset(code, k) {
        StartsOf(code, at, o);
      }
    }
  }

  /** The first instruction is decoded and the others follow it. */
  lemma FirstDecoded(bytes: seq<Byte>, at: nat, code: seq<Instr>)
    requires at <= |bytes| && bytes[at..] == EncodeAll(code) && code != [] && OperandsFit(code[0])
    ensures var next := at + |Encode(code[0])|;
            && next <= |bytes| && bytes[next..] == EncodeAll(code[1..])
            && at < |bytes| && Decode(bytes, at) == Decoded(code[0], next)
  {
    hide Encode, Decode, OperandsFit;
    var i := code[0];
    assert bytes[at..at + |Encode(i)|] == EncodeAll(code)[..|Encode(i)|] == Encode(i);
    DecodeEncode(bytes, at, i);
    assert bytes[at + |Encode(i)|..] == EncodeAll(code)[|Encode(i)|..];
  }

  /** An offset is an instruction start if it is the first, or a start among the others. */
  lemma StartsOf(code: seq<Instr>, at: nat, o: nat)
    requires code != []
    ensures (exists k: nat :: k < |code| && o == at + Offset(code, k))
       <==> o == at || exists k: nat :: k < |code[1..]| && o == at + |Encode(code[0])| + Offset(code[1..], k)
  {
    hide Encode, Offset;
    var i, rest := code[0], code[1..];
    assert code == [i] + rest;
    NoOffset(code);
    if k: nat :| k < |code| && o == at + Offset(code, k) {
      if k > 0 {
        OffsetBehind(i, rest, k);
        assert k - 1 < |rest|;
      }
    }
    if o == at {
      assert 0 < |code| && o == at + Offset(code, 0);
    }
    if k: nat :| k < |rest| && o == at + |Encode(i)| + Offset(rest, k) {
      OffsetBehind(i, rest, k + 1);
      assert k + 1 < |code| && o == at + Offset(code, k + 1);
    }
  }

  lemma NoOffset(code: seq<Instr>)
    ensures Offset(code, 0) == 0
  {
  }

  lemma OffsetBehind(i: Instr, rest: seq<Instr>, k: nat)
    requires 0 < k <= |rest| + 1
    ensures Offset([i] + rest, k) == |Encode(i)| + Offset(rest, k - 1)
  {
    hide Encode;
    OffsetAppend([i], rest, k);
    EncodeOne(i);
  }

  lemma EndIsNoBoundary(code: seq<Instr>, boundaries: set<nat>)
    requires forall o: nat :: o in boundaries <==> exists k: nat :: k < |code| && o == 0 + Offset(code, k)
    ensures |EncodeAll(code)| !in boundaries
    ensures forall t: int :: Lands(code, 0, t) && t != |EncodeAll(code)| ==> t in boundaries
  {
    hide EncodeAll;
    assert code[..|code|] == code;
    if |EncodeAll(code)| in boundaries {
      var k: nat :| k < |code| && |EncodeAll(code)| == 0 + Offset(code, k);
      OffsetLess(code, k);
    }
  }

  /** Assembled code passes verification exactly when no jump goes to its end; a jump there is all that can be wrong. */
  lemma VerifyAssembled(p: Program, f: Function, version: int, code: seq<Instr>)
    requires f.code == EncodeAll(code) && AllPass(code, p, f, version) && JumpsLand(code, 0)
    ensures VerifyFunction(p, f, version) == if JumpsToEnd(code, 0) then Some(InvalidJumpTarget) else None
  {
    hide EncodeAll, Sweep, Offset, Lands, AllPass;
    assert f.code[0..] == f.code;
    SweepAssembled(p, f, version, 0, code);
    var sw := Sweep(p, f, version, 0).value;
    EndIsNoBoundary(code, sw.boundaries);
    if JumpsToEnd(code, 0) {
      var i :| i in code && IsJump(i) && i.target == 0 + |EncodeAll(code)|;
      TargetsAre(code, i.target);
    } else {
      forall t | t in sw.targets ensures t in sw.boundaries {
        TargetsAre(code, t);
        var i :| i in code && IsJump(i) && i.target == t;
        assert Lands(code, 0, i.target);
      }
    }
  }
}
