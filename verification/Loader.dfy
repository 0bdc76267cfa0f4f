/** The loader as it runs: a reader that advances through the file, then a linear sweep over every function. */
module Loader {
  import opened Prelude
  import opened Bytes
  import opened Floats
  import opened Values
  import opened RuntimeApi
  import opened Bytecode
  import opened FileFormat

  /** The value and the new offset are as specified, or the specified error was raised. */
  ghost predicate Reads<T>(spec: Parsed<T>, r: Result<T, LoadError>, after: nat) {
    match spec
    case Success(Field(v, next)) => r == Success(v) && after == next
    case Failure(e) => r == Failure(e)
  }

  lemma FromLEWidths(bs: seq<Byte>)
    ensures |bs| == 1 ==> FromLE(bs) == bs[0]
    ensures |bs| == 2 ==> FromLE(bs) == bs[0] as int + 256 * (bs[1] as int)
    ensures |bs| == 4 ==> FromLE(bs) == bs[0] as int + 256 * (bs[1] as int) + 0x1_0000 * (bs[2] as int) + 0x100_0000 * (bs[3] as int)
  {
    if |bs| == 4 {
      assert FromLE(bs[1..]) == bs[1] + 256 * FromLE(bs[2..]) by { assert bs[1..][1..] == bs[2..]; }
      assert FromLE(bs[2..]) == bs[2] + 256 * FromLE(bs[3..]) by { assert bs[2..][1..] == bs[3..]; }
      assert FromLE(bs[3..]) == bs[3];
    }
  }

  class Reader {
    const bytes: seq<Byte>
    var offset: nat

    ghost predicate Valid()
      reads this
    {
      offset <= |bytes|
    }

    constructor (bytes: seq<Byte>)
      ensures this.bytes == bytes && offset == 0
    {
      this.bytes, offset := bytes, 0;
    }

    method U8() returns (r: Result<Byte, LoadError>)
      requires Valid()
      modifies this
      ensures Valid() && Reads(ReadNumber(bytes, old(offset), 1), r, offset)
    {
      if 1 > |bytes| - offset {
        return Failure(UnexpectedEnd);
      }
      FromLEWidths(bytes[offset..offset + 1]);
      offset := offset + 1;
      r := Success(bytes[offset - 1]);
    }

    method U16() returns (r: Result<nat, LoadError>)
      requires Valid()
      modifies this
      ensures Valid() && Reads(ReadNumber(bytes, old(offset), 2), r, offset)
    {
      if 2 > |bytes| - offset {
        return Failure(UnexpectedEnd);
      }
      FromLEWidths(bytes[offset..offset + 2]);
      r := Success(bytes[offset] as int + 256 * (bytes[offset + 1] as int));
      offset := offset + 2;
    }

    method U32() returns (r: Result<nat, LoadError>)
      requires Valid()
      modifies this
      ensures Valid() && Reads(ReadNumber(bytes, old(offset), 4), r, offset)
    {
      if 4 > |bytes| - offset {
        return Failure(UnexpectedEnd);
      }
      FromLEWidths(bytes[offset..offset + 4]);
      r := Success(
        bytes[offset] as int + 256 * (bytes[offset + 1] as int)
        + 0x1_0000 * (bytes[offset + 2] as int) + 0x100_0000 * (bytes[offset + 3] as int));
      offset := offset + 4;
    }

    /** Eight bytes, lowest first, each shifted to its place. */
    method U64() returns (r: Result<nat, LoadError>)
      requires Valid()
      modifies this
      ensures Valid() && Reads(ReadNumber(bytes, old(offset), 8), r, offset)
    {
      if 8 > |bytes| - offset {
        return Failure(UnexpectedEnd);
      }
      var raw, scale := 0, 1;
      ghost var start, word := offset, bytes[offset..offset + 8];
      assert word[0..] == word;
      for i := 0 to 8
        invariant offset == start + i && scale > 0
        invariant raw >= 0
        invariant FromLE(word) == raw + scale * FromLE(word[i..])
      {
        Shift(word, i, scale);
        assert bytes[offset] == word[i];
        raw := raw + bytes[offset] * scale;
        scale := scale * 256;
        offset := offset + 1;
      }
      assert word[8..] == [];
      r := Success(raw);
    }

    method String() returns (r: Result<Text, LoadError>)
      requires Valid()
      modifies this
      ensures Valid() && Reads(ReadText(bytes, old(offset)), r, offset)
    {
      hide FromLE, Pow256;
      var length :- U32();
      r := Bytes(length);
    }

    method Bytes(length: nat) returns (r: Result<seq<Byte>, LoadError>)
      requires Valid()
      modifies this
      ensures Valid() && Reads(ReadBytes(bytes, old(offset), length), r, offset)
    {
      if length > |bytes| - offset {
        return Failure(UnexpectedEnd);
      }
      offset := offset + length;
      r := Success(bytes[offset - length..offset]);
    }

    method Constant(version: int) returns (r: Result<Value, LoadError>)
      requires Valid()
      modifies this
      ensures Valid() && Reads(ReadConstant(bytes, old(offset), version), r, offset)
    {
      hide FromLE, Pow256, ReadNumber, ReadText;
      Pow256Values();
      var tag :- U8();
      if tag == 0 {
        var raw :- U64();
        return Success(IntV(Signed64(raw)));
      } else if tag == 1 {
        var t :- String();
        return Success(StringV(t));
      } else if tag == 2 && version == FLOAT_VERSION {
        var raw :- U64();
        if !IsFinite(raw) {
          return Failure(NonFiniteConstant);
        }
        return Success(FloatV(raw));
      }
      r := Failure(UnknownConstantTag);
    }

    method Constants(version: int) returns (r: Result<seq<Value>, LoadError>)
      requires Valid()
      modifies this
      ensures Valid()
      ensures match ReadNumber(bytes, old(offset), 2)
              case Failure(e) => r == Failure(e)
              case Success(count) => Reads(ReadConstants(bytes, count.next, count.value, version), r, offset)
    {
      hide FromLE, Pow256, ReadNumber, ReadConstant;
      var count :- U16();
      var done: seq<Value> := [];
      ghost var whole := ReadConstants(bytes, offset, count, version);
      assert whole.Success? ==> [] + whole.value.value == whole.value.value;
      for i := 0 to count
        invariant Valid()
        invariant match ReadConstants(bytes, offset, count - i, version)
                  case Success(rest) => whole == Success(Field(done + rest.value, rest.next))
                  case Failure(e) => whole == Failure(e)
      {
        var c :- Constant(version);
        ghost var rest := ReadConstants(bytes, offset, count - i - 1, version);
        assert rest.Success? ==> done + ([c] + rest.value.value) == done + [c] + rest.value.value;
        done := done + [c];
      }
      assert done + [] == done;
      r := Success(done);
    }

    method Compiled() returns (r: Result<Function, LoadError>)
      requires Valid()
      modifies this
      ensures Valid() && Reads(ReadFunction(bytes, old(offset)), r, offset)
    {
      hide FromLE, Pow256, ReadNumber, ReadBytes;
      var name :- String();
      var params :- U8();
      var locals :- U8();
      var length :- U32();
      var code :- Bytes(length);
      r := Success(Function(name, params, locals, code));
    }

    method Functions() returns (r: Result<seq<Function>, LoadError>)
      requires Valid()
      modifies this
      ensures Valid()
      ensures match ReadNumber(bytes, old(offset), 2)
              case Failure(e) => r == Failure(e)
              case Success(count) => Reads(ReadFunctions(bytes, count.next, count.value), r, offset)
    {
      hide FromLE, Pow256, ReadNumber, ReadFunction;
      var count :- U16();
      var done: seq<Function> := [];
      ghost var whole := ReadFunctions(bytes, offset, count);
      assert whole.Success? ==> [] + whole.value.value == whole.value.value;
      for i := 0 to count
        invariant Valid()
        invariant match ReadFunctions(bytes, offset, count - i)
                  case Success(rest) => whole == Success(Field(done + rest.value, rest.next))
                  case Failure(e) => whole == Failure(e)
      {
        var f :- Compiled();
        ghost var rest := ReadFunctions(bytes, offset, count - i - 1);
        assert rest.Success? ==> done + ([f] + rest.value.value) == done + [f] + rest.value.value;
        done := done + [f];
      }
      assert done + [] == done;
      r := Success(done);
    }

    method Magic() returns (r: Result<(), LoadError>)
      requires offset == 0
      modifies this
      ensures Valid() && Reads(ReadMagic(bytes, 0), r, offset)
    {
      hide FromLE, Pow256;
      for i := 0 to 4
        invariant Valid() && offset == i
        invariant ReadMagic(bytes, i) == ReadMagic(bytes, 0)
      {
        var actual :- U8();
        if actual != MAGIC[i] {
          return Failure(BadMagic);
        }
      }
      r := Success(());
    }

    method ProgramAndVersion() returns (r: Result<Parse, LoadError>)
      requires offset == 0
      modifies this
      ensures r == ReadProgram(bytes)
    {
      hide FromLE, Pow256, ReadNumber, ReadMagic, ReadConstants, ReadFunctions;
      var _ :- Magic();
      var version :- U16();
      if version != LEGACY_VERSION && version != FLOAT_VERSION {
        return Failure(UnsupportedVersion);
      }
      var constants :- Constants(version);
      var functions :- Functions();
      var entry :- U16();
      if offset != |bytes| {
        return Failure(TrailingBytes);
      }
      r := Success(Parse(Program(constants, functions, entry), version));
    }

    /** One instruction of the sweep: its operands are read and judged, its jump targets are kept for later. */
    method Instruction(p: Program, f: Function, version: int) returns (r: Result<seq<int>, LoadError>)
      requires bytes == f.code && offset < |bytes|
      modifies this
      ensures Valid()
      ensures match Decode(f.code, old(offset))
              case UnknownOpcode => r == Failure(BadOpcode)
              case Truncated => r == Failure(UnexpectedEnd)
              case Decoded(i, next) =>
                match InstrError(p, f, version, i)
                case Some(e) => r == Failure(e)
                case None => r == Success(JumpTargets(i)) && offset == next
    {
      hide FromLE, Pow256, HasFunction;
      Pow256Values();
      ghost var at := offset;
      var first := U8();
      var opcode := first.value;
      assert opcode == bytes[at] by { FromLEWidths(bytes[at..at + 1]); }
      if opcode == 0x01 {
        var index :- U16();
        if index >= |p.constants| {
          return Failure(ConstantOutOfRange);
        }
      } else if opcode == 0x02 || opcode == 0x03 {
        var index :- U8();
        if index >= f.paramCount + f.localCount {
          return Failure(LocalOutOfRange);
        }
      } else if opcode == 0x0A || opcode == 0x0B {
        var target :- U32();
        return Success([target]);
      } else if opcode == 0x0C || opcode == 0x0D {
        r := CallInstruction(p, f, version, opcode, at);
        return;
      } else if 0x11 <= opcode <= 0x17 {
        if version != FLOAT_VERSION {
          return Failure(FloatOpcodeInLegacyFile);
        }
      } else if opcode < 0x04 || 0x10 < opcode {
        return Failure(BadOpcode);
      }
      r := Success([]);
    }

    /** The two calls: an index and an argument count, both read before either is judged. */
    method CallInstruction(p: Program, f: Function, version: int, opcode: Byte, ghost at: nat) returns (r: Result<seq<int>, LoadError>)
      requires bytes == f.code && at < |bytes| && offset == at + 1
      requires opcode == bytes[at] && (opcode == 0x0C || opcode == 0x0D)
      modifies this
      ensures Valid()
      ensures match Decode(f.code, at)
              case UnknownOpcode => r == Failure(BadOpcode)
              case Truncated => r == Failure(UnexpectedEnd)
              case Decoded(i, next) =>
                match InstrError(p, f, version, i)
                case Some(e) => r == Failure(e)
                case None => r == Success(JumpTargets(i)) && offset == next
    {
      hide FromLE, Pow256, HasFunction;
      var index :- U16();
      var argc :- U8();
      assert bytes[at + 1..at + 4][..2] == bytes[at + 1..at + 3] && bytes[at + 1..at + 4][2..] == bytes[at + 3..at + 4];
      if opcode == 0x0C {
        if index >= |p.functions| {
          return Failure(FunctionOutOfRange);
        }
        if argc != p.functions[index].paramCount {
          return Failure(ArgumentCountMismatch);
        }
      } else {
        if index >= |p.constants| {
          return Failure(ConstantOutOfRange);
        }
        if !p.constants[index].StringV? {
          return Failure(RuntimeNameNotString);
        }
        if !HasFunction(p.constants[index].t, argc) {
          return Failure(UnknownRuntimeFunction);
        }
      }
      r := Success([]);
    }
  }

  lemma Shift(word: seq<Byte>, i: nat, scale: nat)
    requires i < |word|
    ensures scale * FromLE(word[i..]) == word[i] * scale + (scale * 256) * FromLE(word[i + 1..])
  {
    assert word[i..][1..] == word[i + 1..];
    var rest := FromLE(word[i + 1..]);
    assert FromLE(word[i..]) == word[i] + 256 * rest;
    assert scale * (word[i] + 256 * rest) == word[i] * scale + (scale * 256) * rest;
  }

  /** What the sweep has found so far, together with the rest. */
  ghost function Joined(seen: set<nat>, targets: seq<int>, rest: Result<Swept, LoadError>): Result<Swept, LoadError> {
    if rest.Failure? then rest else Success(Swept(seen + rest.value.boundaries, targets + rest.value.targets))
  }

  lemma JoinedNothing(rest: Result<Swept, LoadError>)
    ensures Joined({}, [], rest) == rest
  {
    if rest.Success? {
      assert {} + rest.value.boundaries == rest.value.boundaries && [] + rest.value.targets == rest.value.targets;
    }
  }

  lemma SweepStep(p: Program, f: Function, version: int, at: nat, seen: set<nat>, targets: seq<int>)
    requires at < |f.code|
    ensures var all, d := Joined(seen, targets, Sweep(p, f, version, at)), Decode(f.code, at);
            && (d.UnknownOpcode? ==> all == Failure(BadOpcode))
            && (d.Truncated? ==> all == Failure(UnexpectedEnd))
            && (d.Decoded? && InstrError(p, f, version, d.i).Some? ==> all == Failure(InstrError(p, f, version, d.i).value))
            && (d.Decoded? && InstrError(p, f, version, d.i).None? ==>
                  all == Joined(seen + {at}, targets + JumpTargets(d.i), Sweep(p, f, version, d.next)))
  {
    hide Decode, InstrError, JumpTargets;
    var d := Decode(f.code, at);
    if d.Decoded? {
      var rest := Sweep(p, f, version, d.next);
      if rest.Success? {
        assert seen + ({at} + rest.value.boundaries) == seen + {at} + rest.value.boundaries;
        assert targets + (JumpTargets(d.i) + rest.value.targets) == targets + JumpTargets(d.i) + rest.value.targets;
      }
    }
  }

  lemma SweepEnd(p: Program, f: Function, version: int, seen: set<nat>, targets: seq<int>)
    ensures Joined(seen, targets, Sweep(p, f, version, |f.code|)) == Success(Swept(seen, targets))
  {
    assert seen + {} == seen && targets + [] == targets;
  }

  /** Decode the whole code, reachable or not, then look every jump target up among the boundaries. */
  method CheckFunction(p: Program, f: Function, version: int) returns (err: Option<LoadError>)
    ensures err == VerifyFunction(p, f, version)
  {
    hide Decode, InstrError, JumpTargets, Sweep, Joined;
    var boundaries := new bool[|f.code|](_ => false);
    var targets: seq<int> := [];
    ghost var seen: set<nat> := {};
    var code := new Reader(f.code);
    ghost var whole := Sweep(p, f, version, 0);
    JoinedNothing(whole);
    while code.offset < |f.code|
      invariant code.Valid() && fresh(boundaries)
      invariant forall k :: 0 <= k < |f.code| ==> boundaries[k] == (k in seen)
      invariant forall k :: k in seen ==> k < |f.code|
      invariant whole == Joined(seen, targets, Sweep(p, f, version, code.offset))
      decreases |f.code| - code.offset
    {
      ghost var at := code.offset;
      SweepStep(p, f, version, at, seen, targets);
      boundaries[code.offset] := true;
      var r := code.Instruction(p, f, version);
      if r.Failure? {
        return Some(r.error);
      }
      seen := seen + {at};
      targets := targets + r.value;
    }
    SweepEnd(p, f, version, seen, targets);
    err := CheckTargets(targets, boundaries);
    assert err.None? <==> forall t :: t in targets ==> t in seen;
  }

  method CheckTargets(targets: seq<int>, boundaries: array<bool>) returns (err: Option<LoadError>)
    ensures err == if forall t :: t in targets ==> 0 <= t < boundaries.Length && boundaries[t] then None else Some(InvalidJumpTarget)
  {
    for i := 0 to |targets|
      invariant forall k :: 0 <= k < i ==> 0 <= targets[k] < boundaries.Length && boundaries[targets[k]]
    {
      var target := targets[i];
      if !(0 <= target < boundaries.Length && boundaries[target]) {
        assert targets[i] in targets;
        return Some(InvalidJumpTarget);
      }
    }
    err := None;
  }

  /** Parse the file, check the entry, verify every function. */
  method Load(file: seq<Byte>) returns (r: Result<Program, LoadError>)
    ensures r == LoadProgram(file)
  {
    hide ReadProgram, VerifyFunction;
    var reader := new Reader(file);
    var parse :- reader.ProgramAndVersion();
    var p := parse.p;
    if p.entry >= |p.functions| {
      return Failure(EntryOutOfRange);
    }
    if p.functions[p.entry].paramCount != 0 {
      return Failure(EntryHasParameters);
    }
    assert p.functions[0..] == p.functions;
    for i := 0 to |p.functions|
      invariant VerifyFunctions(p, p.functions[i..], parse.version) == VerifyFunctions(p, p.functions, parse.version)
    {
      assert p.functions[i..][0] == p.functions[i] && p.functions[i..][1..] == p.functions[i + 1..];
      var err := CheckFunction(p, p.functions[i], parse.version);
      if err.Some? {
        return Failure(err.value);
      }
    }
    r := Success(p);
  }
}
