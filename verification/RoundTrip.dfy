/** Reading back what was written. */
module RoundTrip {
  import opened Prelude
  import opened Bytes
  import opened Floats
  import opened Values
  import opened Bytecode
  import opened FileFormat

  /** `bs` has `part` at offset `at`. */
  ghost predicate Here(bs: seq<Byte>, at: nat, part: seq<Byte>) {
    at + |part| <= |bs| && bs[at..at + |part|] == part
  }

  lemma HereSplit(bs: seq<Byte>, at: nat, a: seq<Byte>, b: seq<Byte>)
    requires Here(bs, at, a + b)
    ensures Here(bs, at, a) && Here(bs, at + |a|, b)
  {
    assert bs[at..at + |a|] == (a + b)[..|a|];
    assert bs[at + |a|..at + |a| + |b|] == (a + b)[|a|..];
  }

  lemma NumberBack(bs: seq<Byte>, at: nat, n: int, width: nat)
    requires Here(bs, at, LE(n, width)) && 0 <= n < Pow256(width)
    ensures ReadNumber(bs, at, width) == Success(Field(n, at + width))
  {
    LittleEndianRoundTrip(n, width);
  }

  predicate TextFits(t: Text) {
    |t| < 0x1_0000_0000
  }

  lemma TextBack(bs: seq<Byte>, at: nat, t: Text)
    requires Here(bs, at, WriteText(t)) && TextFits(t)
    ensures ReadText(bs, at) == Success(Field(t, at + |WriteText(t)|))
  {
    Pow256Values();
    HereSplit(bs, at, LE(|t|, 4), t);
    NumberBack(bs, at, |t|, 4);
  }

  /** A constant survives when its text fits, and a Float is finite and in a version 2 file. */
  predicate ConstantFits(c: Value, version: int) {
    match c
    case IntV(_) => true
    case StringV(t) => TextFits(t)
    case FloatV(f) => IsFinite(f) && version == FLOAT_VERSION
  }

  lemma TagBack(bs: seq<Byte>, at: nat, tag: Byte, rest: seq<Byte>)
    requires Here(bs, at, [tag] + rest)
    ensures ReadNumber(bs, at, 1) == Success(Field(tag, at + 1)) && Here(bs, at + 1, rest)
  {
    Pow256Values();
    assert LE(tag, 1) == [tag] by {
      assert LE(tag / 256, 0) == [];
    }
    HereSplit(bs, at, [tag], rest);
    NumberBack(bs, at, tag, 1);
  }

  lemma ConstantBack(bs: seq<Byte>, at: nat, c: Value, version: int)
    requires Here(bs, at, WriteConstant(c)) && ConstantFits(c, version)
    ensures ReadConstant(bs, at, version) == Success(Field(c, at + |WriteConstant(c)|))
  {
    hide ReadNumber, Here, LE;
    Pow256Values();
    match c
    case IntV(n) =>
      TagBack(bs, at, 0, LE(n, 8));
      SignedRoundTrip(n);
      RawBack(bs, at + 1, n);
    case FloatV(f) =>
      TagBack(bs, at, 2, LE(f, 8));
      NumberBack(bs, at + 1, f, 8);
    case StringV(t) =>
      TagBack(bs, at, 1, WriteText(t));
      TextBack(bs, at + 1, t);
  }

  lemma RawBack(bs: seq<Byte>, at: nat, n: I64)
    requires Here(bs, at, LE(n, 8))
    ensures ReadNumber(bs, at, 8) == Success(Field(FromLE(LE(n, 8)), at + 8))
  {
  }

  lemma {:induction false} ConstantsBack(bs: seq<Byte>, at: nat, cs: seq<Value>, version: int)
    requires Here(bs, at, WriteConstants(cs)) && forall c :: c in cs ==> ConstantFits(c, version)
    ensures ReadConstants(bs, at, |cs|, version) == Success(Field(cs, at + |WriteConstants(cs)|))
    decreases cs
  {
    hide ReadConstant, WriteConstant, ConstantFits, Here;
    if cs != [] {
      HereSplit(bs, at, WriteConstant(cs[0]), WriteConstants(cs[1..]));
      ConstantBack(bs, at, cs[0], version);
      assert forall c :: c in cs[1..] ==> c in cs;
      ConstantsBack(bs, at + |WriteConstant(cs[0])|, cs[1..], version);
      assert [cs[0]] + cs[1..] == cs;
    }
  }

  predicate FunctionFits(f: Function) {
    TextFits(f.name) && TextFits(f.code) && 0 <= f.paramCount <= 255 && 0 <= f.localCount <= 255
  }

  lemma FunctionBack(bs: seq<Byte>, at: nat, f: Function)
    requires Here(bs, at, WriteFunction(f)) && FunctionFits(f)
    ensures ReadFunction(bs, at) == Success(Field(f, at + |WriteFunction(f)|))
  {
    hide ReadNumber, ReadText, Here, LE, WriteText;
    Pow256Values();
    var n := |WriteText(f.name)|;
    HereSplit(bs, at, WriteText(f.name) + LE(f.paramCount, 1) + LE(f.localCount, 1), WriteText(f.code));
    HereSplit(bs, at, WriteText(f.name) + LE(f.paramCount, 1), LE(f.localCount, 1));
    HereSplit(bs, at, WriteText(f.name), LE(f.paramCount, 1));
    TextBack(bs, at, f.name);
    NumberBack(bs, at + n, f.paramCount, 1);
    NumberBack(bs, at + n + 1, f.localCount, 1);
    TextBack(bs, at + n + 2, f.code);
  }

  lemma {:induction false} FunctionsBack(bs: seq<Byte>, at: nat, fns: seq<Function>)
    requires Here(bs, at, WriteFunctions(fns)) && forall f :: f in fns ==> FunctionFits(f)
    ensures ReadFunctions(bs, at, |fns|) == Success(Field(fns, at + |WriteFunctions(fns)|))
    decreases fns
  {
    hide ReadFunction, WriteFunction, FunctionFits, Here;
    if fns != [] {
      HereSplit(bs, at, WriteFunction(fns[0]), WriteFunctions(fns[1..]));
      FunctionBack(bs, at, fns[0]);
      assert forall f :: f in fns[1..] ==> f in fns;
      FunctionsBack(bs, at + |WriteFunction(fns[0])|, fns[1..]);
      assert [fns[0]] + fns[1..] == fns;
    }
  }

  lemma MagicBack(bs: seq<Byte>)
    requires Here(bs, 0, MAGIC)
    ensures ReadMagic(bs, 0) == Success(Field((), 4))
  {
    Pow256Values();
    forall i | 0 <= i < 4 ensures ReadNumber(bs, i, 1) == Success(Field(MAGIC[i], i + 1)) {
      assert bs[i..i + 1] == [MAGIC[i]];
      assert LE(MAGIC[i], 1) == [MAGIC[i]] by {
        assert LE(MAGIC[i] / 256, 0) == [];
      }
      NumberBack(bs, i, MAGIC[i], 1);
    }
    assert ReadMagic(bs, 4) == Success(Field((), 4));
    assert ReadMagic(bs, 3) == Success(Field((), 4));
    assert ReadMagic(bs, 2) == Success(Field((), 4));
    assert ReadMagic(bs, 1) == Success(Field((), 4));
  }

  /** Within the limits of its fields, except for the two counts. */
  ghost predicate ContentsFit(m: Module) {
    && (forall c :: c in m.constants ==> ConstantFits(c, Version(m)))
    && (forall f :: f in m.functions ==> FunctionFits(f))
    && 0 <= m.entry <= MAX_U16
  }

  /** The offsets of the parts of a written module. */
  lemma Parts(m: Module)
    ensures var bs := WriteModule(m);
            var c := 8 + |WriteConstants(m.constants)|;
            var f := c + 2 + |WriteFunctions(m.functions)|;
            && Here(bs, 0, MAGIC) && Here(bs, 4, LE(Version(m), 2))
            && Here(bs, 6, LE(|m.constants|, 2)) && Here(bs, 8, WriteConstants(m.constants))
            && Here(bs, c, LE(|m.functions|, 2)) && Here(bs, c + 2, WriteFunctions(m.functions))
            && Here(bs, f, LE(m.entry, 2)) && |bs| == f + 2
  {
    hide Here, LE;
    var bs := WriteModule(m);
    var a := MAGIC + LE(Version(m), 2);
    var b := a + LE(|m.constants|, 2);
    var c := b + WriteConstants(m.constants);
    var d := c + LE(|m.functions|, 2);
    var e := d + WriteFunctions(m.functions);
    assert |MAGIC| == 4;
    WholeHere(bs);
    HereSplit(bs, 0, e, LE(m.entry, 2));
    HereSplit(bs, 0, d, WriteFunctions(m.functions));
    HereSplit(bs, 0, c, LE(|m.functions|, 2));
    HereSplit(bs, 0, b, WriteConstants(m.constants));
    HereSplit(bs, 0, a, LE(|m.constants|, 2));
    HereSplit(bs, 0, MAGIC, LE(Version(m), 2));
  }

  lemma WholeHere(bs: seq<Byte>)
    ensures Here(bs, 0, bs)
  {
  }

  function LoadedForm(m: Module): Program
    requires m.entry >= 0
  {
    Program(m.constants, m.functions, m.entry)
  }

  /** With both counts in range, parsing gives back the module and consumes every byte. */
  lemma SerializationRoundTrip(m: Module)
    requires ContentsFit(m) && |m.constants| <= MAX_U16 && |m.functions| <= MAX_U16
    ensures ReadProgram(WriteModule(m)) == Success(Parse(LoadedForm(m), Version(m)))
  {
    hide Here, LE, ReadNumber, ReadMagic, ReadConstants, ReadFunctions, WriteModule, WriteConstants, WriteFunctions, ConstantFits, FunctionFits;
    Pow256Values();
    Parts(m);
    var bs := WriteModule(m);
    var c := 8 + |WriteConstants(m.constants)|;
    MagicBack(bs);
    NumberBack(bs, 4, Version(m), 2);
    NumberBack(bs, 6, |m.constants|, 2);
    ConstantsBack(bs, 8, m.constants, Version(m));
    NumberBack(bs, c, |m.functions|, 2);
    FunctionsBack(bs, c + 2, m.functions);
    NumberBack(bs, c + 2 + |WriteFunctions(m.functions)|, m.entry, 2);
  }

  lemma CountOverflow(bs: seq<Byte>, at: nat)
    requires Here(bs, at, LE(0x1_0000, 2))
    ensures ReadNumber(bs, at, 2) == Success(Field(0, at + 2))
  {
    assert LE(0x1_0000, 2) == [0, 0] by {
      assert LE(0x1_0000, 2) == [0] + LE(0x100, 1);
      assert LE(0x100, 1) == [0] + LE(1, 0);
    }
    ReadsZero(bs, at);
  }

  /** A 65536th constant is written as a count of zero: whatever the loader makes of it, it is another program. */
  lemma ConstantCountWraps(m: Module)
    requires ContentsFit(m) && |m.constants| == MAX_U16 + 1
    ensures ReadProgram(WriteModule(m)).Success? ==> ReadProgram(WriteModule(m)).value.p.constants == []
  {
    hide Here, LE, ReadNumber, ReadMagic, ReadFunctions, WriteModule, WriteConstants, WriteFunctions, ConstantFits, FunctionFits;
    Pow256Values();
    Parts(m);
    var bs := WriteModule(m);
    MagicBack(bs);
    NumberBack(bs, 4, Version(m), 2);
    CountOverflow(bs, 6);
  }

  /** If the constant behind the wrapped count is the Int 0, its bytes read as no function and the entry 0. */
  lemma ZeroCountsRead(m: Module)
    requires ContentsFit(m) && |m.constants| == MAX_U16 + 1 && m.constants[0] == IntV(0)
    ensures ReadProgram(WriteModule(m)) == Failure(TrailingBytes)
  {
    hide Here, LE, ReadNumber, ReadMagic, WriteModule, WriteConstants, WriteFunctions, ConstantFits, FunctionFits;
    Pow256Values();
    Parts(m);
    var bs := WriteModule(m);
    MagicBack(bs);
    NumberBack(bs, 4, Version(m), 2);
    CountOverflow(bs, 6);
    ZeroBytes(bs, m.constants);
    ReadsZero(bs, 8);
    ReadsZero(bs, 10);
  }

  lemma ZeroBytes(bs: seq<Byte>, constants: seq<Value>)
    requires Here(bs, 8, WriteConstants(constants)) && constants != [] && constants[0] == IntV(0)
    ensures |bs| > 12 && bs[8..10] == [0, 0] && bs[10..12] == [0, 0]
  {
    hide LE;
    var rest := WriteConstants(constants[1..]);
    ZeroLE();
    var tail := LE(0, 5) + rest;
    assert WriteConstants(constants) == [0, 0, 0, 0] + tail;
    HereSplit(bs, 8, [0, 0, 0, 0], tail);
    assert bs[8..10] == bs[8..12][..2] && bs[10..12] == bs[8..12][2..];
  }

  lemma ZeroLE()
    ensures LE(0, 8) == [0, 0, 0] + LE(0, 5)
  {
    assert LE(0, 8) == [0] + LE(0, 7);
    assert LE(0, 7) == [0] + LE(0, 6);
    assert LE(0, 6) == [0] + LE(0, 5);
  }

  lemma ReadsZero(bs: seq<Byte>, at: nat)
    requires at + 2 <= |bs| && bs[at..at + 2] == [0, 0]
    ensures ReadNumber(bs, at, 2) == Success(Field(0, at + 2))
  {
    assert [0, 0][1..] == [0] && [0][1..] == [];
    assert FromLE([0]) == 0;
    assert FromLE([0, 0]) == 0;
  }

  lemma {:induction false} FunctionsTakeSpace(fns: seq<Function>)
    ensures |WriteFunctions(fns)| >= |fns|
  {
    if fns != [] {
      FunctionsTakeSpace(fns[1..]);
    }
  }

  /** A 65536th function is also written as zero, and then the file has bytes to spare. */
  lemma FunctionCountWraps(m: Module)
    requires ContentsFit(m) && |m.constants| <= MAX_U16 && |m.functions| == MAX_U16 + 1
    ensures ReadProgram(WriteModule(m)) == Failure(TrailingBytes)
  {
    hide Here, LE, ReadNumber, ReadMagic, ReadConstants, WriteModule, WriteConstants, WriteFunctions, ConstantFits, FunctionFits;
    Pow256Values();
    Parts(m);
    var bs := WriteModule(m);
    var c := 8 + |WriteConstants(m.constants)|;
    MagicBack(bs);
    NumberBack(bs, 4, Version(m), 2);
    NumberBack(bs, 6, |m.constants|, 2);
    ConstantsBack(bs, 8, m.constants, Version(m));
    CountOverflow(bs, c);
    FunctionsTakeSpace(m.functions);
    ReadsSome(bs, c + 2, 2);
  }

  lemma ReadsSome(bs: seq<Byte>, at: nat, width: nat)
    requires at + width <= |bs|
    ensures ReadNumber(bs, at, width).Success? && ReadNumber(bs, at, width).value.next == at + width
  {
  }

  /** The written file parses to the module exactly when both counts fit their 16-bit fields. */
  lemma RoundTripIffCountsFit(m: Module)
    requires ContentsFit(m) && |m.constants| <= MAX_U16 + 1 && |m.functions| <= MAX_U16 + 1
    ensures ReadProgram(WriteModule(m)) == Success(Parse(LoadedForm(m), Version(m)))
            <==> |m.constants| <= MAX_U16 && |m.functions| <= MAX_U16
  {
    hide ReadProgram, WriteModule, ContentsFit;
    if |m.constants| > MAX_U16 {
      ConstantCountWraps(m);
    } else if |m.functions| > MAX_U16 {
      FunctionCountWraps(m);
    } else {
      SerializationRoundTrip(m);
    }
  }
}
