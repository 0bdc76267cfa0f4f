/** The `.bc` file: how the compiler writes a module, and what the loader reads and verifies. */
module FileFormat {
  import opened Prelude
  import opened Bytes
  import opened Floats
  import opened Values
  import opened RuntimeApi
  import opened Bytecode

  const MAGIC: Text := Ascii("TACB")
  const LEGACY_VERSION := 1
  const FLOAT_VERSION := 2

  // ---- Writing ----

  function WriteText(t: Text): seq<Byte> {
    LE(|t|, 4) + t
  }

  function WriteConstant(c: Value): seq<Byte> {
    match c
    case IntV(n) => [0] + LE(n, 8)
    case FloatV(f) => [2] + LE(f, 8)
    case StringV(t) => [1] + WriteText(t)
  }

  function WriteConstants(cs: seq<Value>): seq<Byte> {
    if cs == [] then [] else WriteConstant(cs[0]) + WriteConstants(cs[1..])
  }

  function WriteFunction(f: Function): seq<Byte> {
    WriteText(f.name) + LE(f.paramCount, 1) + LE(f.localCount, 1) + WriteText(f.code)
  }

  function WriteFunctions(fns: seq<Function>): seq<Byte> {
    if fns == [] then [] else WriteFunction(fns[0]) + WriteFunctions(fns[1..])
  }

  function Version(m: Module): int {
    if m.usesFloat then FLOAT_VERSION else LEGACY_VERSION
  }

  function WriteModule(m: Module): seq<Byte> {
    MAGIC + LE(Version(m), 2)
    + LE(|m.constants|, 2) + WriteConstants(m.constants)
    + LE(|m.functions|, 2) + WriteFunctions(m.functions)
    + LE(m.entry, 2)
  }

  // ---- Reading ----

  datatype LoadError =
    | UnexpectedEnd
    | BadMagic
    | UnsupportedVersion
    | UnknownConstantTag
    | NonFiniteConstant
    | TrailingBytes
    | EntryOutOfRange
    | EntryHasParameters
    | ConstantOutOfRange
    | LocalOutOfRange
    | FunctionOutOfRange
    | ArgumentCountMismatch
    | RuntimeNameNotString
    | UnknownRuntimeFunction
    | FloatOpcodeInLegacyFile
    | BadOpcode
    | InvalidJumpTarget

  /** A field and the offset behind it. */
  datatype Field<+T> = Field(value: T, next: nat)

  type Parsed<+T> = Result<Field<T>, LoadError>

  function ReadBytes(bs: seq<Byte>, at: nat, count: nat): (r: Parsed<seq<Byte>>)
    requires at <= |bs|
    ensures r.Success? ==> at <= r.value.next <= |bs| && |r.value.value| == count
  {
    if count > |bs| - at then Failure(UnexpectedEnd) else Success(Field(bs[at..at + count], at + count))
  }

  function ReadNumber(bs: seq<Byte>, at: nat, width: nat): (r: Parsed<nat>)
    requires at <= |bs|
    ensures r.Success? ==> at <= r.value.next <= |bs| && r.value.value < Pow256(width)
  {
    var x :- ReadBytes(bs, at, width);
    Success(Field(FromLE(x.value), x.next))
  }

  function ReadText(bs: seq<Byte>, at: nat): (r: Parsed<Text>)
    requires at <= |bs|
    ensures r.Success? ==> at <= r.value.next <= |bs|
  {
    var length :- ReadNumber(bs, at, 4);
    ReadBytes(bs, length.next, length.value)
  }

  function ReadConstant(bs: seq<Byte>, at: nat, version: int): (r: Parsed<Value>)
    requires at <= |bs|
    ensures r.Success? ==> at <= r.value.next <= |bs|
  {
    var tag :- ReadNumber(bs, at, 1);
    if tag.value == 0 then
      var raw :- ReadNumber(bs, tag.next, 8);
      Success(Field(IntV(Signed64(raw.value)), raw.next))
    else if tag.value == 1 then
      var t :- ReadText(bs, tag.next);
      Success(Field(StringV(t.value), t.next))
    else if tag.value == 2 && version == FLOAT_VERSION then
      var raw :- ReadNumber(bs, tag.next, 8);
      Pow256Values();
      if !IsFinite(raw.value) then Failure(NonFiniteConstant) else Success(Field(FloatV(raw.value), raw.next))
    else Failure(UnknownConstantTag)
  }

  function ReadConstants(bs: seq<Byte>, at: nat, count: nat, version: int): (r: Parsed<seq<Value>>)
    requires at <= |bs|
    ensures r.Success? ==> at <= r.value.next <= |bs| && |r.value.value| == count
    decreases count
  {
    if count == 0 then Success(Field([], at))
    else
      var head :- ReadConstant(bs, at, version);
      var rest :- ReadConstants(bs, head.next, count - 1, version);
      Success(Field([head.value] + rest.value, rest.next))
  }

  function ReadFunction(bs: seq<Byte>, at: nat): (r: Parsed<Function>)
    requires at <= |bs|
    ensures r.Success? ==> at <= r.value.next <= |bs|
    ensures r.Success? ==> 0 <= r.value.value.paramCount < 256 && 0 <= r.value.value.localCount < 256
  {
    Pow256Values();
    var name :- ReadText(bs, at);
    var params :- ReadNumber(bs, name.next, 1);
    var locals :- ReadNumber(bs, params.next, 1);
    var code :- ReadText(bs, locals.next);
    Success(Field(Function(name.value, params.value, locals.value, code.value), code.next))
  }

  function ReadFunctions(bs: seq<Byte>, at: nat, count: nat): (r: Parsed<seq<Function>>)
    requires at <= |bs|
    ensures r.Success? ==> at <= r.value.next <= |bs| && |r.value.value| == count
    decreases count
  {
    if count == 0 then Success(Field([], at))
    else
      var head :- ReadFunction(bs, at);
      var rest :- ReadFunctions(bs, head.next, count - 1);
      Success(Field([head.value] + rest.value, rest.next))
  }

  /** The magic, byte by byte. */
  function ReadMagic(bs: seq<Byte>, at: nat): (r: Parsed<()>)
    requires at <= |bs| && at <= 4
    ensures r.Success? ==> r.value.next == 4 <= |bs|
    decreases 4 - at
  {
    if at == 4 then Success(Field((), at))
    else
      var b :- ReadNumber(bs, at, 1);
      if b.value != MAGIC[at] then Failure(BadMagic) else ReadMagic(bs, at + 1)
  }

  /** A file as written, before any of its code has been looked at. */
  datatype Parse = Parse(p: Program, version: int)

  function ReadProgram(bs: seq<Byte>): Result<Parse, LoadError> {
    var magic :- ReadMagic(bs, 0);
    var version :- ReadNumber(bs, magic.next, 2);
    if version.value != LEGACY_VERSION && version.value != FLOAT_VERSION then Failure(UnsupportedVersion) else
    var constantCount :- ReadNumber(bs, version.next, 2);
    var constants :- ReadConstants(bs, constantCount.next, constantCount.value, version.value);
    var functionCount :- ReadNumber(bs, constants.next, 2);
    var functions :- ReadFunctions(bs, functionCount.next, functionCount.value);
    var entry :- ReadNumber(bs, functions.next, 2);
    if entry.next != |bs| then Failure(TrailingBytes)
    else Success(Parse(Program(constants.value, functions.value, entry.value), version.value))
  }

  // ---- Verification ----

  predicate FloatInstr(i: Instr) {
    i.FAdd? || i.FSub? || i.FMul? || i.FDiv? || i.FNeg? || i.FCmpEq? || i.FCmpLt?
  }

  /** What the loader objects to in one instruction of `f`; a jump is judged later. */
  function InstrError(p: Program, f: Function, version: int, i: Instr): Option<LoadError> {
    match i
    case PushConst(index) => if index >= |p.constants| then Some(ConstantOutOfRange) else None
    case Load(slot) => if slot >= f.paramCount + f.localCount then Some(LocalOutOfRange) else None
    case Store(slot) => if slot >= f.paramCount + f.localCount then Some(LocalOutOfRange) else None
    case Call(index, argc) =>
      if index < 0 || index >= |p.functions| then Some(FunctionOutOfRange)
      else if argc != p.functions[index].paramCount then Some(ArgumentCountMismatch) else None
    case CallRuntime(index, argc) =>
      if index < 0 || index >= |p.constants| then Some(ConstantOutOfRange)
      else if !p.constants[index].StringV? then Some(RuntimeNameNotString)
      else if !HasFunction(p.constants[index].t, argc) then Some(UnknownRuntimeFunction) else None
    case _ => if FloatInstr(i) && version != FLOAT_VERSION then Some(FloatOpcodeInLegacyFile) else None
  }

  function JumpTargets(i: Instr): seq<int> {
    if i.Jmp? || i.JmpIfFalse? then [i.target] else []
  }

  /** Instruction boundaries and jump targets of the code from some offset on. */
  datatype Swept = Swept(boundaries: set<nat>, targets: seq<int>)

  /** Decode linearly from `at` to the end of the code, reachable or not. */
  function Sweep(p: Program, f: Function, version: int, at: nat): Result<Swept, LoadError>
    requires at <= |f.code|
    decreases |f.code| - at
  {
    if at == |f.code| then Success(Swept({}, []))
    else match Decode(f.code, at)
      case UnknownOpcode => Failure(BadOpcode)
      case Truncated => Failure(UnexpectedEnd)
      case Decoded(i, next) =>
        var e := InstrError(p, f, version, i);
        if e.Some? then Failure(e.value) else
        var rest :- Sweep(p, f, version, next);
        Success(Swept({at} + rest.boundaries, JumpTargets(i) + rest.targets))
  }

  function VerifyFunction(p: Program, f: Function, version: int): Option<LoadError> {
    match Sweep(p, f, version, 0)
    case Failure(e) => Some(e)
    case Success(sw) => if forall t :: t in sw.targets ==> t in sw.boundaries then None else Some(InvalidJumpTarget)
  }

  function VerifyFunctions(p: Program, fns: seq<Function>, version: int): Option<LoadError> {
    if fns == [] then None
    else
      var e := VerifyFunction(p, fns[0], version);
      if e.Some? then e else VerifyFunctions(p, fns[1..], version)
  }

  /** The loader: parse, check the entry, then verify every function. */
  function LoadProgram(bs: seq<Byte>): Result<Program, LoadError> {
    var r :- ReadProgram(bs);
    if r.p.entry >= |r.p.functions| then Failure(EntryOutOfRange)
    else if r.p.functions[r.p.entry].paramCount != 0 then Failure(EntryHasParameters) else
    var e := VerifyFunctions(r.p, r.p.functions, r.version);
    if e.Some? then Failure(e.value) else Success(r.p)
  }
}
