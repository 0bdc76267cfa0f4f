/** The instruction set, its byte encoding, and the module the compiler hands to the machine. */
module Bytecode {
  import opened Bytes
  import opened Values

  datatype Instr =
    | PushConst(index: int)
    | Load(slot: int)
    | Store(slot: int)
    | Add | Sub | Mul | Div | CmpEq | CmpLt
    | Jmp(target: int)
    | JmpIfFalse(target: int)
    | Call(index: int, argc: int)
    | CallRuntime(index: int, argc: int)
    | Ret | Pop | Not
    | FAdd | FSub | FMul | FDiv | FNeg | FCmpEq | FCmpLt

  /** One opcode byte followed by little-endian operands; an operand that does not fit loses its high bytes. */
  function Encode(i: Instr): (bs: seq<Byte>)
    ensures 1 <= |bs| <= 5
  {
    match i
    case PushConst(index) => [0x01] + LE(index, 2)
    case Load(slot) => [0x02] + LE(slot, 1)
    case Store(slot) => [0x03] + LE(slot, 1)
    case Add => [0x04]
    case Sub => [0x05]
    case Mul => [0x06]
    case Div => [0x07]
    case CmpEq => [0x08]
    case CmpLt => [0x09]
    case Jmp(target) => [0x0A] + LE(target, 4)
    case JmpIfFalse(target) => [0x0B] + LE(target, 4)
    case Call(index, argc) => [0x0C] + LE(index, 2) + LE(argc, 1)
    case CallRuntime(index, argc) => [0x0D] + LE(index, 2) + LE(argc, 1)
    case Ret => [0x0E]
    case Pop => [0x0F]
    case Not => [0x10]
    case FAdd => [0x11]
    case FSub => [0x12]
    case FMul => [0x13]
    case FDiv => [0x14]
    case FNeg => [0x15]
    case FCmpEq => [0x16]
    case FCmpLt => [0x17]
  }

  predicate OperandsFit(i: Instr) {
    match i
    case PushConst(index) => 0 <= index <= 0xFFFF
    case Load(slot) => 0 <= slot <= 0xFF
    case Store(slot) => 0 <= slot <= 0xFF
    case Jmp(target) => 0 <= target <= 0xFFFF_FFFF
    case JmpIfFalse(target) => 0 <= target <= 0xFFFF_FFFF
    case Call(index, argc) => 0 <= index <= 0xFFFF && 0 <= argc <= 0xFF
    case CallRuntime(index, argc) => 0 <= index <= 0xFFFF && 0 <= argc <= 0xFF
    case _ => true
  }

  datatype Decoded = Decoded(i: Instr, next: nat) | UnknownOpcode | Truncated

  /** The number of operand bytes after an opcode, or -1 for a byte that is no opcode. */
  function OperandWidth(opcode: Byte): int {
    if opcode == 0x01 then 2
    else if opcode == 0x02 || opcode == 0x03 then 1
    else if opcode == 0x0A || opcode == 0x0B then 4
    else if opcode == 0x0C || opcode == 0x0D then 3
    else if 0x04 <= opcode <= 0x17 then 0
    else -1
  }

  /** The instruction with the given opcode and operand bytes. */
  function Assemble(opcode: Byte, operands: seq<Byte>): (i: Instr)
    requires |operands| == OperandWidth(opcode)
    ensures OperandsFit(i)
  {
    Pow256Values();
    match opcode
    case 0x01 => PushConst(FromLE(operands))
    case 0x02 => Load(FromLE(operands))
    case 0x03 => Store(FromLE(operands))
    case 0x04 => Add
    case 0x05 => Sub
    case 0x06 => Mul
    case 0x07 => Div
    case 0x08 => CmpEq
    case 0x09 => CmpLt
    case 0x0A => Jmp(FromLE(operands))
    case 0x0B => JmpIfFalse(FromLE(operands))
    case 0x0C => Call(FromLE(operands[..2]), FromLE(operands[2..]))
    case 0x0D => CallRuntime(FromLE(operands[..2]), FromLE(operands[2..]))
    case 0x0E => Ret
    case 0x0F => Pop
    case 0x10 => Not
    case 0x11 => FAdd
    case 0x12 => FSub
    case 0x13 => FMul
    case 0x14 => FDiv
    case 0x15 => FNeg
    case 0x16 => FCmpEq
    case _ => FCmpLt
  }

  /** The instruction that starts at `ip`. */
  function Decode(code: seq<Byte>, ip: nat): (d: Decoded)
    requires ip < |code|
    ensures d.Decoded? ==> ip < d.next <= |code| && OperandsFit(d.i)
  {
    var width := OperandWidth(code[ip]);
    if width < 0 then UnknownOpcode
    else if ip + 1 + width > |code| then Truncated
    else Decoded(Assemble(code[ip], code[ip + 1..ip + 1 + width]), ip + 1 + width)
  }

  /** Decoding what was encoded gives the instruction back and lands just behind it. */
  lemma DecodeEncode(code: seq<Byte>, ip: nat, i: Instr)
    requires OperandsFit(i)
    requires ip + |Encode(i)| <= |code| && code[ip..ip + |Encode(i)|] == Encode(i)
    ensures Decode(code, ip) == Decoded(i, ip + |Encode(i)|)
  {
    hide LE, FromLE, Pow256;
    Pow256Values();
    var bs := Encode(i);
    assert code[ip] == bs[0];
    assert OperandWidth(bs[0]) == |bs| - 1;
    assert code[ip + 1..ip + |bs|] == bs[1..];
    match i
    case PushConst(n) => LittleEndianRoundTrip(n, 2);
    case Load(n) => LittleEndianRoundTrip(n, 1);
    case Store(n) => LittleEndianRoundTrip(n, 1);
    case Jmp(n) => LittleEndianRoundTrip(n, 4);
    case JmpIfFalse(n) => LittleEndianRoundTrip(n, 4);
    case Call(n, c) =>
      assert bs[1..][..2] == LE(n, 2) && bs[1..][2..] == LE(c, 1);
      LittleEndianRoundTrip(n, 2);
      LittleEndianRoundTrip(c, 1);
    case CallRuntime(n, c) =>
      assert bs[1..][..2] == LE(n, 2) && bs[1..][2..] == LE(c, 1);
      LittleEndianRoundTrip(n, 2);
      LittleEndianRoundTrip(c, 1);
    case _ =>
  }

  datatype Function = Function(name: Text, paramCount: int, localCount: int, code: seq<Byte>)

  /** What the code generator produces. */
  datatype Module = Module(constants: seq<Value>, functions: seq<Function>, entry: int, usesFloat: bool)

  /** What the loader produces. */
  datatype Program = Program(constants: seq<Value>, functions: seq<Function>, entry: nat)
}
