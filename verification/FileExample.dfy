/** The bytes of the file format, written out: one whole file, and the opcodes. */
module FileExample {
  import opened Bytes
  import opened Values
  import opened FileFormat
  import B = Bytecode

  /** Three constants, one of each kind, and one function without parameters and with one local. */
  const EXAMPLE := B.Module(
    [IntV(-2), StringV([104, 105]), FloatV(0x3FF8_0000_0000_0000)],
    [B.Function([109, 97, 105, 110], 0, 1, [0x01, 0x00, 0x00, 0x0E])],
    0,
    true)

  lemma SmallNumber(n: int)
    requires 0 <= n < 256
    ensures LE(n, 1) == [n] && LE(n, 2) == [n, 0] && LE(n, 4) == [n, 0, 0, 0]
  {
    hide LE;
    NextByte(0, 0, 0, 0);
    NextByte(0, 1, 0, 0);
    NextByte(0, 2, 0, 0);
    NextByte(n, 0, n, 0);
    NextByte(n, 1, n, 0);
    NextByte(n, 3, n, 0);
  }

  lemma NextByte(n: int, w: nat, low: Byte, high: int)
    requires n == 256 * high + low
    ensures LE(n, w + 1) == [low] + LE(high, w)
  {
    hide LE;
    LowByte(n, low, high);
    Unfolded(n, w);
  }

  lemma LowByte(n: int, low: Byte, high: int)
    requires n == 256 * high + low
    ensures n % 256 == low && n / 256 == high
  {
  }

  lemma Unfolded(n: int, w: nat)
    ensures LE(n, w + 1) == [n % 256] + LE(n / 256, w)
  {
  }

  lemma MinusTwo()
    ensures LE(-2, 8) == [0xFE, 0xFF, 0xFF, 0xFF, 0xFF, 0xFF, 0xFF, 0xFF]
  {
    hide LE;
    NextByte(-2, 7, 0xFE, -1);
    NextByte(-1, 6, 0xFF, -1);
    NextByte(-1, 5, 0xFF, -1);
    NextByte(-1, 4, 0xFF, -1);
    NextByte(-1, 3, 0xFF, -1);
    NextByte(-1, 2, 0xFF, -1);
    NextByte(-1, 1, 0xFF, -1);
    NextByte(-1, 0, 0xFF, -1);
  }

  lemma OneAndAHalf()
    ensures LE(0x3FF8_0000_0000_0000, 8) == [0, 0, 0, 0, 0, 0, 0xF8, 0x3F]
  {
    hide LE;
    NextByte(0x3FF8_0000_0000_0000, 7, 0, 0x3F_F800_0000_0000);
    NextByte(0x3F_F800_0000_0000, 6, 0, 0x3FF8_0000_0000);
    NextByte(0x3FF8_0000_0000, 5, 0, 0x3F_F800_0000);
    NextByte(0x3F_F800_0000, 4, 0, 0x3FF8_0000);
    NextByte(0x3FF8_0000, 3, 0, 0x3F_F800);
    NextByte(0x3F_F800, 2, 0, 0x3FF8);
    NextByte(0x3FF8, 1, 0xF8, 0x3F);
    NextByte(0x3F, 0, 0x3F, 0);
  }

  lemma ExampleConstants()
    ensures WriteConstants(EXAMPLE.constants) ==
            [0, 0xFE, 0xFF, 0xFF, 0xFF, 0xFF, 0xFF, 0xFF, 0xFF] + ([1, 2, 0, 0, 0, 104, 105] + [2, 0, 0, 0, 0, 0, 0, 0xF8, 0x3F])
  {
    hide LE;
    var a, b, c := IntV(-2), StringV([104, 105]), FloatV(0x3FF8_0000_0000_0000);
    MinusTwo();
    OneAndAHalf();
    SmallNumber(2);
    assert WriteConstant(a) == [0, 0xFE, 0xFF, 0xFF, 0xFF, 0xFF, 0xFF, 0xFF, 0xFF];
    assert WriteConstant(b) == [1, 2, 0, 0, 0, 104, 105];
    assert WriteConstant(c) == [2, 0, 0, 0, 0, 0, 0, 0xF8, 0x3F];
    ThreeConstants(a, b, c);
  }

  lemma ThreeConstants(a: Value, b: Value, c: Value)
    ensures WriteConstants([a, b, c]) == WriteConstant(a) + (WriteConstant(b) + WriteConstant(c))
  {
    hide WriteConstant;
    assert [a, b, c][1..] == [b, c] && [b, c][1..] == [c] && [c][1..] == [];
    assert WriteConstants([c]) == WriteConstant(c) + [];
    assert WriteConstants([b, c]) == WriteConstant(b) + WriteConstants([c]);
  }

  lemma ExampleFunctions()
    ensures WriteFunctions(EXAMPLE.functions) == [4, 0, 0, 0, 109, 97, 105, 110] + [0] + [1] + [4, 0, 0, 0, 0x01, 0x00, 0x00, 0x0E]
  {
    hide LE;
    SmallNumber(0);
    SmallNumber(1);
    SmallNumber(4);
    var f := EXAMPLE.functions[0];
    assert WriteText(f.name) == [4, 0, 0, 0, 109, 97, 105, 110];
    assert WriteText(f.code) == [4, 0, 0, 0, 0x01, 0x00, 0x00, 0x0E];
    assert EXAMPLE.functions[1..] == [];
    assert WriteFunctions(EXAMPLE.functions) == WriteFunction(f) + [];
  }

  /** The file of the example, byte by byte. */
  lemma ExampleFile()
    ensures WriteModule(EXAMPLE) ==
            [0x54, 0x41, 0x43, 0x42] + [2, 0]
            + [3, 0]
            + ([0, 0xFE, 0xFF, 0xFF, 0xFF, 0xFF, 0xFF, 0xFF, 0xFF] + ([1, 2, 0, 0, 0, 104, 105] + [2, 0, 0, 0, 0, 0, 0, 0xF8, 0x3F]))
            + [1, 0]
            + ([4, 0, 0, 0, 109, 97, 105, 110] + [0] + [1] + [4, 0, 0, 0, 0x01, 0x00, 0x00, 0x0E])
            + [0, 0]
  {
    hide LE, WriteConstants, WriteFunctions;
    SmallNumber(0);
    SmallNumber(1);
    SmallNumber(2);
    SmallNumber(3);
    ExampleConstants();
    ExampleFunctions();
    assert MAGIC == [0x54, 0x41, 0x43, 0x42];
  }

  /** Every instruction starts with its opcode and has operands of the specified widths. */
  lemma Opcodes(index: int, slot: int, target: int, argc: int)
    ensures B.Encode(B.PushConst(index)) == [0x01] + LE(index, 2)
    ensures B.Encode(B.Load(slot)) == [0x02] + LE(slot, 1) && B.Encode(B.Store(slot)) == [0x03] + LE(slot, 1)
    ensures B.Encode(B.Add) + B.Encode(B.Sub) + B.Encode(B.Mul) + B.Encode(B.Div) == [0x04, 0x05, 0x06, 0x07]
    ensures B.Encode(B.CmpEq) + B.Encode(B.CmpLt) == [0x08, 0x09]
    ensures B.Encode(B.Jmp(target)) == [0x0A] + LE(target, 4) && B.Encode(B.JmpIfFalse(target)) == [0x0B] + LE(target, 4)
    ensures B.Encode(B.Call(index, argc)) == [0x0C] + (LE(index, 2) + LE(argc, 1))
    ensures B.Encode(B.CallRuntime(index, argc)) == [0x0D] + (LE(index, 2) + LE(argc, 1))
    ensures B.Encode(B.Ret) + B.Encode(B.Pop) + B.Encode(B.Not) == [0x0E, 0x0F, 0x10]
    ensures B.Encode(B.FAdd) + B.Encode(B.FSub) + B.Encode(B.FMul) + B.Encode(B.FDiv) == [0x11, 0x12, 0x13, 0x14]
    ensures B.Encode(B.FNeg) + B.Encode(B.FCmpEq) + B.Encode(B.FCmpLt) == [0x15, 0x16, 0x17]
  {
    hide LE;
  }
}
