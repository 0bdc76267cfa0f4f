/** The writer as it runs: bytes appended to an output stream. */
module BytecodeWriter {
  import opened Bytes
  import opened Values
  import opened Bytecode
  import opened FileFormat

  class OutputStream {
    var bytes: seq<Byte>

    constructor ()
      ensures bytes == []
    {
      bytes := [];
    }

    /** Only the low byte is written. */
    method Write(value: int)
      modifies this
      ensures bytes == old(bytes) + LE(value, 1)
    {
      bytes := bytes + [value % 256];
    }

    method WriteAll(data: seq<Byte>)
      modifies this
      ensures bytes == old(bytes) + data
    {
      bytes := bytes + data;
    }

    method WriteU16(value: int)
      modifies this
      ensures bytes == old(bytes) + LE(value, 2)
    {
      Write(value);
      Write(value / 256);
    }

    method WriteU32(value: int)
      modifies this
      ensures bytes == old(bytes) + LE(value, 4)
    {
      WriteU16(value);
      WriteU16(value / 256 / 256);
      assert LE(value, 4) == LE(value, 2) + LE(value / 256 / 256, 2);
    }

    method WriteI64(value: int)
      modifies this
      ensures bytes == old(bytes) + LE(value, 8)
    {
      var rest := value;
      for i := 0 to 8
        invariant bytes + LE(rest, 8 - i) == old(bytes) + LE(value, 8)
      {
        NextByte(bytes, rest, 8 - i);
        Write(rest);
        rest := rest / 256;
      }
    }

    static lemma NextByte(bytes: seq<Byte>, n: int, width: nat)
      requires width > 0
      ensures bytes + LE(n, width) == bytes + [n % 256] + LE(n / 256, width - 1)
    {
      assert LE(n, width) == [n % 256] + LE(n / 256, width - 1);
    }

    method WriteString(value: Text)
      modifies this
      ensures bytes == old(bytes) + WriteText(value)
    {
      WriteU32(|value|);
      WriteAll(value);
    }

    method WriteConstantPool(constants: seq<Value>)
      modifies this
      ensures bytes == old(bytes) + LE(|constants|, 2) + WriteConstants(constants)
    {
      hide LE, WriteConstant, WriteConstants;
      WriteU16(|constants|);
      ghost var start := bytes;
      ConstantsFrom(constants, 0);
      for i := 0 to |constants|
        invariant bytes == start + WriteConstants(constants[..i])
      {
        ConstantsFrom(constants, i);
        WriteConst(constants[i]);
        assert start + (WriteConstants(constants[..i]) + WriteConstant(constants[i])) == bytes;
      }
      assert constants[..|constants|] == constants;
    }

    method WriteConst(c: Value)
      modifies this
      ensures bytes == old(bytes) + WriteConstant(c)
    {
      hide LE, WriteText;
      ghost var start := bytes;
      match c {
        case IntV(n) =>
          WriteTag(0);
          WriteI64(n);
          assert bytes == start + ([0] + LE(n, 8));
        case FloatV(f) =>
          WriteTag(2);
          WriteI64(f);
          assert bytes == start + ([2] + LE(f, 8));
        case StringV(t) =>
          WriteTag(1);
          WriteString(t);
          assert bytes == start + ([1] + WriteText(t));
      }
    }

    method WriteTag(tag: Byte)
      modifies this
      ensures bytes == old(bytes) + [tag]
    {
      Write(tag);
    }

    method WriteFunctionTable(functions: seq<Function>)
      modifies this
      ensures bytes == old(bytes) + LE(|functions|, 2) + WriteFunctions(functions)
    {
      hide LE, WriteFunction, WriteFunctions;
      WriteU16(|functions|);
      ghost var start := bytes;
      FunctionsFrom(functions, 0);
      for i := 0 to |functions|
        invariant bytes == start + WriteFunctions(functions[..i])
      {
        FunctionsFrom(functions, i);
        WriteCompiled(functions[i]);
        assert start + (WriteFunctions(functions[..i]) + WriteFunction(functions[i])) == bytes;
      }
      assert functions[..|functions|] == functions;
    }

    method WriteCompiled(f: Function)
      modifies this
      ensures bytes == old(bytes) + WriteFunction(f)
    {
      WriteString(f.name);
      Write(f.paramCount);
      Write(f.localCount);
      WriteU32(|f.code|);
      WriteAll(f.code);
    }
  }

  /** Constants are written one behind the other. */
  lemma {:induction false} ConstantsFrom(cs: seq<Value>, i: nat)
    requires i <= |cs|
    ensures WriteConstants(cs[..0]) == []
    ensures i < |cs| ==> WriteConstants(cs[..i + 1]) == WriteConstants(cs[..i]) + WriteConstant(cs[i])
  {
    hide WriteConstant;
    if 0 < i < |cs| {
      ConstantsFrom(cs[1..], i - 1);
      assert cs[..i + 1][1..] == cs[1..][..i] && cs[..i][1..] == cs[1..][..i - 1];
    }
  }

  /** Functions are written one behind the other. */
  lemma {:induction false} FunctionsFrom(fns: seq<Function>, i: nat)
    requires i <= |fns|
    ensures WriteFunctions(fns[..0]) == []
    ensures i < |fns| ==> WriteFunctions(fns[..i + 1]) == WriteFunctions(fns[..i]) + WriteFunction(fns[i])
  {
    hide WriteFunction;
    if 0 < i < |fns| {
      FunctionsFrom(fns[1..], i - 1);
      assert fns[..i + 1][1..] == fns[1..][..i] && fns[..i][1..] == fns[1..][..i - 1];
    }
  }

  method Write(m: Module) returns (file: seq<Byte>)
    ensures file == WriteModule(m)
  {
    hide LE, WriteConstants, WriteFunctions;
    var out := new OutputStream();
    out.WriteAll(MAGIC);
    out.WriteU16(if m.usesFloat then FLOAT_VERSION else LEGACY_VERSION);
    out.WriteConstantPool(m.constants);
    out.WriteFunctionTable(m.functions);
    out.WriteU16(m.entry);
    file := out.bytes;
  }
}
