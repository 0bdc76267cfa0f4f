/** The accumulators of the code generator: the constant pool, and the bytes of one function. */
module Builders {
  import opened Bytes
  import opened Floats
  import opened Values
  import opened Bytecode
  import opened CodeGenSpec

  lemma {:induction false} PoolIndexMember(pool: seq<Value>, c: Value)
    ensures PoolIndex(pool, c) < |pool| <==> c in pool
  {
    if pool != [] {
      PoolIndexMember(pool[1..], c);
      assert pool == [pool[0]] + pool[1..];
    }
  }

  /** A constant keeps its index when others are added behind it; a new one gets the next index. */
  lemma {:induction false} PoolIndexAppend(pool: seq<Value>, d: Value, c: Value)
    ensures c in pool ==> PoolIndex(pool + [d], c) == PoolIndex(pool, c)
    ensures c !in pool && c == d ==> PoolIndex(pool + [d], c) == |pool|
  {
    if pool == [] {
      assert pool + [d] == [d];
    } else {
      PoolIndexAppend(pool[1..], d, c);
      assert (pool + [d])[1..] == pool[1..] + [d];
      assert pool == [pool[0]] + pool[1..];
    }
  }

  /** De-duplicating: one map per kind of constant, from the value to its index. */
  class ConstantPool {
    var constants: seq<Value>
    var stringIndex: map<Text, nat>
    var intIndex: map<I64, nat>
    var floatIndex: map<F64, nat>

    ghost predicate Valid()
      reads this
    {
      && (forall t :: t in stringIndex <==> StringV(t) in constants)
      && (forall t :: t in stringIndex ==> stringIndex[t] == PoolIndex(constants, StringV(t)))
      && (forall n :: n in intIndex <==> IntV(n) in constants)
      && (forall n :: n in intIndex ==> intIndex[n] == PoolIndex(constants, IntV(n)))
      && (forall f :: f in floatIndex <==> FloatV(f) in constants)
      && (forall f :: f in floatIndex ==> floatIndex[f] == PoolIndex(constants, FloatV(f)))
    }

    constructor ()
      ensures Valid() && constants == []
    {
      constants, stringIndex, intIndex, floatIndex := [], map[], map[], map[];
    }

    lemma Grown(d: Value)
      requires Valid()
      ensures forall c :: c in constants ==> PoolIndex(constants + [d], c) == PoolIndex(constants, c)
      ensures d !in constants ==> PoolIndex(constants + [d], d) == |constants| == PoolIndex(constants, d)
    {
      forall c ensures c in constants ==> PoolIndex(constants + [d], c) == PoolIndex(constants, c) {
        PoolIndexAppend(constants, d, c);
      }
      PoolIndexAppend(constants, d, d);
      PoolIndexMember(constants, d);
    }

    method StringConstant(value: Text) returns (i: nat)
      requires Valid()
      modifies this
      ensures Valid()
      ensures i == PoolIndex(old(constants), StringV(value))
      ensures constants == old(constants) + (if i < |old(constants)| then [] else [StringV(value)])
    {
      PoolIndexMember(constants, StringV(value));
      if value in stringIndex {
        return stringIndex[value];
      }
      Grown(StringV(value));
      i := |constants|;
      constants := constants + [StringV(value)];
      stringIndex := stringIndex[value := i];
    }

    method IntConstant(value: I64) returns (i: nat)
      requires Valid()
      modifies this
      ensures Valid()
      ensures i == PoolIndex(old(constants), IntV(value))
      ensures constants == old(constants) + (if i < |old(constants)| then [] else [IntV(value)])
    {
      PoolIndexMember(constants, IntV(value));
      if value in intIndex {
        return intIndex[value];
      }
      Grown(IntV(value));
      i := |constants|;
      constants := constants + [IntV(value)];
      intIndex := intIndex[value := i];
    }

    /** Keyed by the bit pattern, so the two zeros are different constants. */
    method FloatConstant(value: F64) returns (i: nat)
      requires Valid()
      modifies this
      ensures Valid()
      ensures i == PoolIndex(old(constants), FloatV(value))
      ensures constants == old(constants) + (if i < |old(constants)| then [] else [FloatV(value)])
    {
      PoolIndexMember(constants, FloatV(value));
      if value in floatIndex {
        return floatIndex[value];
      }
      Grown(FloatV(value));
      i := |constants|;
      constants := constants + [FloatV(value)];
      floatIndex := floatIndex[value := i];
    }
  }

  /** Emits the code of one function. */
  class CodeBuilder {
    var bytes: seq<Byte>

    constructor ()
      ensures bytes == []
    {
      bytes := [];
    }

    method Op(opcode: Byte)
      modifies this
      ensures bytes == old(bytes) + [opcode]
    {
      bytes := bytes + [opcode];
    }

    /** Little-endian, lowest byte first; what does not fit is cut off. */
    method Number(value: int, width: nat)
      modifies this
      ensures bytes == old(bytes) + LE(value, width)
    {
      var rest := value;
      for i := 0 to width
        invariant bytes + LE(rest, width - i) == old(bytes) + LE(value, width)
      {
        assert bytes + LE(rest, width - i) == bytes + [rest % 256] + LE(rest / 256, width - i - 1);
        bytes := bytes + [rest % 256];
        rest := rest / 256;
      }
    }

    method PushConst(index: int)
      modifies this
      ensures bytes == old(bytes) + Encode(Bytecode.PushConst(index))
    {
      Op(0x01);
      Number(index, 2);
    }

    method Load(slot: int)
      modifies this
      ensures bytes == old(bytes) + Encode(Bytecode.Load(slot))
    {
      Op(0x02);
      Number(slot, 1);
    }

    method Store(slot: int)
      modifies this
      ensures bytes == old(bytes) + Encode(Bytecode.Store(slot))
    {
      Op(0x03);
      Number(slot, 1);
    }

    method Call(index: int, argc: int)
      modifies this
      ensures bytes == old(bytes) + Encode(Bytecode.Call(index, argc))
    {
      Op(0x0C);
      Number(index, 2);
      Number(argc, 1);
    }

    method CallRuntime(index: int, argc: int)
      modifies this
      ensures bytes == old(bytes) + Encode(Bytecode.CallRuntime(index, argc))
    {
      Op(0x0D);
      Number(index, 2);
      Number(argc, 1);
    }

    /** A jump to a known target. */
    method Jump(target: int)
      modifies this
      ensures bytes == old(bytes) + Encode(Bytecode.Jmp(target))
    {
      Op(0x0A);
      Number(target, 4);
    }

    /** A forward jump with a placeholder; the position of its operand is for `Patch`. */
    method JumpForward(opcode: Byte) returns (operandPos: nat)
      modifies this
      ensures bytes == old(bytes) + [opcode] + LE(0, 4)
      ensures operandPos == |old(bytes)| + 1
    {
      Op(opcode);
      operandPos := |bytes|;
      Number(0, 4);
    }

    /** Overwrite the operand of a forward jump, byte by byte; nothing else changes. */
    method Patch(operandPos: nat, target: int)
      requires operandPos + 4 <= |bytes|
      modifies this
      ensures bytes == old(bytes)[..operandPos] + LE(target, 4) + old(bytes)[operandPos + 4..]
    {
      var rest := target;
      for i := 0 to 4
        invariant |bytes| == |old(bytes)|
        invariant bytes[..operandPos] == old(bytes)[..operandPos] && bytes[operandPos + 4..] == old(bytes)[operandPos + 4..]
        invariant bytes[operandPos..operandPos + i] + LE(rest, 4 - i) == LE(target, 4)
      {
        ghost var before := bytes;
        assert LE(rest, 4 - i) == [rest % 256] + LE(rest / 256, 4 - i - 1);
        bytes := bytes[operandPos + i := rest % 256];
        rest := rest / 256;
        assert bytes[operandPos..operandPos + i + 1] == before[operandPos..operandPos + i] + [bytes[operandPos + i]];
      }
      assert bytes == bytes[..operandPos] + bytes[operandPos..operandPos + 4] + bytes[operandPos + 4..];
    }
  }
}
