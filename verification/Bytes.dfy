/** Bytes and the little-endian encodings shared by the bytecode file and the instruction operands. */
module Bytes {

  type Byte = b: int | 0 <= b < 256

  /** Text is modelled by its UTF-8 bytes, the form in which it is written, loaded and compared. */
  type Text = seq<Byte>

  type I64 = n: int | -0x8000_0000_0000_0000 <= n < 0x8000_0000_0000_0000

  const MAX_U16 := 0xFFFF

  /** The ASCII bytes of a literal. */
  function Ascii(s: string): (t: Text)
    ensures |t| == |s|
  {
    seq(|s|, i requires 0 <= i < |s| => s[i] as int % 256)
  }

  function Pow256(w: nat): (p: int)
    ensures p > 0
  {
    if w == 0 then 1 else 256 * Pow256(w - 1)
  }

  /** The `w` low bytes of `n`, lowest first. A negative `n` is written in two's complement. */
  function LE(n: int, w: nat): (bs: seq<Byte>)
    ensures |bs| == w
    decreases w
  {
    if w == 0 then [] else [n % 256] + LE(n / 256, w - 1)
  }

  function FromLE(bs: seq<Byte>): (n: nat)
    ensures n < Pow256(|bs|)
  {
    if bs == [] then 0 else bs[0] + 256 * FromLE(bs[1..])
  }

  /** Two's complement reading of an 8-byte word. */
  function Signed64(raw: nat): (n: I64)
    requires raw < Pow256(8)
  {
    Pow256Values();
    if raw < 0x8000_0000_0000_0000 then raw else raw - 0x1_0000_0000_0000_0000
  }

  lemma Pow256Values()
    ensures Pow256(1) == 0x100
    ensures Pow256(2) == 0x1_0000
    ensures Pow256(4) == 0x1_0000_0000
    ensures Pow256(8) == 0x1_0000_0000_0000_0000
  {
    assert Pow256(2) == 256 * Pow256(1);
    assert Pow256(3) == 256 * Pow256(2);
    assert Pow256(4) == 256 * Pow256(3);
    assert Pow256(5) == 256 * Pow256(4);
    assert Pow256(6) == 256 * Pow256(5);
    assert Pow256(7) == 256 * Pow256(6);
    assert Pow256(8) == 256 * Pow256(7);
  }

  /** Reading back what was written gives the value modulo 256^w. */
  lemma {:induction false} LittleEndianRoundTrip(n: int, w: nat)
    requires -Pow256(w) <= n < Pow256(w)
    ensures FromLE(LE(n, w)) == if n < 0 then n + Pow256(w) else n
    decreases w
  {
    if w > 0 {
      assert LE(n, w)[1..] == LE(n / 256, w - 1);
      LittleEndianRoundTrip(n / 256, w - 1);
    }
  }

  lemma SignedRoundTrip(n: I64)
    ensures FromLE(LE(n, 8)) < Pow256(8)
    ensures Signed64(FromLE(LE(n, 8))) == n
  {
    Pow256Values();
    LittleEndianRoundTrip(n, 8);
  }
}
