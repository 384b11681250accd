/** Bytes and disk blocks: the 32-bit little-endian words and the bits packed in them. */
module Blocks {

  type Byte = x: nat | x < 0x100

  const BSIZE: nat := 512
  const WORDS: nat := 128            // 32-bit words in a block
  const BPB: nat := 4096             // bitmap bits in a block
  const U32: nat := 0x1_0000_0000

  type Word = x: nat | x < U32

  type Block = b: seq<Byte> | |b| == BSIZE witness seq(BSIZE, _ => 0)

  function ZeroBlock(): (b: Block)
    ensures forall i :: 0 <= i < BSIZE ==> b[i] == 0
  {
    seq(BSIZE, _ => 0)
  }

  // ----- words

  /** Byte k of a little-endian word. */
  function WordByte(w: nat, k: nat): Byte {
    if k == 0 then w % 0x100 else WordByte(w / 0x100, k - 1)
  }

  function JoinBytes(b0: Byte, b1: Byte, b2: Byte, b3: Byte): Word {
    b0 + 0x100 * b1 + 0x1_0000 * b2 + 0x100_0000 * b3
  }

  function GetWord(b: Block, i: nat): Word
    requires i < WORDS
  {
    JoinBytes(b[4*i], b[4*i+1], b[4*i+2], b[4*i+3])
  }

  function SetWord(b: Block, i: nat, w: Word): Block
    requires i < WORDS
  {
    b[4*i := WordByte(w, 0)][4*i+1 := WordByte(w, 1)][4*i+2 := WordByte(w, 2)][4*i+3 := WordByte(w, 3)]
  }

  lemma DivMod256(w: nat)
    ensures w == 0x100 * (w / 0x100) + w % 0x100 && w % 0x100 < 0x100
  {}

  lemma SplitJoin(w: Word)
    ensures JoinBytes(WordByte(w, 0), WordByte(w, 1), WordByte(w, 2), WordByte(w, 3)) == w
  {
    var a := w / 0x100;
    var b := a / 0x100;
    var c := b / 0x100;
    DivMod256(w); DivMod256(a); DivMod256(b); DivMod256(c);
    assert c / 0x100 == 0;
    assert WordByte(w, 1) == WordByte(a, 0);
    assert WordByte(w, 2) == WordByte(a, 1) == WordByte(b, 0);
    assert WordByte(w, 3) == WordByte(a, 2) == WordByte(b, 1) == WordByte(c, 0);
  }

  /** A stored word reads back, and no other word of the block changes. */
  lemma GetSetWord(b: Block, i: nat, w: Word, j: nat)
    requires i < WORDS && j < WORDS
    ensures GetWord(SetWord(b, i, w), j) == if i == j then w else GetWord(b, j)
  {
    hide WordByte, JoinBytes;
    SplitJoin(w);
  }

  lemma ZeroBlockWord(i: nat)
    requires i < WORDS
    ensures GetWord(ZeroBlock(), i) == 0
  {}

  // ----- bits

  /** (x & (1 << k)) != 0 */
  predicate Bit(x: nat, k: nat) {
    if k == 0 then x % 2 == 1 else Bit(x / 2, k - 1)
  }

  /** x | (1 << k) */
  function OrBit(x: nat, k: nat): nat {
    if k == 0 then (if x % 2 == 1 then x else x + 1) else 2 * OrBit(x / 2, k - 1) + x % 2
  }

  /** x & ~(1 << k) */
  function AndNotBit(x: nat, k: nat): nat {
    if k == 0 then (if x % 2 == 1 then x - 1 else x) else 2 * AndNotBit(x / 2, k - 1) + x % 2
  }

  function Pow2(k: nat): nat {
    if k == 0 then 1 else 2 * Pow2(k - 1)
  }

  lemma Halves(x: nat)
    ensures x == 2 * (x / 2) + x % 2 && x % 2 < 2
  {}

  lemma HalfOf(y: nat, b: nat)
    requires b < 2
    ensures (2 * y + b) / 2 == y && (2 * y + b) % 2 == b
  {}

  /** Setting or clearing bit j decides bit j and leaves every other bit alone. */
  lemma {:induction false} BitOps(x: nat, j: nat, k: nat)
    ensures Bit(OrBit(x, j), k) <==> j == k || Bit(x, k)
    ensures Bit(AndNotBit(x, j), k) <==> j != k && Bit(x, k)
  {
    Halves(x);
    if j == 0 {
      HalfOf(x / 2, 0);
      HalfOf(x / 2, 1);
    } else {
      HalfOf(OrBit(x / 2, j - 1), x % 2);
      HalfOf(AndNotBit(x / 2, j - 1), x % 2);
      if k > 0 { BitOps(x / 2, j - 1, k - 1); }
    }
  }

  lemma {:induction false} BitOpsBound(x: nat, k: nat, width: nat)
    requires k < width && x < Pow2(width)
    ensures OrBit(x, k) < Pow2(width) && AndNotBit(x, k) <= x
  {
    Halves(x);
    var half := Pow2(width - 1);
    assert Pow2(width) == 2 * half;
    assert x / 2 <= half - 1;
    if k > 0 {
      BitOpsBound(x / 2, k - 1, width - 1);
      assert OrBit(x, k) == 2 * OrBit(x / 2, k - 1) + x % 2;
      assert AndNotBit(x, k) == 2 * AndNotBit(x / 2, k - 1) + x % 2;
    }
  }

  lemma {:induction false} NoBits(k: nat)
    ensures !Bit(0, k)
  {
    if k > 0 { NoBits(k - 1); }
  }

  lemma ByteWidth()
    ensures Pow2(8) == 0x100
  {
    assert Pow2(4) == 16;
  }

  function ByteOr(x: Byte, k: nat): Byte
    requires k < 8
  {
    ByteWidth(); BitOpsBound(x, k, 8);
    OrBit(x, k)
  }

  function ByteAndNot(x: Byte, k: nat): Byte
    requires k < 8
  {
    ByteWidth(); BitOpsBound(x, k, 8);
    AndNotBit(x, k)
  }

  predicate BitSet(bytes: seq<Byte>, i: nat)
    requires i / 8 < |bytes|
  {
    Bit(bytes[i / 8], i % 8)
  }

  function SetBit(bytes: seq<Byte>, i: nat): (r: seq<Byte>)
    requires i / 8 < |bytes|
    ensures |r| == |bytes|
  {
    bytes[i / 8 := ByteOr(bytes[i / 8], i % 8)]
  }

  function ClearBit(bytes: seq<Byte>, i: nat): (r: seq<Byte>)
    requires i / 8 < |bytes|
    ensures |r| == |bytes|
  {
    bytes[i / 8 := ByteAndNot(bytes[i / 8], i % 8)]
  }

  lemma SameBit(i: nat, j: nat)
    ensures i == j <==> i / 8 == j / 8 && i % 8 == j % 8
  {
    assert i == 8 * (i / 8) + i % 8;
    assert j == 8 * (j / 8) + j % 8;
  }

  /** Setting or clearing one bit of a byte string changes that bit and no other. */
  lemma BitUpdate(bytes: seq<Byte>, i: nat, j: nat)
    requires i / 8 < |bytes| && j / 8 < |bytes|
    ensures BitSet(SetBit(bytes, i), j) <==> i == j || BitSet(bytes, j)
    ensures BitSet(ClearBit(bytes, i), j) <==> i != j && BitSet(bytes, j)
  {
    hide Bit, OrBit, AndNotBit;
    SameBit(i, j);
    if i / 8 == j / 8 {
      BitOps(bytes[i / 8], i % 8, j % 8);
    }
  }
}
