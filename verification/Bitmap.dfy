/** Bits of bytes, and a block as a bitmap of 4096 bits, as fs.c and mkfs.c address it. */
module Bitmap {
  import opened Blocks

  const BPB := 4096

  /** (x >> k) & 1. */
  predicate Bit(x: nat, k: nat) {
    if k == 0 then x % 2 == 1 else Bit(x / 2, k - 1)
  }

  /** x | (1 << k), or x & ~(1 << k). */
  function SetBit(x: nat, k: nat, v: bool): (r: nat) {
    if k == 0 then x / 2 * 2 + (if v then 1 else 0) else 2 * SetBit(x / 2, k - 1, v) + x % 2
  }

  lemma {:induction false} SetBitBits(x: nat, k: nat, v: bool, j: nat)
    ensures Bit(SetBit(x, k, v), j) == if j == k then v else Bit(x, j)
  {
    if k > 0 && j > 0 {
      SetBitBits(x / 2, k - 1, v, j - 1);
      assert SetBit(x, k, v) / 2 == SetBit(x / 2, k - 1, v);
    }
  }

  function Pow2(n: nat): (p: nat) {
    if n == 0 then 1 else 2 * Pow2(n - 1)
  }

  /** Bit k of a byte is the one worth 2^k. */
  lemma BitValue(x: nat, k: nat)
    requires k < 8
    ensures Bit(x, k) <==> x / [1, 2, 4, 8, 16, 32, 64, 128][k] % 2 == 1
  {
    assert Bit(x, k) == if k < 4 then LowBit(x, k) else LowBit(x / 16, k - 4) by {
      if k >= 4 {
        FourBits(x, k);
      }
      FewBits(if k < 4 then x else x / 16, if k < 4 then k else k - 4);
    }
  }

  predicate LowBit(x: nat, k: nat) {
    (if k == 0 then x else if k == 1 then x / 2 else if k == 2 then x / 4 else x / 8) % 2 == 1
  }

  lemma FewBits(x: nat, k: nat)
    requires k < 4
    ensures Bit(x, k) == LowBit(x, k)
  {
    assert Bit(x, 0) == LowBit(x, 0) && Bit(x, 1) == Bit(x / 2, 0);
    assert Bit(x, 2) == Bit(x / 2, 1) == Bit(x / 2 / 2, 0) && x / 2 / 2 == x / 4;
    assert Bit(x, 3) == Bit(x / 2, 2) == Bit(x / 2 / 2, 1) == Bit(x / 2 / 2 / 2, 0) && x / 2 / 2 / 2 == x / 8;
  }

  lemma FourBits(x: nat, k: nat)
    requires k >= 4
    ensures Bit(x, k) == Bit(x / 16, k - 4)
  {
    assert Bit(x, k) == Bit(x / 2, k - 1) == Bit(x / 2 / 2, k - 2);
    assert Bit(x / 2 / 2, k - 2) == Bit(x / 2 / 2 / 2, k - 3) == Bit(x / 2 / 2 / 2 / 2, k - 4);
    assert x / 2 / 2 / 2 / 2 == x / 16;
  }

  lemma {:induction false} SetBitBound(x: nat, k: nat, v: bool, n: nat)
    requires x < Pow2(n) && k < n
    ensures SetBit(x, k, v) < Pow2(n)
  {
    if k > 0 {
      SetBitBound(x / 2, k - 1, v, n - 1);
    }
  }

  function SetByteBit(x: Byte, k: nat, v: bool): (r: Byte)
    requires k < 8
  {
    assert Pow2(8) == 256 by {
      assert Pow2(4) == 16;
    }
    SetBitBound(x, k, v, 8);
    SetBit(x, k, v)
  }

  /** Bit i of a bitmap block. */
  predicate Get(b: Block, i: nat)
    requires i < BPB
  {
    Bit(b.bytes[i / 8], i % 8)
  }

  /** The bitmap block with bit i set or cleared; no other bit changes. */
  function Set(b: Block, i: nat, v: bool): (r: Block)
    requires i < BPB
    ensures Get(r, i) == v
    ensures forall j: nat {:trigger Get(r, j)} :: j < BPB && j != i ==> Get(r, j) == Get(b, j)
  {
    var r := Block(b.bytes[i / 8 := SetByteBit(b.bytes[i / 8], i % 8, v)]);
    SetBits(b, i, v, r);
    r
  }

  lemma SetBits(b: Block, i: nat, v: bool, r: Block)
    requires i < BPB && r == Block(b.bytes[i / 8 := SetByteBit(b.bytes[i / 8], i % 8, v)])
    ensures Get(r, i) == v
    ensures forall j: nat {:trigger Get(r, j)} :: j < BPB && j != i ==> Get(r, j) == Get(b, j)
  {
    SetBitBits(b.bytes[i / 8], i % 8, v, i % 8);
    forall j: nat | j < BPB && j != i
      ensures Get(r, j) == Get(b, j)
    {
      if j / 8 == i / 8 {
        assert j % 8 != i % 8;
        SetBitBits(b.bytes[i / 8], i % 8, v, j % 8);
      }
    }
  }

  lemma {:induction false} ZeroBit(k: nat)
    ensures !Bit(0, k)
  {
    if k > 0 {
      ZeroBit(k - 1);
    }
  }

  lemma ZeroBitmap(i: nat)
    requires i < BPB
    ensures !Get(ZeroBlock(), i)
  {
    ZeroBit(i % 8);
  }
}
