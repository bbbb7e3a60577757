/**
 Disk blocks: BSIZE bytes, and the little-endian 32-bit words that the log header
 and the indirect blocks store in them.
 */
module Blocks {

  const BSIZE := 512
  const WORDS := 128  // 32-bit words in a block (NINDIRECT)

  type Byte = x: int | 0 <= x < 256
  type Uint = x: int | 0 <= x < 0x1_0000_0000

  type Bytes = b: seq<Byte> | |b| == BSIZE witness seq(512, _ => 0)
  datatype Block = Block(bytes: Bytes)
  type Disk = seq<Block>

  function ZeroBlock(): (b: Block)
    ensures forall i :: 0 <= i < BSIZE ==> b.bytes[i] == 0
  {
    Block(seq(512, _ => 0))
  }

  /** The i-th little-endian word of a block. */
  function Word(b: Block, i: nat): (w: Uint)
    requires i < WORDS
  {
    var b0: int, b1: int, b2: int, b3: int := b.bytes[4 * i], b.bytes[4 * i + 1], b.bytes[4 * i + 2],
        b.bytes[4 * i + 3];
    b0 + 256 * b1 + 65536 * b2 + 16777216 * b3
  }

  /** The low byte of a word comes first. */
  lemma WordBytes(b: Block, i: nat)
    requires i < WORDS
    ensures Word(b, i) % 256 == b.bytes[4 * i] && Word(b, i) / 256 % 256 == b.bytes[4 * i + 1]
    ensures Word(b, i) / 65536 % 256 == b.bytes[4 * i + 2] && Word(b, i) / 16777216 == b.bytes[4 * i + 3]
  {
    var b0: int, b1: int, b2: int, b3: int := b.bytes[4 * i], b.bytes[4 * i + 1], b.bytes[4 * i + 2],
        b.bytes[4 * i + 3];
    var w := Word(b, i);
    assert w / 256 == b1 + 256 * b2 + 65536 * b3;
    assert w / 65536 == w / 256 / 256 == b2 + 256 * b3;
    assert w / 16777216 == w / 65536 / 256 == b3;
  }

  lemma BytesOfWord(w: Uint)
    ensures w == w % 256 + 256 * (w / 256 % 256) + 65536 * (w / 65536 % 256) + 16777216 * (w / 16777216)
    ensures 0 <= w / 16777216 < 256
  {
    assert w / 65536 == w / 256 / 256 && w / 16777216 == w / 65536 / 256;
  }

  /** Store `w` as the i-th word; every other word is untouched. */
  function SetWord(b: Block, i: nat, w: Uint): (r: Block)
    requires i < WORDS
    ensures Word(r, i) == w
    ensures forall j: nat {:trigger Word(r, j)} :: j < WORDS && j != i ==> Word(r, j) == Word(b, j)
  {
    BytesOfWord(w);
    var low := b.bytes[4 * i := w % 256][4 * i + 1 := w / 256 % 256];
    Block(low[4 * i + 2 := w / 65536 % 256][4 * i + 3 := w / 16777216])
  }

  lemma ZeroWord(i: nat)
    requires i < WORDS
    ensures Word(ZeroBlock(), i) == 0
  {
  }
}
