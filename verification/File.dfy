/** filewrite (file.c): a write cut into chunks, one log operation per chunk. */
module File {
  import opened Blocks
  import opened FileSystem
  import Bitmap
  import Log

  /** ((LOGSIZE-1-1-2) / 2) * 512 */
  const CHUNK := (Log.LOGSIZE - 1 - 1 - 2) / 2 * 512

  lemma SpliceTwice(c: seq<Byte>, off: nat, a: seq<Byte>, b: seq<Byte>)
    requires off <= |c|
    ensures off + |a| <= |Splice(c, off, a)|
    ensures Splice(Splice(c, off, a), off + |a|, b) == Splice(c, off, a + b)
  {
    var s := Splice(c, off, a);
    assert s[..off + |a|] == c[..off] + a;
    if off + |a| + |b| < |c| {
      assert s[off + |a| + |b|..] == c[off + |a| + |b|..];
    }
  }

  /** Consecutive writes compose to one write. */
  lemma SplicedTwice(b0: Disk, i0: seq<Inode>, b1: Disk, i1: seq<Inode>, b2: Disk, i2: seq<Inode>,
                     n: nat, off: nat, s: seq<Byte>, t: seq<Byte>)
    requires Typed(b0, i0) && Tight(b0, i0) && Typed(b1, i1) && Tight(b1, i1) && Typed(b2, i2) && Tight(b2, i2)
    requires Spliced(b0, i0, b1, i1, n, off, s) && Spliced(b1, i1, b2, i2, n, off + |s|, t)
    ensures Spliced(b0, i0, b2, i2, n, off, s + t)
  {
    SpliceTwice(Content(b0, i0[n]), off, s, t);
  }

  lemma SplicedNothing(blocks: Disk, inodes: seq<Inode>, n: nat, off: nat)
    requires Typed(blocks, inodes) && Tight(blocks, inodes) && n < |inodes| && off <= inodes[n].size
    ensures Spliced(blocks, inodes, blocks, inodes, n, off, [])
  {
    var c := Content(blocks, inodes[n]);
    assert c == c[..off] + c[off..];
  }

  /** The data blocks a write of len bytes at off touches. */
  function Touched(off: nat, len: nat): (k: nat)
    ensures len <= CHUNK ==> k <= 14
    ensures k * BSIZE >= len
  {
    if len == 0 then 0 else Span(off + len) - off / BSIZE
  }

  /**
   What a write of len bytes at off to a file of the given size logs: its data blocks; a bitmap block if it needs a
   new block, and the indirect block if that is beyond the direct ones; the inode's block if the file grows.
   */
  function LogCount(size: nat, off: nat, len: nat): (k: nat) {
    if len == 0 then 0
    else
      Touched(off, len) + (if Span(off + len) <= Span(size) then 0 else if Span(off + len) <= NDIRECT then 1 else 2)
      + if off + len > size then 1 else 0
  }

  /** With one bitmap block, exactly that many. */
  lemma LogExact(sb: Super, blocks: Disk, inodes: seq<Inode>, owner: map<nat, Slot>, l: set<nat>,
                 n: nat, off: nat, len: nat, size: nat)
    requires Owned(sb, blocks, inodes, owner, {}) && Tight(blocks, inodes) && n < |inodes| && sb.size <= Bitmap.BPB
    requires InodesFit(sb, |inodes|) && off <= size && inodes[n].size == Max(size, off + len)
    requires WriteLogs(sb, {}, l, blocks, inodes, n, off, len, size)
    ensures |l| == LogCount(size, off, len)
  {
    hide LoggedOk, DataBlocks, OwnersRefer, RefsOwned, BitmapOk, Extent, Ref, Span, IsBitmapBlock;
    SpanMax(size, off, len);
    var c0, c1, e0 := off / BSIZE, EndBlock(off, len), Span(size);
    var ib := if len > 0 && off + len > size then {sb.inodestart + n / IPB} else {};
    var l1 :| l == l1 + ib && LoggedOk(sb, {}, l1, blocks, inodes[n], c0, c1, e0) == true;
    var d := DataBlocks(blocks, inodes[n], c0, c1);
    var bm, ind := BitmapPart(sb, c1, e0), IndirectPart(inodes[n], c1, e0);
    LogSet(sb, l1, blocks, inodes[n], c0, c1, e0);
    CountData(sb, blocks, inodes, owner, n, Span(inodes[n].size), c0, c1);
    PartsApart(sb, blocks, inodes, owner, n, c0, c1, e0, ib);
    FourParts(d, bm, ind, ib);
  }

  /** The bitmap block, if file blocks beyond the first e0 are new. */
  function BitmapPart(sb: Super, c1: nat, e0: nat): (bs: set<nat>) {
    if c1 > e0 then {sb.bmapstart} else {}
  }

  /** The indirect block, if some of them are beyond the direct blocks. */
  function IndirectPart(ip: Inode, c1: nat, e0: nat): (bs: set<nat>)
    requires |ip.addrs| == 13
  {
    if c1 > e0 && c1 > NDIRECT then {ip.addrs[12]} else {}
  }

  lemma LogSet(sb: Super, l: set<nat>, blocks: Disk, ip: Inode, c0: nat, c1: nat, e0: nat)
    requires ValidSuper(sb) && |ip.addrs| == 13 && ip.addrs[12] < |blocks| && c1 <= MAXFILE && sb.size <= Bitmap.BPB
    requires LoggedOk(sb, {}, l, blocks, ip, c0, c1, e0)
    ensures l == DataBlocks(blocks, ip, c0, c1) + BitmapPart(sb, c1, e0) + IndirectPart(ip, c1, e0)
  {
    assert forall b :: IsBitmapBlock(sb, b) ==> b == sb.bmapstart;
  }

  lemma SpanMax(size: nat, off: nat, len: nat)
    requires off <= size
    ensures off / BSIZE <= EndBlock(off, len) <= Span(Max(size, off + len))
    ensures Max(size, off + len) <= MAXFILE * BSIZE ==> EndBlock(off, len) <= MAXFILE
    ensures len == 0 ==> EndBlock(off, len) <= Span(size)
  {
  }

  /** Data and indirect blocks lie beyond the bitmap, and are different. */
  lemma DataHigh(sb: Super, blocks: Disk, inodes: seq<Inode>, owner: map<nat, Slot>, n: nat, c0: nat, c1: nat, e0: nat)
    requires Owned(sb, blocks, inodes, owner, {}) && Tight(blocks, inodes) && n < |inodes| && c1 <= Span(inodes[n].size)
    ensures c1 <= MAXFILE
    ensures forall b :: b in DataBlocks(blocks, inodes[n], c0, c1) ==> b > sb.bmapstart && b != inodes[n].addrs[12]
    ensures forall b :: b in IndirectPart(inodes[n], c1, e0) ==> b > sb.bmapstart
  {
    forall c | c0 <= c < c1
      ensures sb.bmapstart < Ref(blocks, inodes[n], SlotOf(c)) != inodes[n].addrs[12]
    {
      DataApart(sb, blocks, inodes, owner, n, c);
    }
    if c1 > NDIRECT {
      IndirectOwned(sb, blocks, inodes, owner, {}, n);
    }
  }

  lemma PartsApart(sb: Super, blocks: Disk, inodes: seq<Inode>, owner: map<nat, Slot>, n: nat,
                   c0: nat, c1: nat, e0: nat, ib: set<nat>)
    requires Owned(sb, blocks, inodes, owner, {}) && Tight(blocks, inodes) && n < |inodes| && c1 <= Span(inodes[n].size)
    requires InodesFit(sb, |inodes|) && ib <= {sb.inodestart + n / IPB} && c1 <= MAXFILE
    ensures var d, bm, ind := DataBlocks(blocks, inodes[n], c0, c1), BitmapPart(sb, c1, e0),
        IndirectPart(inodes[n], c1, e0);
            d !! bm && d !! ind && d !! ib && bm !! ind && bm !! ib && ind !! ib
  {
    DataHigh(sb, blocks, inodes, owner, n, c0, c1, e0);
    hide OwnersRefer, RefsOwned, BitmapOk, Extent, Ref, DataBlocks;
  }

  lemma DataApart(sb: Super, blocks: Disk, inodes: seq<Inode>, owner: map<nat, Slot>, n: nat, c: nat)
    requires Owned(sb, blocks, inodes, owner, {}) && Tight(blocks, inodes) && n < |inodes| && c < Span(inodes[n].size)
    ensures c < MAXFILE && sb.nmeta <= Ref(blocks, inodes[n], SlotOf(c))
    ensures Ref(blocks, inodes[n], SlotOf(c)) != inodes[n].addrs[12]
  {
    assert InTable(inodes, Slot(n, SlotOf(c)));
    assert InTable(inodes, Slot(n, 12));
    assert Ref(blocks, inodes[n], 12) == inodes[n].addrs[12];
  }

  lemma FourParts(d: set<nat>, bm: set<nat>, ind: set<nat>, ib: set<nat>)
    requires d !! bm && d !! ind && d !! ib && bm !! ind && bm !! ib && ind !! ib
    ensures |d + bm + ind + ib| == |d| + |bm| + |ind| + |ib|
  {
  }

  /**
   A write stays within the MAXOPBLOCKS that begin_op reserves iff it touches at most 10 blocks in place, 9 if the
   file grows within its last block, 8 if it gets new direct blocks, 7 if it gets blocks beyond those.
   */
  lemma ReservationExact(sb: Super, blocks: Disk, inodes: seq<Inode>, owner: map<nat, Slot>, l: set<nat>,
                         n: nat, off: nat, len: nat, size: nat)
    requires Owned(sb, blocks, inodes, owner, {}) && Tight(blocks, inodes) && n < |inodes| && sb.size <= Bitmap.BPB
    requires InodesFit(sb, |inodes|) && off <= size && inodes[n].size == Max(size, off + len)
    requires WriteLogs(sb, {}, l, blocks, inodes, n, off, len, size)
    ensures |l| <= 10 <==>
            Touched(off, len) <= if off + len <= size then 10 else if Span(off + len) == Span(size) then 9
                                 else if Span(off + len) <= NDIRECT then 8 else 7
  {
    LogExact(sb, blocks, inodes, owner, l, n, off, len, size);
  }

  /** A write that does not: overwriting 11 blocks in place always succeeds and always logs 11 blocks. */
  method ElevenBlocks(fs: FileSys, n: nat, src: seq<Byte>) returns (r: Result)
    requires fs.Valid() && n < |fs.inodes| && fs.inodes[n].size >= |src| == 11 * BSIZE && fs.sb.size <= Bitmap.BPB
    modifies fs`blocks, fs`inodes, fs`owner, fs`logged
    ensures r.Wrote? && |fs.logged| == 11
  {
    hide OwnersRefer, RefsOwned, BitmapOk, Extent, WriteLogs;
    ghost var size := fs.inodes[n].size;
    ghost var b0, i0 := fs.blocks, fs.inodes;
    fs.logged := {};
    r := fs.Writei(n, src, 0);
    SizeAfter(b0, i0, fs.blocks, fs.inodes, n, 0, src);
    LogExact(fs.sb, fs.blocks, fs.inodes, fs.owner, fs.logged, n, 0, |src|, size);
  }

  /** A chunk logs at most 17 blocks; that many, for one that is not aligned and fills blocks from 1 on. */
  lemma ChunkLogBound(size: nat, off: nat, len: nat)
    requires len <= CHUNK
    ensures LogCount(size, off, len) <= 17
    ensures LogCount(1, 1, CHUNK) == 17
  {
  }

  datatype WriteResult = Written(n: nat) | Failed | Panicked

  /** How much of a write that does not fit is written: whole chunks only. */
  function Kept(off: nat): (k: nat)
    requires off <= MAXFILE * BSIZE
  {
    (MAXFILE * BSIZE - off) / CHUNK * CHUNK
  }

  /** The first i bytes of src have been written in whole chunks, from off on; together they are one splice. */
  ghost predicate Partial(b0: Disk, i0: seq<Inode>, blocks: Disk, inodes: seq<Inode>, n: nat, off: nat, src: seq<Byte>,
                          i: nat) {
    && Typed(b0, i0) && Tight(b0, i0) && Typed(blocks, inodes) && Tight(blocks, inodes) && n < |i0| == |inodes|
    && i <= |src| && (i < |src| ==> i % CHUNK == 0)
    && (i == 0 ==> blocks == b0 && inodes == i0)
    && (i > 0 ==> off <= i0[n].size && off + i <= MAXFILE * BSIZE)
    && (off <= i0[n].size ==> Spliced(b0, i0, blocks, inodes, n, off, src[..i]))
  }

  lemma PartialStarts(blocks: Disk, inodes: seq<Inode>, n: nat, off: nat, src: seq<Byte>)
    requires Typed(blocks, inodes) && Tight(blocks, inodes) && n < |inodes|
    ensures Partial(blocks, inodes, blocks, inodes, n, off, src, 0)
  {
    if off <= inodes[n].size {
      SplicedNothing(blocks, inodes, n, off);
    }
  }

  /** The next chunk is accepted: it continues the splice. */
  lemma PartialStep(b0: Disk, i0: seq<Inode>, b1: Disk, i1: seq<Inode>, blocks: Disk, inodes: seq<Inode>,
                    n: nat, off: nat, src: seq<Byte>, i: nat, m: nat)
    requires Partial(b0, i0, b1, i1, n, off, src, i) == true && i < |src| && m == Next(|src|, i)
    requires off + i <= i1[n].size && off + i + m <= MAXFILE * BSIZE
    requires Typed(blocks, inodes) && Tight(blocks, inodes)
    requires Spliced(b1, i1, blocks, inodes, n, off + i, src[i..i + m])
    ensures Partial(b0, i0, blocks, inodes, n, off, src, i + m) == true
  {
    hide Tight, Typed, Spliced, Splice, Content;
    NextMultiple(|src|, i);
    if off <= i0[n].size {
      assert |src[..i]| == i;
      SplicedTwice(b0, i0, b1, i1, blocks, inodes, n, off, src[..i], src[i..i + m]);
      assert src[..i] + src[i..i + m] == src[..i + m];
    }
  }

  /** The next chunk is refused: what has been written is all that Kept allows. */
  lemma PartialRefused(b0: Disk, i0: seq<Inode>, blocks: Disk, inodes: seq<Inode>, n: nat, off: nat, src: seq<Byte>,
                       i: nat)
    requires Partial(b0, i0, blocks, inodes, n, off, src, i) == true && i < |src|
    requires off + i > inodes[n].size || off + i + Next(|src|, i) > MAXFILE * BSIZE
    ensures off > i0[n].size ==> i == 0
    ensures off <= i0[n].size ==> off + |src| > MAXFILE * BSIZE && i == Kept(off)
  {
    if off <= i0[n].size {
      assert |Content(blocks, inodes[n])| == inodes[n].size;
      assert |Splice(Content(b0, i0[n]), off, src[..i])| >= off + i;
      RoundDown(MAXFILE * BSIZE - off, i);
    }
  }

  lemma NextMultiple(len: nat, i: nat)
    requires i < len && i % CHUNK == 0
    ensures 0 < Next(len, i) <= len - i && (i + Next(len, i) < len ==> (i + Next(len, i)) % CHUNK == 0)
  {
    assert CHUNK == 6656;
  }

  lemma RoundDown(a: nat, i: nat)
    requires i % CHUNK == 0 && i <= a < i + CHUNK
    ensures a / CHUNK * CHUNK == i
  {
    var q := i / CHUNK;
    assert CHUNK == 6656 && i == q * 6656;
    assert a / 6656 == q;
  }

  /** The size of the chunk at i. */
  function Next(len: nat, i: nat): (m: nat)
    requires i < len
  {
    if len - i > CHUNK then CHUNK else len - i
  }

  /** What chunk k of a write of len bytes at off logs, the file having had the given size before the first one. */
  function ChunkLogs(size: nat, off: nat, len: nat, k: nat): (n: nat) {
    var i := k * CHUNK;
    if i >= len then 0 else LogCount(if k == 0 then size else Max(size, off + i), off + i, Next(len, i))
  }

  lemma ChunkCount(size: nat, off: nat, len: nat, k: nat)
    requires k * CHUNK < len
    ensures ChunkLogs(size, off, len, k) ==
            LogCount(if k * CHUNK == 0 then size else Max(size, off + k * CHUNK), off + k * CHUNK, Next(len, k * CHUNK))
  {
  }

  /** The number of chunks of a write. */
  function Chunks(len: nat): (k: nat)
    ensures len <= 6656 * k < len + 6656
  {
    (len + CHUNK - 1) / CHUNK
  }

  lemma NoChunks()
    ensures Chunks(0) == 0
  {
  }

  lemma ChunkStep(len: nat, i: nat, k: nat, m: nat)
    requires i < len && i == k * CHUNK && m == Next(len, i)
    ensures i + m <= len && (i + m < len ==> i + m == (k + 1) * CHUNK) && (i + m == len ==> k + 1 == Chunks(len))
  {
    assert CHUNK == 6656;
  }

  lemma PartialShape(b0: Disk, i0: seq<Inode>, blocks: Disk, inodes: seq<Inode>, n: nat, off: nat, src: seq<Byte>,
                     i: nat)
    requires Partial(b0, i0, blocks, inodes, n, off, src, i)
    ensures n < |i0| == |inodes|
  {
  }

  /** An open file: an inode of the file system and an offset. */
  class OpenFile {
    const fs: FileSys
    const ip: nat
    var off: nat

    constructor (fs: FileSys, ip: nat)
      ensures this.fs == fs && this.ip == ip && off == 0
    {
      this.fs, this.ip, off := fs, ip, 0;
    }

    /**
     Write src at the file's offset. It succeeds iff all of src fits; otherwise the chunks before the
     one that does not fit stay written. Either way the chunks add up to one splice.
     Each chunk is one log operation; `ops` lists what each logged.
     */
    method Filewrite(src: seq<Byte>) returns (r: WriteResult, ghost ops: seq<set<nat>>)
      requires fs.Valid() && ip < |fs.inodes| && |src| < 0x8000_0000 && off < 0x8000_0000
      modifies this, fs`blocks, fs`inodes, fs`owner, fs`logged
      ensures !r.Panicked? ==> fs.Valid() && ip < |fs.inodes|
      ensures !r.Panicked? ==>
        (r.Failed? <==> |src| > 0 && (old(off) > old(fs.inodes[ip].size) || old(off) + |src| > 140 * 512))
      ensures !r.Panicked? ==>
        && old(off) <= off
        && Partial(old(fs.blocks), old(fs.inodes), fs.blocks, fs.inodes, ip, old(off), src, off - old(off)) == true
      ensures r.Written? ==> r.n == |src| && off == old(off) + |src| && |ops| == Chunks(|src|)
      ensures r.Written? && |src| > 0 ==>
        Spliced(old(fs.blocks), old(fs.inodes), fs.blocks, fs.inodes, ip, old(off), src) == true
      ensures r.Failed? ==>
        off == old(off) + if old(off) > old(fs.inodes[ip].size) then 0 else (140 * 512 - old(off)) / 6656 * 6656
      ensures fs.sb.size <= Bitmap.BPB ==> forall k :: 0 <= k < |ops| ==>
        |ops[k]| == ChunkLogs(old(fs.inodes[ip].size), old(off), |src|, k)
      ensures r.Panicked? ==> AllUsed(fs.sb, fs.blocks) == true
    {
      hide OwnersRefer, RefsOwned, BitmapOk, Extent, Content, Spliced, ChunkLogs, InodesFit, Chunks;
      assert |src| == 0 ==> Chunks(|src|) == 0 by {
        NoChunks();
      }
      ghost var b0, i0, off0 := fs.blocks, fs.inodes, off;
      ghost var size := fs.inodes[ip].size;
      PartialStarts(b0, i0, ip, off, src);
      var i := 0;
      ops := [];
      while i < |src|
        invariant 0 <= i <= |src| && off == off0 + i && fs.Valid()
        invariant Partial(b0, i0, fs.blocks, fs.inodes, ip, off0, src, i) == true
        invariant i < |src| ==> i == |ops| * CHUNK
        invariant i == |src| ==> |ops| == Chunks(|src|)
        invariant fs.inodes[ip].size == if i == 0 then size else Max(size, off)
        invariant fs.sb.size <= Bitmap.BPB ==>
          forall k :: 0 <= k < |ops| ==> |ops[k]| == ChunkLogs(size, off0, |src|, k)
      {
        var w, l := WriteChunk(src, i, b0, i0, off0, size, |ops|);
        if w.OutOfBlocks? {
          r := Panicked;
          return;
        }
        if w.Refused? {
          PartialRefused(b0, i0, fs.blocks, fs.inodes, ip, off0, src, i);
          break;
        }
        ChunkStep(|src|, i, |ops|, w.n);
        ops := ops + [l];
        off := off + w.n;
        i := i + w.n;
      }
      assert i == |src| ==> src[..i] == src;
      r := if i == |src| then Written(|src|) else Failed;
    }

    /** One chunk, as one log operation. */
    method WriteChunk(src: seq<Byte>, i: nat, ghost b0: Disk, ghost i0: seq<Inode>, ghost off0: nat, ghost size: nat,
                      ghost k: nat)
      returns (w: Result, ghost l: set<nat>)
      requires i == k * CHUNK && ip < |fs.inodes| && fs.inodes[ip].size == if i == 0 then size else Max(size, off)
      requires fs.Valid() && i < |src| < 0x8000_0000 && off == off0 + i < 0x1_0000_0000
      requires Partial(b0, i0, fs.blocks, fs.inodes, ip, off0, src, i) == true
      modifies fs`blocks, fs`inodes, fs`owner, fs`logged
      ensures w.Refused? ==> fs.blocks == old(fs.blocks) && fs.inodes == old(fs.inodes) && fs.Valid()
      ensures w.Refused? ==> off > fs.inodes[ip].size || off + Next(|src|, i) > MAXFILE * BSIZE
      ensures w.Wrote? ==> w.n == Next(|src|, i) && fs.Valid()
      ensures w.Wrote? ==> Partial(b0, i0, fs.blocks, fs.inodes, ip, off0, src, i + w.n) == true
      ensures w.Wrote? ==> fs.inodes[ip].size == Max(size, off + w.n)
      ensures w.Wrote? && fs.sb.size <= Bitmap.BPB ==> |l| == ChunkLogs(size, off0, |src|, k)
      ensures w.OutOfBlocks? ==> AllUsed(fs.sb, fs.blocks) == true
    {
      hide OwnersRefer, RefsOwned, BitmapOk, Extent, WriteLogs, LogCount, InodesFit, Content, Spliced, Partial,
          ChunkLogs, AllUsed;
      ChunkCount(size, off0, |src|, k);
      PartialShape(b0, i0, fs.blocks, fs.inodes, ip, off0, src, i);
      var n1 := if |src| - i > CHUNK then CHUNK else |src| - i;
      ghost var b1, i1 := fs.blocks, fs.inodes;
      fs.logged := {};
      w := fs.Writei(ip, src[i..i + n1], off);
      l := fs.logged;
      if w.Wrote? {
        PartialStep(b0, i0, b1, i1, fs.blocks, fs.inodes, ip, off0, src, i, n1);
        SizeAfter(b1, i1, fs.blocks, fs.inodes, ip, off, src[i..i + n1]);
        if fs.sb.size <= Bitmap.BPB {
          LogExact(fs.sb, fs.blocks, fs.inodes, fs.owner, l, ip, off, n1, i1[ip].size);
        }
      }
    }
  }

  // Any sequence of writes and truncations

  datatype Op = Write(n: nat, src: seq<Byte>, off: nat) | Truncate(n: nat)

  /** The file system as an array of byte sequences. */
  ghost function Files(blocks: Disk, inodes: seq<Inode>): (fs: seq<seq<Byte>>)
    requires Typed(blocks, inodes) && Tight(blocks, inodes)
    ensures |fs| == |inodes|
  {
    seq(|inodes|, n requires 0 <= n < |inodes| => Content(blocks, inodes[n]))
  }

  /** What an operation means for such an array. */
  function Apply(fs: seq<seq<Byte>>, op: Op): (r: seq<seq<Byte>>)
    ensures |r| == |fs|
  {
    match op
    case Write(n, src, off) =>
      if n < |fs| && off <= |fs[n]| && off + |src| <= 140 * 512 then fs[n := Splice(fs[n], off, src)] else fs
    case Truncate(n) => if n < |fs| then fs[n := []] else fs
  }

  function ApplyAll(fs: seq<seq<Byte>>, ops: seq<Op>): (r: seq<seq<Byte>>) {
    if ops == [] then fs else Apply(ApplyAll(fs, ops[..|ops| - 1]), ops[|ops| - 1])
  }

  lemma ApplyStep(fs: seq<seq<Byte>>, ops: seq<Op>, k: nat)
    requires k < |ops|
    ensures ApplyAll(fs, ops[..k + 1]) == Apply(ApplyAll(fs, ops[..k]), ops[k])
  {
    assert ops[..k + 1][..k] == ops[..k];
  }

  lemma WriteFiles(b0: Disk, i0: seq<Inode>, blocks: Disk, inodes: seq<Inode>, n: nat, src: seq<Byte>, off: nat)
    requires Typed(b0, i0) && Tight(b0, i0) && Typed(blocks, inodes) && Tight(blocks, inodes)
    requires Spliced(b0, i0, blocks, inodes, n, off, src) && off + |src| <= MAXFILE * BSIZE
    ensures Files(blocks, inodes) == Apply(Files(b0, i0), Write(n, src, off))
  {
  }

  lemma TruncateFiles(b0: Disk, i0: seq<Inode>, blocks: Disk, inodes: seq<Inode>, n: nat)
    requires Typed(b0, i0) && Tight(b0, i0) && Typed(blocks, inodes) && Tight(blocks, inodes) && n < |i0| == |inodes|
    requires Content(blocks, inodes[n]) == []
    requires forall m :: 0 <= m < |i0| && m != n ==> Content(blocks, inodes[m]) == Content(b0, i0[m])
    ensures Files(blocks, inodes) == Apply(Files(b0, i0), Truncate(n))
  {
  }

  /** One operation keeps the invariant and means what Apply says; false is balloc's panic. */
  method Perform(fs: FileSys, op: Op) returns (ok: bool)
    requires fs.Valid() && op.n < |fs.inodes|
    requires op.Write? ==> |op.src| < 0x8000_0000 && op.off < 0x8000_0000
    modifies fs`blocks, fs`inodes, fs`owner, fs`logged
    ensures ok ==> fs.Valid() == true && Files(fs.blocks, fs.inodes) == Apply(old(Files(fs.blocks, fs.inodes)), op)
    ensures !ok ==> AllUsed(fs.sb, fs.blocks) == true
  {
    hide OwnersRefer, RefsOwned, BitmapOk, Extent, WriteLogs, Content, Splice;
    ghost var b0, i0 := fs.blocks, fs.inodes;
    match op
    case Write(n, src, off) =>
      var w := fs.Writei(n, src, off);
      if w.OutOfBlocks? {
        return false;
      }
      SizeOf(b0, i0[n]);
      if w.Wrote? {
        WriteFiles(b0, i0, fs.blocks, fs.inodes, n, src, off);
      }
      return true;
    case Truncate(n) =>
      fs.Itrunc(n);
      TruncateFiles(b0, i0, fs.blocks, fs.inodes, n);
      return true;
  }

  lemma SizeAfter(b0: Disk, i0: seq<Inode>, blocks: Disk, inodes: seq<Inode>, n: nat, off: nat, src: seq<Byte>)
    requires Typed(b0, i0) && Tight(b0, i0) && Typed(blocks, inodes) && Tight(blocks, inodes)
    requires Spliced(b0, i0, blocks, inodes, n, off, src)
    ensures n < |i0| == |inodes| && inodes[n].size == Max(i0[n].size, off + |src|)
  {
    SizeOf(b0, i0[n]);
    SizeOf(blocks, inodes[n]);
  }

  lemma SizeOf(blocks: Disk, ip: Inode)
    requires |ip.addrs| == 13 && ip.addrs[12] < |blocks| && ip.size <= MAXFILE * BSIZE
    ensures |Content(blocks, ip)| == ip.size
  {
  }

  /**
   From any mounted image, any sequence of writes and truncations is the same sequence on an array of byte
   sequences, and at the end the bitmap marks exactly the metadata and the blocks that one slot refers to.
   */
  method Run(fs: FileSys, ops: seq<Op>) returns (ok: bool)
    requires fs.Valid() && forall k :: 0 <= k < |ops| ==> ops[k].n < |fs.inodes|
    requires forall k :: 0 <= k < |ops| && ops[k].Write? ==> |ops[k].src| < 0x8000_0000 && ops[k].off < 0x8000_0000
    modifies fs`blocks, fs`inodes, fs`owner, fs`logged
    ensures ok ==> fs.Valid() == true && Files(fs.blocks, fs.inodes) == ApplyAll(old(Files(fs.blocks, fs.inodes)), ops)
    ensures !ok ==> AllUsed(fs.sb, fs.blocks) == true
    ensures ok ==> forall b :: 0 <= b < fs.sb.size ==>
      (Used(fs.sb, fs.blocks, b) <==> b < fs.sb.nmeta || HeldOnce(fs.blocks, fs.inodes, b))
  {
    hide OwnersRefer, RefsOwned, BitmapOk, Extent, Content, HeldOnce;
    ghost var f0 := Files(fs.blocks, fs.inodes);
    var k := 0;
    while k < |ops|
      invariant 0 <= k <= |ops| && fs.Valid() == true && |fs.inodes| == |old(fs.inodes)|
      invariant Files(fs.blocks, fs.inodes) == ApplyAll(f0, ops[..k])
    {
      ok := Perform(fs, ops[k]);
      if !ok {
        return;
      }
      ApplyStep(f0, ops, k);
      k := k + 1;
    }
    assert ops[..k] == ops;
    forall b | 0 <= b < fs.sb.size
      ensures Used(fs.sb, fs.blocks, b) <==> b < fs.sb.nmeta || HeldOnce(fs.blocks, fs.inodes, b)
    {
      OwnershipExact(fs.sb, fs.blocks, fs.inodes, fs.owner, b);
    }
    ok := true;
  }
}
