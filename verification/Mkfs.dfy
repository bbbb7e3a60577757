/** The image builder (mkfs.c). The bitmap is written only at the end, from the number of blocks used. */
module Mkfs {
  import opened Blocks
  import opened Common
  import opened FileSystem
  import Bitmap
  import Use = File
  import D = Directory

  /** The bitmap block whose first `used` bits are set. */
  function FirstBits(used: nat): (b: Block)
    requires used <= Bitmap.BPB
  {
    if used == 0 then ZeroBlock() else Bitmap.Set(FirstBits(used - 1), used - 1, true)
  }

  lemma {:induction false} FirstBitsGet(used: nat, i: nat)
    requires used <= Bitmap.BPB && i < Bitmap.BPB
    ensures Bitmap.Get(FirstBits(used), i) <==> i < used
  {
    if used == 0 {
      Bitmap.ZeroBitmap(i);
    } else {
      FirstBitsGet(used - 1, i);
    }
  }

  ghost predicate SmallDisk(sb: Super) {
    ValidSuper(sb) && sb.size < Bitmap.BPB
  }

  /** The image as it will be once the bitmap is written. */
  ghost function View(sb: Super, img: Disk, used: nat): (d: Disk)
    requires SmallDisk(sb) && |img| == sb.size && used <= sb.size
    ensures |d| == |img|
  {
    img[sb.bmapstart := FirstBits(used)]
  }

  lemma ViewUsed(sb: Super, img: Disk, used: nat, b: nat)
    requires SmallDisk(sb) && |img| == sb.size && used <= sb.size && b < sb.size
    ensures Used(sb, View(sb, img, used), b) <==> b < used
  {
    FirstBitsGet(used, b);
    assert b / Bitmap.BPB == 0 && b % Bitmap.BPB == b;
  }

  /** Using the next block is an allocation in that view. */
  lemma ViewTake(sb: Super, img: Disk, used: nat)
    requires SmallDisk(sb) && |img| == sb.size && sb.nmeta <= used < sb.size && img[used] == ZeroBlock()
    ensures !Used(sb, View(sb, img, used), used)
    ensures Take(sb, View(sb, img, used), used) == View(sb, img, used + 1)
  {
    ViewUsed(sb, img, used, used);
    assert FirstBits(used + 1) == Bitmap.Set(FirstBits(used), used, true);
    assert Take(sb, View(sb, img, used), used) == View(sb, img, used + 1);
  }

  /** Blocks from `used` on are zero. */
  ghost predicate Room(sb: Super, img: Disk, used: nat) {
    && SmallDisk(sb) && |img| == sb.size && sb.nmeta <= used <= sb.size
    && forall x :: used <= x < sb.size ==> img[x] == ZeroBlock()
  }

  /** Writing a block that is in use. */
  lemma ViewWrite(sb: Super, img: Disk, used: nat, x: nat, b: Block)
    requires Room(sb, img, used) && sb.nmeta <= x < used
    ensures Room(sb, img[x := b], used) == true
    ensures View(sb, img[x := b], used) == View(sb, img, used)[x := b]
  {
    assert View(sb, img[x := b], used) == View(sb, img, used)[x := b];
  }

  /** Entering a newly used block in the indirect block x. */
  lemma ViewEntry(sb: Super, img: Disk, used: nat, x: nat, j: nat)
    requires Room(sb, img, used) && sb.nmeta <= x < used < sb.size && j < NINDIRECT
    ensures var img' := img[x := SetWord(img[x], j, used)];
            && Room(sb, img', used + 1) == true
            && View(sb, img', used + 1) == PutEntry(sb, View(sb, img, used), x, j, used)
  {
    ViewTake(sb, img, used);
    ViewWrite(sb, img, used + 1, x, SetWord(img[x], j, used));
  }

  function Blank(kind: nat): (ip: Inode) {
    Inode(kind, 0, ZeroAddrs())
  }

  /** Blocks not yet used are zero, and the view satisfies the file system's invariant. */
  ghost predicate Good(sb: Super, img: Disk, inodes: seq<Inode>, used: nat, owner: map<nat, Slot>) {
    Room(sb, img, used) && Owned(sb, View(sb, img, used), inodes, owner, {})
  }

  lemma FreshImage(sb: Super, img: Disk, inodes: seq<Inode>)
    requires SmallDisk(sb) && |img| == sb.size && forall x :: sb.nmeta <= x < sb.size ==> img[x] == ZeroBlock()
    requires forall n :: 0 <= n < |inodes| ==> inodes[n] == Blank(0)
    ensures Good(sb, img, inodes, sb.nmeta, map[]) && Tight(View(sb, img, sb.nmeta), inodes)
  {
    forall b | 0 <= b < sb.size
      ensures Used(sb, View(sb, img, sb.nmeta), b) <==> b < sb.nmeta
    {
      ViewUsed(sb, img, sb.nmeta, b);
    }
  }

  /** Giving a blank inode a type changes no slot. */
  lemma Typing(sb: Super, blocks: Disk, inodes: seq<Inode>, owner: map<nat, Slot>, n: nat, kind: nat)
    requires Owned(sb, blocks, inodes, owner, {}) && Tight(blocks, inodes) && n < |inodes| && inodes[n] == Blank(0)
    ensures var inodes' := inodes[n := Blank(kind)];
            Owned(sb, blocks, inodes', owner, {}) && Tight(blocks, inodes')
  {
    var inodes' := inodes[n := Blank(kind)];
    OwnedFrame(sb, blocks, inodes, owner, {}, blocks, inodes');
    SameExtent(blocks, inodes, blocks, inodes', n, 0);
  }

  lemma AppendIsConcat(c: seq<Byte>, d: seq<Byte>)
    ensures Splice(c, |c|, d) == c + d
  {
  }

  /** The effect of mapping entry j of the indirect block, allocating what is missing. */
  ghost predicate IndirectDoes(sb: Super, blocks: Disk, inodes: seq<Inode>, owner: map<nat, Slot>,
                               blocks': Disk, inodes': seq<Inode>, owner': map<nat, Slot>, n: nat, j: nat, i: Uint,
                               a: Uint)
  {
    && ValidSuper(sb) && |blocks| == sb.size && n < |inodes| && j < NINDIRECT && |inodes[n].addrs| == 13 && i < sb.size
    && if inodes[n].addrs[12] != 0 then
         && i == inodes[n].addrs[12] && inodes' == inodes
         && if Word(blocks[i], j) != 0 then
              a == Word(blocks[i], j) && blocks' == blocks && owner' == owner
            else
              && a < sb.size && !Used(sb, blocks, a) && blocks' == PutEntry(sb, blocks, i, j, a)
              && owner' == owner[a := Slot(n, 13 + j)]
       else
         && !Used(sb, blocks, i) && a < sb.size && !Used(sb, Take(sb, blocks, i), a)
         && blocks' == PutEntry(sb, Take(sb, blocks, i), i, j, a) && inodes' == WithAddr(inodes, n, 12, i)
         && owner' == owner[i := Slot(n, 12)][a := Slot(n, 13 + j)]
  }

  ghost predicate MapDoes(sb: Super, blocks: Disk, inodes: seq<Inode>, owner: map<nat, Slot>,
                          blocks': Disk, inodes': seq<Inode>, owner': map<nat, Slot>, n: nat, bn: nat, i: Uint, a: Uint)
  {
    && ValidSuper(sb) && |blocks| == sb.size && n < |inodes| && bn < MAXFILE && |inodes[n].addrs| == 13
    && if bn >= NDIRECT then
         IndirectDoes(sb, blocks, inodes, owner, blocks', inodes', owner', n, bn - NDIRECT, i, a)
       else if inodes[n].addrs[bn] != 0 then
         a == inodes[n].addrs[bn] && blocks' == blocks && inodes' == inodes && owner' == owner
       else
         && i == 0 && a < sb.size && !Used(sb, blocks, a) && blocks' == Take(sb, blocks, a)
         && inodes' == WithAddr(inodes, n, bn, a) && owner' == owner[a := Slot(n, bn)]
  }

  /** mkfs maps blocks exactly as the kernel's bmap does. */
  lemma MapIsBmap(sb: Super, blocks: Disk, inodes: seq<Inode>, owner: map<nat, Slot>,
                  blocks': Disk, inodes': seq<Inode>, owner': map<nat, Slot>, n: nat, bn: nat, e: nat, i: Uint, a: Uint)
    requires Typed(blocks, inodes) && MapDoes(sb, blocks, inodes, owner, blocks', inodes', owner', n, bn, i, a)
    requires Extent(blocks, inodes[n], e) && bn <= e
    ensures BmapDoes(sb, blocks, inodes, owner, blocks', inodes', owner', n, bn, e, i, a)
  {
    assert Ref(blocks, inodes[n], SlotOf(bn)) != 0 <==> bn < e;
  }

  /** The part of data that fits behind off. */
  ghost function Fit(off: nat, data: seq<Byte>): (d: seq<Byte>)
    requires off <= MAXFILE * BSIZE
  {
    data[..Min(|data|, MAXFILE * BSIZE - off)]
  }

  /** iappend of data, begun at the end off0 of file n, has come to off. */
  ghost predicate Appending(sb: Super, b0: Disk, i0: seq<Inode>, img: Disk, din: Inode, used: nat,
                            owner: map<nat, Slot>,
                            n: nat, off0: nat, off: nat, data: seq<Byte>)
  {
    && Room(sb, img, used) && n < |i0| && off0 == i0[n].size <= MAXFILE * BSIZE && off0 <= off <= off0 + |data|
    && (off == off0 || off % BSIZE == 0 || off == off0 + |data|)
    && Writing(sb, b0, i0, View(sb, img, used), i0[n := din], owner, n, off0, off, Fit(off0, data))
  }

  /** A block in a slot is one of the blocks used. */
  lemma SlotUsed(sb: Super, img: Disk, inodes: seq<Inode>, used: nat, owner: map<nat, Slot>, n: nat, k: nat)
    requires Room(sb, img, used) && Owned(sb, View(sb, img, used), inodes, owner, {}) && n < |inodes| && k < SLOTS
    ensures var a := Ref(View(sb, img, used), inodes[n], k); a != 0 ==> sb.nmeta <= a < used
  {
    var v := View(sb, img, used);
    var a := Ref(v, inodes[n], k);
    assert InTable(inodes, Slot(n, k));
    if a != 0 {
      ViewUsed(sb, img, used, a);
    }
  }

  /** The size of the piece of data that goes into the block at off. */
  function Piece(len: nat, done: nat, off: nat): (m: nat)
    requires done < len
    ensures 0 < m <= len - done && off % BSIZE + m <= BSIZE && (m == len - done || m == BSIZE - off % BSIZE)
  {
    if len - done < (off / BSIZE + 1) * BSIZE - off then len - done else (off / BSIZE + 1) * BSIZE - off
  }

  lemma BeforeRound(sb: Super, b0: Disk, i0: seq<Inode>, img: Disk, din: Inode, used: nat, owner: map<nat, Slot>,
                    n: nat, off0: nat, off: nat, data: seq<Byte>)
    requires Appending(sb, b0, i0, img, din, used, owner, n, off0, off, data) == true
    ensures |din.addrs| == 13 && (din.addrs[12] == 0 || sb.nmeta <= din.addrs[12] < used)
  {
    SlotUsed(sb, img, i0[n := din], used, owner, n, 12);
  }

  /** One round: the next piece of data goes into the block that was mapped. */
  lemma AppendStep(sb: Super, b0: Disk, i0: seq<Inode>, img: Disk, din: Inode, used: nat, owner: map<nat, Slot>,
                   img1: Disk, din1: Inode, used1: nat, owner1: map<nat, Slot>,
                   n: nat, off0: nat, off: nat, data: seq<Byte>, i: Uint, a: Uint, m: nat, d: seq<Byte>)
    requires Appending(sb, b0, i0, img, din, used, owner, n, off0, off, data) == true
    requires off < off0 + |data| && off / BSIZE < MAXFILE && Room(sb, img1, used1)
    requires MapDoes(sb, View(sb, img, used), i0[n := din], owner, View(sb, img1, used1), i0[n := din1], owner1, n,
        off / BSIZE, i, a) == true
    requires m == Piece(|data|, off - off0, off) && d == data[off - off0..off - off0 + m]
    ensures sb.nmeta <= a < used1
    ensures Appending(sb, b0, i0, img1[a := Patch(img1[a], off % BSIZE, d)], din1, used1, owner1, n, off0, off + m,
        data) == true
  {
    var v, v1, src := View(sb, img, used), View(sb, img1, used1), Fit(off0, data);
    var e := Max(Span(i0[n].size), Span(off));
    FitPiece(off0, off, m, data);
    SpanGrows(i0[n].size, off, m);
    MapIsBmap(sb, v, i0[n := din], owner, v1, i0[n := din1], owner1, n, off / BSIZE, e, i, a);
    BmapCorrect(sb, v, i0[n := din], owner, v1, i0[n := din1], owner1, n, off / BSIZE, e, i, a);
    SlotUsed(sb, img1, i0[n := din1], used1, owner1, n, SlotOf(off / BSIZE));
    RoundWrites(sb, b0, i0, v, i0[n := din], owner, v1, i0[n := din1], owner1, n, off0, off, m, src, i, a);
    ViewWrite(sb, img1, used1, a, Patch(img1[a], off % BSIZE, d));
  }

  lemma FitPiece(off0: nat, off: nat, m: nat, data: seq<Byte>)
    requires off0 <= off < off0 + |data| && off / BSIZE < MAXFILE && m == Piece(|data|, off - off0, off)
    requires off0 <= MAXFILE * BSIZE
    ensures off + m <= off0 + |Fit(off0, data)|
    ensures Fit(off0, data)[off - off0..off - off0 + m] == data[off - off0..off - off0 + m]
    ensures m == BSIZE - off % BSIZE || off + m == off0 + |Fit(off0, data)|
    ensures off + m == off0 + |data| || (off + m) % BSIZE == 0
  {
    assert off - off % BSIZE + BSIZE <= MAXFILE * BSIZE;
  }

  lemma AppendDone(sb: Super, b0: Disk, i0: seq<Inode>, img: Disk, din: Inode, used: nat, owner: map<nat, Slot>,
                   n: nat, off0: nat, data: seq<Byte>)
    requires Typed(b0, i0) && Tight(b0, i0)
    requires Appending(sb, b0, i0, img, din, used, owner, n, off0, off0 + |data|, data) == true
    ensures var inodes := i0[n := din.(size := off0 + |data|)];
            && Good(sb, img, inodes, used, owner) == true && Tight(View(sb, img, used), inodes) == true
            && Content(View(sb, img, used), inodes[n]) == Content(b0, i0[n]) + data
            && forall m :: 0 <= m < |i0| && m != n ==> Content(View(sb, img, used), inodes[m]) == Content(b0, i0[m])
    ensures din.kind == i0[n].kind && din.size == i0[n].size
  {
    AppendIsConcat(Content(b0, i0[n]), data);
    assert Fit(off0, data) == data;
    WritingDone(sb, b0, i0, View(sb, img, used), i0[n := din], owner, n, off0, data);
    assert WithSize(i0[n := din], n, off0 + |data|) == i0[n := din.(size := off0 + |data|)];
  }

  const T_DIR := 1
  const T_FILE := 2
  const DIRENT := 16

  function Flat(ss: seq<seq<Byte>>): (s: seq<Byte>) {
    if ss == [] then [] else Flat(ss[..|ss| - 1]) + ss[|ss| - 1]
  }

  lemma FlatStep(ss: seq<seq<Byte>>, j: nat)
    requires j < |ss|
    ensures Flat(ss[..j + 1]) == Flat(ss[..j]) + ss[j]
  {
    assert ss[..j + 1][..j] == ss[..j];
  }

  lemma DirectoryEnd(n: nat)
    ensures DIRENT * n % BSIZE == 0 <==> n % 32 == 0
  {
    assert DIRENT * n == 16 * (n % 32) + 512 * (n / 32);
  }

  function Rounded(size: nat): (r: nat) {
    (size / BSIZE + 1) * BSIZE
  }

  /** Rounding a size up keeps ownership, and leaves a hole iff the size was a multiple of the block size. */
  lemma RoundedRoot(sb: Super, blocks: Disk, inodes: seq<Inode>, owner: map<nat, Slot>, n: nat)
    requires Owned(sb, blocks, inodes, owner, {}) && Tight(blocks, inodes) && n < |inodes|
    ensures var inodes' := WithSize(inodes, n, Rounded(inodes[n].size));
            Owned(sb, blocks, inodes', owner, {}) && (Tight(blocks, inodes') <==> inodes[n].size % BSIZE != 0)
  {
    var size := inodes[n].size;
    var inodes' := WithSize(inodes, n, Rounded(size));
    OwnedFrame(sb, blocks, inodes, owner, {}, blocks, inodes');
    SameExtent(blocks, inodes, blocks, inodes', n, Span(size));
    assert Span(Rounded(size)) == size / BSIZE + 1;
    if size % BSIZE != 0 {
      assert Span(size) == size / BSIZE + 1 <= MAXFILE;
    } else {
      assert Span(size) == size / BSIZE;
      assert size < MAXFILE * BSIZE ==> Ref(blocks, inodes'[n], SlotOf(size / BSIZE)) == 0;
    }
  }

  // Directory entries

  /** A C string of characters that are bytes. */
  predicate IsCString(s: string) {
    forall k :: 0 <= k < |s| ==> 0 < s[k] as int < 256
  }

  /** The name a file gets: without a leading underscore, and cut to 14 bytes. */
  function NameOf(arg: string): (name: string)
    ensures |name| <= D.DIRSIZ && (IsCString(arg) ==> IsCString(name))
  {
    D.Trunc(if |arg| > 0 && arg[0] == '_' then arg[1..] else arg)
  }

  /** struct dirent: a 16-bit number and 14 bytes of name, padded with NUL. */
  function Encode(d: D.Dirent): (b: seq<Byte>)
    requires d.inum < 65536 && |d.name| <= D.DIRSIZ && IsCString(d.name)
    ensures |b| == DIRENT && b[0] as int + 256 * b[1] as int == d.inum
    ensures forall k :: 0 <= k < 14 ==> b[2 + k] as int == if k < |d.name| then d.name[k] as int else 0
  {
    [d.inum % 256, d.inum / 256] + Padded(d.name, 0)
  }

  /** The bytes of a name from k on. */
  function Padded(name: string, k: nat): (b: seq<Byte>)
    requires k <= D.DIRSIZ && |name| <= D.DIRSIZ && IsCString(name)
    ensures |b| == D.DIRSIZ - k
    ensures forall j :: 0 <= j < |b| ==> b[j] as int == if j + k < |name| then name[j + k] as int else 0
    decreases D.DIRSIZ - k
  {
    if k == D.DIRSIZ then [] else [if k < |name| then name[k] as int else 0] + Padded(name, k + 1)
  }

  function Decode(b: seq<Byte>): (d: D.Dirent)
    requires |b| == DIRENT
  {
    var low: int, high: int := b[0], b[1];
    D.Dirent(low + 256 * high, CString(b[2..]))
  }

  /** The characters up to a NUL or the end. */
  function CString(b: seq<Byte>): (s: string) {
    if b == [] || b[0] == 0 then "" else [b[0] as char] + CString(b[1..])
  }

  lemma {:induction false} PaddedName(name: string, k: nat)
    requires k <= D.DIRSIZ && |name| <= D.DIRSIZ && IsCString(name)
    ensures CString(Padded(name, k)) == if k < |name| then name[k..] else ""
    decreases D.DIRSIZ - k
  {
    if k < |name| {
      PaddedName(name, k + 1);
      assert Padded(name, k)[1..] == Padded(name, k + 1);
    }
  }

  /** Reading an entry back gives the entry that was written. */
  lemma EntryRoundTrip(d: D.Dirent)
    requires d.inum < 65536 && |d.name| <= D.DIRSIZ && IsCString(d.name)
    ensures Decode(Encode(d)) == d
  {
    PaddedName(d.name, 0);
    assert Encode(d)[2..] == Padded(d.name, 0);
    assert d.name[0..] == d.name;
  }

  /** The directory that a sequence of bytes holds. */
  function Entries(b: seq<Byte>): (es: seq<D.Dirent>)
    ensures |es| == |b| / DIRENT
  {
    seq(|b| / DIRENT, k requires 0 <= k < |b| / DIRENT => Decode(b[DIRENT * k..DIRENT * k + DIRENT]))
  }

  lemma {:induction false} FlatEntries(ss: seq<seq<Byte>>, k: nat)
    requires (forall j :: 0 <= j < |ss| ==> |ss[j]| == DIRENT) && k < |ss|
    ensures |Flat(ss)| == DIRENT * |ss| && Flat(ss)[DIRENT * k..DIRENT * k + DIRENT] == ss[k]
  {
    var n := |ss| - 1;
    if n == 0 {
      assert ss[..0] == [];
    } else {
      FlatEntries(ss[..n], if k < n then k else 0);
    }
  }

  function Names(args: seq<string>): (names: seq<string>)
    ensures |names| == |args|
  {
    seq(|args|, j requires 0 <= j < |args| => NameOf(args[j]))
  }

  /**
   A root directory with these files: entry j + 2 is for file j, under its argument without a leading underscore,
   of which the first 14 bytes are kept.
   */
  ghost predicate Lists(es: seq<D.Dirent>, args: seq<string>) {
    && |es| == 2 + |args| && es[0] == D.Dirent(1, ".") && es[1] == D.Dirent(1, "..")
    && forall j :: 0 <= j < |args| ==> Lists1(es[j + 2], j + 2, args[j])
  }

  ghost predicate Lists1(e: D.Dirent, inum: nat, arg: string) {
    && e.inum == inum
    && (|arg| > 0 && arg[0] == '_' ==> if |arg| <= 15 then "_" + e.name == arg else e.name == arg[1..15])
    && (|arg| == 0 || arg[0] != '_' ==> if |arg| <= 14 then e.name == arg else e.name == arg[..14])
  }

  lemma NamesListed(args: seq<string>, es: seq<D.Dirent>)
    requires es == D.RootEntries(Names(args), 0)
    ensures Lists(es, args)
  {
    hide Lists1, NameOf;
    forall j | 0 <= j < |args|
      ensures Lists1(es[j + 2], j + 2, args[j])
    {
      assert es[j + 2] == D.Dirent(j + 2, NameOf(args[j]));
      NameListed(args[j], j + 2);
    }
  }

  lemma NameListed(arg: string, inum: nat)
    ensures Lists1(D.Dirent(inum, NameOf(arg)), inum, arg)
  {
    if |arg| > 0 && arg[0] == '_' {
      assert "_" + arg[1..] == arg;
      assert arg[1..][..|D.Trunc(arg[1..])|] == arg[1..1 + |D.Trunc(arg[1..])|];
    }
  }

  /** What main passes to iappend for each file. */
  function Lines(args: seq<string>): (ss: seq<seq<Byte>>)
    requires |args| < 65534 && forall j :: 0 <= j < |args| ==> IsCString(args[j])
    ensures |ss| == |args| && forall j :: 0 <= j < |ss| ==> |ss[j]| == DIRENT
  {
    seq(|args|, j requires 0 <= j < |args| => Encode(D.Dirent(2 + j, NameOf(args[j]))))
  }

  /** The root directory's bytes are those entries. */
  lemma RootHolds(args: seq<string>, dot: seq<Byte>, dotdot: seq<Byte>)
    requires |args| < 65534 && forall j :: 0 <= j < |args| ==> IsCString(args[j])
    requires dot == Encode(D.Dirent(1, ".")) && dotdot == Encode(D.Dirent(1, ".."))
    ensures Entries(dot + dotdot + Flat(Lines(args))) == D.RootEntries(Names(args), 0)
    ensures Lists(Entries(dot + dotdot + Flat(Lines(args))), args)
  {
    hide Lists;
    hide Encode, Decode, Flat, Entries, Lines, Names, D.RootEntries, NameOf, IsCString;
    var ss := [dot, dotdot] + Lines(args);
    FlatPrefix(dot, dotdot, Lines(args));
    FlatEntries(ss, 0);
    var es := D.RootEntries(Names(args), 0);
    NamesListed(args, es);
    RootShape(args);
    forall k | 0 <= k < |ss|
      ensures Entries(Flat(ss))[k] == es[k]
    {
      EntryAt(ss, k, es[k]);
    }
  }

  /** Its entries are what the lines encode. */
  lemma RootShape(args: seq<string>)
    requires |args| < 65534 && forall j :: 0 <= j < |args| ==> IsCString(args[j])
    ensures var ss, es := [Encode(D.Dirent(1, ".")), Encode(D.Dirent(1, ".."))] + Lines(args),
        D.RootEntries(Names(args), 0);
            && |ss| == |es| && (forall k :: 0 <= k < |ss| ==> |ss[k]| == DIRENT)
            && forall k :: 0 <= k < |es| ==>
                 es[k].inum < 65536 && |es[k].name| <= D.DIRSIZ && IsCString(es[k].name) && ss[k] == Encode(es[k])
  {
    hide Encode;
    var ss, es := [Encode(D.Dirent(1, ".")), Encode(D.Dirent(1, ".."))] + Lines(args), D.RootEntries(Names(args), 0);
    forall k | 0 <= k < |es|
      ensures es[k].inum < 65536 && |es[k].name| <= D.DIRSIZ && IsCString(es[k].name) && ss[k] == Encode(es[k])
    {
      if k >= 2 {
        assert es[k] == D.Dirent(k, NameOf(args[k - 2]));
      }
    }
  }

  lemma EntryAt(ss: seq<seq<Byte>>, k: nat, d: D.Dirent)
    requires (forall j :: 0 <= j < |ss| ==> |ss[j]| == DIRENT) && k < |ss|
    requires d.inum < 65536 && |d.name| <= D.DIRSIZ && IsCString(d.name) && ss[k] == Encode(d)
    ensures k < |Entries(Flat(ss))| && Entries(Flat(ss))[k] == d
  {
    hide Encode, Decode, Flat, CString, Padded;
    FlatEntries(ss, k);
    EntryRoundTrip(d);
    var b := Flat(ss);
    assert |b| / DIRENT == |ss| && Entries(b)[k] == Decode(b[DIRENT * k..DIRENT * k + DIRENT]);
  }

  lemma {:induction false} FlatPrefix(a: seq<Byte>, b: seq<Byte>, ss: seq<seq<Byte>>)
    ensures Flat([a, b] + ss) == a + b + Flat(ss)
  {
    if ss == [] {
      assert [a, b] + ss == [a, b] && [a, b][..1] == [a] && [a][..0] == [];
      assert Flat([a]) == a;
    } else {
      var n := |ss| - 1;
      assert ([a, b] + ss)[..n + 2] == [a, b] + ss[..n];
      FlatPrefix(a, b, ss[..n]);
    }
  }

  /** Some file does not fit in the blocks an inode can address. */
  ghost predicate TooLarge(files: seq<seq<Byte>>) {
    exists j :: 0 <= j < |files| && |files[j]| > MAXFILE * BSIZE
  }

  /** The state of mkfs. `din` in iappend is a local copy; the inode table gets it back at the end. */
  class Image {
    const sb: Super
    var img: Disk
    var inodes: seq<Inode>
    var freeinode: nat
    var freeblock: nat
    ghost var owner: map<nat, Slot>

    ghost predicate Valid()
      reads this
    {
      && Good(sb, img, inodes, freeblock, owner) && Tight(View(sb, img, freeblock), inodes)
      && InodesFit(sb, |inodes|) && forall n :: freeinode <= n < |inodes| ==> inodes[n] == Blank(0)
    }

    /** The contents of file n. */
    ghost function File(n: nat): seq<Byte>
      requires Valid() && n < |inodes|
      reads this
    {
      Content(View(sb, img, freeblock), inodes[n])
    }

    /** FSSIZE 1000, a log of 30 blocks, 26 blocks of inodes and one bitmap block. */
    constructor (super: Block)
      ensures Valid() && freeinode == 1 && |inodes| == 208 && sb == Super(1000, 59, 32, 58)
      ensures forall n :: 0 <= n < |inodes| ==> inodes[n] == Blank(0)
    {
      sb := Super(1000, 59, 32, 58);
      img := seq(1000, x => if x == 1 then super else ZeroBlock());
      inodes := seq(208, _ => Blank(0));
      freeinode, freeblock := 1, 59;
      owner := map[];
      new;
      FreshImage(sb, img, inodes);
    }

    method Ialloc(kind: nat) returns (inum: nat)
      requires Valid() && freeinode < |inodes|
      modifies `inodes, `freeinode
      ensures Valid() && inum == old(freeinode) && freeinode == old(freeinode) + 1
      ensures inodes == old(inodes)[inum := Blank(kind)]
      ensures forall n :: 0 <= n < |inodes| ==> File(n) == old(File(n))
    {
      inum := freeinode;
      Typing(sb, View(sb, img, freeblock), inodes, owner, inum, kind);
      freeinode := freeinode + 1;
      inodes := inodes[inum := Blank(kind)];
    }

    /** freeblock++; running off the disk ends mkfs. */
    method UseBlock() returns (r: Option<Uint>)
      requires Room(sb, img, freeblock)
      modifies `freeblock
      ensures r.None? ==> freeblock == old(freeblock) == sb.size
      ensures r.Some? ==>
        && r.value == old(freeblock) && freeblock == old(freeblock) + 1 <= sb.size && Room(sb, img, freeblock)
        && !Used(sb, View(sb, img, old(freeblock)), r.value)
        && View(sb, img, freeblock) == Take(sb, View(sb, img, old(freeblock)), r.value)
    {
      if freeblock >= sb.size {
        return None;
      }
      ViewTake(sb, img, freeblock);
      r := Some(freeblock);
      freeblock := freeblock + 1;
    }

    /** The disk block of file block fbn of din, which gets one if it has none. */
    method MapBlock(inum: nat, din: Inode, fbn: nat) returns (r: Option<Uint>, din': Inode, ghost i: Uint)
      requires Room(sb, img, freeblock) && inum < |inodes| && fbn < MAXFILE && |din.addrs| == 13
      requires din.addrs[12] == 0 || sb.nmeta <= din.addrs[12] < freeblock
      modifies `img, `freeblock, `owner
      ensures Room(sb, img, freeblock) == true && (r.None? ==> freeblock == sb.size) && din'.size == din.size
      ensures r.Some? ==>
        MapDoes(sb, View(sb, old(img), old(freeblock)), inodes[inum := din], old(owner),
                View(sb, img, freeblock), inodes[inum := din'], owner, inum, fbn, i, r.value) == true
    {
      if fbn >= NDIRECT {
        r, din', i := MapIndirect(inum, din, fbn - NDIRECT);
        return;
      }
      din', i := din, 0;
      if din.addrs[fbn] != 0 {
        return Some(din.addrs[fbn]), din, 0;
      }
      r := UseBlock();
      if r.Some? {
        din' := din.(addrs := din.addrs[fbn := r.value]);
        owner := owner[r.value := Slot(inum, fbn)];
        assert WithAddr(inodes[inum := din], inum, fbn, r.value) == inodes[inum := din'];
      }
    }

    /** The same through the indirect block. */
    method MapIndirect(inum: nat, din: Inode, j: nat) returns (r: Option<Uint>, din': Inode, ghost i: Uint)
      requires Room(sb, img, freeblock) && inum < |inodes| && j < NINDIRECT && |din.addrs| == 13
      requires din.addrs[12] == 0 || sb.nmeta <= din.addrs[12] < freeblock
      modifies `img, `freeblock, `owner
      ensures Room(sb, img, freeblock) == true && (r.None? ==> freeblock == sb.size) && din'.size == din.size
      ensures r.Some? ==>
        IndirectDoes(sb, View(sb, old(img), old(freeblock)), inodes[inum := din], old(owner),
                     View(sb, img, freeblock), inodes[inum := din'], owner, inum, j, i, r.value) == true
    {
      din', i := din, 0;
      if din.addrs[12] == 0 {
        var n := UseBlock();
        if n.None? {
          r := None;
          return;
        }
        ZeroWord(j);
        din' := din.(addrs := din.addrs[12 := n.value]);
        owner := owner[n.value := Slot(inum, 12)];
        assert WithAddr(inodes[inum := din], inum, 12, n.value) == inodes[inum := din'];
      }
      i := din'.addrs[12];
      r := MapEntry(inum, din'.addrs[12], j);
    }

    /** Entry j of the indirect block x. */
    method MapEntry(inum: nat, x: nat, j: nat) returns (r: Option<Uint>)
      requires Room(sb, img, freeblock) && sb.nmeta <= x < freeblock && j < NINDIRECT
      modifies `img, `freeblock, `owner
      ensures Room(sb, img, freeblock) == true && (r.None? ==> freeblock == sb.size)
      ensures Word(old(img)[x], j) != 0 ==>
        && r.Some? && r.value == Word(old(img)[x], j) && img == old(img) && freeblock == old(freeblock)
        && owner == old(owner)
      ensures r.Some? && Word(old(img)[x], j) == 0 ==>
        && r.value < sb.size && !Used(sb, View(sb, old(img), old(freeblock)), r.value)
        && View(sb, img, freeblock) == PutEntry(sb, View(sb, old(img), old(freeblock)), x, j, r.value)
        && owner == old(owner)[r.value := Slot(inum, 13 + j)]
    {
      var entries := img[x];
      if Word(entries, j) != 0 {
        return Some(Word(entries, j));
      }
      ghost var used := freeblock;
      r := UseBlock();
      if r.Some? {
        ViewEntry(sb, img, used, x, j);
        img := img[x := SetWord(entries, j, r.value)];
        owner := owner[r.value := Slot(inum, 13 + j)];
      }
    }

    /** Append data to a file. Not ok is an end of mkfs: the file is too large or the disk too small. */
    method Iappend(inum: nat, data: seq<Byte>) returns (ok: bool)
      requires Valid() && inum < freeinode <= |inodes| && |data| < 0x8000_0000
      modifies `img, `inodes, `freeblock, `owner
      ensures ok ==> Valid() == true && |inodes| == |old(inodes)| && File(inum) == old(File(inum)) + data
      ensures ok ==> inodes[inum].size == old(inodes)[inum].size + |data| && inodes[inum].kind == old(inodes)[inum].kind
      ensures ok ==>
        forall n :: 0 <= n < |inodes| && n != inum ==> inodes[n] == old(inodes)[n] && File(n) == old(File(n))
      ensures !ok ==> old(inodes)[inum].size + |data| > MAXFILE * BSIZE || freeblock == sb.size
    {
      hide OwnersRefer, RefsOwned, BitmapOk, Content;
      hide Extent;
      var din := inodes[inum];
      ghost var b0, i0, off := View(sb, img, freeblock), inodes, din.size;
      assert inodes[inum := din] == inodes;
      WritingStarts(sb, b0, i0, owner, inum, off, Fit(off, data));
      ok, din := AppendAll(inum, din, data, b0);
      if ok {
        AppendDone(sb, b0, i0, img, din, freeblock, owner, inum, off, data);
        inodes := inodes[inum := din.(size := din.size + |data|)];
      }
    }

    /** iappend's loop. */
    method AppendAll(inum: nat, din: Inode, data: seq<Byte>, ghost b0: Disk) returns (ok: bool, din': Inode)
      requires inum < |inodes|
      requires Appending(sb, b0, inodes, img, din, freeblock, owner, inum, din.size, din.size, data) == true
      modifies `img, `freeblock, `owner
      ensures ok ==> din'.size == din.size
      ensures ok ==>
        Appending(sb, b0, inodes, img, din', freeblock, owner, inum, din.size, din.size + |data|, data) == true
      ensures !ok ==> din.size + |data| > MAXFILE * BSIZE || freeblock == sb.size
    {
      hide Appending;
      din' := din;
      var off, done := din.size, 0;
      while done < |data|
        invariant 0 <= done <= |data| && off == din.size + done
        invariant din'.size == din.size
        invariant Appending(sb, b0, inodes, img, din', freeblock, owner, inum, din.size, off, data) == true
      {
        if off / BSIZE >= MAXFILE {
          ok := false;
          return;
        }
        var m;
        ok, din', m := AppendRound(inum, din', data, done, off, b0, din.size);
        if !ok {
          return;
        }
        done := done + m;
        off := off + m;
      }
      ok := true;
    }

    /** One round of iappend. */
    method AppendRound(inum: nat, din: Inode, data: seq<Byte>, done: nat, off: nat, ghost b0: Disk, ghost off0: nat)
      returns (ok: bool, din': Inode, m: nat)
      requires done < |data| && off == off0 + done && off / BSIZE < MAXFILE && inum < |inodes|
      requires Appending(sb, b0, inodes, img, din, freeblock, owner, inum, off0, off, data) == true
      modifies `img, `freeblock, `owner
      ensures din'.size == din.size
      ensures 0 < m <= |data| - done
      ensures ok ==> Appending(sb, b0, inodes, img, din', freeblock, owner, inum, off0, off + m, data) == true
      ensures !ok ==> freeblock == sb.size
    {
      BeforeRound(sb, b0, inodes, img, din, freeblock, owner, inum, off0, off, data);
      ghost var img0, used0, o0 := img, freeblock, owner;
      m := Piece(|data|, done, off);
      ghost var i;
      var r;
      r, din', i := MapBlock(inum, din, off / BSIZE);
      if r.None? {
        ok := false;
        return;
      }
      AppendStep(sb, b0, inodes, img0, din, used0, o0, img, din', freeblock, owner, inum, off0, off, data, i, r.value,
          m, data[done..done + m]);
      img := img[r.value := Patch(img[r.value], off % BSIZE, data[done..done + m])];
      ok := true;
    }

    /** Append a host file, read a block at a time. */
    method AppendFile(inum: nat, data: seq<Byte>) returns (ok: bool)
      requires Valid() && inum < freeinode <= |inodes|
      modifies `img, `inodes, `freeblock, `owner
      ensures ok ==> Valid() && |inodes| == |old(inodes)| && File(inum) == old(File(inum)) + data
      ensures ok ==> inodes[inum].kind == old(inodes)[inum].kind
      ensures ok ==>
        forall n :: 0 <= n < |inodes| && n != inum ==> inodes[n] == old(inodes)[n] && File(n) == old(File(n))
      ensures !ok ==> old(inodes)[inum].size + |data| > MAXFILE * BSIZE || freeblock == sb.size
    {
      hide OwnersRefer, RefsOwned, BitmapOk, Extent, Content, View;
      var at := 0;
      while at < |data|
        invariant 0 <= at <= |data| && Valid() && |inodes| == |old(inodes)|
        invariant File(inum) == old(File(inum)) + data[..at] && inodes[inum].kind == old(inodes)[inum].kind
        invariant inodes[inum].size == old(inodes)[inum].size + at
        invariant forall n :: 0 <= n < |inodes| && n != inum ==> inodes[n] == old(inodes)[n] && File(n) == old(File(n))
      {
        var cc := if |data| - at < BSIZE then |data| - at else BSIZE;
        ok := Iappend(inum, data[at..at + cc]);
        if !ok {
          return;
        }
        assert data[..at] + data[at..at + cc] == data[..at + cc];
        at := at + cc;
      }
      assert data[..at] == data;
      ok := true;
    }

    /** Write the bitmap: the image is now what the view showed. */
    method Balloc()
      requires Room(sb, img, freeblock)
      modifies `img
      ensures img == View(sb, old(img), freeblock)
    {
      var buf, i := ZeroBlock(), 0;
      while i < freeblock
        invariant 0 <= i <= freeblock && buf == FirstBits(i)
      {
        buf := Bitmap.Set(buf, i, true);
        i := i + 1;
      }
      img := img[sb.bmapstart := buf];
    }

    /** Round the root's size up and write the bitmap. A hole appears iff the size was a multiple of the block size. */
    method Finish()
      requires Valid() && 1 < |inodes|
      modifies `img, `inodes
      ensures |inodes| == |old(inodes)| && Owned(sb, img, inodes, owner, {})
      ensures forall n :: 0 <= n < |inodes| && n != 1 ==>
        inodes[n] == old(inodes)[n] && inodes[n].size <= MAXFILE * BSIZE
      ensures inodes[1] == old(inodes)[1].(size := Rounded(old(inodes)[1].size))
      ensures img == old(View(sb, img, freeblock))
      ensures Tight(img, inodes) <==> old(inodes)[1].size % BSIZE != 0
    {
      var din := inodes[1];
      RoundedRoot(sb, View(sb, img, freeblock), inodes, owner, 1);
      inodes := inodes[1 := din.(size := (din.size / BSIZE + 1) * BSIZE)];
      Balloc();
    }

    /**
     The whole of mkfs: a root directory with the entries of "." and ".." and of each file, and the
     files. The image then satisfies the kernel's invariant iff the root directory does not end at a block
     boundary, that is, iff the number of files is not 30 more than a multiple of 32.
     */
    method Build(dot: seq<Byte>, dotdot: seq<Byte>, entries: seq<seq<Byte>>, files: seq<seq<Byte>>) returns (ok: bool)
      requires Valid() && freeinode == 1 && |inodes| >= 2 + |files| && |files| == |entries|
      requires forall n :: 0 <= n < |inodes| ==> inodes[n] == Blank(0)
      requires |dot| == |dotdot| == DIRENT && forall j :: 0 <= j < |entries| ==> |entries[j]| == DIRENT
      modifies `img, `inodes, `freeinode, `freeblock, `owner
      ensures ok ==> |inodes| == |old(inodes)| && Owned(sb, img, inodes, owner, {}) && InodesFit(sb, |inodes|)
      ensures ok ==> (Tight(img, inodes) <==> (|files| + 2) % 32 != 0)
      ensures ok ==> forall n :: 2 <= n < 2 + |files| ==>
        inodes[n].kind == T_FILE && inodes[n].size <= MAXFILE * BSIZE && Content(img, inodes[n]) == files[n - 2]
      ensures ok ==>
        && inodes[1].kind == T_DIR && DIRENT * (|files| + 2) <= MAXFILE * BSIZE
        && inodes[1].size == Rounded(DIRENT * (|files| + 2))
        && Content(img, inodes[1].(size := DIRENT * (|files| + 2))) == dot + dotdot + Flat(entries)
      ensures !ok ==> freeblock == sb.size || DIRENT * (|files| + 2) > MAXFILE * BSIZE || TooLarge(files)
    {
      ok := AddRoot(dot, dotdot);
      if !ok {
        return;
      }
      ok := AddFiles(dot + dotdot, entries, files);
      if !ok {
        return;
      }
      DirectoryEnd(|files| + 2);
      assert entries[..|files|] == entries;
      assert inodes[1].(size := DIRENT * (|files| + 2)) == inodes[1];
      Finish();
    }

    method AddRoot(dot: seq<Byte>, dotdot: seq<Byte>) returns (ok: bool)
      requires Valid() && freeinode == 1 && |inodes| >= 2 && |dot| == |dotdot| == DIRENT
      requires forall n :: 0 <= n < |inodes| ==> inodes[n] == Blank(0)
      modifies `img, `inodes, `freeinode, `freeblock, `owner
      ensures ok ==> Valid() && freeinode == 2 && |inodes| == |old(inodes)|
      ensures ok ==> inodes[1].kind == T_DIR && inodes[1].size == 2 * DIRENT && File(1) == dot + dotdot
      ensures !ok ==> freeblock == sb.size
    {
      assert File(1) == [];
      var root := Ialloc(T_DIR);
      ok := Iappend(root, dot);
      if ok {
        ok := Iappend(root, dotdot);
      }
    }

    /** The root directory lists the first j files, and they have their contents. */
    ghost predicate HasFiles(head: seq<Byte>, entries: seq<seq<Byte>>, files: seq<seq<Byte>>, j: nat)
      reads this
    {
      && Valid() && freeinode == 2 + j && j <= |files| == |entries| <= |inodes| - 2
      && inodes[1].kind == T_DIR && inodes[1].size == DIRENT * (j + 2) && File(1) == head + Flat(entries[..j])
      && forall n :: 2 <= n < 2 + j ==> inodes[n].kind == T_FILE && File(n) == files[n - 2]
    }

    method AddFiles(ghost head: seq<Byte>, entries: seq<seq<Byte>>, files: seq<seq<Byte>>) returns (ok: bool)
      requires HasFiles(head, entries, files, 0) && forall j :: 0 <= j < |entries| ==> |entries[j]| == DIRENT
      modifies `img, `inodes, `freeinode, `freeblock, `owner
      ensures ok ==> |inodes| == |old(inodes)| && HasFiles(head, entries, files, |files|) == true
      ensures !ok ==> freeblock == sb.size || DIRENT * (|files| + 2) > MAXFILE * BSIZE || TooLarge(files)
    {
      var j := 0;
      while j < |files|
        invariant 0 <= j <= |files| && |inodes| == |old(inodes)| && HasFiles(head, entries, files, j) == true
      {
        ok := AddNext(head, entries, files, j);
        if !ok {
          return;
        }
        j := j + 1;
      }
      ok := true;
    }

    method AddNext(ghost head: seq<Byte>, entries: seq<seq<Byte>>, files: seq<seq<Byte>>, j: nat) returns (ok: bool)
      requires HasFiles(head, entries, files, j) && j < |files| && |entries[j]| == DIRENT
      modifies `img, `inodes, `freeinode, `freeblock, `owner
      ensures ok ==> |inodes| == |old(inodes)| && HasFiles(head, entries, files, j + 1)
      ensures !ok ==> freeblock == sb.size || DIRENT * (j + 3) > MAXFILE * BSIZE || |files[j]| > MAXFILE * BSIZE
    {
      FlatStep(entries, j);
      ok := AddFile(entries[j], files[j]);
    }

    /** One file: its inode, its entry in the root directory, its contents. */
    method AddFile(entry: seq<Byte>, data: seq<Byte>) returns (ok: bool)
      requires Valid() && 2 <= freeinode < |inodes| && |entry| == DIRENT
      modifies `img, `inodes, `freeinode, `freeblock, `owner
      ensures ok ==> Valid() == true && |inodes| == |old(inodes)| && freeinode == old(freeinode) + 1
      ensures ok ==>
        && File(1) == old(File(1)) + entry && inodes[1].size == old(inodes[1].size) + DIRENT
        && inodes[1].kind == old(inodes[1].kind)
      ensures ok ==> File(old(freeinode)) == data && inodes[old(freeinode)].kind == T_FILE
      ensures ok ==> forall n :: 0 <= n < |inodes| && n != 1 && n != old(freeinode) ==>
        inodes[n] == old(inodes[n]) && File(n) == old(File(n))
      ensures !ok ==> freeblock == sb.size || old(inodes)[1].size + DIRENT > MAXFILE * BSIZE || |data| > MAXFILE * BSIZE
    {
      assert File(freeinode) == [];
      var inum := Ialloc(T_FILE);
      ok := Iappend(1, entry);
      if ok {
        ok := AppendFile(inum, data);
      }
    }
  }

  /**
   mkfs on the files named args: the root directory lists them by their names. By Directory.ImageExact the table of
   inodes then satisfies the invariant of directories iff those names are distinct and none is "." or "..".
   */
  method MakeImage(image: Image, args: seq<string>, files: seq<seq<Byte>>) returns (ok: bool)
    requires image.Valid() && image.freeinode == 1
    requires forall n :: 0 <= n < |image.inodes| ==> image.inodes[n] == Blank(0)
    requires |files| == |args| < 65534 && |image.inodes| >= 2 + |files|
    requires forall j :: 0 <= j < |args| ==> IsCString(args[j])
    modifies image
    ensures ok ==> Owned(image.sb, image.img, image.inodes, image.owner, {}) && InodesFit(image.sb, |image.inodes|)
    ensures ok ==> |image.inodes| == |old(image.inodes)| && image.inodes[1].size >= DIRENT * (|files| + 2)
    ensures ok ==> (Tight(image.img, image.inodes) <==> (|files| + 2) % 32 != 0)
    ensures ok ==>
      && DIRENT * (|files| + 2) <= MAXFILE * BSIZE
      && var es := Entries(Content(image.img, image.inodes[1].(size := DIRENT * (|files| + 2))));
         es == D.RootEntries(Names(args), 0) && Lists(es, args)
    ensures ok ==> image.inodes[1].kind == T_DIR && image.inodes[1].size == (16 * (|files| + 2) / 512 + 1) * 512
    ensures ok ==> forall n :: 2 <= n < 2 + |files| ==>
      && image.inodes[n].kind == T_FILE && image.inodes[n].size <= MAXFILE * BSIZE
      && Content(image.img, image.inodes[n]) == files[n - 2]
    ensures !ok ==> image.freeblock == image.sb.size || DIRENT * (|files| + 2) > MAXFILE * BSIZE || TooLarge(files)
  {
    var dot, dotdot := Encode(D.Dirent(1, ".")), Encode(D.Dirent(1, ".."));
    RootHolds(args, dot, dotdot);
    ok := image.Build(dot, dotdot, Lines(args), files);
  }

  /** A shorter file has the first bytes of a longer one. */
  lemma ContentPrefix(blocks: Disk, ip: Inode, size: nat)
    requires |ip.addrs| == 13 && ip.addrs[12] < |blocks| && size <= ip.size <= MAXFILE * BSIZE
    ensures Content(blocks, ip.(size := size)) == Content(blocks, ip)[..size]
  {
    forall k | 0 <= k < size
      ensures Content(blocks, ip.(size := size))[k] == Content(blocks, ip)[k]
    {
    }
  }

  /**
   From mkfs to any later point: a hole-free image is mounted, and any sequence of writes and truncations on it
   is the same sequence on the root directory and the files mkfs was given.
   */
  method Life(image: Image, args: seq<string>, files: seq<seq<Byte>>, ops: seq<Use.Op>)
    returns (ok: bool, fs: FileSys?, ghost start: seq<seq<Byte>>)
    requires image.Valid() && image.freeinode == 1
    requires forall n :: 0 <= n < |image.inodes| ==> image.inodes[n] == Blank(0)
    requires |files| == |args| < 65534 && |image.inodes| >= 2 + |files| && (|files| + 2) % 32 != 0
    requires forall j :: 0 <= j < |args| ==> IsCString(args[j])
    requires forall k :: 0 <= k < |ops| ==> ops[k].n < |image.inodes|
    requires forall k :: 0 <= k < |ops| && ops[k].Write? ==> |ops[k].src| < 0x8000_0000 && ops[k].off < 0x8000_0000
    modifies image
    ensures ok ==>
      && fs != null && fs.Valid() == true && |start| >= 2 + |files| && |start[1]| >= DIRENT * (|files| + 2)
      && Entries(start[1][..DIRENT * (|files| + 2)]) == D.RootEntries(Names(args), 0)
      && Lists(Entries(start[1][..DIRENT * (|files| + 2)]), args)
      && forall n :: 2 <= n < 2 + |files| ==> start[n] == files[n - 2]
    ensures ok ==> Use.Files(fs.blocks, fs.inodes) == Use.ApplyAll(start, ops)
    ensures !ok && fs != null ==> AllUsed(fs.sb, fs.blocks) == true
    ensures fs == null ==>
      image.freeblock == image.sb.size || DIRENT * (|files| + 2) > MAXFILE * BSIZE || TooLarge(files)
  {
    hide OwnersRefer, RefsOwned, BitmapOk, Extent, Encode, Lines, Entries;
    ok := MakeImage(image, args, files);
    if !ok {
      return false, null, [];
    }
    fs := new FileSys(image.sb, image.img, image.inodes, image.owner);
    start := Use.Files(fs.blocks, fs.inodes);
    ContentPrefix(fs.blocks, fs.inodes[1], DIRENT * (|files| + 2));
    ok := Use.Run(fs, ops);
  }
}
