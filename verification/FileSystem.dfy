/**
 Block allocation, inode block maps and file contents (fs.c), over the plain block store that the
 log and the buffer cache provide.
 */
module FileSystem {
  import opened Blocks
  import opened Common
  import Bitmap

  const NDIRECT := 12
  const NINDIRECT := 128
  const MAXFILE := 140
  const SLOTS := 141  // 12 direct addresses, the indirect block's, and 128 in the indirect block
  const IPB := 8      // inodes per block

  /** The part of the superblock the allocator uses; blocks below nmeta are never data blocks. */
  datatype Super = Super(size: nat, nmeta: nat, inodestart: nat, bmapstart: nat)

  predicate ValidSuper(sb: Super) {
    0 < sb.nmeta <= sb.size < 0x1_0000_0000 && 0 < sb.bmapstart && sb.bmapstart + sb.size / Bitmap.BPB < sb.nmeta
  }

  /** The inodes lie below the bitmap, IPB to a block. */
  predicate InodesFit(sb: Super, count: nat) {
    sb.inodestart <= sb.bmapstart && count <= IPB * (sb.bmapstart - sb.inodestart)
  }

  datatype Inode = Inode(kind: nat, size: nat, addrs: seq<Uint>)

  /** A place that can hold a block number: address k <= 12 of an inode, or entry k - 13 of its indirect block. */
  datatype Slot = Slot(ino: nat, k: nat)

  /** Well-typed inodes: every indirect block lies on the disk. */
  ghost predicate Typed(blocks: Disk, inodes: seq<Inode>) {
    forall n :: 0 <= n < |inodes| ==> |inodes[n].addrs| == 13 && inodes[n].addrs[12] < |blocks|
  }

  /** The block number in slot k of an inode; 0 means none. */
  function Ref(blocks: Disk, ip: Inode, k: nat): (b: nat)
    requires |ip.addrs| == 13 && ip.addrs[12] < |blocks| && k < SLOTS
  {
    if k <= 12 then ip.addrs[k] else if ip.addrs[12] == 0 then 0 else Word(blocks[ip.addrs[12]], k - 13)
  }

  /** The slot that bmap uses for file block bn. */
  function SlotOf(bn: nat): (k: nat) {
    if bn < NDIRECT then bn else bn + 1
  }

  predicate InTable(inodes: seq<Inode>, s: Slot) {
    s.ino < |inodes| && s.k < SLOTS
  }

  /** The bitmap bit of block b. */
  predicate Used(sb: Super, blocks: Disk, b: nat)
    requires ValidSuper(sb) && |blocks| == sb.size && b < sb.size
  {
    Bitmap.Get(blocks[sb.bmapstart + b / Bitmap.BPB], b % Bitmap.BPB)
  }

  /** Every owned block is a data block and sits in the slot said to own it. */
  ghost predicate OwnersRefer(sb: Super, blocks: Disk, inodes: seq<Inode>, owner: map<nat, Slot>, dead: set<Slot>)
    requires Typed(blocks, inodes)
  {
    forall b :: b in owner ==>
      && sb.nmeta <= b < sb.size && InTable(inodes, owner[b]) && owner[b] !in dead
      && Ref(blocks, inodes[owner[b].ino], owner[b].k) == b
  }

  /** Every block number in a slot is owned by that slot. */
  ghost predicate RefsOwned(blocks: Disk, inodes: seq<Inode>, owner: map<nat, Slot>, dead: set<Slot>)
    requires Typed(blocks, inodes)
  {
    forall s {:trigger InTable(inodes, s)} ::
      InTable(inodes, s) && s !in dead && Ref(blocks, inodes[s.ino], s.k) != 0 ==>
      Ref(blocks, inodes[s.ino], s.k) in owner && owner[Ref(blocks, inodes[s.ino], s.k)] == s
  }

  /** The bitmap marks metadata and owned blocks. */
  ghost predicate BitmapOk(sb: Super, blocks: Disk, owner: map<nat, Slot>)
    requires ValidSuper(sb) && |blocks| == sb.size
  {
    forall b :: 0 <= b < sb.size ==> (Used(sb, blocks, b) <==> b < sb.nmeta || b in owner)
  }

  /**
   `owner` maps every allocated data block to the one slot that refers to it. Slots in `dead` are
   being discarded by itrunc and no longer count.
   */
  ghost predicate Owned(sb: Super, blocks: Disk, inodes: seq<Inode>, owner: map<nat, Slot>, dead: set<Slot>) {
    && ValidSuper(sb) && |blocks| == sb.size && Typed(blocks, inodes)
    && OwnersRefer(sb, blocks, inodes, owner, dead) && RefsOwned(blocks, inodes, owner, dead)
    && BitmapOk(sb, blocks, owner)
  }

  /** Slot s holds block b. */
  ghost predicate Refers(blocks: Disk, inodes: seq<Inode>, s: Slot, b: nat)
    requires Typed(blocks, inodes)
  {
    InTable(inodes, s) && Ref(blocks, inodes[s.ino], s.k) == b
  }

  /** Exactly one slot does. */
  ghost predicate HeldOnce(blocks: Disk, inodes: seq<Inode>, b: nat)
    requires Typed(blocks, inodes)
  {
    exists s :: Refers(blocks, inodes, s, b) && forall t :: Refers(blocks, inodes, t, b) ==> t == s
  }

  /**
   What ownership means: a bit is set exactly for metadata, which no slot holds, and for blocks in exactly one slot.
   */
  lemma OwnershipExact(sb: Super, blocks: Disk, inodes: seq<Inode>, owner: map<nat, Slot>, b: nat)
    requires Owned(sb, blocks, inodes, owner, {}) && b < sb.size
    ensures Used(sb, blocks, b) <==> b < sb.nmeta || HeldOnce(blocks, inodes, b)
    ensures forall s :: Refers(blocks, inodes, s, b) && b != 0 ==> b >= sb.nmeta && HeldOnce(blocks, inodes, b)
  {
    forall s | Refers(blocks, inodes, s, b) && b != 0
      ensures b in owner && owner[b] == s
    {
    }
    if b in owner {
      assert Refers(blocks, inodes, owner[b], b);
    }
  }

  // Framing

  /** No slot that counts changes its value. */
  ghost predicate SameRefs(blocks: Disk, inodes: seq<Inode>, blocks': Disk, inodes': seq<Inode>, dead: set<Slot>)
    requires Typed(blocks, inodes) && Typed(blocks', inodes')
  {
    && |inodes| == |inodes'|
    && forall s {:trigger InTable(inodes, s)} :: InTable(inodes, s) && s !in dead ==>
         Ref(blocks', inodes'[s.ino], s.k) == Ref(blocks, inodes[s.ino], s.k)
  }

  /** Changing a block that is nobody's indirect block changes no slot. */
  lemma WriteKeepsRefs(blocks: Disk, inodes: seq<Inode>, b: nat, data: Block)
    requires Typed(blocks, inodes) && b < |blocks|
    requires forall n :: 0 <= n < |inodes| && inodes[n].addrs[12] != 0 ==> inodes[n].addrs[12] != b
    ensures SameRefs(blocks, inodes, blocks[b := data], inodes, {})
  {
  }

  /** The indirect block of an inode belongs to its slot 12. */
  lemma IndirectOwned(sb: Super, blocks: Disk, inodes: seq<Inode>, owner: map<nat, Slot>, dead: set<Slot>, n: nat)
    requires Owned(sb, blocks, inodes, owner, dead) && n < |inodes| && inodes[n].addrs[12] != 0
    requires Slot(n, 12) !in dead
    ensures inodes[n].addrs[12] in owner && owner[inodes[n].addrs[12]] == Slot(n, 12)
    ensures sb.nmeta <= inodes[n].addrs[12] < sb.size
  {
    assert InTable(inodes, Slot(n, 12));
  }

  /** Writing a data block keeps the ownership. */
  lemma WriteDataKeeps(sb: Super, blocks: Disk, inodes: seq<Inode>, owner: map<nat, Slot>, b: nat, data: Block)
    requires Owned(sb, blocks, inodes, owner, {}) && b in owner && owner[b].k != 12
    ensures Owned(sb, blocks[b := data], inodes, owner, {})
    ensures SameRefs(blocks, inodes, blocks[b := data], inodes, {})
  {
    forall n | 0 <= n < |inodes| && inodes[n].addrs[12] != 0
      ensures inodes[n].addrs[12] != b
    {
      IndirectOwned(sb, blocks, inodes, owner, {}, n);
    }
    WriteKeepsRefs(blocks, inodes, b, data);
    UsedFrame(sb, blocks, b, data);
    OwnedFrame(sb, blocks, inodes, owner, {}, blocks[b := data], inodes);
  }

  /** Ownership depends only on the slots' values and on the bitmap. */
  lemma OwnedFrame(sb: Super, blocks: Disk, inodes: seq<Inode>, owner: map<nat, Slot>, dead: set<Slot>,
                   blocks': Disk, inodes': seq<Inode>)
    requires Owned(sb, blocks, inodes, owner, dead) && |blocks'| == |blocks|
    requires Typed(blocks', inodes') && SameRefs(blocks, inodes, blocks', inodes', dead)
    requires forall x :: 0 <= x < sb.size ==> Used(sb, blocks', x) == Used(sb, blocks, x)
    ensures Owned(sb, blocks', inodes', owner, dead)
  {
    forall s | InTable(inodes', s) && s !in dead && Ref(blocks', inodes'[s.ino], s.k) != 0
      ensures Ref(blocks', inodes'[s.ino], s.k) in owner && owner[Ref(blocks', inodes'[s.ino], s.k)] == s
    {
      assert InTable(inodes, s);
    }
    forall b | b in owner
      ensures InTable(inodes', owner[b]) && Ref(blocks', inodes'[owner[b].ino], owner[b].k) == b
    {
      assert InTable(inodes, owner[b]);
    }
  }

  lemma UsedFrame(sb: Super, blocks: Disk, b: nat, data: Block)
    requires ValidSuper(sb) && |blocks| == sb.size && sb.nmeta <= b < sb.size
    ensures forall x :: 0 <= x < sb.size ==> Used(sb, blocks[b := data], x) == Used(sb, blocks, x)
  {
  }

  // The bitmap

  function Mark(sb: Super, blocks: Disk, b: nat, v: bool): (r: Disk)
    requires ValidSuper(sb) && |blocks| == sb.size && b < sb.size
    ensures |r| == |blocks|
  {
    var m := sb.bmapstart + b / Bitmap.BPB;
    blocks[m := Bitmap.Set(blocks[m], b % Bitmap.BPB, v)]
  }

  lemma MarkUsed(sb: Super, blocks: Disk, b: nat, v: bool)
    requires ValidSuper(sb) && |blocks| == sb.size && b < sb.size
    ensures forall x :: 0 <= x < sb.size ==>
      Used(sb, Mark(sb, blocks, b, v), x) == if x == b then v else Used(sb, blocks, x)
  {
    var m := sb.bmapstart + b / Bitmap.BPB;
    forall x | 0 <= x < sb.size
      ensures Used(sb, Mark(sb, blocks, b, v), x) == if x == b then v else Used(sb, blocks, x)
    {
      if x / Bitmap.BPB == b / Bitmap.BPB && x != b {
        assert x % Bitmap.BPB != b % Bitmap.BPB;
      }
    }
  }

  // Allocation: a free block goes into an empty slot

  /** Slot s receives block r; no other slot changes. */
  ghost predicate OneMoreRef(blocks: Disk, inodes: seq<Inode>, blocks': Disk, inodes': seq<Inode>, s: Slot, r: nat)
    requires Typed(blocks, inodes) && Typed(blocks', inodes')
  {
    && |inodes| == |inodes'| && InTable(inodes, s)
    && Ref(blocks, inodes[s.ino], s.k) == 0 && Ref(blocks', inodes'[s.ino], s.k) == r
    && forall t :: InTable(inodes, t) && t != s ==>
         Ref(blocks', inodes'[t.ino], t.k) == Ref(blocks, inodes[t.ino], t.k)
  }

  lemma OwnedAdd(sb: Super, blocks: Disk, inodes: seq<Inode>, owner: map<nat, Slot>,
                 blocks': Disk, inodes': seq<Inode>, s: Slot, r: nat)
    requires Owned(sb, blocks, inodes, owner, {}) && |blocks'| == |blocks| && Typed(blocks', inodes')
    requires OneMoreRef(blocks, inodes, blocks', inodes', s, r)
    requires r < sb.size && !Used(sb, blocks, r)
    requires forall x :: 0 <= x < sb.size ==> Used(sb, blocks', x) == (x == r || Used(sb, blocks, x))
    ensures Owned(sb, blocks', inodes', owner[r := s], {})
  {
    assert r >= sb.nmeta && r !in owner;
    var owner' := owner[r := s];
    forall t | InTable(inodes', t) && Ref(blocks', inodes'[t.ino], t.k) != 0
      ensures Ref(blocks', inodes'[t.ino], t.k) in owner'
      ensures owner'[Ref(blocks', inodes'[t.ino], t.k)] == t
    {
      assert InTable(inodes, t);
    }
    forall b | b in owner'
      ensures sb.nmeta <= b < sb.size && InTable(inodes', owner'[b])
      ensures Ref(blocks', inodes'[owner'[b].ino], owner'[b].k) == b
    {
      if b != r {
        assert InTable(inodes, owner[b]);
        assert owner[b] != s;
      }
    }
  }

  /** balloc's effect: the bit is set and the block zeroed. */
  function Take(sb: Super, blocks: Disk, r: nat): (d: Disk)
    requires ValidSuper(sb) && |blocks| == sb.size && r < sb.size
    ensures |d| == |blocks|
  {
    Mark(sb, blocks, r, true)[r := ZeroBlock()]
  }

  lemma TakeUsed(sb: Super, blocks: Disk, r: nat)
    requires ValidSuper(sb) && |blocks| == sb.size && sb.nmeta <= r < sb.size
    ensures forall x :: 0 <= x < sb.size ==> Used(sb, Take(sb, blocks, r), x) == (x == r || Used(sb, blocks, x))
  {
    MarkUsed(sb, blocks, r, true);
    UsedFrame(sb, Mark(sb, blocks, r, true), r, ZeroBlock());
  }

  /** Allocation touches no block that is already owned. */
  lemma TakeFrame(sb: Super, blocks: Disk, inodes: seq<Inode>, owner: map<nat, Slot>, r: nat)
    requires Owned(sb, blocks, inodes, owner, {}) && r < sb.size && !Used(sb, blocks, r)
    ensures sb.nmeta <= r && r !in owner
    ensures forall x :: x in owner ==> x < |blocks| && Take(sb, blocks, r)[x] == blocks[x]
    ensures Take(sb, blocks, r)[0] == blocks[0]
  {
  }

  lemma TakeFacts(sb: Super, blocks: Disk, inodes: seq<Inode>, owner: map<nat, Slot>, r: nat)
    requires Owned(sb, blocks, inodes, owner, {}) && r < sb.size && !Used(sb, blocks, r)
    ensures sb.nmeta <= r && r !in owner
    ensures forall x :: 0 <= x < sb.size ==> Used(sb, Take(sb, blocks, r), x) == (x == r || Used(sb, blocks, x))
    ensures forall n :: 0 <= n < |inodes| && inodes[n].addrs[12] != 0 ==>
      inodes[n].addrs[12] != r && Take(sb, blocks, r)[inodes[n].addrs[12]] == blocks[inodes[n].addrs[12]]
  {
    TakeFrame(sb, blocks, inodes, owner, r);
    TakeUsed(sb, blocks, r);
    forall n | 0 <= n < |inodes| && inodes[n].addrs[12] != 0
      ensures inodes[n].addrs[12] in owner
    {
      IndirectOwned(sb, blocks, inodes, owner, {}, n);
    }
  }

  /** The inode after storing r in address k. */
  function WithAddr(inodes: seq<Inode>, n: nat, k: nat, r: Uint): (out: seq<Inode>)
    requires n < |inodes| && k < |inodes[n].addrs|
  {
    inodes[n := inodes[n].(addrs := inodes[n].addrs[k := r])]
  }

  /** bmap stores a new block in an empty address of the inode. */
  lemma AllocAddr(sb: Super, blocks: Disk, inodes: seq<Inode>, owner: map<nat, Slot>, n: nat, k: nat, r: Uint)
    requires Owned(sb, blocks, inodes, owner, {}) && n < |inodes| && k <= 12 && inodes[n].addrs[k] == 0
    requires r < sb.size && !Used(sb, blocks, r)
    ensures Owned(sb, Take(sb, blocks, r), WithAddr(inodes, n, k, r), owner[r := Slot(n, k)], {})
    ensures OneMoreRef(blocks, inodes, Take(sb, blocks, r), WithAddr(inodes, n, k, r), Slot(n, k), r)
    ensures sb.nmeta <= r
  {
    var blocks', inodes' := Take(sb, blocks, r), WithAddr(inodes, n, k, r);
    TakeFacts(sb, blocks, inodes, owner, r);
    assert Typed(blocks', inodes');
    forall t | InTable(inodes, t) && t != Slot(n, k)
      ensures Ref(blocks', inodes'[t.ino], t.k) == Ref(blocks, inodes[t.ino], t.k)
    {
      if t.ino == n && k == 12 && t.k > 12 {
        ZeroWord(t.k - 13);
      }
    }
    OwnedAdd(sb, blocks, inodes, owner, blocks', inodes', Slot(n, k), r);
  }

  /** The disk after allocating r and storing it in entry j of the indirect block i. */
  function PutEntry(sb: Super, blocks: Disk, i: nat, j: nat, r: Uint): (d: Disk)
    requires ValidSuper(sb) && |blocks| == sb.size && r < sb.size && i < sb.size && j < NINDIRECT
    ensures |d| == |blocks|
  {
    Take(sb, blocks, r)[i := SetWord(Take(sb, blocks, r)[i], j, r)]
  }

  /** bmap stores a new block in an empty entry of the indirect block. */
  lemma AllocEntry(sb: Super, blocks: Disk, inodes: seq<Inode>, owner: map<nat, Slot>, n: nat, i: nat, j: nat, r: Uint)
    requires Owned(sb, blocks, inodes, owner, {}) && n < |inodes| && j < NINDIRECT
    requires i == inodes[n].addrs[12] != 0 && Word(blocks[i], j) == 0
    requires r < sb.size && !Used(sb, blocks, r)
    ensures Owned(sb, PutEntry(sb, blocks, i, j, r), inodes, owner[r := Slot(n, 13 + j)], {})
    ensures OneMoreRef(blocks, inodes, PutEntry(sb, blocks, i, j, r), inodes, Slot(n, 13 + j), r)
  {
    var d := Take(sb, blocks, r);
    TakeFacts(sb, blocks, inodes, owner, r);
    IndirectOwned(sb, blocks, inodes, owner, {}, n);
    forall m | 0 <= m < |inodes| && m != n && inodes[m].addrs[12] != 0
      ensures inodes[m].addrs[12] != i
    {
      IndirectOwned(sb, blocks, inodes, owner, {}, m);
    }
    EntryRefs(blocks, inodes, n, j, r, d);
    UsedFrame(sb, d, i, SetWord(d[i], j, r));
    OwnedAdd(sb, blocks, inodes, owner, PutEntry(sb, blocks, i, j, r), inodes, Slot(n, 13 + j), r);
  }

  /** Setting one entry of an indirect block that only inode n uses changes one slot. */
  lemma EntryRefs(blocks: Disk, inodes: seq<Inode>, n: nat, j: nat, r: Uint, d: Disk)
    requires Typed(blocks, inodes) && |d| == |blocks| && n < |inodes| && j < NINDIRECT
    requires inodes[n].addrs[12] != 0 && Word(blocks[inodes[n].addrs[12]], j) == 0
    requires forall m :: 0 <= m < |inodes| && m != n && inodes[m].addrs[12] != 0 ==>
      inodes[m].addrs[12] != inodes[n].addrs[12]
    requires forall m :: 0 <= m < |inodes| && inodes[m].addrs[12] != 0 ==>
      d[inodes[m].addrs[12]] == blocks[inodes[m].addrs[12]]
    ensures var i := inodes[n].addrs[12];
            var blocks' := d[i := SetWord(d[i], j, r)];
            Typed(blocks', inodes) && OneMoreRef(blocks, inodes, blocks', inodes, Slot(n, 13 + j), r)
  {
    var i := inodes[n].addrs[12];
    var blocks' := d[i := SetWord(d[i], j, r)];
    forall t | InTable(inodes, t) && t != Slot(n, 13 + j)
      ensures Ref(blocks', inodes[t.ino], t.k) == Ref(blocks, inodes[t.ino], t.k)
    {
      if t.ino == n && t.k > 12 {
        assert t.k - 13 != j;
      }
    }
  }

  // Freeing

  /** bfree: the block leaves the map, and the slot that held it no longer counts. */
  lemma FreeKeeps(sb: Super, blocks: Disk, inodes: seq<Inode>, owner: map<nat, Slot>, dead: set<Slot>, s: Slot)
    requires Owned(sb, blocks, inodes, owner, dead) && InTable(inodes, s) && s !in dead
    requires Ref(blocks, inodes[s.ino], s.k) != 0
    requires forall t :: t in dead ==> t.k != 12
    ensures var b := Ref(blocks, inodes[s.ino], s.k);
            && sb.nmeta <= b < sb.size && Used(sb, blocks, b)
            && Owned(sb, Mark(sb, blocks, b, false), inodes, owner - {b}, dead + {s})
            && SameRefs(blocks, inodes, Mark(sb, blocks, b, false), inodes, {})
  {
    var b := Ref(blocks, inodes[s.ino], s.k);
    var m := sb.bmapstart + b / Bitmap.BPB;
    MarkUsed(sb, blocks, b, false);
    forall n | 0 <= n < |inodes| && inodes[n].addrs[12] != 0
      ensures inodes[n].addrs[12] != m
    {
      IndirectOwned(sb, blocks, inodes, owner, dead, n);
    }
    WriteKeepsRefs(blocks, inodes, m, Mark(sb, blocks, b, false)[m]);
    RemoveOwner(sb, blocks, inodes, owner, dead, s, b, Mark(sb, blocks, b, false));
  }

  lemma RemoveOwner(sb: Super, blocks: Disk, inodes: seq<Inode>, owner: map<nat, Slot>, dead: set<Slot>,
                    s: Slot, b: nat, blocks': Disk)
    requires Owned(sb, blocks, inodes, owner, dead) && InTable(inodes, s) && s !in dead
    requires Ref(blocks, inodes[s.ino], s.k) == b != 0 && |blocks'| == |blocks|
    requires Typed(blocks', inodes) && SameRefs(blocks, inodes, blocks', inodes, {})
    requires forall x :: 0 <= x < sb.size ==> Used(sb, blocks', x) == (x != b && Used(sb, blocks, x))
    ensures Owned(sb, blocks', inodes, owner - {b}, dead + {s})
  {
    assert owner[b] == s;
    var owner', dead' := owner - {b}, dead + {s};
    forall t | InTable(inodes, t) && t !in dead' && Ref(blocks', inodes[t.ino], t.k) != 0
      ensures Ref(blocks', inodes[t.ino], t.k) in owner'
      ensures owner'[Ref(blocks', inodes[t.ino], t.k)] == t
    {
      assert owner[Ref(blocks, inodes[t.ino], t.k)] == t;
    }
    forall x | x in owner'
      ensures owner[x] !in dead' && Ref(blocks', inodes[owner[x].ino], owner[x].k) == x
    {
      assert InTable(inodes, owner[x]);
    }
  }

  /** Slots that hold nothing need not be kept apart. */
  lemma BuryDead(sb: Super, blocks: Disk, inodes: seq<Inode>, owner: map<nat, Slot>, dead: set<Slot>)
    requires Owned(sb, blocks, inodes, owner, dead)
    requires forall s :: s in dead && InTable(inodes, s) ==> Ref(blocks, inodes[s.ino], s.k) == 0
    ensures Owned(sb, blocks, inodes, owner, {})
  {
  }

  // File contents

  /** The data block of a file block; a hole reads as block 0. */
  function BlockOf(blocks: Disk, ip: Inode, bn: nat): (b: Block)
    requires |ip.addrs| == 13 && ip.addrs[12] < |blocks| && bn < MAXFILE
  {
    var b := Ref(blocks, ip, SlotOf(bn));
    if b < |blocks| then blocks[b] else ZeroBlock()
  }

  function ByteAt(blocks: Disk, ip: Inode, k: nat): (x: Byte)
    requires |ip.addrs| == 13 && ip.addrs[12] < |blocks| && k < MAXFILE * BSIZE
  {
    BlockOf(blocks, ip, k / BSIZE).bytes[k % BSIZE]
  }

  /** The bytes of a file. */
  function Content(blocks: Disk, ip: Inode): (c: seq<Byte>)
    requires |ip.addrs| == 13 && ip.addrs[12] < |blocks| && ip.size <= MAXFILE * BSIZE
    ensures |c| == ip.size
  {
    seq(ip.size, k requires 0 <= k < ip.size => ByteAt(blocks, ip, k))
  }

  /** Exactly the first e file blocks are mapped, and there is an indirect block exactly when it is needed. */
  ghost predicate Extent(blocks: Disk, ip: Inode, e: nat)
    requires |ip.addrs| == 13 && ip.addrs[12] < |blocks|
  {
    && e <= MAXFILE && (ip.addrs[12] != 0 <==> e > NDIRECT)
    && forall bn :: 0 <= bn < MAXFILE ==> (Ref(blocks, ip, SlotOf(bn)) != 0 <==> bn < e)
  }

  /** Blocks that a file of this size occupies. */
  function Span(size: nat): (e: nat) {
    (size + BSIZE - 1) / BSIZE
  }

  /** No holes and nothing mapped beyond the end of any file. */
  ghost predicate Tight(blocks: Disk, inodes: seq<Inode>)
    requires Typed(blocks, inodes)
  {
    forall n :: 0 <= n < |inodes| ==>
      inodes[n].size <= MAXFILE * BSIZE && Extent(blocks, inodes[n], Span(inodes[n].size))
  }

  /** File block c of inode m is the same before and after. */
  ghost predicate SameBlock(blocks: Disk, ip: Inode, blocks': Disk, ip': Inode, c: nat)
    requires |ip.addrs| == 13 && ip.addrs[12] < |blocks| && |ip'.addrs| == 13 && ip'.addrs[12] < |blocks'|
  {
    c < MAXFILE ==> BlockOf(blocks', ip', c) == BlockOf(blocks, ip, c)
  }

  /** Every file block keeps its data, except the one in slot s. */
  ghost predicate OthersKept(blocks: Disk, inodes: seq<Inode>, blocks': Disk, inodes': seq<Inode>, s: Slot)
    requires Typed(blocks, inodes) && Typed(blocks', inodes') && |inodes| == |inodes'|
  {
    forall m, c :: 0 <= m < |inodes| && 0 <= c < MAXFILE && Slot(m, SlotOf(c)) != s ==>
      SameBlock(blocks, inodes[m], blocks', inodes'[m], c)
  }

  lemma AddKeepsOthers(sb: Super, blocks: Disk, inodes: seq<Inode>, owner: map<nat, Slot>,
                       blocks': Disk, inodes': seq<Inode>, s: Slot, r: nat)
    requires Owned(sb, blocks, inodes, owner, {}) && |blocks'| == |blocks| && Typed(blocks', inodes')
    requires OneMoreRef(blocks, inodes, blocks', inodes', s, r)
    requires forall x :: x in owner && owner[x].k != 12 ==> x < |blocks| && blocks'[x] == blocks[x]
    requires blocks'[0] == blocks[0]
    ensures OthersKept(blocks, inodes, blocks', inodes', s)
  {
    forall m, c | 0 <= m < |inodes| && 0 <= c < MAXFILE && Slot(m, SlotOf(c)) != s
      ensures SameBlock(blocks, inodes[m], blocks', inodes'[m], c)
    {
      assert InTable(inodes, Slot(m, SlotOf(c)));
      var b := Ref(blocks, inodes[m], SlotOf(c));
      if b != 0 {
        assert owner[b] == Slot(m, SlotOf(c));
      }
    }
  }

  /** Filling the first empty slot extends the mapped part by one block. */
  lemma ExtentGrows(blocks: Disk, inodes: seq<Inode>, blocks': Disk, inodes': seq<Inode>, n: nat, e: nat, r: nat)
    requires Typed(blocks, inodes) && Typed(blocks', inodes')
    requires n < |inodes| && e < MAXFILE && r != 0
    requires OneMoreRef(blocks, inodes, blocks', inodes', Slot(n, SlotOf(e)), r)
    requires forall bn :: 0 <= bn < MAXFILE ==> (Ref(blocks, inodes[n], SlotOf(bn)) != 0 <==> bn < e)
    requires inodes'[n].addrs[12] != 0 <==> e + 1 > NDIRECT
    ensures Extent(blocks', inodes'[n], e + 1)
  {
    forall bn | 0 <= bn < MAXFILE
      ensures Ref(blocks', inodes'[n], SlotOf(bn)) != 0 <==> bn < e + 1
    {
      assert InTable(inodes, Slot(n, SlotOf(bn)));
      assert Slot(n, SlotOf(bn)) == Slot(n, SlotOf(e)) <==> bn == e;
    }
  }

  /** Other files keep their extents. */
  lemma OthersKeepExtent(blocks: Disk, inodes: seq<Inode>, blocks': Disk, inodes': seq<Inode>, s: Slot, r: nat, m: nat,
                         e: nat)
    requires Typed(blocks, inodes) && Typed(blocks', inodes') && OneMoreRef(blocks, inodes, blocks', inodes', s, r)
    requires m < |inodes| && m != s.ino && Extent(blocks, inodes[m], e)
    ensures Extent(blocks', inodes'[m], e)
  {
    assert InTable(inodes, Slot(m, 12));
    forall bn | 0 <= bn < MAXFILE
      ensures Ref(blocks', inodes'[m], SlotOf(bn)) != 0 <==> bn < e
    {
      assert InTable(inodes, Slot(m, SlotOf(bn)));
    }
  }

  /** Every file block stays where it is, except the one in slot s. */
  ghost predicate OtherRefsKept(blocks: Disk, inodes: seq<Inode>, blocks': Disk, inodes': seq<Inode>, s: Slot)
    requires Typed(blocks, inodes) && Typed(blocks', inodes') && |inodes| == |inodes'|
  {
    forall t :: InTable(inodes, t) && t != s && t.k != 12 ==>
      Ref(blocks', inodes'[t.ino], t.k) == Ref(blocks, inodes[t.ino], t.k)
  }

  /** Apart from free blocks and the bitmap, only inode s.ino's addresses and the file block in slot s change. */
  ghost predicate Grown(blocks: Disk, inodes: seq<Inode>, blocks': Disk, inodes': seq<Inode>, s: Slot) {
    && Typed(blocks, inodes) && Typed(blocks', inodes') && |blocks'| == |blocks|
    && s.ino < |inodes| == |inodes'|
    && inodes' == inodes[s.ino := inodes[s.ino].(addrs := inodes'[s.ino].addrs)]
    && OthersKept(blocks, inodes, blocks', inodes', s) && OtherRefsKept(blocks, inodes, blocks', inodes', s)
    && forall m, e :: 0 <= m < |inodes| && m != s.ino && Extent(blocks, inodes[m], e) ==> Extent(blocks', inodes'[m], e)
  }

  /** Allocating the indirect block first changes no file block. */
  lemma GrownTwice(blocks: Disk, inodes: seq<Inode>, b1: Disk, i1: seq<Inode>, b2: Disk, i2: seq<Inode>, s: Slot)
    requires Grown(blocks, inodes, b1, i1, Slot(s.ino, 12)) && Grown(b1, i1, b2, i2, s)
    ensures Grown(blocks, inodes, b2, i2, s)
  {
    forall m, c | 0 <= m < |inodes| && 0 <= c < MAXFILE && Slot(m, SlotOf(c)) != s
      ensures SameBlock(blocks, inodes[m], b2, i2[m], c)
    {
      assert SameBlock(blocks, inodes[m], b1, i1[m], c);
      assert SameBlock(b1, i1[m], b2, i2[m], c);
    }
    forall t | InTable(inodes, t) && t != s && t.k != 12
      ensures Ref(b2, i2[t.ino], t.k) == Ref(blocks, inodes[t.ino], t.k)
    {
      assert InTable(i1, t);
    }
  }

  lemma AddrGrows(sb: Super, blocks: Disk, inodes: seq<Inode>, owner: map<nat, Slot>, n: nat, k: nat, r: Uint)
    requires Owned(sb, blocks, inodes, owner, {}) && n < |inodes| && k <= 12 && inodes[n].addrs[k] == 0
    requires r < sb.size && !Used(sb, blocks, r)
    ensures Grown(blocks, inodes, Take(sb, blocks, r), WithAddr(inodes, n, k, r), Slot(n, k))
  {
    AllocAddr(sb, blocks, inodes, owner, n, k, r);
    TakeFrame(sb, blocks, inodes, owner, r);
    GrowsBy(sb, blocks, inodes, owner, Take(sb, blocks, r), WithAddr(inodes, n, k, r), Slot(n, k), r);
  }

  lemma EntryFrame(sb: Super, blocks: Disk, inodes: seq<Inode>, owner: map<nat, Slot>, n: nat, i: nat, j: nat, r: Uint)
    requires Owned(sb, blocks, inodes, owner, {}) && r < sb.size && !Used(sb, blocks, r)
    requires n < |inodes| && i == inodes[n].addrs[12] != 0 && j < NINDIRECT
    ensures forall x :: x in owner && owner[x].k != 12 ==>
      x < |blocks| && PutEntry(sb, blocks, i, j, r)[x] == blocks[x]
    ensures PutEntry(sb, blocks, i, j, r)[0] == blocks[0]
  {
    TakeFrame(sb, blocks, inodes, owner, r);
    IndirectOwned(sb, blocks, inodes, owner, {}, n);
  }

  lemma EntryGrows(sb: Super, blocks: Disk, inodes: seq<Inode>, owner: map<nat, Slot>, n: nat, i: nat, j: nat, r: Uint)
    requires Owned(sb, blocks, inodes, owner, {}) && n < |inodes| && j < NINDIRECT
    requires i == inodes[n].addrs[12] != 0 && Word(blocks[i], j) == 0
    requires r < sb.size && !Used(sb, blocks, r)
    ensures Grown(blocks, inodes, PutEntry(sb, blocks, i, j, r), inodes, Slot(n, 13 + j))
  {
    var b' := PutEntry(sb, blocks, i, j, r);
    AllocEntry(sb, blocks, inodes, owner, n, i, j, r);
    EntryFrame(sb, blocks, inodes, owner, n, i, j, r);
    GrowsBy(sb, blocks, inodes, owner, b', inodes, Slot(n, 13 + j), r);
  }

  lemma GrowsBy(sb: Super, blocks: Disk, inodes: seq<Inode>, owner: map<nat, Slot>,
                b': Disk, i': seq<Inode>, s: Slot, r: nat)
    requires Owned(sb, blocks, inodes, owner, {}) && |b'| == |blocks| && Typed(b', i')
    requires OneMoreRef(blocks, inodes, b', i', s, r)
    requires i' == inodes[s.ino := inodes[s.ino].(addrs := i'[s.ino].addrs)]
    requires forall x :: x in owner && owner[x].k != 12 ==> x < |blocks| && b'[x] == blocks[x]
    requires b'[0] == blocks[0]
    ensures Grown(blocks, inodes, b', i', s)
  {
    AddKeepsOthers(sb, blocks, inodes, owner, b', i', s, r);
    forall m, e | 0 <= m < |inodes| && m != s.ino && Extent(blocks, inodes[m], e)
      ensures Extent(b', i'[m], e)
    {
      OthersKeepExtent(blocks, inodes, b', i', s, r, m, e);
    }
  }

  /** What bmap promises for file block bn of inode n, whose first e blocks were mapped; it returns block a. */
  ghost predicate BmapPost(sb: Super, blocks: Disk, inodes: seq<Inode>, blocks': Disk, inodes': seq<Inode>,
                           owner': map<nat, Slot>, n: nat, bn: nat, e: nat, a: nat)
  {
    && Owned(sb, blocks', inodes', owner', {})
    && n < |inodes'| && bn < MAXFILE
    && Grown(blocks, inodes, blocks', inodes', Slot(n, SlotOf(bn)))
    && Extent(blocks', inodes'[n], if bn < e then e else bn + 1)
    && a == Ref(blocks', inodes'[n], SlotOf(bn)) != 0
  }

  /** A block that is mapped already is returned as it is. */
  lemma BmapFound(sb: Super, blocks: Disk, inodes: seq<Inode>, owner: map<nat, Slot>, n: nat, bn: nat, e: nat)
    requires Owned(sb, blocks, inodes, owner, {}) && n < |inodes| && Extent(blocks, inodes[n], e) && bn < e
    ensures BmapPost(sb, blocks, inodes, blocks, inodes, owner, n, bn, e, Ref(blocks, inodes[n], SlotOf(bn)))
  {
  }

  lemma BmapDirect(sb: Super, blocks: Disk, inodes: seq<Inode>, owner: map<nat, Slot>, n: nat, bn: nat, r: Uint)
    requires Owned(sb, blocks, inodes, owner, {}) && n < |inodes| && Extent(blocks, inodes[n], bn) && bn < NDIRECT
    requires r < sb.size && !Used(sb, blocks, r)
    ensures BmapPost(sb, blocks, inodes, Take(sb, blocks, r), WithAddr(inodes, n, bn, r), owner[r := Slot(n, bn)],
                     n, bn, bn, r)
  {
    assert Ref(blocks, inodes[n], SlotOf(bn)) == 0;
    AllocAddr(sb, blocks, inodes, owner, n, bn, r);
    AddrGrows(sb, blocks, inodes, owner, n, bn, r);
    ExtentGrows(blocks, inodes, Take(sb, blocks, r), WithAddr(inodes, n, bn, r), n, bn, r);
  }

  lemma BmapEntry(sb: Super, blocks: Disk, inodes: seq<Inode>, owner: map<nat, Slot>, n: nat, bn: nat, r: Uint)
    requires Owned(sb, blocks, inodes, owner, {}) && n < |inodes| && NDIRECT <= bn < MAXFILE
    requires inodes[n].addrs[12] != 0
    requires forall c :: 0 <= c < MAXFILE ==> (Ref(blocks, inodes[n], SlotOf(c)) != 0 <==> c < bn)
    requires r < sb.size && !Used(sb, blocks, r)
    ensures BmapPost(sb, blocks, inodes, PutEntry(sb, blocks, inodes[n].addrs[12], bn - 12, r), inodes,
                     owner[r := Slot(n, bn + 1)], n, bn, bn, r)
  {
    var i := inodes[n].addrs[12];
    assert Ref(blocks, inodes[n], SlotOf(bn)) == 0;
    AllocEntry(sb, blocks, inodes, owner, n, i, bn - 12, r);
    EntryGrows(sb, blocks, inodes, owner, n, i, bn - 12, r);
    ExtentGrows(blocks, inodes, PutEntry(sb, blocks, i, bn - 12, r), inodes, n, bn, r);
  }

  /** The indirect block is allocated when file block 12 is first needed; no file block changes yet. */
  lemma BmapIndirect(sb: Super, blocks: Disk, inodes: seq<Inode>, owner: map<nat, Slot>, n: nat, r: Uint)
    requires Owned(sb, blocks, inodes, owner, {}) && n < |inodes| && Extent(blocks, inodes[n], NDIRECT)
    requires r < sb.size && !Used(sb, blocks, r)
    ensures var b', i' := Take(sb, blocks, r), WithAddr(inodes, n, 12, r);
            && Owned(sb, b', i', owner[r := Slot(n, 12)], {}) && Grown(blocks, inodes, b', i', Slot(n, 12))
            && i'[n].addrs[12] != 0
            && forall c :: 0 <= c < MAXFILE ==> (Ref(b', i'[n], SlotOf(c)) != 0 <==> c < NDIRECT)
  {
    AllocAddr(sb, blocks, inodes, owner, n, 12, r);
    AddrGrows(sb, blocks, inodes, owner, n, 12, r);
    var b', i' := Take(sb, blocks, r), WithAddr(inodes, n, 12, r);
    forall c | 0 <= c < MAXFILE
      ensures Ref(b', i'[n], SlotOf(c)) != 0 <==> c < NDIRECT
    {
      assert InTable(inodes, Slot(n, SlotOf(c)));
    }
  }

  /** Both allocations of the first indirect file block together. */
  lemma BmapFirstEntry(sb: Super, blocks: Disk, inodes: seq<Inode>, owner: map<nat, Slot>, n: nat, i: Uint, r: Uint)
    requires Owned(sb, blocks, inodes, owner, {}) && n < |inodes| && Extent(blocks, inodes[n], NDIRECT)
    requires i < sb.size && !Used(sb, blocks, i)
    requires r < sb.size && !Used(sb, Take(sb, blocks, i), r)
    ensures BmapPost(sb, blocks, inodes, PutEntry(sb, Take(sb, blocks, i), i, 0, r), WithAddr(inodes, n, 12, i),
                     owner[i := Slot(n, 12)][r := Slot(n, 13)], n, NDIRECT, NDIRECT, r)
  {
    BmapIndirect(sb, blocks, inodes, owner, n, i);
    var b', i', o' := Take(sb, blocks, i), WithAddr(inodes, n, 12, i), owner[i := Slot(n, 12)];
    BmapEntry(sb, b', i', o', n, NDIRECT, r);
    GrownTwice(blocks, inodes, b', i', PutEntry(sb, b', i, 0, r), i', Slot(n, 13));
  }

  /** What bmap does: nothing if bn is mapped, else one or two allocations; i is the indirect block. */
  ghost predicate BmapDoes(sb: Super, blocks: Disk, inodes: seq<Inode>, owner: map<nat, Slot>,
                           blocks': Disk, inodes': seq<Inode>, owner': map<nat, Slot>, n: nat, bn: nat, e: nat, i: Uint,
                           a: Uint)
    requires ValidSuper(sb) && |blocks| == sb.size && Typed(blocks, inodes) && n < |inodes| && bn < MAXFILE
  {
    if bn < e then
      blocks' == blocks && inodes' == inodes && owner' == owner && a == Ref(blocks, inodes[n], SlotOf(bn))
    else if bn < NDIRECT then
      && i == 0 && a < sb.size && !Used(sb, blocks, a)
      && blocks' == Take(sb, blocks, a) && inodes' == WithAddr(inodes, n, bn, a) && owner' == owner[a := Slot(n, bn)]
    else if e == NDIRECT then
      && i < sb.size && !Used(sb, blocks, i) && a < sb.size && !Used(sb, Take(sb, blocks, i), a)
      && blocks' == PutEntry(sb, Take(sb, blocks, i), i, bn - 12, a) && inodes' == WithAddr(inodes, n, 12, i)
      && owner' == owner[i := Slot(n, 12)][a := Slot(n, bn + 1)]
    else
      && i == inodes[n].addrs[12] && a < sb.size && !Used(sb, blocks, a)
      && blocks' == PutEntry(sb, blocks, i, bn - 12, a) && inodes' == inodes && owner' == owner[a := Slot(n, bn + 1)]
  }

  /** Doing that keeps ownership exact, extends the file by at most block bn, and disturbs nothing else. */
  lemma BmapCorrect(sb: Super, blocks: Disk, inodes: seq<Inode>, owner: map<nat, Slot>,
                    blocks': Disk, inodes': seq<Inode>, owner': map<nat, Slot>, n: nat, bn: nat, e: nat, i: Uint,
                    a: Uint)
    requires Owned(sb, blocks, inodes, owner, {}) && n < |inodes| && Extent(blocks, inodes[n], e) && bn <= e
    requires bn < MAXFILE
    requires BmapDoes(sb, blocks, inodes, owner, blocks', inodes', owner', n, bn, e, i, a)
    ensures BmapPost(sb, blocks, inodes, blocks', inodes', owner', n, bn, e, a)
  {
    if bn < e {
      BmapFound(sb, blocks, inodes, owner, n, bn, e);
    } else if bn < NDIRECT {
      BmapDirect(sb, blocks, inodes, owner, n, bn, a);
    } else if e == NDIRECT {
      BmapFirstEntry(sb, blocks, inodes, owner, n, i, a);
    } else {
      BmapEntry(sb, blocks, inodes, owner, n, bn, a);
    }
  }

  // What is logged

  predicate IsBitmapBlock(sb: Super, b: nat)
    requires ValidSuper(sb)
  {
    sb.bmapstart <= b <= sb.bmapstart + (sb.size - 1) / Bitmap.BPB
  }

  /** The most that mapping one block logs: the bitmap, the block itself, and the indirect block if involved. */
  function BmapLogs(sb: Super, i: Uint, a: Uint): (bs: set<nat>) {
    {sb.bmapstart + a / Bitmap.BPB, a} + if i == 0 then {} else {sb.bmapstart + i / Bitmap.BPB, i}
  }

  /** The least that it logs when the block is new. */
  function BmapLeast(sb: Super, i: Uint, a: Uint): (bs: set<nat>) {
    {sb.bmapstart + a / Bitmap.BPB} + if i == 0 then {} else {i}
  }

  lemma HighLogs(sb: Super, l: set<nat>, i: Uint, a: Uint)
    requires i != 0
    ensures l + {sb.bmapstart + a / Bitmap.BPB} + {a} + {i} <= l + BmapLogs(sb, i, a)
    ensures l + {sb.bmapstart + i / Bitmap.BPB} + {i} + {sb.bmapstart + a / Bitmap.BPB} + {a} + {i} <=
            l + BmapLogs(sb, i, a)
  {
  }

  /** The disk blocks of file blocks c0 up to c1. */
  ghost function DataBlocks(blocks: Disk, ip: Inode, c0: nat, c1: nat): (bs: set<nat>)
    requires |ip.addrs| == 13 && ip.addrs[12] < |blocks| && c1 <= MAXFILE
  {
    set c | c0 <= c < c1 :: Ref(blocks, ip, SlotOf(c))
  }

  /**
   Since the log held l0, these blocks have been logged: the data blocks c0 up to c1; if c1 is beyond the e0 blocks
   the file had, a bitmap block or more; if c1 is also beyond the direct blocks, the indirect block. Nothing else.
   */
  ghost predicate LoggedOk(sb: Super, l0: set<nat>, l: set<nat>, blocks: Disk, ip: Inode, c0: nat, c1: nat, e0: nat)
    requires ValidSuper(sb) && |ip.addrs| == 13 && ip.addrs[12] < |blocks| && c1 <= MAXFILE
  {
    && l0 <= l && DataBlocks(blocks, ip, c0, c1) <= l
    && (c1 > e0 ==> exists b :: b in l && IsBitmapBlock(sb, b))
    && (c1 > e0 && c1 > NDIRECT ==> ip.addrs[12] != 0 && ip.addrs[12] in l)
    && forall b :: b in l ==>
         || b in l0 || b in DataBlocks(blocks, ip, c0, c1)
         || (c1 > e0 && IsBitmapBlock(sb, b)) || (c1 > e0 && c1 > NDIRECT && b == ip.addrs[12])
  }

  lemma LogRound(sb: Super, l0: set<nat>, l: set<nat>, l1: set<nat>, blocks: Disk, inodes: seq<Inode>,
                 b': Disk, i': seq<Inode>, n: nat, c0: nat, bn: nat, i: Uint, a: Uint, e0: nat)
    requires ValidSuper(sb) && Typed(blocks, inodes) && Typed(b', i') && n < |inodes| == |i'| && c0 <= bn < MAXFILE
    requires LoggedOk(sb, l0, l, blocks, inodes[n], c0, bn, e0) && i < sb.size && a < sb.size
    requires OtherRefsKept(blocks, inodes, b', i', Slot(n, SlotOf(bn))) && a == Ref(b', i'[n], SlotOf(bn))
    requires inodes[n].addrs[12] != 0 ==> i'[n].addrs[12] == inodes[n].addrs[12]
    requires bn >= e0 && i != 0 ==> i'[n].addrs[12] == i
    requires bn >= e0 ==> (i != 0 <==> bn >= NDIRECT) && BmapLeast(sb, i, a) <= l1
    requires l <= l1 && l1 <= l + if bn >= e0 then BmapLogs(sb, i, a) else {}
    ensures LoggedOk(sb, l0, l1 + {a}, b', i'[n], c0, bn + 1, e0)
  {
    var d, d' := DataBlocks(blocks, inodes[n], c0, bn), DataBlocks(b', i'[n], c0, bn + 1);
    forall c | c0 <= c < bn
      ensures Ref(b', i'[n], SlotOf(c)) == Ref(blocks, inodes[n], SlotOf(c))
    {
      assert InTable(inodes, Slot(n, SlotOf(c)));
    }
    assert d' == d + {a};
    assert a / Bitmap.BPB <= (sb.size - 1) / Bitmap.BPB && i / Bitmap.BPB <= (sb.size - 1) / Bitmap.BPB;
    if bn >= e0 {
      assert IsBitmapBlock(sb, sb.bmapstart + a / Bitmap.BPB) && sb.bmapstart + a / Bitmap.BPB in l1;
    }
  }

  /** The data blocks of a range are all different. */
  lemma CountData(sb: Super, blocks: Disk, inodes: seq<Inode>, owner: map<nat, Slot>, n: nat, e: nat, c0: nat, c1: nat)
    requires Owned(sb, blocks, inodes, owner, {}) && n < |inodes| && Extent(blocks, inodes[n], e) && c0 <= c1 <= e
    ensures |DataBlocks(blocks, inodes[n], c0, c1)| == c1 - c0
  {
    forall c, c' | c0 <= c < c' < c1
      ensures Ref(blocks, inodes[n], SlotOf(c)) != Ref(blocks, inodes[n], SlotOf(c'))
    {
      DistinctData(sb, blocks, inodes, owner, n, e, c, c');
    }
    var f := seq(MAXFILE, c requires 0 <= c < MAXFILE => Ref(blocks, inodes[n], SlotOf(c)));
    assert forall c :: c0 <= c < c1 ==> Ref(blocks, inodes[n], SlotOf(c)) == f[c];
    assert DataBlocks(blocks, inodes[n], c0, c1) == set c | c0 <= c < c1 :: f[c];
    CountDistinct(f, c0, c1);
  }

  lemma {:induction false} CountDistinct(f: seq<nat>, c0: nat, c1: nat)
    requires c0 <= c1 <= |f| && forall c, c' :: c0 <= c < c' < c1 ==> f[c] != f[c']
    ensures |set c | c0 <= c < c1 :: f[c]| == c1 - c0
  {
    if c0 < c1 {
      CountDistinct(f, c0, c1 - 1);
      assert (set c | c0 <= c < c1 :: f[c]) == (set c | c0 <= c < c1 - 1 :: f[c]) + {f[c1 - 1]};
    }
  }

  lemma DistinctData(sb: Super, blocks: Disk, inodes: seq<Inode>, owner: map<nat, Slot>, n: nat, e: nat, c: nat,
                     c': nat)
    requires Owned(sb, blocks, inodes, owner, {}) && n < |inodes| && Extent(blocks, inodes[n], e) && c < c' < e
    ensures Ref(blocks, inodes[n], SlotOf(c)) != Ref(blocks, inodes[n], SlotOf(c'))
  {
    assert InTable(inodes, Slot(n, SlotOf(c)));
    assert InTable(inodes, Slot(n, SlotOf(c')));
  }

  // Writing data

  function Patch(b: Block, o: nat, d: seq<Byte>): (r: Block)
    requires o + |d| <= BSIZE
    ensures forall x :: 0 <= x < BSIZE ==> r.bytes[x] == if o <= x < o + |d| then d[x - o] else b.bytes[x]
  {
    Block(b.bytes[..o] + d + b.bytes[o + |d|..])
  }

  /** Overwriting the data block in slot s changes that file block and nothing else. */
  lemma DataWrite(sb: Super, blocks: Disk, inodes: seq<Inode>, owner: map<nat, Slot>, s: Slot, a: nat, data: Block)
    requires Owned(sb, blocks, inodes, owner, {}) && InTable(inodes, s) && s.k != 12
    requires a == Ref(blocks, inodes[s.ino], s.k) != 0
    ensures a < |blocks| && Owned(sb, blocks[a := data], inodes, owner, {})
    ensures Grown(blocks, inodes, blocks[a := data], inodes, s)
    ensures SameRefs(blocks, inodes, blocks[a := data], inodes, {})
  {
    var b' := blocks[a := data];
    WriteDataKeeps(sb, blocks, inodes, owner, a, data);
    forall m, c | 0 <= m < |inodes| && 0 <= c < MAXFILE && Slot(m, SlotOf(c)) != s
      ensures SameBlock(blocks, inodes[m], b', inodes[m], c)
    {
      assert InTable(inodes, Slot(m, SlotOf(c)));
      var x := Ref(blocks, inodes[m], SlotOf(c));
      assert x != 0 ==> owner[x] == Slot(m, SlotOf(c));
    }
    forall m, e | 0 <= m < |inodes| && m != s.ino && Extent(blocks, inodes[m], e)
      ensures Extent(b', inodes[m], e)
    {
      SameExtent(blocks, inodes, b', inodes, m, e);
    }
  }

  lemma SameExtent(blocks: Disk, inodes: seq<Inode>, blocks': Disk, inodes': seq<Inode>, m: nat, e: nat)
    requires Typed(blocks, inodes) && Typed(blocks', inodes') && SameRefs(blocks, inodes, blocks', inodes', {})
    requires m < |inodes| && Extent(blocks, inodes[m], e)
    ensures Extent(blocks', inodes'[m], e)
  {
    assert InTable(inodes, Slot(m, 12));
    forall bn | 0 <= bn < MAXFILE
      ensures Ref(blocks', inodes'[m], SlotOf(bn)) != 0 <==> bn < e
    {
      assert InTable(inodes, Slot(m, SlotOf(bn)));
    }
  }

  lemma GrownTrans(blocks: Disk, inodes: seq<Inode>, b1: Disk, i1: seq<Inode>, b2: Disk, i2: seq<Inode>, s: Slot)
    requires Grown(blocks, inodes, b1, i1, s) && Grown(b1, i1, b2, i2, s)
    ensures Grown(blocks, inodes, b2, i2, s)
  {
    forall m, c | 0 <= m < |inodes| && 0 <= c < MAXFILE && Slot(m, SlotOf(c)) != s
      ensures SameBlock(blocks, inodes[m], b2, i2[m], c)
    {
      assert SameBlock(blocks, inodes[m], b1, i1[m], c);
      assert SameBlock(b1, i1[m], b2, i2[m], c);
    }
    forall t | InTable(inodes, t) && t != s && t.k != 12
      ensures Ref(b2, i2[t.ino], t.k) == Ref(blocks, inodes[t.ino], t.k)
    {
      assert InTable(i1, t);
    }
  }

  /** One round of writei's loop: map file block bn, then put d at offset o of it. */
  ghost predicate Round(sb: Super, blocks: Disk, inodes: seq<Inode>, b': Disk, i': seq<Inode>, o': map<nat, Slot>,
                        n: nat, bn: nat, e: nat, o: nat, d: seq<Byte>)
    requires Typed(blocks, inodes) && n < |inodes| && bn < MAXFILE && o + |d| <= BSIZE
  {
    && Owned(sb, b', i', o', {}) && Grown(blocks, inodes, b', i', Slot(n, SlotOf(bn)))
    && Extent(b', i'[n], if bn < e then e else bn + 1)
    && forall x :: 0 <= x < BSIZE && (bn < e || o <= x < o + |d|) ==>
         BlockOf(b', i'[n], bn).bytes[x] == if o <= x < o + |d| then d[x - o]
             else BlockOf(blocks, inodes[n], bn).bytes[x]
  }

  lemma SlotInRange(sb: Super, blocks: Disk, inodes: seq<Inode>, owner: map<nat, Slot>, s: Slot)
    requires Owned(sb, blocks, inodes, owner, {}) && InTable(inodes, s)
    ensures Ref(blocks, inodes[s.ino], s.k) < |blocks|
  {
  }

  lemma RoundCorrect(sb: Super, blocks: Disk, inodes: seq<Inode>,
                     b1: Disk, i1: seq<Inode>, o1: map<nat, Slot>, n: nat, bn: nat, e: nat, a: nat, o: nat,
                     d: seq<Byte>)
    requires Typed(blocks, inodes) && n < |inodes| && bn < MAXFILE && o + |d| <= BSIZE
    requires BmapPost(sb, blocks, inodes, b1, i1, o1, n, bn, e, a) && (bn < e ==> b1 == blocks && i1 == inodes)
    ensures a < |b1|
    ensures Round(sb, blocks, inodes, b1[a := Patch(b1[a], o, d)], i1, o1, n, bn, e, o, d)
  {
    hide OwnersRefer, RefsOwned, BitmapOk, Extent;
    var s := Slot(n, SlotOf(bn));
    assert InTable(i1, s);
    SlotInRange(sb, b1, i1, o1, s);
    DataWrite(sb, b1, i1, o1, s, a, Patch(b1[a], o, d));
    var b2 := b1[a := Patch(b1[a], o, d)];
    GrownTrans(blocks, inodes, b1, i1, b2, i1, s);
    SameExtent(b1, i1, b2, i1, n, if bn < e then e else bn + 1);
    assert Ref(b2, i1[n], SlotOf(bn)) == a;
  }

  function Max(a: nat, b: nat): (m: nat) {
    if a < b then b else a
  }

  /**
   writei of src at off0, started on (b0, i0), has written up to off: those bytes are in place, the
   rest of the file and all other files are as they were.
   */
  ghost predicate Writing(sb: Super, b0: Disk, i0: seq<Inode>, blocks: Disk, inodes: seq<Inode>, owner: map<nat, Slot>,
                          n: nat, off0: nat, off: nat, src: seq<Byte>)
  {
    && Typed(b0, i0) && Owned(sb, blocks, inodes, owner, {})
    && n < |i0| == |inodes| && inodes == i0[n := i0[n].(addrs := inodes[n].addrs)]
    && off0 <= off <= off0 + |src| <= MAXFILE * BSIZE && off0 <= i0[n].size <= MAXFILE * BSIZE
    && Extent(blocks, inodes[n], Max(Span(i0[n].size), Span(off)))
    && (forall m :: 0 <= m < |i0| && m != n ==>
          i0[m].size <= MAXFILE * BSIZE && Extent(blocks, inodes[m], Span(i0[m].size)))
    && (forall m, c :: 0 <= m < |i0| && 0 <= c < MAXFILE && m != n ==> SameBlock(b0, i0[m], blocks, inodes[m], c))
    && (forall k :: 0 <= k < Max(i0[n].size, off) ==>
          ByteAt(blocks, inodes[n], k) == if off0 <= k < off then src[k - off0] else ByteAt(b0, i0[n], k))
  }

  lemma WritingStarts(sb: Super, blocks: Disk, inodes: seq<Inode>, owner: map<nat, Slot>, n: nat, off: nat,
                      src: seq<Byte>)
    requires Owned(sb, blocks, inodes, owner, {}) && Tight(blocks, inodes) && n < |inodes|
    requires off <= inodes[n].size && off + |src| <= MAXFILE * BSIZE
    ensures Writing(sb, blocks, inodes, blocks, inodes, owner, n, off, off, src)
  {
  }

  /** A round of the loop writes the next m bytes. */
  lemma WritingAdvances(sb: Super, b0: Disk, i0: seq<Inode>, blocks: Disk, inodes: seq<Inode>, owner: map<nat, Slot>,
                        b': Disk, i': seq<Inode>, o': map<nat, Slot>, n: nat, off0: nat, off: nat, m: nat,
                        src: seq<Byte>)
    requires Writing(sb, b0, i0, blocks, inodes, owner, n, off0, off, src)
    requires 0 < m && off + m <= off0 + |src| && off % BSIZE + m <= BSIZE
    requires m == BSIZE - off % BSIZE || off + m == off0 + |src|
    requires off % BSIZE == 0 || off == off0
    requires off / BSIZE < MAXFILE
    requires Round(sb, blocks, inodes, b', i', o', n, off / BSIZE, Max(Span(i0[n].size), Span(off)),
                   off % BSIZE, src[off - off0..off - off0 + m])
    ensures Writing(sb, b0, i0, b', i', o', n, off0, off + m, src)
  {
    SpanGrows(i0[n].size, off, m);
    forall k | 0 <= k < Max(i0[n].size, off + m)
      ensures ByteAt(b', i'[n], k) == if off0 <= k < off + m then src[k - off0] else ByteAt(b0, i0[n], k)
    {
      AdvanceByte(sb, b0, i0, blocks, inodes, owner, b', i', o', n, off0, off, m, src, k);
    }
    forall j, c | 0 <= j < |i0| && 0 <= c < MAXFILE && j != n
      ensures SameBlock(b0, i0[j], b', i'[j], c)
    {
      assert SameBlock(b0, i0[j], blocks, inodes[j], c);
      assert SameBlock(blocks, inodes[j], b', i'[j], c);
    }
  }

  /** The blocks in use once the next m bytes are written. */
  lemma SpanGrows(size: nat, off: nat, m: nat)
    requires 0 < m && off % BSIZE + m <= BSIZE
    ensures Span(off + m) == off / BSIZE + 1
    ensures var bn, e := off / BSIZE, Max(Span(size), Span(off));
            bn <= e ==> (if bn < e then e else bn + 1) == Max(Span(size), Span(off + m))
    ensures off / BSIZE == Max(Span(size), Span(off)) ==> size <= off / BSIZE * BSIZE && off == off / BSIZE * BSIZE
    ensures off <= size || off % BSIZE == 0 ==> off / BSIZE <= Max(Span(size), Span(off))
  {
    var bn := off / BSIZE;
    assert off == bn * BSIZE + off % BSIZE;
  }

  lemma AdvanceByte(sb: Super, b0: Disk, i0: seq<Inode>, blocks: Disk, inodes: seq<Inode>, owner: map<nat, Slot>,
                    b': Disk, i': seq<Inode>, o': map<nat, Slot>, n: nat, off0: nat, off: nat, m: nat, src: seq<Byte>,
                    k: nat)
    requires Writing(sb, b0, i0, blocks, inodes, owner, n, off0, off, src)
    requires 0 < m && off + m <= off0 + |src| && off % BSIZE + m <= BSIZE
    requires off % BSIZE == 0 || off == off0
    requires off / BSIZE < MAXFILE && k < Max(i0[n].size, off + m)
    requires Round(sb, blocks, inodes, b', i', o', n, off / BSIZE, Max(Span(i0[n].size), Span(off)),
                   off % BSIZE, src[off - off0..off - off0 + m])
    ensures ByteAt(b', i'[n], k) == if off0 <= k < off + m then src[k - off0] else ByteAt(b0, i0[n], k)
  {
    var bn, x := off / BSIZE, k % BSIZE;
    SpanGrows(i0[n].size, off, m);
    if k / BSIZE == bn {
      RoundByte(off, m, k);
      if off <= k < off + m {
        assert src[off - off0..off - off0 + m][x - off % BSIZE] == src[k - off0];
      } else {
        assert bn < Max(Span(i0[n].size), Span(off));
        assert ByteAt(b', i'[n], k) == ByteAt(blocks, inodes[n], k);
      }
    } else {
      assert SameBlock(blocks, inodes[n], b', i'[n], k / BSIZE);
      assert k < off || off + m <= k;
      assert ByteAt(b', i'[n], k) == ByteAt(blocks, inodes[n], k);
    }
  }

  lemma RoundByte(off: nat, m: nat, k: nat)
    requires 0 < m && off % BSIZE + m <= BSIZE && k / BSIZE == off / BSIZE
    ensures off <= k < off + m <==> off % BSIZE <= k % BSIZE < off % BSIZE + m
    ensures k - off == k % BSIZE - off % BSIZE
  {
  }

  /** Overwrite from off on, extending the sequence if d reaches past its end. */
  function Splice(c: seq<Byte>, off: nat, d: seq<Byte>): (r: seq<Byte>)
    requires off <= |c|
  {
    c[..off] + d + if off + |d| < |c| then c[off + |d|..] else []
  }

  /** One file is spliced, every other keeps its inode and contents. */
  ghost predicate Spliced(b0: Disk, i0: seq<Inode>, blocks: Disk, inodes: seq<Inode>, n: nat, off: nat, src: seq<Byte>)
    requires Typed(b0, i0) && Tight(b0, i0) && Typed(blocks, inodes) && Tight(blocks, inodes)
  {
    && n < |i0| == |inodes| && off <= i0[n].size && inodes[n].kind == i0[n].kind
    && Content(blocks, inodes[n]) == Splice(Content(b0, i0[n]), off, src)
    && forall m :: 0 <= m < |i0| && m != n ==> inodes[m] == i0[m] && Content(blocks, inodes[m]) == Content(b0, i0[m])
  }

  function WithSize(inodes: seq<Inode>, n: nat, size: nat): (r: seq<Inode>)
    requires n < |inodes|
  {
    inodes[n := inodes[n].(size := size)]
  }

  /** When the loop is done and the size updated, the write is a splice. */
  lemma WritingDone(sb: Super, b0: Disk, i0: seq<Inode>, blocks: Disk, inodes: seq<Inode>, owner: map<nat, Slot>,
                    n: nat, off: nat, src: seq<Byte>)
    requires Typed(b0, i0) && Tight(b0, i0) && Writing(sb, b0, i0, blocks, inodes, owner, n, off, off + |src|, src)
    ensures var inodes' := WithSize(inodes, n, Max(i0[n].size, off + |src|));
            && Owned(sb, blocks, inodes', owner, {}) && Tight(blocks, inodes')
            && Spliced(b0, i0, blocks, inodes', n, off, src)
  {
    var size := Max(i0[n].size, off + |src|);
    var inodes' := WithSize(inodes, n, size);
    assert Span(size) == Max(Span(i0[n].size), Span(off + |src|));
    Resized(sb, blocks, inodes, owner, n, size);
    forall m | 0 <= m < |i0| && m != n
      ensures Content(blocks, inodes'[m]) == Content(b0, i0[m])
    {
      OtherContent(b0, i0[m], blocks, inodes'[m]);
    }
    SpliceContent(b0, i0[n], blocks, inodes[n], off, src);
  }

  lemma SpliceContent(b0: Disk, ip0: Inode, blocks: Disk, ip: Inode, off: nat, src: seq<Byte>)
    requires |ip0.addrs| == 13 && ip0.addrs[12] < |b0| && |ip.addrs| == 13 && ip.addrs[12] < |blocks|
    requires off <= ip0.size && ip0.size <= MAXFILE * BSIZE && off + |src| <= MAXFILE * BSIZE
    requires forall k :: 0 <= k < Max(ip0.size, off + |src|) ==>
      ByteAt(blocks, ip, k) == if off <= k < off + |src| then src[k - off] else ByteAt(b0, ip0, k)
    ensures Content(blocks, ip.(size := Max(ip0.size, off + |src|))) == Splice(Content(b0, ip0), off, src)
  {
    var ip' := ip.(size := Max(ip0.size, off + |src|));
    forall k | 0 <= k < ip'.size
      ensures Content(blocks, ip')[k] == Splice(Content(b0, ip0), off, src)[k]
    {
      assert ByteAt(blocks, ip', k) == ByteAt(blocks, ip, k);
    }
  }

  /** Changing only a size touches no slot. */
  lemma Resized(sb: Super, blocks: Disk, inodes: seq<Inode>, owner: map<nat, Slot>, n: nat, size: nat)
    requires Owned(sb, blocks, inodes, owner, {}) && n < |inodes| && Extent(blocks, inodes[n], Span(size))
    requires size <= MAXFILE * BSIZE
    requires forall m :: 0 <= m < |inodes| && m != n ==>
      inodes[m].size <= MAXFILE * BSIZE && Extent(blocks, inodes[m], Span(inodes[m].size))
    ensures Owned(sb, blocks, WithSize(inodes, n, size), owner, {}) && Tight(blocks, WithSize(inodes, n, size))
  {
    var inodes' := WithSize(inodes, n, size);
    assert forall s :: InTable(inodes, s) ==> Ref(blocks, inodes'[s.ino], s.k) == Ref(blocks, inodes[s.ino], s.k);
    OwnedFrame(sb, blocks, inodes, owner, {}, blocks, inodes');
    SameExtent(blocks, inodes, blocks, inodes', n, Span(size));
  }

  lemma OtherContent(b0: Disk, ip: Inode, blocks: Disk, ip': Inode)
    requires |ip.addrs| == 13 && ip.addrs[12] < |b0| && |ip'.addrs| == 13 && ip'.addrs[12] < |blocks|
    requires ip.size == ip'.size <= MAXFILE * BSIZE
    requires forall c :: 0 <= c < MAXFILE ==> SameBlock(b0, ip, blocks, ip', c)
    ensures Content(blocks, ip') == Content(b0, ip)
  {
    forall k | 0 <= k < ip.size
      ensures Content(blocks, ip')[k] == Content(b0, ip)[k]
    {
      assert SameBlock(b0, ip, blocks, ip', k / BSIZE);
    }
  }

  // Truncation

  function ZeroAddrs(): (a: seq<Uint>) {
    seq(13, _ => 0)
  }

  /** Blocks 0 and up from nmeta are the same; only metadata may differ. */
  ghost predicate SameData(sb: Super, blocks: Disk, blocks': Disk) {
    |blocks'| == |blocks| && forall x :: 0 <= x < |blocks| && (x == 0 || x >= sb.nmeta) ==> blocks'[x] == blocks[x]
  }

  /** The first j entries of inode n's indirect block. */
  ghost function DeadEntries(n: nat, j: nat): (d: set<Slot>) {
    set k | 13 <= k < 13 + j :: Slot(n, k)
  }

  /** An empty slot may be discarded. */
  lemma KillEmpty(sb: Super, blocks: Disk, inodes: seq<Inode>, owner: map<nat, Slot>, dead: set<Slot>, s: Slot)
    requires Owned(sb, blocks, inodes, owner, dead) && InTable(inodes, s) && Ref(blocks, inodes[s.ino], s.k) == 0
    ensures Owned(sb, blocks, inodes, owner, dead + {s})
  {
  }

  /** Zeroing an address whose slot is dead; with the indirect block go its entries, dead already. */
  lemma ClearAddr(sb: Super, blocks: Disk, inodes: seq<Inode>, owner: map<nat, Slot>, n: nat, k: nat, dead: set<Slot>)
    requires n < |inodes| && k <= 12 && Owned(sb, blocks, inodes, owner, dead + {Slot(n, k)})
    requires dead == if k == 12 then DeadEntries(n, NINDIRECT) else {}
    ensures Owned(sb, blocks, WithAddr(inodes, n, k, 0), owner, {})
  {
    var inodes' := WithAddr(inodes, n, k, 0);
    var dead' := dead + {Slot(n, k)};
    forall s | InTable(inodes, s) && s !in dead'
      ensures Ref(blocks, inodes'[s.ino], s.k) == Ref(blocks, inodes[s.ino], s.k)
    {
      assert k == 12 && 12 < s.k ==> Slot(n, s.k) in dead;
    }
    OwnedFrame(sb, blocks, inodes, owner, dead', blocks, inodes');
    BuryDead(sb, blocks, inodes', owner, dead');
  }

  /** A file none of whose blocks changed keeps its extent and contents. */
  lemma FileKept(sb: Super, b0: Disk, i0: seq<Inode>, o0: map<nat, Slot>, blocks: Disk, m: nat)
    requires Owned(sb, b0, i0, o0, {}) && Tight(b0, i0) && m < |i0| && SameData(sb, b0, blocks)
    ensures Extent(blocks, i0[m], Span(i0[m].size)) && Content(blocks, i0[m]) == Content(b0, i0[m])
  {
    var ip := i0[m];
    if ip.addrs[12] != 0 {
      IndirectOwned(sb, b0, i0, o0, {}, m);
    }
    forall c | 0 <= c < MAXFILE
      ensures Ref(blocks, ip, SlotOf(c)) == Ref(b0, ip, SlotOf(c)) && SameBlock(b0, ip, blocks, ip, c)
    {
      assert InTable(i0, Slot(m, SlotOf(c)));
    }
    OtherContent(b0, ip, blocks, ip);
  }

  lemma Truncated(sb: Super, b0: Disk, i0: seq<Inode>, o0: map<nat, Slot>, blocks: Disk, inodes: seq<Inode>,
                  owner: map<nat, Slot>, n: nat)
    requires Owned(sb, b0, i0, o0, {}) && Tight(b0, i0) && n < |i0| && SameData(sb, b0, blocks)
    requires inodes == i0[n := Inode(i0[n].kind, i0[n].size, ZeroAddrs())] && Owned(sb, blocks, inodes, owner, {})
    ensures Owned(sb, blocks, WithSize(inodes, n, 0), owner, {}) && Tight(blocks, WithSize(inodes, n, 0))
    ensures forall m :: 0 <= m < |inodes| && m != n ==> Content(blocks, inodes[m]) == Content(b0, i0[m])
  {
    forall m | 0 <= m < |i0| && m != n
      ensures Extent(blocks, inodes[m], Span(inodes[m].size)) && Content(blocks, inodes[m]) == Content(b0, i0[m])
    {
      FileKept(sb, b0, i0, o0, blocks, m);
    }
    Resized(sb, blocks, inodes, owner, n, 0);
  }

  // Reading

  function Min(a: nat, b: nat): (m: nat) {
    if a < b then a else b
  }

  lemma SpanCovers(size: nat, k: nat)
    requires k < size <= MAXFILE * BSIZE
    ensures k / BSIZE < Span(size) <= MAXFILE
  {
  }

  /** A mapped file block lies on the disk. */
  lemma MappedInRange(sb: Super, blocks: Disk, inodes: seq<Inode>, owner: map<nat, Slot>, n: nat, bn: nat)
    requires Owned(sb, blocks, inodes, owner, {}) && n < |inodes| && bn < MAXFILE
    ensures Ref(blocks, inodes[n], SlotOf(bn)) < |blocks|
  {
    assert InTable(inodes, Slot(n, SlotOf(bn)));
  }

  /** The next m bytes come from one block. */
  lemma ReadAdvances(blocks: Disk, ip: Inode, off: nat, cur: nat, m: nat)
    requires |ip.addrs| == 13 && ip.addrs[12] < |blocks| && off <= cur && cur + m <= ip.size <= MAXFILE * BSIZE
    requires cur % BSIZE + m <= BSIZE && cur < ip.size
    requires Ref(blocks, ip, SlotOf(cur / BSIZE)) < |blocks|
    ensures Content(blocks, ip)[off..cur + m] == Content(blocks, ip)[off..cur] +
            blocks[Ref(blocks, ip, SlotOf(cur / BSIZE))].bytes[cur % BSIZE..cur % BSIZE + m]
  {
    var d := blocks[Ref(blocks, ip, SlotOf(cur / BSIZE))].bytes[cur % BSIZE..cur % BSIZE + m];
    forall k | cur <= k < cur + m
      ensures Content(blocks, ip)[k] == d[k - cur]
    {
      assert k / BSIZE == cur / BSIZE && k % BSIZE == cur % BSIZE + (k - cur);
    }
    assert Content(blocks, ip)[cur..cur + m] == d;
  }

  // The code

  datatype Outcome = Ok | Panic

  /** The disk is full. */
  ghost predicate AllUsed(sb: Super, blocks: Disk) {
    ValidSuper(sb) && |blocks| == sb.size && forall x :: 0 <= x < sb.size ==> Used(sb, blocks, x)
  }

  /** writei's results: the count, -1, or the panic of balloc. */
  datatype Result = Wrote(n: nat) | Refused | OutOfBlocks

  /** The disk as the cache shows it, and the inodes. `logged` collects the blocks passed to log_write. */
  class FileSys {
    const sb: Super
    var blocks: Disk
    var inodes: seq<Inode>
    ghost var owner: map<nat, Slot>
    ghost var logged: set<nat>

    ghost predicate Consistent()
      reads this
    {
      Owned(sb, blocks, inodes, owner, {})
    }

    /** Mount a disk that satisfies the invariant. */
    constructor (sb: Super, blocks: Disk, inodes: seq<Inode>, ghost owner: map<nat, Slot>)
      requires Owned(sb, blocks, inodes, owner, {}) && Tight(blocks, inodes) && InodesFit(sb, |inodes|)
      ensures Valid() && this.sb == sb && this.blocks == blocks && this.inodes == inodes && logged == {}
    {
      this.sb, this.blocks, this.inodes, this.owner, logged := sb, blocks, inodes, owner, {};
    }

    /** What every call finds and leaves: exact ownership, and no holes. */
    ghost predicate Valid()
      reads this
    {
      Consistent() && Tight(blocks, inodes) && InodesFit(sb, |inodes|)
    }

    /** The lowest free block, marked and zeroed; None is the panic "out of blocks". */
    method Balloc() returns (r: Option<Uint>)
      requires ValidSuper(sb) && |blocks| == sb.size
      modifies `blocks, `logged
      ensures r.Some? ==>
        && r.value < sb.size && !Used(sb, old(blocks), r.value) && blocks == Take(sb, old(blocks), r.value)
        && (forall x :: 0 <= x < r.value ==> Used(sb, old(blocks), x)) && blocks[r.value] == ZeroBlock()
        && logged == old(logged) + {sb.bmapstart + r.value / 4096} + {r.value}
      ensures r.None? ==>
        blocks == old(blocks) && logged == old(logged) && AllUsed(sb, blocks)
    {
      var b := 0;
      while b < sb.size
        invariant 0 <= b && b % Bitmap.BPB == 0
        invariant forall x :: 0 <= x < b && x < sb.size ==> Used(sb, blocks, x)
        invariant blocks == old(blocks) && logged == old(logged)
      {
        var bm := sb.bmapstart + b / Bitmap.BPB;
        var bp := blocks[bm];
        var bi := 0;
        while bi < Bitmap.BPB && b + bi < sb.size
          invariant 0 <= bi <= Bitmap.BPB
          invariant forall x :: 0 <= x < b + bi && x < sb.size ==> Used(sb, blocks, x)
        {
          assert (b + bi) / Bitmap.BPB == b / Bitmap.BPB && (b + bi) % Bitmap.BPB == bi;
          if !Bitmap.Get(bp, bi) {
            bp := Bitmap.Set(bp, bi, true);
            blocks := blocks[bm := bp];
            logged := logged + {bm};
            blocks := blocks[b + bi := ZeroBlock()];
            logged := logged + {b + bi};
            return Some(b + bi);
          }
          bi := bi + 1;
        }
        b := b + Bitmap.BPB;
      }
      return None;
    }

    /** Clear a block's bit; freeing a free block panics. */
    method Bfree(b: nat) returns (r: Outcome)
      requires ValidSuper(sb) && |blocks| == sb.size && b < sb.size
      modifies `blocks, `logged
      ensures r == Panic <==> !Used(sb, old(blocks), b)
      ensures r == Panic ==> blocks == old(blocks) && logged == old(logged)
      ensures r == Ok ==>
        && blocks == Mark(sb, old(blocks), b, false) && logged == old(logged) + {sb.bmapstart + b / 4096}
        && forall x :: 0 <= x < sb.size ==> (Used(sb, blocks, x) <==> x != b && Used(sb, old(blocks), x))
    {
      var bm, bi := sb.bmapstart + b / Bitmap.BPB, b % Bitmap.BPB;
      if !Bitmap.Get(blocks[bm], bi) {
        return Panic;
      }
      MarkUsed(sb, blocks, b, false);
      blocks := blocks[bm := Bitmap.Set(blocks[bm], bi, false)];
      logged := logged + {bm};
      return Ok;
    }
  
    /** bmap for an address of the inode: the block there, allocated if there was none. */
    method MapAddr(n: nat, k: nat) returns (r: Option<Uint>)
      requires ValidSuper(sb) && |blocks| == sb.size && n < |inodes| && |inodes[n].addrs| == 13 && k <= 12
      modifies `blocks, `inodes, `owner, `logged
      ensures old(inodes)[n].addrs[k] != 0 ==>
        && r.Some? && r.value == old(inodes)[n].addrs[k]
        && blocks == old(blocks) && inodes == old(inodes) && owner == old(owner) && logged == old(logged)
      ensures r.Some? && old(inodes)[n].addrs[k] == 0 ==>
        && r.value < sb.size && !Used(sb, old(blocks), r.value)
        && blocks == Take(sb, old(blocks), r.value) && inodes == WithAddr(old(inodes), n, k, r.value)
        && owner == old(owner)[r.value := Slot(n, k)]
        && logged == old(logged) + {sb.bmapstart + r.value / Bitmap.BPB} + {r.value}
      ensures r.None? ==> AllUsed(sb, blocks)
    {
      var addr := inodes[n].addrs[k];
      if addr != 0 {
        return Some(addr);
      }
      r := Balloc();
      if r.Some? {
        inodes := inodes[n := inodes[n].(addrs := inodes[n].addrs[k := r.value])];
        owner := owner[r.value := Slot(n, k)];
      }
    }

    /** bmap for an entry of the indirect block. */
    method MapEntry(n: nat, j: nat) returns (r: Option<Uint>)
      requires ValidSuper(sb) && |blocks| == sb.size && n < |inodes| && |inodes[n].addrs| == 13 && j < NINDIRECT
      requires 0 < inodes[n].addrs[12] < sb.size
      modifies `blocks, `owner, `logged
      ensures var i := inodes[n].addrs[12];
        && (Word(old(blocks)[i], j) != 0 ==>
              && r.Some? && r.value == Word(old(blocks)[i], j)
              && blocks == old(blocks) && owner == old(owner) && logged == old(logged))
        && (r.Some? && Word(old(blocks)[i], j) == 0 ==>
              && r.value < sb.size && !Used(sb, old(blocks), r.value)
              && blocks == PutEntry(sb, old(blocks), i, j, r.value)
              && owner == old(owner)[r.value := Slot(n, 13 + j)]
              && logged == old(logged) + {sb.bmapstart + r.value / Bitmap.BPB} + {r.value} + {i})
      ensures r.None? ==> AllUsed(sb, blocks)
    {
      var i := inodes[n].addrs[12];
      var addr := Word(blocks[i], j);
      if addr != 0 {
        return Some(addr);
      }
      r := Balloc();
      if r.Some? {
        blocks := blocks[i := SetWord(blocks[i], j, r.value)];
        logged := logged + {i};
        owner := owner[r.value := Slot(n, 13 + j)];
      }
    }
  
    /** The disk block of file block bn, allocated if bn is the first unmapped block. None is balloc's panic. */
    method Bmap(n: nat, bn: nat, ghost e: nat) returns (r: Option<Uint>, ghost i: Uint)
      requires Consistent() && n < |inodes| && Extent(blocks, inodes[n], e) && bn <= e && bn < MAXFILE
      modifies `blocks, `inodes, `owner, `logged
      ensures r.Some? ==>
        BmapDoes(sb, old(blocks), old(inodes), old(owner), blocks, inodes, owner, n, bn, e, i, r.value) == true
      ensures r.Some? ==> old(logged) <= logged <= old(logged) + BmapLogs(sb, i, r.value)
      ensures r.Some? && bn >= e ==> BmapLeast(sb, i, r.value) <= logged
      ensures bn < e ==> r.Some? && logged == old(logged)
      ensures r.None? ==> AllUsed(sb, blocks) == true
    {
      assert Ref(blocks, inodes[n], SlotOf(bn)) != 0 <==> bn < e;
      if bn < NDIRECT {
        i := 0;
        r := MapAddr(n, bn);
      } else {
        r, i := BmapHigh(n, bn, e);
      }
    }

    /** bmap through the indirect block. */
    method BmapHigh(n: nat, bn: nat, ghost e: nat) returns (r: Option<Uint>, ghost i: Uint)
      requires ValidSuper(sb) && |blocks| == sb.size && n < |inodes| && NDIRECT <= bn <= e && bn < MAXFILE
      requires |inodes[n].addrs| == 13 && inodes[n].addrs[12] < sb.size && (inodes[n].addrs[12] != 0 <==> e > NDIRECT)
      requires (Ref(blocks, inodes[n], SlotOf(bn)) != 0 <==> bn < e) && Used(sb, blocks, 0)
      modifies `blocks, `inodes, `owner, `logged
      ensures r.Some? ==>
        Typed(old(blocks), old(inodes)) ==>
        BmapDoes(sb, old(blocks), old(inodes), old(owner), blocks, inodes, owner, n, bn, e, i, r.value) == true
      ensures r.Some? ==> old(logged) <= logged <= old(logged) + BmapLogs(sb, i, r.value)
      ensures r.Some? && bn >= e ==> BmapLeast(sb, i, r.value) <= logged
      ensures bn < e ==> r.Some? && logged == old(logged)
      ensures r.None? ==> AllUsed(sb, blocks) == true
    {
      hide AllUsed, PutEntry, BmapLogs, Mark, Used;
      var ind := MapAddr(n, 12);
      if ind.None? {
        i := 0;
        r := None;
        return;
      }
      i := ind.value;
      if e == NDIRECT {
        ZeroWord(0);
      }
      r := MapEntry(n, bn - NDIRECT);
      if r.Some? {
        HighLogs(sb, old(logged), i, r.value);
      }
    }
  
    /**
     Write src at off. The file becomes the splice; every other file keeps its inode and contents.
     All blocks logged are the file's data blocks in range, its indirect block, bitmap blocks and
     its inode's block.
     */
    method Writei(n: nat, src: seq<Byte>, off: Uint) returns (r: Result)
      requires Valid() && n < |inodes| && |src| < 0x1_0000_0000
      modifies `blocks, `inodes, `owner, `logged
      ensures r.Refused? <==> off > old(inodes)[n].size || off + |src| > 140 * 512
      ensures r.Refused? ==>
        blocks == old(blocks) && inodes == old(inodes) && owner == old(owner) && logged == old(logged)
      ensures r.Wrote? ==>
        r.n == |src| && Valid() == true && Spliced(old(blocks), old(inodes), blocks, inodes, n, off, src) == true
      ensures r.Wrote? ==>
        WriteLogs(sb, old(logged), logged, blocks, inodes, n, off, |src|, old(inodes)[n].size) == true
      ensures r.OutOfBlocks? ==> AllUsed(sb, blocks) == true && off + |src| > old(inodes)[n].size
    {
      hide OwnersRefer, RefsOwned, BitmapOk, Extent, Content, Progress, AllUsed, WriteLogs, Spliced;
      var end := (off + |src|) % 0x1_0000_0000;
      if off > inodes[n].size || end < off {
        return Refused;
      }
      if end > MAXFILE * BSIZE {
        return Refused;
      }
      ghost var b0, i0, l0 := blocks, inodes, logged;
      ProgressStarts(sb, blocks, inodes, owner, logged, n, off, src);
      var ok := WriteAll(n, src, off, b0, i0, l0);
      if !ok {
        return OutOfBlocks;
      }
      ProgressDone(sb, b0, i0, l0, blocks, inodes, owner, logged, n, off, src);
      if |src| > 0 && off + |src| > inodes[n].size {
        inodes := inodes[n := inodes[n].(size := off + |src|)];
        logged := logged + {sb.inodestart + n / IPB};
      }
      return Wrote(|src|);
    }

    /** writei's loop. */
    method WriteAll(n: nat, src: seq<Byte>, off: nat, ghost b0: Disk, ghost i0: seq<Inode>, ghost l0: set<nat>)
      returns (ok: bool)
      requires Progress(sb, b0, i0, l0, blocks, inodes, owner, logged, n, off, 0, src) == true
      modifies `blocks, `inodes, `owner, `logged
      ensures ok ==> Progress(sb, b0, i0, l0, blocks, inodes, owner, logged, n, off, |src|, src) == true
      ensures !ok ==> AllUsed(sb, blocks) == true && n < |i0| && off + |src| > i0[n].size
    {
      var tot, cur := 0, off;
      while tot < |src|
        invariant 0 <= tot <= |src| && cur == off + tot
        invariant Progress(sb, b0, i0, l0, blocks, inodes, owner, logged, n, off, tot, src) == true
      {
        var m := if |src| - tot < BSIZE - cur % BSIZE then |src| - tot else BSIZE - cur % BSIZE;
        ProgressRound(sb, b0, i0, l0, blocks, inodes, owner, logged, n, off, tot, cur, m, src);
        ok := WriteRound(n, src, tot, m, cur, b0, i0, off, l0);
        if !ok {
          return;
        }
        RoundProgress(sb, b0, i0, l0, blocks, inodes, owner, logged, n, off, tot, cur, m, src);
        tot := tot + m;
        cur := cur + m;
      }
      ok := true;
    }

    /** One round of writei: map the block at off, write the next bytes of src into it, log it. */
    method WriteRound(n: nat, src: seq<Byte>, tot: nat, m: nat, off: nat, ghost b0: Disk, ghost i0: seq<Inode>,
                      ghost off0: nat, ghost l0: set<nat>) returns (ok: bool)
      requires tot == off - off0 && InRound(sb, b0, i0, l0, blocks, inodes, owner, logged, n, off0, off, m, src) == true
      modifies `blocks, `inodes, `owner, `logged
      ensures ok ==> RoundDone(sb, b0, i0, l0, blocks, inodes, owner, logged, n, off0, off, m, src) == true
      ensures !ok ==> AllUsed(sb, blocks) == true && n < |i0| && off + m > i0[n].size
    {
      ghost var e := Max(Span(i0[n].size), Span(off));
      SpanGrows(i0[n].size, off, m);
      var bn, o, d := off / BSIZE, off % BSIZE, src[tot..tot + m];
      ghost var bB, iB, oB, lB := blocks, inodes, owner, logged;
      var a, i := Bmap(n, bn, e);
      if a.None? {
        return false;
      }
      RoundStep(sb, b0, i0, l0, bB, iB, oB, lB, blocks, inodes, owner, logged, n, off0, off, m, src, d, i, a.value);
      blocks := blocks[a.value := Patch(blocks[a.value], o, d)];
      logged := logged + {a.value};
      return true;
    }

    /** Read up to len bytes at off, clipped at the end of the file. Nothing changes. */
    method Readi(n: nat, off: Uint, len: nat) returns (r: Option<seq<Byte>>)
      requires Valid() && n < |inodes| && len < 0x1_0000_0000
      modifies `blocks, `inodes, `owner, `logged
      ensures blocks == old(blocks) && inodes == old(inodes) && owner == old(owner) && logged == old(logged)
      ensures r.None? <==> off > inodes[n].size || off + len >= 0x1_0000_0000
      ensures r.Some? ==>
        r.value == Content(blocks, inodes[n])[off..if off + len < inodes[n].size then off + len else inodes[n].size]
    {
      hide OwnersRefer, RefsOwned, BitmapOk, Used, AllUsed, Content;
      var end := (off + len) % 0x1_0000_0000;
      if off > inodes[n].size || end < off {
        return None;
      }
      var want := if end > inodes[n].size then inodes[n].size - off else len;
      var tot, cur, dst: seq<Byte> := 0, off, [];
      while tot < want
        invariant 0 <= tot <= want && cur == off + tot
        invariant blocks == old(blocks) && inodes == old(inodes) && owner == old(owner) && logged == old(logged)
        invariant dst == Content(blocks, inodes[n])[off..cur]
      {
        SpanCovers(inodes[n].size, cur);
        var a, _ := Bmap(n, cur / BSIZE, Span(inodes[n].size));
        MappedInRange(sb, blocks, inodes, owner, n, cur / BSIZE);
        var m := if want - tot < BSIZE - cur % BSIZE then want - tot else BSIZE - cur % BSIZE;
        dst := dst + blocks[a.value].bytes[cur % BSIZE..cur % BSIZE + m];
        ReadAdvances(blocks, inodes[n], off, cur, m);
        tot, cur := tot + m, cur + m;
      }
      return Some(dst);
    }

    /** Free one block of the inode being truncated; it is in use, so the panic of bfree cannot happen. */
    method FreeSlot(s: Slot, b: nat, ghost dead: set<Slot>)
      requires Owned(sb, blocks, inodes, owner, dead) && InTable(inodes, s) && s !in dead
      requires Ref(blocks, inodes[s.ino], s.k) == b != 0 && forall t :: t in dead ==> t.k != 12
      modifies `blocks, `owner, `logged
      ensures Owned(sb, blocks, inodes, owner, dead + {s})
      ensures SameData(sb, old(blocks), blocks)
    {
      FreeKeeps(sb, blocks, inodes, owner, dead, s);
      var ok := Bfree(b);
      owner := owner - {b};
      assert ok == Ok;
    }

    /** Free all blocks of a file. The file is then empty and every other file is as it was. */
    method Itrunc(n: nat)
      requires Valid() && n < |inodes|
      modifies `blocks, `inodes, `owner, `logged
      ensures Valid()
      ensures inodes == old(inodes)[n := Inode(old(inodes)[n].kind, 0, ZeroAddrs())]
      ensures Content(blocks, inodes[n]) == []
      ensures forall m :: 0 <= m < |inodes| && m != n ==> Content(blocks, inodes[m]) == old(Content(blocks, inodes[m]))
    {
      ghost var b0, i0, o0 := blocks, inodes, owner;
      FreeDirect(n);
      if inodes[n].addrs[12] != 0 {
        FreeIndirect(n);
      }
      assert inodes[n].addrs == ZeroAddrs();
      Truncated(sb, b0, i0, o0, blocks, inodes, owner, n);
      inodes := inodes[n := inodes[n].(size := 0)];
      logged := logged + {sb.inodestart + n / IPB};
    }

    method FreeDirect(n: nat)
      requires Consistent() && n < |inodes|
      modifies `blocks, `inodes, `owner, `logged
      ensures Consistent() && SameData(sb, old(blocks), blocks)
      ensures |inodes| == |old(inodes)| && inodes == old(inodes)[n := old(inodes)[n].(addrs := inodes[n].addrs)]
      ensures forall k :: 0 <= k <= 12 ==> inodes[n].addrs[k] == if k < 12 then 0 else old(inodes)[n].addrs[k]
    {
      var i := 0;
      while i < NDIRECT
        invariant 0 <= i <= NDIRECT && Consistent() && SameData(sb, old(blocks), blocks)
        invariant |inodes| == |old(inodes)| && inodes == old(inodes)[n := old(inodes)[n].(addrs := inodes[n].addrs)]
        invariant forall k :: 0 <= k <= 12 ==> inodes[n].addrs[k] == if k < i then 0 else old(inodes)[n].addrs[k]
      {
        if inodes[n].addrs[i] != 0 {
          FreeSlot(Slot(n, i), inodes[n].addrs[i], {});
          ClearAddr(sb, blocks, inodes, owner, n, i, {});
          inodes := inodes[n := inodes[n].(addrs := inodes[n].addrs[i := 0])];
        }
        i := i + 1;
      }
    }

    /** Free the blocks the indirect block names, then the indirect block itself. */
    method FreeIndirect(n: nat)
      requires Consistent() && n < |inodes| && inodes[n].addrs[12] != 0
      modifies `blocks, `inodes, `owner, `logged
      ensures Consistent() && SameData(sb, old(blocks), blocks)
      ensures inodes == WithAddr(old(inodes), n, 12, 0)
    {
      var ind := inodes[n].addrs[12];
      IndirectOwned(sb, blocks, inodes, owner, {}, n);
      var bp := blocks[ind];
      var j := 0;
      assert DeadEntries(n, 0) == {};
      while j < NINDIRECT
        invariant 0 <= j <= NINDIRECT && inodes == old(inodes) && SameData(sb, old(blocks), blocks)
        invariant Owned(sb, blocks, inodes, owner, DeadEntries(n, j))
      {
        assert DeadEntries(n, j + 1) == DeadEntries(n, j) + {Slot(n, 13 + j)};
        assert Ref(blocks, inodes[n], 13 + j) == Word(bp, j);
        if Word(bp, j) != 0 {
          FreeSlot(Slot(n, 13 + j), Word(bp, j), DeadEntries(n, j));
        } else {
          KillEmpty(sb, blocks, inodes, owner, DeadEntries(n, j), Slot(n, 13 + j));
        }
        j := j + 1;
      }
      FreeSlot(Slot(n, 12), ind, DeadEntries(n, NINDIRECT));
      ClearAddr(sb, blocks, inodes, owner, n, 12, DeadEntries(n, NINDIRECT));
      inodes := inodes[n := inodes[n].(addrs := inodes[n].addrs[12 := 0])];
    }
  }

  /** writei is about to write the m bytes at off. */
  ghost predicate InRound(sb: Super, b0: Disk, i0: seq<Inode>, l0: set<nat>,
                          blocks: Disk, inodes: seq<Inode>, owner: map<nat, Slot>, l: set<nat>,
                          n: nat, off0: nat, off: nat, m: nat, src: seq<Byte>)
  {
    && Writing(sb, b0, i0, blocks, inodes, owner, n, off0, off, src)
    && 0 < m && off + m <= off0 + |src| && off % BSIZE + m <= BSIZE
    && (m == BSIZE - off % BSIZE || off + m == off0 + |src|)
    && (off % BSIZE == 0 || off == off0)
    && LoggedOk(sb, l0, l, blocks, inodes[n], off0 / BSIZE, off / BSIZE, Span(i0[n].size))
  }

  /** writei has written them. */
  ghost predicate RoundDone(sb: Super, b0: Disk, i0: seq<Inode>, l0: set<nat>,
                            blocks: Disk, inodes: seq<Inode>, owner: map<nat, Slot>, l: set<nat>,
                            n: nat, off0: nat, off: nat, m: nat, src: seq<Byte>)
  {
    && Writing(sb, b0, i0, blocks, inodes, owner, n, off0, off + m, src) && off / BSIZE < MAXFILE
    && LoggedOk(sb, l0, l, blocks, inodes[n], off0 / BSIZE, off / BSIZE + 1, Span(i0[n].size))
  }

  lemma RoundStep(sb: Super, b0: Disk, i0: seq<Inode>, l0: set<nat>,
                  blocks: Disk, inodes: seq<Inode>, owner: map<nat, Slot>, l: set<nat>,
                  b1: Disk, i1: seq<Inode>, o1: map<nat, Slot>, l1: set<nat>,
                  n: nat, off0: nat, off: nat, m: nat, src: seq<Byte>, d: seq<Byte>, i: Uint, a: Uint)
    requires InRound(sb, b0, i0, l0, blocks, inodes, owner, l, n, off0, off, m, src) == true
    requires BmapDoes(sb, blocks, inodes, owner, b1, i1, o1, n, off / BSIZE, Max(Span(i0[n].size), Span(off)),
                      i, a) == true
    requires l <= l1 && l1 <= l + BmapLogs(sb, i, a) && (off / BSIZE < Max(Span(i0[n].size), Span(off)) ==> l1 == l)
    requires off / BSIZE >= Max(Span(i0[n].size), Span(off)) ==> BmapLeast(sb, i, a) <= l1
    requires d == src[off - off0..off - off0 + m]
    ensures a < |b1|
    ensures RoundDone(sb, b0, i0, l0, b1[a := Patch(b1[a], off % BSIZE, d)], i1, o1, l1 + {a}, n, off0, off, m, src)
  {
    hide Writing, Owned, LoggedOk, BmapDoes, BmapLogs, BmapLeast, Span;
    WritingShape(sb, b0, i0, blocks, inodes, owner, n, off0, off, m, src);
    RoundWrites(sb, b0, i0, blocks, inodes, owner, b1, i1, o1, n, off0, off, m, src, i, a);
    RoundLogs(sb, l0, l, l1, blocks, inodes, owner, b1, i1, o1, n, off0 / BSIZE, off / BSIZE,
              Max(Span(i0[n].size), Span(off)), Span(i0[n].size), i, a, off % BSIZE, d);
  }

  /** Where a round of writei stands. */
  lemma WritingShape(sb: Super, b0: Disk, i0: seq<Inode>, blocks: Disk, inodes: seq<Inode>, owner: map<nat, Slot>,
                     n: nat, off0: nat, off: nat, m: nat, src: seq<Byte>)
    requires Writing(sb, b0, i0, blocks, inodes, owner, n, off0, off, src) && 0 < m && off + m <= off0 + |src|
    requires (off % BSIZE == 0 || off == off0) && off % BSIZE + m <= BSIZE
    ensures n < |i0| == |inodes| && Owned(sb, blocks, inodes, owner, {}) && off / BSIZE < MAXFILE && off0 <= off
    ensures var e0 := Span(i0[n].size);
            var e := Max(e0, Span(off));
            Extent(blocks, inodes[n], e) && off / BSIZE <= e && (off / BSIZE < e <==> off / BSIZE < e0)
  {
    hide OwnersRefer, RefsOwned, BitmapOk, Extent, ByteAt;
    SpanGrows(i0[n].size, off, m);
  }

  lemma RoundWrites(sb: Super, b0: Disk, i0: seq<Inode>, blocks: Disk, inodes: seq<Inode>, owner: map<nat, Slot>,
                    b1: Disk, i1: seq<Inode>, o1: map<nat, Slot>, n: nat, off0: nat, off: nat, m: nat, src: seq<Byte>,
                    i: Uint, a: Uint)
    requires Writing(sb, b0, i0, blocks, inodes, owner, n, off0, off, src)
    requires 0 < m && off + m <= off0 + |src| && off % BSIZE + m <= BSIZE
    requires m == BSIZE - off % BSIZE || off + m == off0 + |src|
    requires off % BSIZE == 0 || off == off0
    requires off / BSIZE < MAXFILE
    requires BmapDoes(sb, blocks, inodes, owner, b1, i1, o1, n, off / BSIZE, Max(Span(i0[n].size), Span(off)), i, a)
    ensures a < |b1|
    ensures Writing(sb, b0, i0, b1[a := Patch(b1[a], off % BSIZE, src[off - off0..off - off0 + m])], i1, o1, n, off0,
                    off + m, src)
  {
    var bn, e := off / BSIZE, Max(Span(i0[n].size), Span(off));
    var o, d := off % BSIZE, src[off - off0..off - off0 + m];
    SpanGrows(i0[n].size, off, m);
    BmapCorrect(sb, blocks, inodes, owner, b1, i1, o1, n, bn, e, i, a);
    RoundCorrect(sb, blocks, inodes, b1, i1, o1, n, bn, e, a, o, d);
    WritingAdvances(sb, b0, i0, blocks, inodes, owner, b1[a := Patch(b1[a], o, d)], i1, o1, n, off0, off, m, src);
  }

  lemma RoundLogs(sb: Super, l0: set<nat>, l: set<nat>, l1: set<nat>, blocks: Disk, inodes: seq<Inode>,
                  owner: map<nat, Slot>,
                  b1: Disk, i1: seq<Inode>, o1: map<nat, Slot>, n: nat, c0: nat, bn: nat, e: nat, e0: nat,
                  i: Uint, a: Uint, o: nat, d: seq<Byte>)
    requires Owned(sb, blocks, inodes, owner, {}) && n < |inodes| && Extent(blocks, inodes[n], e) && bn <= e
    requires bn < MAXFILE
    requires BmapDoes(sb, blocks, inodes, owner, b1, i1, o1, n, bn, e, i, a)
    requires c0 <= bn && LoggedOk(sb, l0, l, blocks, inodes[n], c0, bn, e0) && o + |d| <= BSIZE
    requires (bn < e <==> bn < e0)
    requires l <= l1 && l1 <= l + BmapLogs(sb, i, a) && (bn < e ==> l1 == l) && (bn >= e ==> BmapLeast(sb, i, a) <= l1)
    ensures a < |b1| && |i1| == |inodes| && |i1[n].addrs| == 13
    ensures i1[n].addrs[12] < |b1[a := Patch(b1[a], o, d)]|
    ensures LoggedOk(sb, l0, l1 + {a}, b1[a := Patch(b1[a], o, d)], i1[n], c0, bn + 1, e0)
  {
    BmapCorrect(sb, blocks, inodes, owner, b1, i1, o1, n, bn, e, i, a);
    RoundCorrect(sb, blocks, inodes, b1, i1, o1, n, bn, e, a, o, d);
    IndirectStays(sb, blocks, inodes, owner, b1, i1, o1, n, bn, e, i, a);
    SlotStays(sb, b1, i1, o1, n, bn, a, Patch(b1[a], o, d));
    LogRound(sb, l0, l, l1, blocks, inodes, b1[a := Patch(b1[a], o, d)], i1, n, c0, bn,
             if bn < e then 0 else i, a, e0);
  }

  lemma SlotStays(sb: Super, blocks: Disk, inodes: seq<Inode>, owner: map<nat, Slot>, n: nat, bn: nat, a: nat,
                  data: Block)
    requires Owned(sb, blocks, inodes, owner, {}) && n < |inodes| && bn < MAXFILE
    requires a == Ref(blocks, inodes[n], SlotOf(bn)) != 0
    ensures a < |blocks| && Ref(blocks[a := data], inodes[n], SlotOf(bn)) == a
  {
    assert InTable(inodes, Slot(n, SlotOf(bn)));
    DataWrite(sb, blocks, inodes, owner, Slot(n, SlotOf(bn)), a, data);
  }

  /** Once there is an indirect block it stays, and it is the one bmap used. */
  lemma IndirectStays(sb: Super, blocks: Disk, inodes: seq<Inode>, owner: map<nat, Slot>,
                      blocks': Disk, inodes': seq<Inode>, owner': map<nat, Slot>, n: nat, bn: nat, e: nat, i: Uint,
                      a: Uint)
    requires Owned(sb, blocks, inodes, owner, {}) && n < |inodes| && Extent(blocks, inodes[n], e) && bn <= e
    requires bn < MAXFILE
    requires BmapDoes(sb, blocks, inodes, owner, blocks', inodes', owner', n, bn, e, i, a)
    ensures |inodes'| == |inodes| && |inodes'[n].addrs| == 13 && (bn >= e ==> i < sb.size)
    ensures inodes[n].addrs[12] != 0 ==> inodes'[n].addrs[12] == inodes[n].addrs[12]
    ensures bn >= e && i != 0 ==> inodes'[n].addrs[12] == i
    ensures bn >= e ==> (i != 0 <==> bn >= NDIRECT)
  {
    if bn >= e && bn >= NDIRECT {
      assert Used(sb, blocks, 0);
    }
  }

  /** The file block after the last one that a write of len bytes at off touches. */
  function EndBlock(off: nat, len: nat): (c: nat) {
    if len == 0 then off / BSIZE else Span(off + len)
  }

  /** writei of src at off has written the first tot bytes and logged what that takes. */
  ghost predicate Progress(sb: Super, b0: Disk, i0: seq<Inode>, l0: set<nat>,
                           blocks: Disk, inodes: seq<Inode>, owner: map<nat, Slot>, l: set<nat>,
                           n: nat, off: nat, tot: nat, src: seq<Byte>)
  {
    && Writing(sb, b0, i0, blocks, inodes, owner, n, off, off + tot, src)
    && (tot == |src| || (off + tot) % BSIZE == 0 || tot == 0)
    && LoggedOk(sb, l0, l, blocks, inodes[n], off / BSIZE, EndBlock(off, tot), Span(i0[n].size))
  }

  lemma ProgressStarts(sb: Super, blocks: Disk, inodes: seq<Inode>, owner: map<nat, Slot>, l: set<nat>, n: nat,
                       off: nat, src: seq<Byte>)
    requires Owned(sb, blocks, inodes, owner, {}) && Tight(blocks, inodes) && n < |inodes|
    requires off <= inodes[n].size && off + |src| <= MAXFILE * BSIZE
    ensures Progress(sb, blocks, inodes, l, blocks, inodes, owner, l, n, off, 0, src)
  {
    WritingStarts(sb, blocks, inodes, owner, n, off, src);
  }

  lemma ProgressRound(sb: Super, b0: Disk, i0: seq<Inode>, l0: set<nat>,
                      blocks: Disk, inodes: seq<Inode>, owner: map<nat, Slot>, l: set<nat>,
                      n: nat, off: nat, tot: nat, cur: nat, m: nat, src: seq<Byte>)
    requires Progress(sb, b0, i0, l0, blocks, inodes, owner, l, n, off, tot, src) == true && cur == off + tot
    requires tot < |src| && m == if |src| - tot < BSIZE - cur % BSIZE then |src| - tot else BSIZE - cur % BSIZE
    ensures 0 < m <= |src| - tot
    ensures InRound(sb, b0, i0, l0, blocks, inodes, owner, l, n, off, cur, m, src) == true
  {
    assert tot > 0 ==> (off + tot) / BSIZE == Span(off + tot);
  }

  lemma RoundProgress(sb: Super, b0: Disk, i0: seq<Inode>, l0: set<nat>,
                      blocks: Disk, inodes: seq<Inode>, owner: map<nat, Slot>, l: set<nat>,
                      n: nat, off: nat, tot: nat, cur: nat, m: nat, src: seq<Byte>)
    requires RoundDone(sb, b0, i0, l0, blocks, inodes, owner, l, n, off, cur, m, src) == true && cur == off + tot
    requires tot < |src| && m == if |src| - tot < BSIZE - cur % BSIZE then |src| - tot else BSIZE - cur % BSIZE
    ensures Progress(sb, b0, i0, l0, blocks, inodes, owner, l, n, off, tot + m, src) == true
  {
    hide Writing, LoggedOk;
    SpanGrows(0, cur, m);
    assert Writing(sb, b0, i0, blocks, inodes, owner, n, off, off + (tot + m), src) by {
      assert cur + m == off + (tot + m);
    }
    assert m == BSIZE - cur % BSIZE ==> (cur + m) % BSIZE == 0;
  }

  /** The size update and iupdate that end writei complete the splice. */
  lemma ProgressDone(sb: Super, b0: Disk, i0: seq<Inode>, l0: set<nat>,
                     blocks: Disk, inodes: seq<Inode>, owner: map<nat, Slot>, l: set<nat>, n: nat, off: nat,
                     src: seq<Byte>)
    requires Typed(b0, i0) && Tight(b0, i0)
    requires Progress(sb, b0, i0, l0, blocks, inodes, owner, l, n, off, |src|, src) == true
    ensures n < |inodes|
    ensures var grow := |src| > 0 && off + |src| > inodes[n].size;
            var inodes' := if grow then WithSize(inodes, n, off + |src|) else inodes;
            var l' := if grow then l + {sb.inodestart + n / IPB} else l;
            && Owned(sb, blocks, inodes', owner, {}) && Tight(blocks, inodes')
            && Spliced(b0, i0, blocks, inodes', n, off, src)
            && WriteLogs(sb, l0, l', blocks, inodes', n, off, |src|, i0[n].size)
  {
    WritingDone(sb, b0, i0, blocks, inodes, owner, n, off, src);
    var size := Max(i0[n].size, off + |src|);
    var inodes' := WithSize(inodes, n, size);
    assert inodes[n].size == i0[n].size;
    assert size == inodes[n].size ==> inodes' == inodes;
    forall c | 0 <= c < MAXFILE
      ensures Ref(blocks, inodes'[n], SlotOf(c)) == Ref(blocks, inodes[n], SlotOf(c))
    {
    }
    assert DataBlocks(blocks, inodes'[n], off / BSIZE, EndBlock(off, |src|)) ==
           DataBlocks(blocks, inodes[n], off / BSIZE, EndBlock(off, |src|));
  }

  /**
   Everything that a write of len bytes at off to a file of the given size has logged: its data blocks, what new
   blocks take, and the inode's block if the file has grown.
   */
  ghost predicate WriteLogs(sb: Super, l0: set<nat>, l: set<nat>, blocks: Disk, inodes: seq<Inode>,
                            n: nat, off: nat, len: nat, size: nat)
    requires ValidSuper(sb) && Typed(blocks, inodes) && n < |inodes| && off + len <= MAXFILE * BSIZE
  {
    var ib := if len > 0 && off + len > size then {sb.inodestart + n / IPB} else {};
    && ib <= l
    && exists l1 :: l == l1 + ib
         && LoggedOk(sb, l0, l1, blocks, inodes[n], off / BSIZE, EndBlock(off, len), Span(size)) == true
  }
}
