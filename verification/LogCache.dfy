/**
 The log on top of the buffer cache (log.c with bio.c). Every step of the log is made of the cache's own steps:
 clients get, change, log and release buffers; the commit and recovery copy one buffer to another and write it. The
 log protocol, whose cache is a map of pinned blocks, is what such runs amount to.
 */
module LogCache {
  import opened Blocks
  import opened Common
  import opened Log
  import B = BufferCache
  import G = GroupCommit

  /** Where the log lies: its device, the number of blocks there, and the log region. */
  datatype World = World(dev: nat, n: nat, l: Layout)

  /**
   The cache and the log's memory. `edit` is the buffer that commit or recovery has changed and not yet written.
   `logged` holds the data last passed to log_write for each block that is not home yet; `store` is the plain block
   map; these two and init, done and pending are history.
   */
  datatype State = State(
    c: B.Cache, lh: seq<Uint>, ops: seq<G.Op>, phase: G.Phase, edit: Option<nat>,
    logged: map<Uint, Block>, store: map<B.Id, Block>, init: Disk, done: seq<G.Write>, pending: seq<G.Write>)

  datatype Event =
    | Use(e: B.Event)                          // bget, acquiresleep, bread or brelse by anyone
    | Edit(p: nat, i: nat, data: Block)        // an operation changes a buffer it holds
    | LogWrite(p: nat, i: nat)
    | Begin(p: nat)
    | End(p: nat)
    | CopySlot(q: nat, i: nat, j: nat)         // write_log: from buffer j to the slot in buffer i
    | WriteSlot(q: nat)
    | EditHead(q: nat, i: nat)                 // write_head
    | WriteHead(q: nat)
    | CopyHome(q: nat, i: nat, j: nat)         // install_trans: from the slot in buffer j to buffer i
    | WriteHome(q: nat)
    | ReadHead(q: nat, i: nat)
    | Crash

  function At(w: World, b: nat): (id: B.Id) {
    B.Id(w.dev, b)
  }

  predicate IsHome(w: World, b: nat) {
    b < w.n && !(w.l.start <= b < w.l.start + w.l.size)
  }

  ghost predicate OnDisk(w: World, disk: map<B.Id, Block>) {
    forall b :: 0 <= b < w.n ==> At(w, b) in disk
  }

  /** The blocks of the log's device. */
  ghost function DiskOf(w: World, disk: map<B.Id, Block>): (d: Disk)
    requires OnDisk(w, disk)
    ensures |d| == w.n
  {
    seq(w.n, b requires 0 <= b < w.n => disk[At(w, b)])
  }

  /** The state of the log protocol. */
  ghost function Abs(w: World, s: State): (g: G.State)
    requires OnDisk(w, s.c.disk)
  {
    G.State(DiskOf(w, s.c.disk), s.logged, s.lh, s.ops, s.phase, s.init, s.done, s.pending)
  }

  // The steps

  ghost predicate UseStep(s: State, e: B.Event, t: State) {
    && (e.Get? || e.Lock? || e.Fill? || e.Unlock? || e.Drop?) && B.Next(s.c, e, t.c)
    && t == s.(c := t.c)
  }

  predicate InOp(s: State, p: nat) {
    s.phase.Running? && p < |s.ops| && s.ops[p].Active?
  }

  /** Buffer i holds a block that the log protects. */
  predicate HomeBuf(w: World, s: State, i: nat) {
    i < |s.c.bufs| && s.c.bufs[i].id.dev == w.dev && IsHome(w, s.c.bufs[i].id.blockno)
  }

  ghost predicate EditStep(w: World, s: State, p: nat, i: nat, data: Block, t: State) {
    && InOp(s, p) && HomeBuf(w, s, i) && B.ModifyStep(s.c, p, i, s.c.bufs[i].id, data, t.c)
    && t == s.(c := t.c, store := s.store[s.c.bufs[i].id := data])
  }

  ghost predicate LogWriteStep(w: World, s: State, p: nat, i: nat, t: State) {
    && InOp(s, p) && HomeBuf(w, s, i) && s.c.bufs[i].id.blockno < 0x1_0000_0000
    && |s.lh| < LOGSIZE && |s.lh| < w.l.size - 1
    && B.PinStep(s.c, p, i, t.c)
    && var b: Uint := s.c.bufs[i].id.blockno;
       t == s.(c := t.c, logged := s.logged[b := s.c.bufs[i].data],
               pending := s.pending + [G.Write(b, s.c.bufs[i].data)], lh := G.Absorb(s.lh, b),
               ops := if b in s.lh then s.ops else s.ops[p := G.Active(s.ops[p].used + 1)])
  }

  ghost predicate BeginStep(s: State, p: nat, t: State) {
    && s.phase.Running? && |s.lh| + (G.Count(s.ops) + 1) * MAXOPBLOCKS <= LOGSIZE && p < |s.ops| && s.ops[p].Idle?
    && t == s.(ops := s.ops[p := G.Active(0)])
  }

  /** An operation has logged all it changed; the last one out starts the commit. */
  ghost predicate EndStep(s: State, p: nat, t: State) {
    && InOp(s, p) && (forall i :: i in s.c.touched ==> !B.Holds(s.c, p, i))
    && t == s.(ops := s.ops[p := G.Idle],
               phase := if G.Count(s.ops[p := G.Idle]) == 0 && |s.lh| > 0 then G.Filling(0) else G.Running)
  }

  /** Process q copies the block of buffer j, which it holds, to buffer i, which it holds. */
  ghost predicate CopyStep(s: State, q: nat, i: nat, to: B.Id, j: nat, from: B.Id, t: State) {
    && s.edit == None && B.Holds(s.c, q, j) && s.c.bufs[j].valid && s.c.bufs[j].id == from
    && B.ModifyStep(s.c, q, i, to, s.c.bufs[j].data, t.c)
    && t == s.(c := t.c, store := s.store[to := s.c.bufs[j].data], edit := Some(i))
  }

  /** Process q writes the buffer it has changed. */
  ghost predicate WriteStep(s: State, q: nat, t: State) {
    s.edit.Some? && B.WriteBackStep(s.c, q, s.edit.value, t.c)
  }

  ghost predicate CopySlotStep(w: World, s: State, q: nat, i: nat, j: nat, t: State) {
    && s.phase.Filling? && s.phase.k < |s.lh|
    && CopyStep(s, q, i, At(w, w.l.start + s.phase.k + 1), j, At(w, s.lh[s.phase.k]), t)
  }

  ghost predicate WriteSlotStep(s: State, q: nat, t: State) {
    && s.phase.Filling? && s.phase.k < |s.lh| && WriteStep(s, q, t)
    && t == s.(c := t.c, edit := None, phase := G.Filling(s.phase.k + 1))
  }

  /** All slots are written, or all blocks are home. */
  predicate AtEnd(s: State) {
    (s.phase.Filling? || s.phase.Installing? || s.phase.Recovering?) && s.phase.k == |s.lh|
  }

  /** What write_head writes: the list in the first case, nothing in the others. */
  function HeadList(s: State): (h: seq<Uint>) {
    if s.phase.Filling? then s.lh else []
  }

  ghost predicate EditHeadStep(w: World, s: State, q: nat, i: nat, t: State) {
    && AtEnd(s) && s.edit == None && |s.lh| <= LOGSIZE && i < |s.c.bufs|
    && var data := PutHead(s.c.bufs[i].data, HeadList(s), |HeadList(s)|);
    && B.ModifyStep(s.c, q, i, At(w, w.l.start), data, t.c)
    && t == s.(c := t.c, store := s.store[At(w, w.l.start) := data], edit := Some(i))
  }

  ghost predicate WriteHeadStep(s: State, q: nat, t: State) {
    && AtEnd(s) && WriteStep(s, q, t)
    && if s.phase.Filling? then
         t == s.(c := t.c, edit := None, phase := G.Installing(0), done := s.done + s.pending, pending := [])
       else
         t == s.(c := t.c, edit := None, phase := G.Running, lh := [])
  }

  ghost predicate CopyHomeStep(w: World, s: State, q: nat, i: nat, j: nat, t: State) {
    && (s.phase.Installing? || s.phase.Recovering?) && s.phase.k < |s.lh|
    && CopyStep(s, q, i, At(w, s.lh[s.phase.k]), j, At(w, w.l.start + s.phase.k + 1), t)
  }

  ghost predicate WriteHomeStep(s: State, q: nat, t: State) {
    && (s.phase.Installing? || s.phase.Recovering?) && s.phase.k < |s.lh| && WriteStep(s, q, t)
    && t == s.(c := t.c, edit := None, logged := s.logged - {s.lh[s.phase.k]},
               phase := if s.phase.Installing? then G.Installing(s.phase.k + 1) else G.Recovering(s.phase.k + 1))
  }

  ghost predicate ReadHeadStep(w: World, s: State, q: nat, i: nat, t: State) {
    && s.phase.Down? && B.Holds(s.c, q, i) && s.c.bufs[i].valid && s.c.bufs[i].id == At(w, w.l.start)
    && Word(s.c.bufs[i].data, 0) <= LOGSIZE
    && t == s.(lh := GetHead(s.c.bufs[i].data), phase := G.Recovering(0))
  }

  /** Memory is gone, the disk stays; the kernel starts with an empty cache. */
  ghost predicate CrashStep(s: State, t: State) {
    && B.Init(t.c) && t.c.disk == s.c.disk && |t.ops| == |s.ops| && G.AllIdle(t.ops)
    && t == s.(c := t.c, lh := [], ops := t.ops, phase := G.Down, edit := None, logged := map[],
               store := s.c.disk, pending := [])
  }

  ghost predicate Next(w: World, s: State, e: Event, t: State) {
    match e
    case Use(b) => UseStep(s, b, t)
    case Edit(p, i, data) => EditStep(w, s, p, i, data, t)
    case LogWrite(p, i) => LogWriteStep(w, s, p, i, t)
    case Begin(p) => BeginStep(s, p, t)
    case End(p) => EndStep(s, p, t)
    case CopySlot(q, i, j) => CopySlotStep(w, s, q, i, j, t)
    case WriteSlot(q) => WriteSlotStep(s, q, t)
    case EditHead(q, i) => EditHeadStep(w, s, q, i, t)
    case WriteHead(q) => WriteHeadStep(s, q, t)
    case CopyHome(q, i, j) => CopyHomeStep(w, s, q, i, j, t)
    case WriteHome(q) => WriteHomeStep(s, q, t)
    case ReadHead(q, i) => ReadHeadStep(w, s, q, i, t)
    case Crash => CrashStep(s, t)
  }

  ghost predicate Init(w: World, s: State) {
    && w.dev != 0 && B.Init(s.c) && OnDisk(w, s.c.disk) && s.store == s.c.disk && s.edit == None
    && G.Init(w.l, Abs(w, s))
  }

  ghost predicate Execution(w: World, ss: seq<State>, es: seq<Event>) {
    && |ss| == |es| + 1 && Init(w, ss[0])
    && forall k :: 0 <= k < |es| ==> Next(w, ss[k], es[k], ss[k + 1])
  }

  // The invariant

  /** Buffer i was changed by an operation that has not logged it yet. */
  predicate InFlight(w: World, s: State, i: nat) {
    HomeBuf(w, s, i) && s.c.bufs[i].owner.Some? && InOp(s, s.c.bufs[i].owner.value)
  }

  /** A dirty buffer holds a logged block, with the data last logged unless an operation is changing it again. */
  ghost predicate BufOk(w: World, s: State, i: nat)
    requires i < |s.c.bufs|
  {
    && (s.c.bufs[i].dirty ==>
          && s.c.bufs[i].id.dev == w.dev && s.c.bufs[i].id.blockno in s.logged
          && (i !in s.c.touched ==> s.c.bufs[i].data == s.logged[s.c.bufs[i].id.blockno]))
    && (i in s.c.touched ==> s.edit == Some(i) || InFlight(w, s, i))
  }

  predicate DirtyAt(w: World, s: State, i: nat, b: nat) {
    i < |s.c.bufs| && s.c.bufs[i].id == At(w, b) && s.c.bufs[i].dirty
  }

  /** Every logged block that is not home yet is in a dirty buffer. */
  ghost predicate Kept(w: World, s: State, b: nat) {
    b in s.logged ==> exists i :: DirtyAt(w, s, i, b)
  }

  /** What the buffer that commit or recovery has changed holds. */
  ghost predicate EditOk(w: World, s: State)
    requires OnDisk(w, s.c.disk)
  {
    s.edit.Some? ==>
      && s.edit.value < |s.c.bufs| && s.edit.value in s.c.touched && Fits(w.l, DiskOf(w, s.c.disk)) && |s.lh| <= LOGSIZE
      && var b := s.c.bufs[s.edit.value];
      && (s.phase.Filling? || s.phase.Installing? || s.phase.Recovering?) && s.phase.k <= |s.lh| <= w.l.size - 1
      && if s.phase.k == |s.lh| then
           && b.id == At(w, w.l.start)
           && b.data == PutHead(s.c.disk[At(w, w.l.start)], HeadList(s), |HeadList(s)|)
         else if s.phase.Filling? then
           && b.id == At(w, w.l.start + s.phase.k + 1) && s.lh[s.phase.k] in s.logged
           && b.data == s.logged[s.lh[s.phase.k]]
         else
           b.id == At(w, s.lh[s.phase.k]) && b.data == s.c.disk[At(w, w.l.start + s.phase.k + 1)]
  }

  ghost predicate Inv(w: World, s: State) {
    && w.dev != 0 && OnDisk(w, s.c.disk) && B.Good(s.c, s.store) && G.Inv(w.l, Abs(w, s))
    && (forall i :: 0 <= i < |s.c.bufs| ==> BufOk(w, s, i)) && (forall b: nat :: Kept(w, s, b)) && EditOk(w, s)
    && forall i :: i in s.c.touched ==> i < |s.c.bufs|
  }

  // Facts about a good cache

  /** A valid buffer that is neither dirty nor changed agrees with the disk. */
  lemma CleanAgrees(c: B.Cache, m: map<B.Id, Block>, i: nat)
    requires B.Good(c, m) && i < |c.bufs| && c.bufs[i].valid && !c.bufs[i].dirty && i !in c.touched
    ensures c.bufs[i].id in c.disk && c.bufs[i].data == c.disk[c.bufs[i].id]
  {
    var id := c.bufs[i].id;
    assert B.RefsOk(c.bufs[i], c.refs[i], i in c.touched);
    if m[id] != c.disk[id] {
      var j :| B.Ahead(c, j, id);
    }
  }

  /** Writing one block of the device writes one block of its disk. */
  lemma DiskWrite(w: World, disk: map<B.Id, Block>, b: nat, data: Block)
    requires OnDisk(w, disk) && b < w.n
    ensures OnDisk(w, disk[At(w, b) := data])
    ensures DiskOf(w, disk[At(w, b) := data]) == DiskOf(w, disk)[b := data]
  {
  }

  /** Two buffers of a real device that hold the same block are one. */
  lemma SameBuffer(c: B.Cache, m: map<B.Id, Block>, i: nat, j: nat)
    requires B.Good(c, m) && i < |c.bufs| && j < |c.bufs| && c.bufs[i].id == c.bufs[j].id && c.bufs[i].id.dev != 0
    ensures i == j
  {
  }

  /** The blocks logged and not home are home blocks that are listed. */
  lemma LoggedHome(w: World, s: State, b: nat)
    requires OnDisk(w, s.c.disk) && G.Inv(w.l, Abs(w, s)) && b in s.logged
    ensures IsHome(w, b) && b in s.lh && !s.phase.Down? && !s.phase.Recovering?
  {
    var g := Abs(w, s);
    assert b in g.cache.Keys;
  }

  /** A buffer of the log region is never dirty. */
  lemma RegionClean(w: World, s: State, i: nat)
    requires Inv(w, s) && i < |s.c.bufs| && s.c.bufs[i].id.dev == w.dev && !IsHome(w, s.c.bufs[i].id.blockno)
    ensures !s.c.bufs[i].dirty
  {
    assert BufOk(w, s, i);
    if s.c.bufs[i].dirty {
      LoggedHome(w, s, s.c.bufs[i].id.blockno);
    }
  }

  /** Between operations, only the buffer in `edit` can be changed and not written. */
  lemma OnlyEdit(w: World, s: State, i: nat)
    requires Inv(w, s) && !s.phase.Running? && s.edit == None
    ensures i !in s.c.touched
  {
    if i < |s.c.bufs| {
      assert BufOk(w, s, i);
    }
  }

  /** The buffer of a logged block holds the data last logged, when no operation is changing it. */
  lemma LatestData(w: World, s: State, j: nat, b: nat)
    requires Inv(w, s) && b in s.logged && j < |s.c.bufs| && s.c.bufs[j].id == At(w, b) && j !in s.c.touched
    ensures s.c.bufs[j].data == s.logged[b] && s.c.bufs[j].dirty
  {
    assert Kept(w, s, b);
    var i :| DirtyAt(w, s, i, b);
    SameBuffer(s.c, s.store, i, j);
    assert BufOk(w, s, j);
  }

  // Every step keeps the invariant, and is a step of the log protocol or none

  /** What is left alone when buffers only change references, locks and clean contents. */
  ghost predicate QuietBuf(s: State, t: State, i: nat)
    requires i < |s.c.bufs| == |t.c.bufs|
  {
    var b, d := s.c.bufs[i], t.c.bufs[i];
    && d.dirty == b.dirty && (b.dirty ==> d.id == b.id && d.data == b.data)
    && (i in s.c.touched ==> d == b.(refcnt := d.refcnt))
  }

  lemma QuietKeeps(w: World, s: State, t: State)
    requires Inv(w, s) && t == s.(c := t.c) && B.Good(t.c, s.store)
    requires t.c.disk == s.c.disk && t.c.touched == s.c.touched && |t.c.bufs| == |s.c.bufs|
    requires forall i :: 0 <= i < |s.c.bufs| ==> QuietBuf(s, t, i)
    ensures Inv(w, t)
  {
    hide G.Inv, B.Good;
    forall i | 0 <= i < |t.c.bufs|
      ensures BufOk(w, t, i)
    {
      assert BufOk(w, s, i) && QuietBuf(s, t, i);
    }
    forall b: nat
      ensures Kept(w, t, b)
    {
      assert Kept(w, s, b);
      if b in s.logged {
        var i :| DirtyAt(w, s, i, b);
        assert QuietBuf(s, t, i);
        assert DirtyAt(w, t, i, b);
      }
    }
    if s.edit.Some? {
      assert QuietBuf(s, t, s.edit.value);
    }
  }

  lemma UseKeeps(w: World, s: State, e: B.Event, t: State)
    requires Inv(w, s) && UseStep(s, e, t)
    ensures Inv(w, t) && Abs(w, t) == Abs(w, s)
  {
    B.NextKeeps(s.c, s.store, e, t.c);
    UseQuiet(s, e, t);
    hide G.Inv, B.Good, B.Next, QuietBuf, BufOk, EditOk;
    QuietKeeps(w, s, t);
  }

  lemma UseQuiet(s: State, e: B.Event, t: State)
    requires B.Inv(s.c) && UseStep(s, e, t)
    ensures t.c.disk == s.c.disk && t.c.touched == s.c.touched && |t.c.bufs| == |s.c.bufs|
    ensures forall i :: 0 <= i < |s.c.bufs| ==> QuietBuf(s, t, i)
  {
    hide B.Permutation, B.ByRecency, B.Unique, B.MoveToFront;
    if e.Get? {
      var i: nat :| B.GetStep(s.c, e.p, e.id, i, t.c);
      assert B.RefsOk(s.c.bufs[i], s.c.refs[i], i in s.c.touched);
    } else {
      assert B.RefsOk(s.c.bufs[e.i], s.c.refs[e.i], e.i in s.c.touched);
    }
  }

  lemma EditKeeps(w: World, s: State, p: nat, i: nat, data: Block, t: State)
    requires Inv(w, s) && EditStep(w, s, p, i, data, t)
    ensures Inv(w, t) && Abs(w, t) == Abs(w, s)
  {
    B.NextKeeps(s.c, s.store, B.Modify(p, i, s.c.bufs[i].id, data), t.c);
    NotEditing(w, s);
    hide G.Inv, B.Good, EditOk;
    NoEdit(w, t);
    forall j | 0 <= j < |t.c.bufs|
      ensures BufOk(w, t, j)
    {
      assert BufOk(w, s, j);
    }
    forall b: nat
      ensures Kept(w, t, b)
    {
      assert Kept(w, s, b);
      if b in s.logged {
        var j :| DirtyAt(w, s, j, b);
        assert DirtyAt(w, t, j, b);
      }
    }
  }

  lemma LogWriteRefines(w: World, s: State, p: nat, i: nat, t: State)
    requires Inv(w, s) && LogWriteStep(w, s, p, i, t)
    ensures OnDisk(w, t.c.disk)
    ensures G.Next(w.l, Abs(w, s), G.LogWrite(p, G.Write(s.c.bufs[i].id.blockno, s.c.bufs[i].data)), Abs(w, t))
  {
  }

  lemma LogWriteKeeps(w: World, s: State, p: nat, i: nat, t: State)
    requires Inv(w, s) && LogWriteStep(w, s, p, i, t)
    ensures Inv(w, t)
  {
    B.NextKeeps(s.c, s.store, B.Pin(p, i), t.c);
    LogWriteRefines(w, s, p, i, t);
    var b0: Uint := s.c.bufs[i].id.blockno;
    G.NextKeepsInv(w.l, Abs(w, s), G.LogWrite(p, G.Write(b0, s.c.bufs[i].data)), Abs(w, t));
    hide G.Inv, EditOk, B.Represents, B.Permutation, B.ByRecency, B.RefsOk, B.Unique, BufOk, Kept;
    forall j | 0 <= j < |t.c.bufs|
      ensures BufOk(w, t, j)
    {
      LoggedBuf(w, s, p, i, t, j);
    }
    forall b: nat
      ensures Kept(w, t, b)
    {
      LoggedKept(w, s, p, i, t, b);
    }
    assert EditOk(w, t) by {
      NotEditing(w, s);
      NoEdit(w, t);
    }
  }

  lemma NotEditing(w: World, s: State)
    requires OnDisk(w, s.c.disk) && EditOk(w, s) && s.phase.Running?
    ensures s.edit == None
  {
  }

  lemma LoggedBuf(w: World, s: State, p: nat, i: nat, t: State, j: nat)
    requires LogWriteStep(w, s, p, i, t) && j < |s.c.bufs| && BufOk(w, s, j) && B.Unique(s.c.bufs) && w.dev != 0
    ensures BufOk(w, t, j)
  {
  }

  lemma LoggedKept(w: World, s: State, p: nat, i: nat, t: State, b: nat)
    requires LogWriteStep(w, s, p, i, t) && Kept(w, s, b)
    ensures Kept(w, t, b)
  {
    if b == s.c.bufs[i].id.blockno {
      assert DirtyAt(w, t, i, b);
    } else if b in s.logged {
      var j :| DirtyAt(w, s, j, b);
      assert DirtyAt(w, t, j, b);
    }
  }

  /** Only operations, phase and list change, and no buffer in flight loses its operation. */
  lemma OpsKeep(w: World, s: State, t: State)
    requires Inv(w, s) && t == s.(ops := t.ops, phase := t.phase) && s.phase.Running? && G.Inv(w.l, Abs(w, t))
    requires forall i :: i in s.c.touched && InFlight(w, s, i) ==> InFlight(w, t, i)
    ensures Inv(w, t)
  {
    forall j | 0 <= j < |t.c.bufs|
      ensures BufOk(w, t, j)
    {
      assert BufOk(w, s, j);
    }
    forall b: nat
      ensures Kept(w, t, b)
    {
      assert Kept(w, s, b);
      if b in s.logged {
        var j :| DirtyAt(w, s, j, b);
        assert DirtyAt(w, t, j, b);
      }
    }
  }

  lemma BeginKeeps(w: World, s: State, p: nat, t: State)
    requires Inv(w, s) && BeginStep(s, p, t)
    ensures Inv(w, t) && G.Next(w.l, Abs(w, s), G.Begin(p), Abs(w, t))
  {
    G.NextKeepsInv(w.l, Abs(w, s), G.Begin(p), Abs(w, t));
    OpsKeep(w, s, t);
  }

  lemma EndKeeps(w: World, s: State, p: nat, t: State)
    requires Inv(w, s) && EndStep(s, p, t)
    ensures Inv(w, t) && G.Next(w.l, Abs(w, s), G.End(p), Abs(w, t))
  {
    G.NextKeepsInv(w.l, Abs(w, s), G.End(p), Abs(w, t));
    G.IdleMeansZero(t.ops);
    forall i | i in s.c.touched && InFlight(w, s, i)
      ensures InFlight(w, t, i)
    {
      assert t.ops[s.c.bufs[i].owner.value].Active?;
    }
    OpsKeep(w, s, t);
  }

  /** A copy leaves disk, list and phase alone; the buffer changed is the one in `edit`. */
  lemma EditingKeeps(w: World, s: State, q: nat, i: nat, to: B.Id, data: Block, t: State)
    requires Inv(w, s) && s.edit == None && !s.phase.Running? && B.ModifyStep(s.c, q, i, to, data, t.c)
    requires t == s.(c := t.c, store := s.store[to := data], edit := Some(i)) && EditOk(w, t)
    ensures Inv(w, t) && Abs(w, t) == Abs(w, s)
  {
    B.NextKeeps(s.c, s.store, B.Modify(q, i, to, data), t.c);
    hide G.Inv, B.Good, EditOk;
    forall j | 0 <= j < |t.c.bufs|
      ensures BufOk(w, t, j)
    {
      assert BufOk(w, s, j);
    }
    forall b: nat
      ensures Kept(w, t, b)
    {
      assert Kept(w, s, b);
      if b in s.logged {
        var j :| DirtyAt(w, s, j, b);
        assert DirtyAt(w, t, j, b);
      }
    }
  }

  /** write_log copies the data last logged. */
  lemma CopySlotKeeps(w: World, s: State, q: nat, i: nat, j: nat, t: State)
    requires Inv(w, s) && CopySlotStep(w, s, q, i, j, t)
    ensures Inv(w, t) && Abs(w, t) == Abs(w, s)
    ensures s.lh[s.phase.k] in s.logged && t.c.bufs[i].data == s.logged[s.lh[s.phase.k]]
  {
    var k := s.phase.k;
    assert s.lh[k] in s.logged.Keys;
    OnlyEdit(w, s, j);
    LatestData(w, s, j, s.lh[k]);
    EditingKeeps(w, s, q, i, At(w, w.l.start + k + 1), s.c.bufs[j].data, t);
  }

  /** A valid buffer of the log region agrees with the disk, unless it is being edited. */
  lemma RegionAgrees(w: World, s: State, i: nat)
    requires Inv(w, s) && i < |s.c.bufs| && s.c.bufs[i].valid && s.edit == None && !s.phase.Running?
    requires s.c.bufs[i].id.dev == w.dev && !IsHome(w, s.c.bufs[i].id.blockno)
    ensures s.c.bufs[i].id in s.c.disk && s.c.bufs[i].data == s.c.disk[s.c.bufs[i].id]
  {
    RegionClean(w, s, i);
    OnlyEdit(w, s, i);
    CleanAgrees(s.c, s.store, i);
  }

  lemma CopyHomeKeeps(w: World, s: State, q: nat, i: nat, j: nat, t: State)
    requires Inv(w, s) && CopyHomeStep(w, s, q, i, j, t)
    ensures Inv(w, t) && Abs(w, t) == Abs(w, s)
  {
    hide BufOk, Kept, B.Good;
    RegionAgrees(w, s, j);
    EditingKeeps(w, s, q, i, At(w, s.lh[s.phase.k]), s.c.bufs[j].data, t);
  }

  lemma EditHeadKeeps(w: World, s: State, q: nat, i: nat, t: State)
    requires Inv(w, s) && EditHeadStep(w, s, q, i, t)
    ensures Inv(w, t) && Abs(w, t) == Abs(w, s)
  {
    RegionAgrees(w, s, i);
    EditingKeeps(w, s, q, i, At(w, w.l.start), PutHead(s.c.bufs[i].data, HeadList(s), |HeadList(s)|), t);
  }

  /** After the write of the buffer in `edit` nothing is changed and unwritten; its block is clean. */
  lemma WrittenKeeps(w: World, s: State, q: nat, t: State)
    requires Inv(w, s) && !s.phase.Running? && WriteStep(s, q, t) && t.edit == None && t.store == s.store
    requires OnDisk(w, t.c.disk) && G.Inv(w.l, Abs(w, t)) && Fewer(w, s, t)
    ensures Inv(w, t)
  {
    B.NextKeeps(s.c, s.store, B.WriteBack(q, s.edit.value), t.c);
    hide G.Inv, EditOk, B.Represents, B.Permutation, B.ByRecency, B.RefsOk, B.Unique, BufOk, Kept, Fewer;
    forall j | 0 <= j < |t.c.bufs|
      ensures BufOk(w, t, j)
    {
      WrittenBuf(w, s, q, t, j);
    }
    forall b: nat
      ensures Kept(w, t, b)
    {
      WrittenKept(w, s, q, t, b);
    }
    assert EditOk(w, t) by {
      NoEdit(w, t);
    }
  }

  lemma NoEdit(w: World, t: State)
    requires OnDisk(w, t.c.disk) && t.edit == None
    ensures EditOk(w, t)
  {
  }

  /** The block in `edit` is no longer logged, the others are as they were. */
  ghost predicate Fewer(w: World, s: State, t: State)
    requires s.edit.Some? && s.edit.value < |s.c.bufs|
  {
    && (forall b: nat :: b in t.logged <==> b in s.logged && s.c.bufs[s.edit.value].id != At(w, b))
    && forall b: nat :: b in t.logged ==> t.logged[b] == s.logged[b]
  }

  lemma WrittenBuf(w: World, s: State, q: nat, t: State, j: nat)
    requires WriteStep(s, q, t) && j < |s.c.bufs| && BufOk(w, s, j) && B.Unique(s.c.bufs) && w.dev != 0
    requires !s.phase.Running? && Fewer(w, s, t)
    ensures BufOk(w, t, j)
  {
  }

  lemma WrittenKept(w: World, s: State, q: nat, t: State, b: nat)
    requires WriteStep(s, q, t) && Kept(w, s, b) && Fewer(w, s, t)
    ensures Kept(w, t, b)
  {
    if b in t.logged {
      var j :| DirtyAt(w, s, j, b);
      assert DirtyAt(w, t, j, b);
    }
  }

  /** What the log protocol's invariant says of the list. */
  lemma ListFits(w: World, s: State)
    requires OnDisk(w, s.c.disk) && G.Inv(w.l, Abs(w, s))
    ensures Loggable(w.l, DiskOf(w, s.c.disk), s.lh) && (s.phase.Recovering? ==> s.logged == map[])
  {
  }

  /** The block in `edit` belongs to the log region, so it is not logged. */
  lemma RegionFewer(w: World, s: State, t: State)
    requires OnDisk(w, s.c.disk) && G.Inv(w.l, Abs(w, s)) && s.edit.Some? && s.edit.value < |s.c.bufs|
    requires t.logged == s.logged && !IsHome(w, s.c.bufs[s.edit.value].id.blockno)
    ensures Fewer(w, s, t)
  {
    forall b: nat | b in s.logged
      ensures IsHome(w, b)
    {
      LoggedHome(w, s, b);
    }
  }

  lemma WriteSlotRefines(w: World, s: State, q: nat, t: State)
    requires OnDisk(w, s.c.disk) && EditOk(w, s) && Loggable(w.l, DiskOf(w, s.c.disk), s.lh) && WriteSlotStep(s, q, t)
    ensures OnDisk(w, t.c.disk) && G.Next(w.l, Abs(w, s), G.FillSlot, Abs(w, t)) == true
    ensures !IsHome(w, s.c.bufs[s.edit.value].id.blockno) && t.logged == s.logged
  {
    DiskWrite(w, s.c.disk, w.l.start + s.phase.k + 1, s.logged[s.lh[s.phase.k]]);
  }

  lemma WriteSlotKeeps(w: World, s: State, q: nat, t: State)
    requires Inv(w, s) && WriteSlotStep(s, q, t)
    ensures Inv(w, t) && G.Next(w.l, Abs(w, s), G.FillSlot, Abs(w, t))
  {
    hide G.Inv, G.Next, B.Good, BufOk, Kept, Fewer, Loggable;
    ListFits(w, s);
    WriteSlotRefines(w, s, q, t);
    G.NextKeepsInv(w.l, Abs(w, s), G.FillSlot, Abs(w, t));
    RegionFewer(w, s, t);
    WrittenKeeps(w, s, q, t);
  }

  /** Which write of the header it is. */
  function HeadEvent(s: State): (e: G.Event) {
    if s.phase.Filling? then G.WriteHeader else if s.phase.Installing? then G.ClearHeader else G.RecoverClear
  }

  lemma WriteHeadRefines(w: World, s: State, q: nat, t: State)
    requires OnDisk(w, s.c.disk) && EditOk(w, s) && Loggable(w.l, DiskOf(w, s.c.disk), s.lh) && WriteHeadStep(s, q, t)
    ensures OnDisk(w, t.c.disk) && G.Next(w.l, Abs(w, s), HeadEvent(s), Abs(w, t)) == true
    ensures !IsHome(w, s.c.bufs[s.edit.value].id.blockno) && t.logged == s.logged
  {
    DiskWrite(w, s.c.disk, w.l.start, PutHead(s.c.disk[At(w, w.l.start)], HeadList(s), |HeadList(s)|));
  }

  lemma WriteHeadKeeps(w: World, s: State, q: nat, t: State)
    requires Inv(w, s) && WriteHeadStep(s, q, t)
    ensures Inv(w, t) && G.Next(w.l, Abs(w, s), HeadEvent(s), Abs(w, t))
  {
    hide G.Inv, G.Next, B.Good, BufOk, Kept, Fewer, Loggable;
    ListFits(w, s);
    WriteHeadRefines(w, s, q, t);
    G.NextKeepsInv(w.l, Abs(w, s), HeadEvent(s), Abs(w, t));
    RegionFewer(w, s, t);
    WrittenKeeps(w, s, q, t);
  }

  function HomeEvent(s: State): (e: G.Event) {
    if s.phase.Installing? then G.InstallSlot else G.RecoverSlot
  }

  lemma WriteHomeRefines(w: World, s: State, q: nat, t: State)
    requires OnDisk(w, s.c.disk) && EditOk(w, s) && Loggable(w.l, DiskOf(w, s.c.disk), s.lh) && WriteHomeStep(s, q, t)
    requires s.phase.Recovering? ==> s.logged == map[]
    ensures OnDisk(w, t.c.disk) && G.Next(w.l, Abs(w, s), HomeEvent(s), Abs(w, t)) == true
    ensures Fewer(w, s, t)
  {
    DiskWrite(w, s.c.disk, s.lh[s.phase.k], s.c.disk[At(w, w.l.start + s.phase.k + 1)]);
  }

  lemma WriteHomeKeeps(w: World, s: State, q: nat, t: State)
    requires Inv(w, s) && WriteHomeStep(s, q, t)
    ensures Inv(w, t) && G.Next(w.l, Abs(w, s), HomeEvent(s), Abs(w, t))
  {
    hide G.Inv, G.Next, B.Good, BufOk, Kept, Fewer, Loggable;
    ListFits(w, s);
    WriteHomeRefines(w, s, q, t);
    G.NextKeepsInv(w.l, Abs(w, s), HomeEvent(s), Abs(w, t));
    WrittenKeeps(w, s, q, t);
  }

  lemma ReadHeadKeeps(w: World, s: State, q: nat, i: nat, t: State)
    requires Inv(w, s) && ReadHeadStep(w, s, q, i, t)
    ensures Inv(w, t) && G.Next(w.l, Abs(w, s), G.ReadHeader, Abs(w, t))
  {
    RegionAgrees(w, s, i);
    G.NextKeepsInv(w.l, Abs(w, s), G.ReadHeader, Abs(w, t));
    forall j | 0 <= j < |t.c.bufs|
      ensures BufOk(w, t, j)
    {
      assert BufOk(w, s, j);
      OnlyEdit(w, s, j);
    }
  }

  lemma CrashKeeps(w: World, s: State, t: State)
    requires Inv(w, s) && CrashStep(s, t)
    ensures Inv(w, t) && G.Next(w.l, Abs(w, s), G.Crash, Abs(w, t))
  {
    B.FreshInv(t.c);
    G.NextKeepsInv(w.l, Abs(w, s), G.Crash, Abs(w, t));
  }

  /** The step of the log protocol, if it is one. */
  function LogEvent(s: State, e: Event): (g: Option<G.Event>)
    requires e.LogWrite? ==> e.i < |s.c.bufs| && s.c.bufs[e.i].id.blockno < 0x1_0000_0000
  {
    match e
    case LogWrite(p, i) => Some(G.LogWrite(p, G.Write(s.c.bufs[i].id.blockno, s.c.bufs[i].data)))
    case Begin(p) => Some(G.Begin(p))
    case End(p) => Some(G.End(p))
    case WriteSlot(q) => Some(G.FillSlot)
    case WriteHead(q) => Some(HeadEvent(s))
    case WriteHome(q) => Some(HomeEvent(s))
    case ReadHead(q, i) => Some(G.ReadHeader)
    case Crash => Some(G.Crash)
    case _ => None
  }

  /** Every step keeps the invariant, and is the step of the log protocol or leaves its state alone. */
  lemma NextKeeps(w: World, s: State, e: Event, t: State)
    requires Inv(w, s) && Next(w, s, e, t)
    ensures Inv(w, t) == true
    ensures var g := LogEvent(s, e);
            if g.Some? then G.Next(w.l, Abs(w, s), g.value, Abs(w, t)) == true else Abs(w, t) == Abs(w, s)
  {
    hide G.Inv, G.Next, B.Good, B.Next, BufOk, Kept, EditOk;
    match e
    case Use(b) => UseKeeps(w, s, b, t);
    case Edit(p, i, data) => EditKeeps(w, s, p, i, data, t);
    case LogWrite(p, i) =>
      LogWriteKeeps(w, s, p, i, t);
      LogWriteRefines(w, s, p, i, t);
    case Begin(p) => BeginKeeps(w, s, p, t);
    case End(p) => EndKeeps(w, s, p, t);
    case CopySlot(q, i, j) => CopySlotKeeps(w, s, q, i, j, t);
    case WriteSlot(q) => WriteSlotKeeps(w, s, q, t);
    case EditHead(q, i) => EditHeadKeeps(w, s, q, i, t);
    case WriteHead(q) => WriteHeadKeeps(w, s, q, t);
    case CopyHome(q, i, j) => CopyHomeKeeps(w, s, q, i, j, t);
    case WriteHome(q) => WriteHomeKeeps(w, s, q, t);
    case ReadHead(q, i) => ReadHeadKeeps(w, s, q, i, t);
    case Crash => CrashKeeps(w, s, t);
  }

  lemma InitInv(w: World, s: State)
    requires Init(w, s)
    ensures Inv(w, s)
  {
    B.FreshInv(s.c);
    G.InitInv(w.l, Abs(w, s));
  }

  lemma {:induction false} AlwaysInv(w: World, ss: seq<State>, es: seq<Event>, k: nat)
    requires Execution(w, ss, es) && k <= |es|
    ensures Inv(w, ss[k]) == true
  {
    hide Inv, Next;
    if k == 0 {
      InitInv(w, ss[0]);
    } else {
      AlwaysInv(w, ss, es, k - 1);
      NextKeeps(w, ss[k - 1], es[k - 1], ss[k]);
    }
  }

  // What every execution guarantees

  /** The writes logged, each with its buffer's data at the time, since the last header write or crash. */
  ghost function Unsaved(ss: seq<State>, es: seq<Event>, k: nat): (ws: seq<G.Write>)
    requires |ss| == |es| + 1 && k <= |es|
  {
    if k == 0 then []
    else
      var s, e, before := ss[k - 1], es[k - 1], Unsaved(ss, es, k - 1);
      if e.LogWrite? && e.i < |s.c.bufs| && s.c.bufs[e.i].id.blockno < 0x1_0000_0000 then
        before + [G.Write(s.c.bufs[e.i].id.blockno, s.c.bufs[e.i].data)]
      else if e.Crash? || (e.WriteHead? && s.phase.Filling?) then []
      else before
  }

  /** The writes that the header writes of commits have made durable. */
  ghost function Durable(ss: seq<State>, es: seq<Event>, k: nat): (ws: seq<G.Write>)
    requires |ss| == |es| + 1 && k <= |es|
  {
    if k == 0 then []
    else if es[k - 1].WriteHead? && ss[k - 1].phase.Filling? then Durable(ss, es, k - 1) + Unsaved(ss, es, k - 1)
    else Durable(ss, es, k - 1)
  }

  /** The history in the states is that of the events. */
  lemma {:induction false} HistoryIsEvents(w: World, ss: seq<State>, es: seq<Event>, k: nat)
    requires Execution(w, ss, es) && k <= |es|
    ensures ss[k].done == Durable(ss, es, k) && ss[k].pending == Unsaved(ss, es, k)
  {
    hide Next, Init, Durable, Unsaved;
    EventsStep(ss, es, k);
    if k == 0 {
      NoHistory(w, ss[0]);
    } else {
      HistoryIsEvents(w, ss, es, k - 1);
      HistoryStep(w, ss[k - 1], es[k - 1], ss[k]);
    }
  }

  lemma EventsStep(ss: seq<State>, es: seq<Event>, k: nat)
    requires |ss| == |es| + 1 && k <= |es|
    ensures k == 0 ==> Unsaved(ss, es, k) == [] && Durable(ss, es, k) == []
    ensures k > 0 ==>
      var s, e, before := ss[k - 1], es[k - 1], Unsaved(ss, es, k - 1);
      && (e.LogWrite? && e.i < |s.c.bufs| && s.c.bufs[e.i].id.blockno < 0x1_0000_0000 ==>
            Unsaved(ss, es, k) == before + [G.Write(s.c.bufs[e.i].id.blockno, s.c.bufs[e.i].data)])
      && (e.Crash? || (e.WriteHead? && s.phase.Filling?) ==> Unsaved(ss, es, k) == [])
      && (!e.LogWrite? && !e.Crash? && !(e.WriteHead? && s.phase.Filling?) ==> Unsaved(ss, es, k) == before)
      && Durable(ss, es, k) ==
           Durable(ss, es, k - 1) + if e.WriteHead? && s.phase.Filling? then before else []
  {
  }

  lemma NoHistory(w: World, s: State)
    requires Init(w, s)
    ensures s.done == [] && s.pending == []
  {
  }

  lemma HistoryStep(w: World, s: State, e: Event, t: State)
    requires Next(w, s, e, t)
    ensures e.LogWrite? ==> e.i < |s.c.bufs| && s.c.bufs[e.i].id.blockno < 0x1_0000_0000
    ensures t.pending ==
      if e.LogWrite? then s.pending + [G.Write(s.c.bufs[e.i].id.blockno, s.c.bufs[e.i].data)]
      else if e.Crash? || (e.WriteHead? && s.phase.Filling?) then [] else s.pending
    ensures t.done == if e.WriteHead? && s.phase.Filling? then s.done + s.pending else s.done
  {
    hide B.Next, B.ModifyStep, B.PinStep, B.WriteBackStep, B.Init, PutHead, GetHead, IsHome;
  }

  /** Every run of the log on the cache is a run of the log protocol, up to any of its states. */
  lemma {:induction false} Refines(w: World, ss: seq<State>, es: seq<Event>, k: nat)
    returns (gs: seq<G.State>, ges: seq<G.Event>)
    requires Execution(w, ss, es) && k <= |es|
    ensures G.Execution(w.l, gs, ges) && OnDisk(w, ss[k].c.disk) && OnDisk(w, ss[0].c.disk)
    ensures gs[0] == Abs(w, ss[0]) && gs[|ges|] == Abs(w, ss[k])
  {
    hide Inv, Next, G.Next, G.Init;
    if k == 0 {
      gs, ges := [Abs(w, ss[0])], [];
    } else {
      gs, ges := Refines(w, ss, es, k - 1);
      AlwaysInv(w, ss, es, k - 1);
      NextKeeps(w, ss[k - 1], es[k - 1], ss[k]);
      StepShape(w, ss[k - 1], es[k - 1], ss[k]);
      var g := LogEvent(ss[k - 1], es[k - 1]);
      if g.Some? {
        Extended(w.l, gs, ges, g.value, Abs(w, ss[k]));
        gs, ges := gs + [Abs(w, ss[k])], ges + [g.value];
      }
    }
  }

  lemma StepShape(w: World, s: State, e: Event, t: State)
    requires Inv(w, s) && Next(w, s, e, t)
    ensures e.LogWrite? ==> e.i < |s.c.bufs| && s.c.bufs[e.i].id.blockno < 0x1_0000_0000
    ensures OnDisk(w, s.c.disk) && OnDisk(w, t.c.disk)
  {
    NextKeeps(w, s, e, t);
  }

  lemma Extended(l: Layout, gs: seq<G.State>, ges: seq<G.Event>, e: G.Event, t: G.State)
    requires G.Execution(l, gs, ges) && G.Next(l, gs[|ges|], e, t)
    ensures G.Execution(l, gs + [t], ges + [e])
  {
    hide G.Next, G.Init;
    var tt, ff := gs + [t], ges + [e];
    forall i | 0 <= i < |ff|
      ensures G.Next(l, tt[i], ff[i], tt[i + 1])
    {
      if i < |ges| {
        assert G.Next(l, gs[i], ges[i], gs[i + 1]);
      }
    }
  }

  /** In every run, the dirty buffers are those of the blocks logged and not home yet. */
  lemma DirtyExact(w: World, ss: seq<State>, es: seq<Event>, k: nat, i: nat)
    requires Execution(w, ss, es) && k <= |es| && i < |ss[k].c.bufs|
    ensures var b := ss[k].c.bufs[i]; b.dirty <==> b.id.dev == w.dev && b.id.blockno in ss[k].logged
  {
    AlwaysInv(w, ss, es, k);
    var s := ss[k];
    var b := s.c.bufs[i];
    assert BufOk(w, s, i);
    if b.id.dev == w.dev && b.id.blockno in s.logged {
      assert Kept(w, s, b.id.blockno);
      var j :| DirtyAt(w, s, j, b.id.blockno);
      SameBuffer(s.c, s.store, i, j);
    }
  }

  /**
   In every run, when no buffer is being changed, the plain block map holds what the log protocol lets readers see.
   */
  lemma StoreIsView(w: World, ss: seq<State>, es: seq<Event>, k: nat, b: Uint)
    requires Execution(w, ss, es) && k <= |es| && b < w.n && ss[k].c.touched == {}
    ensures OnDisk(w, ss[k].c.disk) && At(w, b) in ss[k].store
    ensures ss[k].store[At(w, b)] == G.View(Abs(w, ss[k]), b)
  {
    AlwaysInv(w, ss, es, k);
    hide G.Inv, EditOk, BufOk, Kept, Next;
    var s := ss[k];
    if b in s.logged {
      LoggedInStore(w, s, b);
    } else {
      RestInStore(w, s, b);
    }
  }

  lemma LoggedInStore(w: World, s: State, b: nat)
    requires Inv(w, s) && b in s.logged && s.c.touched == {}
    ensures At(w, b) in s.store && s.store[At(w, b)] == s.logged[b]
  {
    hide G.Inv, EditOk;
    assert Kept(w, s, b);
    var i: nat :| DirtyAt(w, s, i, b);
    LatestData(w, s, i, b);
    assert B.RefsOk(s.c.bufs[i], s.c.refs[i], i in s.c.touched);
  }

  lemma RestInStore(w: World, s: State, b: nat)
    requires Inv(w, s) && b < w.n && b !in s.logged && s.c.touched == {}
    ensures At(w, b) in s.store && s.store[At(w, b)] == s.c.disk[At(w, b)]
  {
    hide G.Inv, EditOk;
    var id := At(w, b);
    forall i: nat
      ensures !B.Ahead(s.c, i, id)
    {
      if i < |s.c.bufs| {
        assert BufOk(w, s, i);
      }
    }
  }

  /** In every run, what write_log puts in a slot is the latest data logged for its block. */
  lemma LatestCopied(w: World, ss: seq<State>, es: seq<Event>, k: nat)
    requires Execution(w, ss, es) && k < |es| && es[k].WriteSlot?
    ensures OnDisk(w, ss[0].c.disk) && ss[k].phase.Filling? && ss[k].phase.k < |ss[k].lh|
    ensures var s := ss[k];
            var b := s.lh[s.phase.k];
            && b < w.n && At(w, w.l.start + s.phase.k + 1) in ss[k + 1].c.disk
            && ss[k + 1].c.disk[At(w, w.l.start + s.phase.k + 1)] ==
               G.Replay(DiskOf(w, ss[0].c.disk), Durable(ss, es, k) + Unsaved(ss, es, k))[b]
  {
    hide Inv, Next, Durable, Unsaved, G.Execution, G.Replay, G.Inv;
    HistoryIsEvents(w, ss, es, k);
    AlwaysInv(w, ss, es, k);
    var gs, ges := Refines(w, ss, es, k);
    G.InitKept(w.l, gs, ges, |ges|);
    SlotWritten(w, ss[k], es[k], ss[k + 1]);
    Pending(w, ss[k]);
  }

  lemma SlotWritten(w: World, s: State, e: Event, t: State)
    requires Inv(w, s) && Next(w, s, e, t) && e.WriteSlot?
    ensures OnDisk(w, s.c.disk) && G.Inv(w.l, Abs(w, s)) && s.phase.Filling? && s.phase.k < |s.lh|
    ensures s.lh[s.phase.k] in s.logged && At(w, w.l.start + s.phase.k + 1) in t.c.disk
    ensures t.c.disk[At(w, w.l.start + s.phase.k + 1)] == s.logged[s.lh[s.phase.k]]
  {
    hide G.Inv, B.Good, BufOk, Kept;
  }

  /** What is logged is what all writes so far leave. */
  lemma Pending(w: World, s: State)
    requires OnDisk(w, s.c.disk) && G.Inv(w.l, Abs(w, s)) && s.phase.Filling? && s.phase.k < |s.lh|
    ensures s.lh[s.phase.k] < w.n && |s.init| == w.n && s.lh[s.phase.k] in s.logged
    ensures s.logged[s.lh[s.phase.k]] == G.Replay(s.init, s.done + s.pending)[s.lh[s.phase.k]]
  {
    var b := s.lh[s.phase.k];
    assert b in s.logged.Keys;
    assert Home(w.l, DiskOf(w, s.c.disk), b);
  }

  /**
   In every run, a step that changes a home block on the disk is a write of install_trans, during a commit whose
   header is written or during recovery, and what it writes there is what the committed operations left.
   */
  lemma OnlyCommittedHome(w: World, ss: seq<State>, es: seq<Event>, k: nat, b: nat)
    requires Execution(w, ss, es) && k < |es| && IsHome(w, b)
    ensures OnDisk(w, ss[0].c.disk) && OnDisk(w, ss[k].c.disk) && OnDisk(w, ss[k + 1].c.disk)
    ensures ss[k + 1].c.disk[At(w, b)] != ss[k].c.disk[At(w, b)] ==>
            && es[k].WriteHome? && (ss[k].phase.Installing? || ss[k].phase.Recovering?)
            && ss[k + 1].c.disk[At(w, b)] == G.Replay(DiskOf(w, ss[0].c.disk), Durable(ss, es, k))[b]
  {
    HistoryIsEvents(w, ss, es, k);
    AlwaysInv(w, ss, es, k);
    assert Next(w, ss[k], es[k], ss[k + 1]);
    StepShape(w, ss[k], es[k], ss[k + 1]);
    var gs, ges := Refines(w, ss, es, k);
    G.InitKept(w.l, gs, ges, |ges|);
    if ss[k + 1].c.disk[At(w, b)] != ss[k].c.disk[At(w, b)] {
      HomeChange(w, ss[k], es[k], ss[k + 1], b);
    }
  }

  lemma HomeChange(w: World, s: State, e: Event, t: State, b: nat)
    requires Inv(w, s) && Next(w, s, e, t) && IsHome(w, b) && OnDisk(w, t.c.disk) && |s.init| == w.n
    requires t.c.disk[At(w, b)] != s.c.disk[At(w, b)]
    ensures e.WriteHome? && (s.phase.Installing? || s.phase.Recovering?)
    ensures t.c.disk[At(w, b)] == G.Replay(s.init, s.done)[b]
  {
    hide BufOk, Kept, B.Good, G.Inv;
    if e.Use? {
      UseDisk(s, e.e, t);
    } else if e.WriteHome? {
      Committed(w, s);
    }
  }

  lemma UseDisk(s: State, e: B.Event, t: State)
    requires UseStep(s, e, t)
    ensures t.c.disk == s.c.disk
  {
  }

  /** In a commit after its header write, and in recovery, the next slot holds what the committed writes left. */
  lemma Committed(w: World, s: State)
    requires OnDisk(w, s.c.disk) && G.Inv(w.l, Abs(w, s)) && (s.phase.Installing? || s.phase.Recovering?)
    requires s.phase.k < |s.lh|
    ensures s.lh[s.phase.k] < w.n && w.l.start + s.phase.k + 1 < w.n && |s.init| == w.n
    ensures s.c.disk[At(w, w.l.start + s.phase.k + 1)] == G.Replay(s.init, s.done)[s.lh[s.phase.k]]
  {
    hide G.Replay, GetHead, G.Sees, G.Installed, G.Pinned;
    assert Home(w.l, DiskOf(w, s.c.disk), s.lh[s.phase.k]);
  }

  /** In every run, a crash now and recovery leave in every home block what the committed operations left there. */
  lemma CrashRecovers(w: World, ss: seq<State>, es: seq<Event>, k: nat)
    requires Execution(w, ss, es) && k <= |es|
    ensures OnDisk(w, ss[0].c.disk) && OnDisk(w, ss[k].c.disk) && ValidLog(w.l, DiskOf(w, ss[k].c.disk))
    ensures SameHome(w.l, Recover(w.l, DiskOf(w, ss[k].c.disk)),
                     G.Replay(DiskOf(w, ss[0].c.disk), Durable(ss, es, k)))
  {
    HistoryIsEvents(w, ss, es, k);
    var gs, ges := Refines(w, ss, es, k);
    G.CrashRecoversCommitted(w.l, gs, ges, |ges|);
  }
}
