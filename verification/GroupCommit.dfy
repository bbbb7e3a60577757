/**
 Group commit (log.c) as a protocol: every interleaving of operations, of the single block
 writes of a commit, of crashes at any moment, and of recoveries that may crash again.
 */
module GroupCommit {
  import opened Blocks
  import opened Common
  import opened Log

  /** A logged block write. */
  datatype Write = Write(block: Uint, data: Block)

  /** What a process is doing: nothing, or an operation that has added `used` blocks to the log. */
  datatype Op = Idle | Active(used: nat)

  datatype Phase =
    | Running
    | Filling(k: nat)     // committing, k slots written, header not yet
    | Installing(k: nat)  // committing, header written, k blocks home
    | Down                // crashed: memory is gone, the disk stays
    | Recovering(k: nat)  // booting, header read, k blocks home

  /**
   `cache` holds the pinned buffers. `done` and `pending` record the history: the writes that
   commits have made durable, and those logged since.
   */
  datatype State = State(
    disk: Disk, cache: map<Uint, Block>, lh: seq<Uint>, ops: seq<Op>, phase: Phase,
    init: Disk, done: seq<Write>, pending: seq<Write>)

  datatype Event =
    | Begin(p: nat)
    | LogWrite(p: nat, w: Write)
    | End(p: nat)
    | FillSlot
    | WriteHeader
    | InstallSlot
    | ClearHeader
    | Crash
    | ReadHeader
    | RecoverSlot
    | RecoverClear

  /** log.outstanding. */
  function Count(ops: seq<Op>): (n: nat) {
    if ops == [] then 0 else (if ops[0].Active? then 1 else 0) + Count(ops[1..])
  }

  ghost function Replay(d: Disk, ws: seq<Write>): (r: Disk)
    ensures |r| == |d|
  {
    if ws == [] then d
    else
      var e := Replay(d, ws[..|ws| - 1]);
      var w := ws[|ws| - 1];
      if w.block < |d| then e[w.block := w.data] else e
  }

  /** What a reader sees in block b: the pinned copy, or the disk. */
  function View(s: State, b: Uint): (v: Block)
    requires b < |s.disk|
  {
    if b in s.cache then s.cache[b] else s.disk[b]
  }

  // The steps, each one critical section or one block write

  /** begin_op's admission test. */
  predicate Admits(s: State) {
    s.phase.Running? && |s.lh| + (Count(s.ops) + 1) * MAXOPBLOCKS <= LOGSIZE
  }

  ghost predicate BeginStep(s: State, p: nat, t: State) {
    && Admits(s) && p < |s.ops| && s.ops[p].Idle?
    && t == s.(ops := s.ops[p := Active(0)])
  }

  /** The guard at the top of log_write, taken together with the append as one step. */
  predicate Panics(l: Layout, s: State) {
    |s.lh| >= LOGSIZE || |s.lh| >= l.size - 1
  }

  ghost predicate CanLog(l: Layout, s: State, p: nat, b: Uint) {
    s.phase.Running? && p < |s.ops| && s.ops[p].Active? && Home(l, s.disk, b)
  }

  /** Log absorption: a block is listed once. */
  function Absorb(h: seq<Uint>, b: Uint): (r: seq<Uint>) {
    if b in h then h else h + [b]
  }

  ghost predicate LogWriteStep(l: Layout, s: State, p: nat, w: Write, t: State) {
    && CanLog(l, s, p, w.block) && !Panics(l, s)
    && t == s.(cache := s.cache[w.block := w.data], pending := s.pending + [w],
               lh := Absorb(s.lh, w.block),
               ops := if w.block in s.lh then s.ops else s.ops[p := Active(s.ops[p].used + 1)])
  }

  /** The last operation out starts the commit, unless there is nothing to write. */
  ghost predicate EndStep(s: State, p: nat, t: State) {
    && s.phase.Running? && p < |s.ops| && s.ops[p].Active?
    && t == s.(ops := s.ops[p := Idle],
               phase := if Count(s.ops[p := Idle]) == 0 && |s.lh| > 0 then Filling(0) else Running)
  }

  ghost predicate FillSlotStep(l: Layout, s: State, t: State) {
    && s.phase.Filling? && s.phase.k < |s.lh| && l.start + s.phase.k + 1 < |s.disk| && s.lh[s.phase.k] < |s.disk|
    && t == s.(disk := s.disk[l.start + s.phase.k + 1 := View(s, s.lh[s.phase.k])], phase := Filling(s.phase.k + 1))
  }

  ghost predicate WriteHeaderStep(l: Layout, s: State, t: State) {
    && s.phase.Filling? && s.phase.k == |s.lh| && Fits(l, s.disk) && |s.lh| <= LOGSIZE
    && t == s.(disk := SetHead(l, s.disk, s.lh), phase := Installing(0), done := s.done + s.pending, pending := [])
  }

  ghost predicate InstallSlotStep(l: Layout, s: State, t: State) {
    && s.phase.Installing? && s.phase.k < |s.lh| && l.start + s.phase.k + 1 < |s.disk| && s.lh[s.phase.k] < |s.disk|
    && t == s.(disk := s.disk[s.lh[s.phase.k] := s.disk[l.start + s.phase.k + 1]],
               cache := s.cache - {s.lh[s.phase.k]}, phase := Installing(s.phase.k + 1))
  }

  ghost predicate ClearHeaderStep(l: Layout, s: State, t: State) {
    && s.phase.Installing? && s.phase.k == |s.lh| && Fits(l, s.disk)
    && t == s.(disk := SetHead(l, s.disk, []), lh := [], phase := Running)
  }

  /** Power loss or panic, at any moment: the disk is all that is left. */
  ghost predicate CrashStep(s: State, t: State) {
    && |t.ops| == |s.ops| && AllIdle(t.ops)
    && t == s.(cache := map[], lh := [], ops := t.ops, phase := Down, pending := [])
  }

  ghost predicate ReadHeaderStep(l: Layout, s: State, t: State) {
    && s.phase.Down? && Fits(l, s.disk) && Word(s.disk[l.start], 0) <= LOGSIZE
    && t == s.(lh := GetHead(s.disk[l.start]), phase := Recovering(0))
  }

  ghost predicate RecoverSlotStep(l: Layout, s: State, t: State) {
    && s.phase.Recovering? && s.phase.k < |s.lh| && l.start + s.phase.k + 1 < |s.disk| && s.lh[s.phase.k] < |s.disk|
    && t == s.(disk := s.disk[s.lh[s.phase.k] := s.disk[l.start + s.phase.k + 1]], phase := Recovering(s.phase.k + 1))
  }

  ghost predicate RecoverClearStep(l: Layout, s: State, t: State) {
    && s.phase.Recovering? && s.phase.k == |s.lh| && Fits(l, s.disk)
    && t == s.(disk := SetHead(l, s.disk, []), lh := [], phase := Running)
  }

  ghost predicate Next(l: Layout, s: State, e: Event, t: State) {
    match e
    case Begin(p) => BeginStep(s, p, t)
    case LogWrite(p, w) => LogWriteStep(l, s, p, w, t)
    case End(p) => EndStep(s, p, t)
    case FillSlot => FillSlotStep(l, s, t)
    case WriteHeader => WriteHeaderStep(l, s, t)
    case InstallSlot => InstallSlotStep(l, s, t)
    case ClearHeader => ClearHeaderStep(l, s, t)
    case Crash => CrashStep(s, t)
    case ReadHeader => ReadHeaderStep(l, s, t)
    case RecoverSlot => RecoverSlotStep(l, s, t)
    case RecoverClear => RecoverClearStep(l, s, t)
  }

  /** A kernel about to boot, for the first time, on a disk with an empty log. */
  ghost predicate Init(l: Layout, s: State) {
    && EmptyLog(l, s.disk) && s.phase.Down? && s.cache == map[] && s.lh == []
    && AllIdle(s.ops) && s.init == s.disk && s.done == [] && s.pending == []
  }

  /** The states ss[0], ss[1], ... reached by the events es[0], es[1], ... */
  ghost predicate Execution(l: Layout, ss: seq<State>, es: seq<Event>) {
    && |ss| == |es| + 1 && Init(l, ss[0])
    && forall i :: 0 <= i < |es| ==> Next(l, ss[i], es[i], ss[i + 1])
  }

  // The invariant

  ghost predicate AllIdle(ops: seq<Op>) {
    forall p :: 0 <= p < |ops| ==> ops[p].Idle?
  }

  /** The last committed contents of the home blocks. */
  ghost function Stable(s: State): (d: Disk) {
    Replay(s.init, s.done)
  }

  /** The committed contents plus every write logged since. */
  ghost function Current(s: State): (d: Disk) {
    Replay(s.init, s.done + s.pending)
  }

  /** The home blocks of d, with each listed one replaced by its slot, are the given contents. */
  ghost predicate Encodes(l: Layout, d: Disk, h: seq<Uint>, contents: Disk)
    requires Loggable(l, d, h)
  {
    && |contents| == |d|
    && (forall i :: 0 <= i < |h| ==> contents[h[i]] == d[l.start + i + 1])
    && (forall b :: Home(l, d, b) && b !in h ==> contents[b] == d[b])
  }

  /** A crash that leaves disk d loses nothing of the given contents; see CrashSafeMeans. */
  ghost predicate CrashSafe(l: Layout, d: Disk, contents: Disk) {
    && ValidLog(l, d) && Distinct(GetHead(d[l.start]))
    && Encodes(l, d, GetHead(d[l.start]), contents)
  }

  /** Readers see the given contents. */
  ghost predicate Sees(l: Layout, d: Disk, cache: map<Uint, Block>, contents: Disk) {
    && |contents| == |d|
    && forall b: Uint :: Home(l, d, b) ==> contents[b] == if b in cache then cache[b] else d[b]
  }

  /** The blocks listed from position k on. */
  ghost function Listed(h: seq<Uint>, k: nat): (bs: set<Uint>) {
    set i | k <= i < |h| :: h[i]
  }

  /** The pinned buffers are those of the blocks listed from position k on. */
  ghost predicate Pinned(cache: map<Uint, Block>, h: seq<Uint>, k: nat) {
    cache.Keys == Listed(h, k)
  }

  /** The first k listed blocks are home. */
  ghost predicate Installed(l: Layout, d: Disk, h: seq<Uint>, k: nat)
    requires Loggable(l, d, h)
  {
    k <= |h| && forall i :: 0 <= i < k ==> d[h[i]] == d[l.start + i + 1]
  }

  /** The first k slots hold the pinned copies of the listed blocks. */
  ghost predicate Filled(l: Layout, d: Disk, cache: map<Uint, Block>, h: seq<Uint>, k: nat)
    requires Loggable(l, d, h) && Pinned(cache, h, 0)
  {
    k <= |h| && forall i :: 0 <= i < k ==> d[l.start + i + 1] == cache[h[i]]
  }

  ghost predicate PhaseInv(l: Layout, s: State)
    requires Fits(l, s.disk) && ValidLog(l, s.disk) && Loggable(l, s.disk, s.lh)
  {
    match s.phase
    case Running =>
      && EmptyLog(l, s.disk) && Pinned(s.cache, s.lh, 0) && Sees(l, s.disk, s.cache, Current(s))
      && (AllIdle(s.ops) ==> s.lh == [])
    case Filling(k) =>
      && EmptyLog(l, s.disk) && Pinned(s.cache, s.lh, 0) && Sees(l, s.disk, s.cache, Current(s))
      && AllIdle(s.ops) && Filled(l, s.disk, s.cache, s.lh, k)
    case Installing(k) =>
      && AllIdle(s.ops) && s.pending == [] && s.lh == GetHead(s.disk[l.start])
      && Installed(l, s.disk, s.lh, k) && Pinned(s.cache, s.lh, k) && Sees(l, s.disk, s.cache, Stable(s))
    case Down => AllIdle(s.ops) && s.pending == [] && s.cache == map[] && s.lh == []
    case Recovering(k) =>
      && AllIdle(s.ops) && s.pending == [] && s.cache == map[] && s.lh == GetHead(s.disk[l.start])
      && Installed(l, s.disk, s.lh, k)
  }

  ghost predicate Inv(l: Layout, s: State) {
    && |s.init| == |s.disk| && Loggable(l, s.disk, s.lh) && Distinct(s.lh)
    && CrashSafe(l, s.disk, Stable(s)) && PhaseInv(l, s)
  }

  // Lemmas about the disk

  /** With distinct block numbers, recovery puts slot i in the i-th listed block and nothing anywhere else. */
  lemma RecoverHome(l: Layout, d: Disk, b: nat)
    requires ValidLog(l, d) && Distinct(GetHead(d[l.start])) && Home(l, d, b)
    ensures var h := GetHead(d[l.start]);
            && (b !in h ==> Recover(l, d)[b] == d[b])
            && (forall i :: 0 <= i < |h| && h[i] == b ==> Recover(l, d)[b] == d[l.start + i + 1])
  {
    var h := GetHead(d[l.start]);
    InstallHome(l, d, h, |h|, b);
    assert h[..|h|] == h;
    forall i | 0 <= i < |h| && h[i] == b
      ensures Recover(l, d)[b] == d[l.start + i + 1]
    {
      assert b !in h[i + 1..|h|];
    }
  }

  /** Recovery turns a crash-safe disk into its contents. */
  lemma CrashSafeMeans(l: Layout, d: Disk, contents: Disk)
    requires CrashSafe(l, d, contents)
    ensures SameHome(l, Recover(l, d), contents)
  {
    var h := GetHead(d[l.start]);
    forall b | Home(l, d, b)
      ensures Recover(l, d)[b] == contents[b]
    {
      RecoverHome(l, d, b);
      if b in h {
        var i :| 0 <= i < |h| && h[i] == b;
      }
    }
  }

  /** Copying a listed slot home does not change the contents. */
  lemma InstallStepSafe(l: Layout, d: Disk, h: seq<Uint>, k: nat, contents: Disk)
    requires CrashSafe(l, d, contents) && h == GetHead(d[l.start]) && k < |h| && Installed(l, d, h, k)
    ensures var e := d[h[k] := d[l.start + k + 1]];
            && CrashSafe(l, e, contents) && h == GetHead(e[l.start]) && Loggable(l, e, h) && Installed(l, e, h, k + 1)
  {
    var e := d[h[k] := d[l.start + k + 1]];
    assert Home(l, d, h[k]);
    assert e[l.start] == d[l.start];
    assert HomeAll(l, e, h);
    assert Encodes(l, e, h, contents);
  }

  /** Once every listed block is home, the disk itself holds the contents. */
  lemma AllInstalled(l: Layout, d: Disk, h: seq<Uint>, contents: Disk)
    requires Loggable(l, d, h) && Encodes(l, d, h, contents) && Installed(l, d, h, |h|)
    ensures SameHome(l, d, contents)
  {
    forall b | Home(l, d, b)
      ensures d[b] == contents[b]
    {
      if b in h {
        var i :| 0 <= i < |h| && h[i] == b;
      }
    }
  }

  lemma EmptyIsSafe(l: Layout, d: Disk, contents: Disk)
    requires EmptyLog(l, d)
    ensures ValidLog(l, d) && GetHead(d[l.start]) == []
    ensures SameHome(l, d, contents) <==> CrashSafe(l, d, contents)
  {
  }

  /** Clearing the header of a disk that holds the contents leaves it crash-safe. */
  lemma ClearedIsSafe(l: Layout, d: Disk, contents: Disk)
    requires Fits(l, d) && SameHome(l, d, contents)
    ensures EmptyLog(l, SetHead(l, d, []))
    ensures SameHome(l, SetHead(l, d, []), contents) && CrashSafe(l, SetHead(l, d, []), contents)
  {
    HeadRoundTrip(d[l.start], []);
    EmptyIsSafe(l, SetHead(l, d, []), contents);
  }

  lemma ReplayOne(d: Disk, ws: seq<Write>, w: Write)
    requires w.block < |d|
    ensures Replay(d, ws + [w]) == Replay(d, ws)[w.block := w.data]
  {
    assert (ws + [w])[..|ws|] == ws;
  }

  // Every step keeps the invariant

  lemma IdleMeansZero(ops: seq<Op>)
    ensures Count(ops) == 0 <==> AllIdle(ops)
  {
    if ops != [] {
      IdleMeansZero(ops[1..]);
      assert ops == [ops[0]] + ops[1..];
      if AllIdle(ops) {
        assert AllIdle(ops[1..]);
      }
    }
  }

  /** Logging a write updates what readers see in that block and nothing else. */
  lemma SeesWrite(l: Layout, d: Disk, cache: map<Uint, Block>, contents: Disk, w: Write)
    requires Sees(l, d, cache, contents) && w.block < |d|
    ensures Sees(l, d, cache[w.block := w.data], contents[w.block := w.data])
  {
  }

  /** Absorbing a home block keeps the list loggable and the pinned set equal to it. */
  lemma AbsorbKeeps(l: Layout, d: Disk, cache: map<Uint, Block>, h: seq<Uint>, w: Write)
    requires Loggable(l, d, h) && Distinct(h) && Pinned(cache, h, 0) && Home(l, d, w.block)
    requires |h| < LOGSIZE && |h| < l.size - 1
    ensures var g := Absorb(h, w.block);
            Loggable(l, d, g) && Distinct(g) && Pinned(cache[w.block := w.data], g, 0) && g != []
  {
    ListOne(h, w.block);
  }

  lemma LogWriteKeeps(l: Layout, s: State, p: nat, w: Write, t: State)
    requires Inv(l, s) && LogWriteStep(l, s, p, w, t)
    ensures Inv(l, t)
  {
    AbsorbKeeps(l, s.disk, s.cache, s.lh, w);
    ReplayOne(s.init, s.done + s.pending, w);
    assert s.done + t.pending == s.done + s.pending + [w];
    SeesWrite(l, s.disk, s.cache, Current(s), w);
    assert t.ops[p].Active?;
  }

  lemma EndKeeps(l: Layout, s: State, p: nat, t: State)
    requires Inv(l, s) && EndStep(s, p, t)
    ensures Inv(l, t)
  {
    IdleMeansZero(s.ops[p := Idle]);
  }

  lemma FillSlotKeeps(l: Layout, s: State, t: State)
    requires Inv(l, s) && FillSlotStep(l, s, t)
    ensures Inv(l, t)
  {
    hide CrashSafe, Replay, GetHead, Word;
    EmptyIsSafe(l, s.disk, Stable(s));
    assert SameHome(l, t.disk, s.disk);
    EmptyIsSafe(l, t.disk, Stable(s));
    assert HomeAll(l, t.disk, s.lh);
  }

  /** With every slot filled, the header write makes the disk hold what readers saw. */
  lemma HeaderCommits(l: Layout, d: Disk, cache: map<Uint, Block>, h: seq<Uint>, contents: Disk)
    requires Loggable(l, d, h) && Distinct(h) && Pinned(cache, h, 0) && Filled(l, d, cache, h, |h|)
    requires Sees(l, d, cache, contents)
    ensures CrashSafe(l, SetHead(l, d, h), contents) && GetHead(SetHead(l, d, h)[l.start]) == h
    ensures Loggable(l, SetHead(l, d, h), h) && Sees(l, SetHead(l, d, h), cache, contents)
  {
    hide PutHead, GetHead, Word, Encodes, Sees, Filled, Pinned, HomeAll;
    HeadRoundTrip(d[l.start], h);
    HeaderEncodes(l, d, SetHead(l, d, h), cache, h, contents);
  }

  /** Changing the header block alone keeps list, slots and what readers see. */
  lemma HeaderEncodes(l: Layout, d: Disk, e: Disk, cache: map<Uint, Block>, h: seq<Uint>, contents: Disk)
    requires Loggable(l, d, h) && Distinct(h) && Pinned(cache, h, 0) && Filled(l, d, cache, h, |h|)
    requires Sees(l, d, cache, contents) && |e| == |d| && e == d[l.start := e[l.start]]
    ensures Loggable(l, e, h) && Encodes(l, e, h, contents) && Sees(l, e, cache, contents)
  {
    assert SameHome(l, e, d);
    assert HomeAll(l, e, h);
    forall i | 0 <= i < |h|
      ensures contents[h[i]] == e[l.start + i + 1]
    {
      assert Home(l, d, h[i]);
    }
  }

  /** The commit point: what was merely pending becomes what a crash recovers. */
  lemma WriteHeaderKeeps(l: Layout, s: State, t: State)
    requires Inv(l, s) && WriteHeaderStep(l, s, t)
    ensures Inv(l, t)
  {
    HeaderCommits(l, s.disk, s.cache, s.lh, Current(s));
  }

  /** A block copied home from its slot leaves the pinned set without any reader noticing. */
  lemma SeesInstall(l: Layout, d: Disk, cache: map<Uint, Block>, h: seq<Uint>, k: nat, contents: Disk)
    requires Loggable(l, d, h) && Distinct(h) && k < |h|
    requires Encodes(l, d, h, contents) && Sees(l, d, cache, contents) && Pinned(cache, h, k)
    ensures var e := d[h[k] := d[l.start + k + 1]];
            Sees(l, e, cache - {h[k]}, contents) && Pinned(cache - {h[k]}, h, k + 1)
  {
    UnlistOne(h, k);
    var e := d[h[k] := d[l.start + k + 1]];
    forall b: Uint | Home(l, e, b)
      ensures contents[b] == if b in cache - {h[k]} then cache[b] else e[b]
    {
      assert Home(l, d, b);
    }
  }

  lemma ListOne(h: seq<Uint>, b: Uint)
    ensures Listed(h + [b], 0) == Listed(h, 0) + {b}
    ensures b in h <==> b in Listed(h, 0)
  {
    var g := h + [b];
    assert forall i :: 0 <= i < |h| ==> g[i] == h[i];
    assert g[|h|] == b;
  }

  lemma UnlistOne(h: seq<Uint>, k: nat)
    requires Distinct(h) && k < |h|
    ensures Listed(h, k) - {h[k]} == Listed(h, k + 1)
  {
  }

  lemma InstallSlotKeeps(l: Layout, s: State, t: State)
    requires Inv(l, s) && InstallSlotStep(l, s, t)
    ensures Inv(l, t)
  {
    InstallStepSafe(l, s.disk, s.lh, s.phase.k, Stable(s));
    SeesInstall(l, s.disk, s.cache, s.lh, s.phase.k, Stable(s));
  }

  lemma ClearHeaderKeeps(l: Layout, s: State, t: State)
    requires Inv(l, s) && ClearHeaderStep(l, s, t)
    ensures Inv(l, t)
  {
    AllInstalled(l, s.disk, s.lh, Stable(s));
    ClearedIsSafe(l, s.disk, Stable(s));
    assert s.cache == map[];
    assert s.done + s.pending == s.done;
  }

  lemma RecoverSlotKeeps(l: Layout, s: State, t: State)
    requires Inv(l, s) && RecoverSlotStep(l, s, t)
    ensures Inv(l, t)
  {
    InstallStepSafe(l, s.disk, s.lh, s.phase.k, Stable(s));
  }

  lemma RecoverClearKeeps(l: Layout, s: State, t: State)
    requires Inv(l, s) && RecoverClearStep(l, s, t)
    ensures Inv(l, t)
  {
    AllInstalled(l, s.disk, s.lh, Stable(s));
    ClearedIsSafe(l, s.disk, Stable(s));
    assert s.done + s.pending == s.done;
  }

  lemma NextKeepsInv(l: Layout, s: State, e: Event, t: State)
    requires Inv(l, s) && Next(l, s, e, t)
    ensures Inv(l, t)
  {
    match e
    case Begin(p) => assert t.ops[p].Active?;
    case LogWrite(p, w) => LogWriteKeeps(l, s, p, w, t);
    case End(p) => EndKeeps(l, s, p, t);
    case FillSlot => FillSlotKeeps(l, s, t);
    case WriteHeader => WriteHeaderKeeps(l, s, t);
    case InstallSlot => InstallSlotKeeps(l, s, t);
    case ClearHeader => ClearHeaderKeeps(l, s, t);
    case Crash =>
    case ReadHeader =>
    case RecoverSlot => RecoverSlotKeeps(l, s, t);
    case RecoverClear => RecoverClearKeeps(l, s, t);
  }

  lemma InitInv(l: Layout, s: State)
    requires Init(l, s)
    ensures Inv(l, s)
  {
    EmptyIsSafe(l, s.disk, Stable(s));
  }

  lemma {:induction false} AlwaysInv(l: Layout, ss: seq<State>, es: seq<Event>, i: nat)
    requires Execution(l, ss, es) && i <= |es|
    ensures Inv(l, ss[i])
  {
    hide Inv, Next;
    if i == 0 {
      InitInv(l, ss[0]);
    } else {
      AlwaysInv(l, ss, es, i - 1);
      NextKeepsInv(l, ss[i - 1], es[i - 1], ss[i]);
    }
  }

  // What every execution guarantees

  /** The writes logged since the last header write of a commit, or the last crash. */
  function Unsaved(es: seq<Event>): (ws: seq<Write>) {
    if es == [] then []
    else
      var e, before := es[|es| - 1], Unsaved(es[..|es| - 1]);
      if e.LogWrite? then before + [e.w] else if e.WriteHeader? || e.Crash? then [] else before
  }

  /** The writes that the header writes among these events have made durable. */
  function Durable(es: seq<Event>): (ws: seq<Write>) {
    if es == [] then []
    else
      var before := es[..|es| - 1];
      if es[|es| - 1].WriteHeader? then Durable(before) + Unsaved(before) else Durable(before)
  }

  /** The history in the states is that of the events. */
  lemma {:induction false} HistoryIsEvents(l: Layout, ss: seq<State>, es: seq<Event>, i: nat)
    requires Execution(l, ss, es) && i <= |es|
    ensures ss[i].done == Durable(es[..i]) && ss[i].pending == Unsaved(es[..i])
  {
    if i > 0 {
      HistoryIsEvents(l, ss, es, i - 1);
      assert es[..i][..i - 1] == es[..i - 1];
      assert Next(l, ss[i - 1], es[i - 1], ss[i]);
    }
  }

  /**
   Whatever has happened so far, a crash now, followed by recovery, leaves in every home block what
   the committed writes left there and clears the header.
   */
  lemma CrashRecoversCommitted(l: Layout, ss: seq<State>, es: seq<Event>, i: nat)
    requires Execution(l, ss, es) && i <= |es|
    ensures ValidLog(l, ss[i].disk) && EmptyLog(l, Recover(l, ss[i].disk))
    ensures ss[i].done == Durable(es[..i])
    ensures SameHome(l, Recover(l, ss[i].disk), Replay(ss[0].disk, Durable(es[..i])))
  {
    HistoryIsEvents(l, ss, es, i);
    AlwaysInv(l, ss, es, i);
    InitKept(l, ss, es, i);
    CrashSafeMeans(l, ss[i].disk, Stable(ss[i]));
    RecoverStable(l, ss[i].disk);
  }

  lemma {:induction false} InitKept(l: Layout, ss: seq<State>, es: seq<Event>, i: nat)
    requires Execution(l, ss, es) && i <= |es|
    ensures ss[i].init == ss[0].disk
  {
    if i > 0 {
      InitKept(l, ss, es, i - 1);
      assert Next(l, ss[i - 1], es[i - 1], ss[i]);
    }
  }

  /**
   Operations are committed whole: the committed history grows only while no operation is in
   progress, and then by everything logged since it last grew; a crash drops what is pending.
   */
  lemma CommitsWholeOperations(l: Layout, ss: seq<State>, es: seq<Event>, i: nat)
    requires Execution(l, ss, es) && i < |es|
    ensures ss[i + 1].done != ss[i].done ==>
      AllIdle(ss[i].ops) && ss[i + 1].done == ss[i].done + ss[i].pending && ss[i + 1].pending == []
    ensures ss[i + 1].done == ss[i].done ==>
      || ss[i].pending <= ss[i + 1].pending
      || (es[i].Crash? && ss[i + 1].pending == [])
  {
    AlwaysInv(l, ss, es, i);
    assert Next(l, ss[i], es[i], ss[i + 1]);
  }

  /** While the kernel is up, every reader sees the committed writes followed by all pending ones. */
  lemma ReadersSeeLatest(l: Layout, ss: seq<State>, es: seq<Event>, i: nat, b: Uint)
    requires Execution(l, ss, es) && i <= |es|
    requires !ss[i].phase.Down? && !ss[i].phase.Recovering? && Home(l, ss[i].disk, b)
    ensures |ss[0].disk| == |ss[i].disk|
    ensures View(ss[i], b) == Replay(ss[0].disk, Durable(es[..i]) + Unsaved(es[..i]))[b]
  {
    HistoryIsEvents(l, ss, es, i);
    AlwaysInv(l, ss, es, i);
    InitKept(l, ss, es, i);
    assert ss[i].pending == [] ==> ss[i].done + ss[i].pending == ss[i].done;
  }

  /** Commits run alone, over distinct blocks, and with nothing in progress nothing is left in the log. */
  lemma CommitsRunAlone(l: Layout, ss: seq<State>, es: seq<Event>, i: nat)
    requires Execution(l, ss, es) && i <= |es|
    ensures !ss[i].phase.Running? ==> Count(ss[i].ops) == 0
    ensures Distinct(ss[i].lh)
    ensures ss[i].phase.Running? && Count(ss[i].ops) == 0 ==> ss[i].lh == [] && Admits(ss[i])
  {
    AlwaysInv(l, ss, es, i);
    IdleMeansZero(ss[i].ops);
  }

  /** A commit under way can always do its next write. */
  lemma CommitProgress(l: Layout, s: State) returns (e: Event, t: State)
    requires Loggable(l, s.disk, s.lh)
    requires (s.phase.Filling? || s.phase.Installing?) && s.phase.k <= |s.lh|
    ensures Next(l, s, e, t) && e in {FillSlot, WriteHeader, InstallSlot, ClearHeader}
  {
    var k := s.phase.k;
    if k < |s.lh| {
      assert Home(l, s.disk, s.lh[k]);
      if s.phase.Filling? {
        e := FillSlot;
        t := s.(disk := s.disk[l.start + k + 1 := View(s, s.lh[k])], phase := Filling(k + 1));
      } else {
        e := InstallSlot;
        t := s.(disk := s.disk[s.lh[k] := s.disk[l.start + k + 1]], cache := s.cache - {s.lh[k]},
                phase := Installing(k + 1));
      }
    } else if s.phase.Filling? {
      e := WriteHeader;
      t := s.(disk := SetHead(l, s.disk, s.lh), phase := Installing(0), done := s.done + s.pending, pending := []);
    } else {
      e := ClearHeader;
      t := s.(disk := SetHead(l, s.disk, []), lh := [], phase := Running);
    }
  }

  /**
   Admission cannot deadlock: whenever begin_op would sleep in a running kernel, either a commit
   is under way and its next write can be done, or some operation is in progress and can end.
   */
  lemma AdmissionProgress(l: Layout, ss: seq<State>, es: seq<Event>, i: nat) returns (e: Event, t: State)
    requires Execution(l, ss, es) && i <= |es|
    requires !ss[i].phase.Down? && !ss[i].phase.Recovering? && !Admits(ss[i])
    ensures Next(l, ss[i], e, t)
    ensures ss[i].phase.Running? ==> e.End?
    ensures !ss[i].phase.Running? ==> e in {FillSlot, WriteHeader, InstallSlot, ClearHeader}
  {
    var s := ss[i];
    CommitsRunAlone(l, ss, es, i);
    if s.phase.Running? {
      IdleMeansZero(s.ops);
      var p :| 0 <= p < |s.ops| && s.ops[p].Active?;
      e := End(p);
      t := s.(ops := s.ops[p := Idle],
              phase := if Count(s.ops[p := Idle]) == 0 && |s.lh| > 0 then Filling(0) else Running);
    } else {
      AlwaysInv(l, ss, es, i);
      e, t := CommitProgress(l, s);
    }
  }

  // Reservations

  /** The event adds a block to the log only if its operation has added fewer than m. */
  predicate WithinBudget(m: nat, s: State, e: Event) {
    e.LogWrite? && e.w.block !in s.lh && e.p < |s.ops| && s.ops[e.p].Active? ==> s.ops[e.p].used < m
  }

  /** An execution in which every operation adds at most m blocks. */
  ghost predicate Budgeted(l: Layout, m: nat, ss: seq<State>, es: seq<Event>) {
    Execution(l, ss, es) && forall i :: 0 <= i < |es| ==> WithinBudget(m, ss[i], es[i])
  }

  /** What an operation may still add. */
  function Left(m: nat, op: Op): (n: nat) {
    if op.Active? && op.used <= m then m - op.used else 0
  }

  /** What all operations may still add. */
  function Reserved(m: nat, ops: seq<Op>): (n: nat) {
    if ops == [] then 0 else Left(m, ops[0]) + Reserved(m, ops[1..])
  }

  lemma {:induction false} ReservedUpdate(m: nat, ops: seq<Op>, p: nat, op: Op)
    requires p < |ops|
    ensures Reserved(m, ops[p := op]) == Reserved(m, ops) - Left(m, ops[p]) + Left(m, op)
  {
    if p > 0 {
      assert ops[p := op][1..] == ops[1..][p - 1 := op];
      ReservedUpdate(m, ops[1..], p - 1, op);
    }
  }

  lemma {:induction false} ReservedAtMost(m: nat, ops: seq<Op>)
    ensures Reserved(m, ops) <= Count(ops) * m
  {
    if ops != [] {
      ReservedAtMost(m, ops[1..]);
      var c := Count(ops[1..]);
      assert (c + 1) * m == c * m + m;
    }
  }

  lemma {:induction false} IdleReservesNothing(m: nat, ops: seq<Op>)
    requires AllIdle(ops)
    ensures Reserved(m, ops) == 0
  {
    if ops != [] {
      assert AllIdle(ops[1..]);
      IdleReservesNothing(m, ops[1..]);
    }
  }

  /** The most blocks that can be listed while an operation is in progress. */
  function Peak(m: nat): (n: nat) {
    MAXOPBLOCKS + 2 * m
  }

  /** What is listed and what may still be added stay below the peak. */
  ghost predicate Roomy(m: nat, s: State) {
    s.phase.Recovering? || |s.lh| + Reserved(m, s.ops) <= Peak(m)
  }

  /** Admission leaves room for the newcomer: with one other operation 10 blocks are listed, with two none. */
  lemma BeginKeepsRoom(m: nat, s: State, p: nat, t: State)
    requires m <= MAXOPBLOCKS && BeginStep(s, p, t) && (AllIdle(s.ops) ==> s.lh == [])
    ensures |t.lh| + Reserved(m, t.ops) <= Peak(m)
  {
    ReservedUpdate(m, s.ops, p, Active(0));
    ReservedAtMost(m, s.ops);
    IdleMeansZero(s.ops);
    if Count(s.ops) == 1 {
    } else if Count(s.ops) == 2 {
    } else {
      assert Count(s.ops) == 0;
    }
  }

  lemma NextKeepsRoom(l: Layout, m: nat, s: State, e: Event, t: State)
    requires m <= MAXOPBLOCKS && Inv(l, s) && Roomy(m, s) && Next(l, s, e, t) && WithinBudget(m, s, e)
    ensures Roomy(m, t)
  {
    match e
    case Begin(p) => BeginKeepsRoom(m, s, p, t);
    case LogWrite(p, w) => ReservedUpdate(m, s.ops, p, Active(s.ops[p].used + 1));
    case End(p) => ReservedUpdate(m, s.ops, p, Idle);
    case Crash => IdleReservesNothing(m, t.ops);
    case RecoverClear => IdleReservesNothing(m, t.ops);
    case _ =>
  }

  /**
   When no operation adds more than m blocks, m at most MAXOPBLOCKS, the list and what may still be added to it
   never exceed MAXOPBLOCKS + 2 * m; that is LOGSIZE for the m that begin_op reserves.
   */
  lemma {:induction false} LogHasRoom(l: Layout, m: nat, ss: seq<State>, es: seq<Event>, i: nat)
    requires m <= MAXOPBLOCKS && Budgeted(l, m, ss, es) && i <= |es|
    ensures |ss[i].lh| <= LOGSIZE && Roomy(m, ss[i])
  {
    hide Inv, CrashSafe, PhaseInv, Next, WithinBudget, EmptyLog;
    AlwaysInv(l, ss, es, i);
    ListFits(l, ss[i]);
    if i == 0 {
      IdleReservesNothing(m, ss[0].ops);
    } else {
      LogHasRoom(l, m, ss, es, i - 1);
      AlwaysInv(l, ss, es, i - 1);
      assert Next(l, ss[i - 1], es[i - 1], ss[i]) && WithinBudget(m, ss[i - 1], es[i - 1]);
      NextKeepsRoom(l, m, ss[i - 1], es[i - 1], ss[i]);
    }
  }

  lemma ListFits(l: Layout, s: State)
    requires Inv(l, s)
    ensures |s.lh| <= LOGSIZE
  {
  }

  /**
   After an execution in which no operation adds more than m blocks, operation p is refused block b, though
   b is listed already or within the budget of p.
   */
  ghost predicate Refused(l: Layout, m: nat, ss: seq<State>, es: seq<Event>, p: nat, b: Uint) {
    && Budgeted(l, m, ss, es) && CanLog(l, ss[|es|], p, b)
    && (b in ss[|es|].lh || ss[|es|].ops[p].used < m) && Panics(l, ss[|es|])
  }

  /** A budget that never fills the list protects every write, absorbed ones included. */
  lemma BudgetSuffices(l: Layout, m: nat, ss: seq<State>, es: seq<Event>, p: nat, b: Uint)
    requires Peak(m) < LOGSIZE && Peak(m) < l.size - 1
    ensures !Refused(l, m, ss, es, p, b)
  {
    if Refused(l, m, ss, es, p, b) {
      LogHasRoom(l, m, ss, es, |es|);
    }
  }

  lemma Extend(l: Layout, m: nat, ss: seq<State>, es: seq<Event>, e: Event, t: State)
    requires Budgeted(l, m, ss, es) && Next(l, ss[|es|], e, t) && WithinBudget(m, ss[|es|], e)
    ensures Budgeted(l, m, ss + [t], es + [e])
  {
    var tt, ff := ss + [t], es + [e];
    forall i | 0 <= i < |ff|
      ensures Next(l, tt[i], ff[i], tt[i + 1]) && WithinBudget(m, tt[i], ff[i])
    {
      if i < |es| {
        assert Next(l, ss[i], es[i], ss[i + 1]) && WithinBudget(m, ss[i], es[i]);
      }
    }
  }

  /** Boot, then admit two operations. */
  lemma TwoAdmitted(l: Layout, m: nat, d: Disk) returns (ss: seq<State>, es: seq<Event>)
    requires EmptyLog(l, d)
    ensures Budgeted(l, m, ss, es)
    ensures var s := ss[|es|]; s.phase.Running? && s.lh == [] && s.ops == [Active(0), Active(0)] && |s.disk| == |d|
  {
    var s0 := State(d, map[], [], [Idle, Idle], Down, d, [], []);
    ss, es := [s0], [];
    var s1 := s0.(phase := Recovering(0));
    assert GetHead(d[l.start]) == [];
    Extend(l, m, ss, es, ReadHeader, s1);
    ss, es := ss + [s1], es + [ReadHeader];
    var s2 := s1.(disk := SetHead(l, d, []), phase := Running);
    Extend(l, m, ss, es, RecoverClear, s2);
    ss, es := ss + [s2], es + [RecoverClear];
    var s3 := s2.(ops := [Active(0), Idle]);
    assert Count(s2.ops) == 0;
    Extend(l, m, ss, es, Begin(0), s3);
    ss, es := ss + [s3], es + [Begin(0)];
    var s4 := s3.(ops := [Active(0), Active(0)]);
    assert Count(s3.ops) == 1;
    Extend(l, m, ss, es, Begin(1), s4);
    ss, es := ss + [s4], es + [Begin(1)];
  }

  /** n blocks from base on are listed; operation 1 has come and gone until 10 were, operation 0 adds the last m. */
  ghost predicate FilledTo(m: nat, d: Disk, base: nat, n: nat, s: State) {
    && s.phase.Running? && |s.disk| == |d| && |s.ops| == 2 && s.ops[0].Active? && s.ops[1].Active?
    && s.ops[0].used == (if n <= MAXOPBLOCKS + m then 0 else n - MAXOPBLOCKS - m)
    && (if n <= MAXOPBLOCKS then s.ops[1].used <= m else s.ops[1].used == Min(n - MAXOPBLOCKS, m))
    && |s.lh| == n && forall i :: 0 <= i < n ==> s.lh[i] == base + i
  }

  function Min(a: int, b: int): (c: int) {
    if a < b then a else b
  }

  /** While operation 0 is in progress and at most 10 blocks are listed, operation 1 can end and another begin. */
  lemma Replaced(l: Layout, m: nat, ss: seq<State>, es: seq<Event>) returns (ss': seq<State>, es': seq<Event>)
    requires Budgeted(l, m, ss, es)
    requires var s := ss[|es|];
             s.phase.Running? && |s.ops| == 2 && s.ops[0].Active? && s.ops[1].Active? && |s.lh| <= MAXOPBLOCKS
    ensures Budgeted(l, m, ss', es') && ss'[|es'|] == ss[|es|].(ops := [ss[|es|].ops[0], Active(0)])
  {
    var s := ss[|es|];
    var s1 := s.(ops := [s.ops[0], Idle]);
    assert s.ops[1 := Idle] == s1.ops && s1.ops[1..] == [Idle] && Count([Idle]) == 0;
    Extend(l, m, ss, es, End(1), s1);
    ss', es' := ss + [s1], es + [End(1)];
    var s2 := s.(ops := [s.ops[0], Active(0)]);
    Extend(l, m, ss', es', Begin(1), s2);
    ss', es' := ss' + [s2], es' + [Begin(1)];
  }

  /** Operation p adds block b. */
  lemma Added(l: Layout, m: nat, ss: seq<State>, es: seq<Event>, p: nat, b: Uint)
    returns (ss': seq<State>, es': seq<Event>)
    requires Budgeted(l, m, ss, es)
    requires var s := ss[|es|];
             CanLog(l, s, p, b) && !Panics(l, s) && b !in s.lh && s.ops[p].used < m
    ensures Budgeted(l, m, ss', es')
    ensures var s, t := ss[|es|], ss'[|es'|];
            && t.phase.Running? && t.disk == s.disk && t.lh == s.lh + [b]
            && t.ops == s.ops[p := Active(s.ops[p].used + 1)]
  {
    var s := ss[|es|];
    var w := Write(b, ZeroBlock());
    var t := s.(cache := s.cache[b := w.data], pending := s.pending + [w], lh := s.lh + [b],
                ops := s.ops[p := Active(s.ops[p].used + 1)]);
    Extend(l, m, ss, es, LogWrite(p, w), t);
    ss', es' := ss + [t], es + [LogWrite(p, w)];
  }

  /** Every number of listed blocks up to the peak is reached, as far as the log goes. */
  lemma {:induction false} FillUp(l: Layout, m: nat, d: Disk, base: nat, n: nat)
    returns (ss: seq<State>, es: seq<Event>)
    requires EmptyLog(l, d) && 1 <= m <= MAXOPBLOCKS && n <= Peak(m) && n <= l.size - 1
    requires forall b :: base <= b < base + LOGSIZE ==> Home(l, d, b)
    ensures Budgeted(l, m, ss, es) && FilledTo(m, d, base, n, ss[|es|])
  {
    if n == 0 {
      ss, es := TwoAdmitted(l, m, d);
    } else {
      ss, es := FillUp(l, m, d, base, n - 1);
      if n == MAXOPBLOCKS + 1 || (n <= MAXOPBLOCKS && ss[|es|].ops[1].used == m) {
        ss, es := Replaced(l, m, ss, es);
      }
      var p, b := if n <= MAXOPBLOCKS + m then 1 else 0, base + n - 1;
      assert Home(l, d, b);
      assert Home(l, ss[|es|].disk, b);
      ss, es := Added(l, m, ss, es, p, b);
    }
  }

  /** The same run within a larger budget. */
  lemma LargerBudget(l: Layout, m: nat, n: nat, ss: seq<State>, es: seq<Event>)
    requires m <= n && Budgeted(l, m, ss, es)
    ensures Budgeted(l, n, ss, es)
  {
  }

  /** A budget that can fill the list lets some write be refused: of a block listed already, if there is one. */
  lemma BudgetFallsShort(l: Layout, m: nat, d: Disk, base: nat)
    returns (ss: seq<State>, es: seq<Event>, p: nat, b: Uint)
    requires EmptyLog(l, d) && 1 <= m && (Peak(m) >= LOGSIZE || Peak(m) >= l.size - 1)
    requires forall b :: base <= b < base + LOGSIZE ==> Home(l, d, b)
    ensures Refused(l, m, ss, es, p, b)
  {
    var k, n := Min(m, MAXOPBLOCKS), Min(LOGSIZE, l.size - 1);
    ss, es := FillUp(l, k, d, base, n);
    LargerBudget(l, k, m, ss, es);
    assert Home(l, d, base);
    p, b := 0, base;
    assert Home(l, ss[|es|].disk, b);
    assert n > 0 ==> ss[|es|].lh[0] == b;
  }

  /**
   Operations that add at most m blocks each are never refused a write by the guard of log_write, which counts
   a block that is listed already as well, exactly when the peak is below both LOGSIZE and the log's length.
   */
  lemma BudgetExact(l: Layout, m: nat, d: Disk, base: nat)
    requires EmptyLog(l, d) && 1 <= m
    requires forall b :: base <= b < base + LOGSIZE ==> Home(l, d, b)
    ensures (m < MAXOPBLOCKS && MAXOPBLOCKS + 2 * m < l.size - 1) <==>
      !exists ss, es, p, b :: Refused(l, m, ss, es, p, b)
  {
    if m < MAXOPBLOCKS && Peak(m) < l.size - 1 {
      forall ss, es, p, b
        ensures !Refused(l, m, ss, es, p, b)
      {
        BudgetSuffices(l, m, ss, es, p, b);
      }
    } else {
      var ss, es, p, b := BudgetFallsShort(l, m, d, base);
    }
  }

  /** So with the log mkfs makes, of LOGSIZE blocks, nine new blocks per operation are safe and ten are not. */
  lemma MkfsBudget(l: Layout, m: nat, d: Disk, base: nat)
    requires EmptyLog(l, d) && 1 <= m && l.size == LOGSIZE
    requires forall b :: base <= b < base + LOGSIZE ==> Home(l, d, b)
    ensures m <= 9 <==> !exists ss, es, p, b :: Refused(l, m, ss, es, p, b)
  {
    BudgetExact(l, m, d, base);
  }
}
