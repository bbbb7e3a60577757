/**
 The redo log (log.c): the on-disk format, recovery, and the code that commits and
 recovers, with the disk state after every single block write recorded.
 */
module Log {
  import opened Blocks
  import opened Common

  const LOGSIZE := 30
  const MAXOPBLOCKS := 10

  /** log.start and log.size: a header block followed by size - 1 slots. */
  datatype Layout = Layout(start: nat, size: nat)

  ghost predicate Fits(l: Layout, d: Disk) {
    1 <= l.size && l.start + l.size <= |d| < 0x1_0000_0000
  }

  /** A block outside the log region: file system data that the log protects. */
  ghost predicate Home(l: Layout, d: Disk, b: int) {
    0 <= b < |d| && !(l.start <= b < l.start + l.size)
  }

  ghost predicate HomeAll(l: Layout, d: Disk, h: seq<Uint>) {
    forall i :: 0 <= i < |h| ==> Home(l, d, h[i])
  }

  /** A list of logged block numbers that fits both the header and the slots. */
  ghost predicate Loggable(l: Layout, d: Disk, h: seq<Uint>) {
    Fits(l, d) && |h| <= LOGSIZE && |h| <= l.size - 1 && HomeAll(l, d, h)
  }

  ghost predicate SameHome(l: Layout, d: Disk, e: Disk) {
    |d| == |e| && forall b :: Home(l, d, b) ==> d[b] == e[b]
  }

  // The header block

  /** The header block after storing the count and the first k block numbers. */
  function PutHead(b: Block, h: seq<Uint>, k: nat): (r: Block)
    requires k <= |h| <= LOGSIZE
  {
    if k == 0 then SetWord(b, 0, |h|) else SetWord(PutHead(b, h, k - 1), k, h[k - 1])
  }

  /** The block numbers a header block lists. */
  function GetHead(b: Block): (h: seq<Uint>)
    requires Word(b, 0) <= LOGSIZE
  {
    seq(Word(b, 0), i requires 0 <= i < Word(b, 0) => Word(b, i + 1))
  }

  lemma {:induction false} PutHeadWords(b: Block, h: seq<Uint>, k: nat)
    requires k <= |h| <= LOGSIZE
    ensures Word(PutHead(b, h, k), 0) == |h|
    ensures forall j: nat :: 1 <= j <= k ==> Word(PutHead(b, h, k), j) == h[j - 1]
  {
    if k > 0 {
      PutHeadWords(b, h, k - 1);
    }
  }

  /** Reading a header back gives the list that was written, whatever the block held before. */
  lemma HeadRoundTrip(b: Block, h: seq<Uint>)
    requires |h| <= LOGSIZE
    ensures Word(PutHead(b, h, |h|), 0) == |h|
    ensures GetHead(PutHead(b, h, |h|)) == h
  {
    PutHeadWords(b, h, |h|);
  }

  /** The disk holds a well-formed log. */
  ghost predicate ValidLog(l: Layout, d: Disk) {
    Fits(l, d) && Word(d[l.start], 0) <= LOGSIZE && Loggable(l, d, GetHead(d[l.start]))
  }

  ghost predicate EmptyLog(l: Layout, d: Disk) {
    Fits(l, d) && Word(d[l.start], 0) == 0
  }

  ghost function SetHead(l: Layout, d: Disk, h: seq<Uint>): (r: Disk)
    requires Fits(l, d) && |h| <= LOGSIZE
  {
    d[l.start := PutHead(d[l.start], h, |h|)]
  }

  // The three loops over the logged blocks, one write at a time

  /** The disk after copying the first k log slots to their home blocks. */
  ghost function Install(l: Layout, d: Disk, h: seq<Uint>, k: nat): (r: Disk)
    requires Loggable(l, d, h) && k <= |h|
    ensures |r| == |d|
  {
    if k == 0 then d
    else
      var e := Install(l, d, h, k - 1);
      e[h[k - 1] := e[l.start + k]]
  }

  /** The disk after copying the first k logged blocks from the cache to the log slots. */
  ghost function Fill(l: Layout, d: Disk, cache: map<Uint, Block>, h: seq<Uint>, k: nat): (r: Disk)
    requires Loggable(l, d, h) && k <= |h|
    requires forall b :: b in h ==> b in cache
    ensures |r| == |d|
  {
    if k == 0 then d else Fill(l, d, cache, h, k - 1)[l.start + k := cache[h[k - 1]]]
  }

  /** What recovery leaves on the disk. */
  ghost function Recover(l: Layout, d: Disk): (r: Disk)
    requires ValidLog(l, d)
    ensures |r| == |d|
  {
    var h := GetHead(d[l.start]);
    SetHead(l, Install(l, d, h, |h|), [])
  }

  /** Home blocks overlaid with the cached copies of the logged blocks. */
  ghost predicate AfterImage(l: Layout, d: Disk, cache: map<Uint, Block>, h: seq<Uint>, r: Disk) {
    && |r| == |d|
    && (forall b :: Home(l, d, b) && b !in h ==> r[b] == d[b])
    && (forall b :: Home(l, d, b) && b in h && b in cache ==> r[b] == cache[b])
  }

  // Facts about one pass

  lemma {:induction false} InstallKeepsLog(l: Layout, d: Disk, h: seq<Uint>, k: nat)
    requires Loggable(l, d, h) && k <= |h|
    ensures forall j :: l.start <= j < l.start + l.size ==> Install(l, d, h, k)[j] == d[j]
  {
    if k > 0 {
      InstallKeepsLog(l, d, h, k - 1);
    }
  }

  /** Home block b ends up with the slot of its last occurrence in the list, or is untouched. */
  lemma {:induction false} InstallHome(l: Layout, d: Disk, h: seq<Uint>, k: nat, b: nat)
    requires Loggable(l, d, h) && k <= |h| && Home(l, d, b)
    ensures b !in h[..k] ==> Install(l, d, h, k)[b] == d[b]
    ensures forall i :: 0 <= i < k && h[i] == b && b !in h[i + 1..k] ==> Install(l, d, h, k)[b] == d[l.start + i + 1]
  {
    if k > 0 {
      InstallKeepsLog(l, d, h, k - 1);
      InstallHome(l, d, h, k - 1, b);
      assert h[..k] == h[..k - 1] + [h[k - 1]];
      forall i | 0 <= i < k && h[i] == b && b !in h[i + 1..k]
        ensures Install(l, d, h, k)[b] == d[l.start + i + 1]
      {
        if i < k - 1 {
          assert h[i + 1..k] == h[i + 1..k - 1] + [h[k - 1]];
        }
      }
    }
  }

  /** Installing twice over, the first time only in part, is the same as installing once. */
  lemma InstallAgain(l: Layout, d: Disk, h: seq<Uint>, k: nat)
    requires Loggable(l, d, h) && k <= |h|
    ensures Loggable(l, Install(l, d, h, k), h)
    ensures Install(l, Install(l, d, h, k), h, |h|) == Install(l, d, h, |h|)
  {
    var e := Install(l, d, h, k);
    InstallKeepsLog(l, d, h, k);
    InstallKeepsLog(l, e, h, |h|);
    InstallKeepsLog(l, d, h, |h|);
    assert HomeAll(l, e, h);
    forall b | 0 <= b < |d|
      ensures Install(l, e, h, |h|)[b] == Install(l, d, h, |h|)[b]
    {
      if Home(l, d, b) {
        InstallHome(l, d, h, k, b);
        InstallHome(l, d, h, |h|, b);
        InstallHome(l, e, h, |h|, b);
        assert h[..|h|] == h;
        if b in h {
          var i := LastIndex(h, b);
          assert h[i + 1..|h|] == h[i + 1..];
        } else {
          assert b !in h[..k];
        }
      }
    }
  }

  lemma LastIndex(h: seq<Uint>, b: int) returns (i: nat)
    requires b in h
    ensures i < |h| && h[i] == b && b !in h[i + 1..]
  {
    i := |h| - 1;
    while h[i] != b
      invariant 0 <= i < |h| && b !in h[i + 1..]
      decreases i
    {
      assert h[i..] == [h[i]] + h[i + 1..];
      assert h == h[..i] + h[i..];
      assert i > 0;
      i := i - 1;
    }
  }

  lemma {:induction false} FillSlots(l: Layout, d: Disk, cache: map<Uint, Block>, h: seq<Uint>, k: nat)
    requires Loggable(l, d, h) && k <= |h|
    requires forall b :: b in h ==> b in cache
    ensures SameHome(l, d, Fill(l, d, cache, h, k))
    ensures Fill(l, d, cache, h, k)[l.start] == d[l.start]
    ensures forall i :: 0 <= i < k ==> Fill(l, d, cache, h, k)[l.start + i + 1] == cache[h[i]]
  {
    if k > 0 {
      FillSlots(l, d, cache, h, k - 1);
    }
  }

  // Crash recovery

  /** A crash part-way through installing leaves a disk that recovers to the same final disk. */
  lemma CrashInInstall(l: Layout, d: Disk, k: nat)
    requires ValidLog(l, d) && k <= |GetHead(d[l.start])|
    ensures ValidLog(l, Install(l, d, GetHead(d[l.start]), k))
    ensures Recover(l, Install(l, d, GetHead(d[l.start]), k)) == Recover(l, d)
  {
    var h := GetHead(d[l.start]);
    InstallKeepsLog(l, d, h, k);
    InstallAgain(l, d, h, k);
  }

  /** Recovery clears the header, and recovering again changes nothing. */
  lemma RecoverStable(l: Layout, d: Disk)
    requires ValidLog(l, d)
    ensures ValidLog(l, Recover(l, d)) && EmptyLog(l, Recover(l, d))
    ensures Recover(l, Recover(l, d)) == Recover(l, d)
  {
    var h := GetHead(d[l.start]);
    var e := Install(l, d, h, |h|);
    HeadRoundTrip(e[l.start], []);
    var r := Recover(l, d);
    RecoverEmpty(l, r);
    assert PutHead(r[l.start], [], 0) == r[l.start] by {
      SetZeroTwice(e[l.start]);
    }
  }

  lemma SetZeroTwice(b: Block)
    ensures SetWord(SetWord(b, 0, 0), 0, 0) == SetWord(b, 0, 0)
  {
  }

  /** With an empty header, recovery touches no home block. */
  lemma RecoverEmpty(l: Layout, d: Disk)
    requires EmptyLog(l, d)
    ensures ValidLog(l, d)
    ensures Recover(l, d) == SetHead(l, d, [])
    ensures SameHome(l, Recover(l, d), d)
  {
    assert GetHead(d[l.start]) == [];
  }

  /** The disk left behind when recovery is attempted and crashes once per entry of `crashes`. */
  ghost function Crashed(l: Layout, d: Disk, crashes: seq<nat>): (r: Disk)
    requires ValidLog(l, d)
    requires forall i :: 0 <= i < |crashes| ==> crashes[i] <= |GetHead(d[l.start])|
    decreases |crashes|
  {
    if crashes == [] then d
    else
      var h := GetHead(d[l.start]);
      InstallKeepsLog(l, d, h, crashes[0]);
      CrashInInstall(l, d, crashes[0]);
      Crashed(l, Install(l, d, h, crashes[0]), crashes[1..])
  }

  /** However many times recovery itself crashes, completing it gives the disk one clean recovery gives. */
  lemma {:induction false} CrashesInRecovery(l: Layout, d: Disk, crashes: seq<nat>)
    requires ValidLog(l, d)
    requires forall i :: 0 <= i < |crashes| ==> crashes[i] <= |GetHead(d[l.start])|
    ensures ValidLog(l, Crashed(l, d, crashes))
    ensures Recover(l, Crashed(l, d, crashes)) == Recover(l, d)
    decreases |crashes|
  {
    if crashes != [] {
      var h := GetHead(d[l.start]);
      InstallKeepsLog(l, d, h, crashes[0]);
      CrashInInstall(l, d, crashes[0]);
      CrashesInRecovery(l, Install(l, d, h, crashes[0]), crashes[1..]);
    }
  }

  // The commit point

  /** Until the header is written, recovery restores the before-image. */
  lemma BeforeCommit(l: Layout, d: Disk, cache: map<Uint, Block>, h: seq<Uint>, k: nat)
    requires EmptyLog(l, d) && Loggable(l, d, h) && k <= |h|
    requires forall b :: b in h ==> b in cache
    ensures EmptyLog(l, Fill(l, d, cache, h, k))
    ensures ValidLog(l, Fill(l, d, cache, h, k))
    ensures SameHome(l, Recover(l, Fill(l, d, cache, h, k)), d)
  {
    FillSlots(l, d, cache, h, k);
    RecoverEmpty(l, Fill(l, d, cache, h, k));
  }

  /** The disk right after the header write of a commit. */
  ghost function Committed(l: Layout, d: Disk, cache: map<Uint, Block>, h: seq<Uint>): (r: Disk)
    requires Loggable(l, d, h)
    requires forall b :: b in h ==> b in cache
    ensures |r| == |d|
  {
    SetHead(l, Fill(l, d, cache, h, |h|), h)
  }

  /** Once the header is written, recovery produces the whole after-image. */
  lemma AfterCommit(l: Layout, d: Disk, cache: map<Uint, Block>, h: seq<Uint>)
    requires Loggable(l, d, h)
    requires forall b :: b in h ==> b in cache
    ensures ValidLog(l, Committed(l, d, cache, h)) && GetHead(Committed(l, d, cache, h)[l.start]) == h
    ensures AfterImage(l, d, cache, h, Recover(l, Committed(l, d, cache, h)))
  {
    var f := Fill(l, d, cache, h, |h|);
    var c := Committed(l, d, cache, h);
    FillSlots(l, d, cache, h, |h|);
    HeadRoundTrip(f[l.start], h);
    assert HomeAll(l, c, h);
    forall b | Home(l, d, b)
      ensures b !in h ==> Recover(l, c)[b] == d[b]
      ensures b in h ==> Recover(l, c)[b] == cache[b]
    {
      InstallHome(l, c, h, |h|, b);
      assert h[..|h|] == h;
      if b in h {
        var i := LastIndex(h, b);
        assert h[i + 1..|h|] == h[i + 1..];
      }
    }
  }

  // The disk after each write of a pass, of recovery and of a commit

  ghost function InstallTrace(l: Layout, d: Disk, h: seq<Uint>): (t: seq<Disk>)
    requires Loggable(l, d, h)
  {
    seq(|h|, k requires 0 <= k < |h| => Install(l, d, h, k + 1))
  }

  ghost function FillTrace(l: Layout, d: Disk, cache: map<Uint, Block>, h: seq<Uint>): (t: seq<Disk>)
    requires Loggable(l, d, h)
    requires forall b :: b in h ==> b in cache
  {
    seq(|h|, k requires 0 <= k < |h| => Fill(l, d, cache, h, k + 1))
  }

  ghost function RecoverTrace(l: Layout, d: Disk): (t: seq<Disk>)
    requires ValidLog(l, d)
  {
    InstallTrace(l, d, GetHead(d[l.start])) + [Recover(l, d)]
  }

  ghost function CommitTrace(l: Layout, d: Disk, cache: map<Uint, Block>, h: seq<Uint>): (t: seq<Disk>)
    requires Loggable(l, d, h)
    requires forall b :: b in h ==> b in cache
  {
    AfterCommit(l, d, cache, h);
    var c := Committed(l, d, cache, h);
    FillTrace(l, d, cache, h) + [c] + RecoverTrace(l, c)
  }

  /** Whichever write of recovery is the last before a crash, recovering again ends the same way. */
  lemma RecoverTraceSafe(l: Layout, d: Disk, k: nat)
    requires ValidLog(l, d) && k < |RecoverTrace(l, d)|
    ensures ValidLog(l, RecoverTrace(l, d)[k])
    ensures Recover(l, RecoverTrace(l, d)[k]) == Recover(l, d)
  {
    RecoverStable(l, d);
    if k < |GetHead(d[l.start])| {
      CrashInInstall(l, d, k + 1);
    }
  }

  lemma CommitTraceAt(l: Layout, d: Disk, cache: map<Uint, Block>, h: seq<Uint>, k: nat)
    requires Loggable(l, d, h)
    requires forall b :: b in h ==> b in cache
    requires k < |CommitTrace(l, d, cache, h)|
    ensures ValidLog(l, Committed(l, d, cache, h))
    ensures k < |h| ==> CommitTrace(l, d, cache, h)[k] == Fill(l, d, cache, h, k + 1)
    ensures k == |h| ==> CommitTrace(l, d, cache, h)[k] == Committed(l, d, cache, h)
    ensures k > |h| ==>
      && k - |h| - 1 < |RecoverTrace(l, Committed(l, d, cache, h))|
      && CommitTrace(l, d, cache, h)[k] == RecoverTrace(l, Committed(l, d, cache, h))[k - |h| - 1]
  {
    AfterCommit(l, d, cache, h);
    hide Fill, Committed, RecoverTrace, ValidLog, AfterImage;
    var fills, c := FillTrace(l, d, cache, h), Committed(l, d, cache, h);
    var rest := RecoverTrace(l, c);
    assert CommitTrace(l, d, cache, h) == fills + [c] + rest;
    assert |fills| == |h|;
  }

  /**
   A commit is atomic at its write number |h|: a crash after any earlier write recovers the
   before-image of every home block, a crash after that write or any later one the whole after-image.
   */
  lemma CommitTraceAtomic(l: Layout, d: Disk, cache: map<Uint, Block>, h: seq<Uint>, k: nat)
    requires EmptyLog(l, d) && Loggable(l, d, h)
    requires forall b :: b in h ==> b in cache
    requires k < |CommitTrace(l, d, cache, h)|
    ensures ValidLog(l, CommitTrace(l, d, cache, h)[k])
    ensures k < |h| ==> SameHome(l, Recover(l, CommitTrace(l, d, cache, h)[k]), d)
    ensures k >= |h| ==> AfterImage(l, d, cache, h, Recover(l, CommitTrace(l, d, cache, h)[k]))
  {
    CommitTraceAt(l, d, cache, h, k);
    if k < |h| {
      BeforeCommit(l, d, cache, h, k + 1);
    } else {
      AfterCommit(l, d, cache, h);
      if k > |h| {
        RecoverTraceSafe(l, Committed(l, d, cache, h), k - |h| - 1);
      }
    }
  }

  lemma Reassociate(t: seq<Disk>, u: seq<Disk>, d: Disk, v: seq<Disk>)
    ensures t + u + [d] + v == t + (u + [d] + v)
  {
  }

  // The code

  datatype Outcome = Ok | Panic

  /**
   The log of a running kernel. `cache` holds the buffers pinned by B_DIRTY; every other
   buffer agrees with the disk. `trace` records the disk after each block write.
   */
  class RedoLog {
    const layout: Layout
    var disk: Disk
    var cache: map<Uint, Block>
    var lh: seq<Uint>
    var outstanding: nat
    var committing: bool
    ghost var trace: seq<Disk>

    /** The logged blocks are exactly the pinned ones, and no committed transaction is waiting on disk. */
    ghost predicate Valid()
      reads this
    {
      && Loggable(layout, disk, lh)
      && EmptyLog(layout, disk)
      && Distinct(lh)
      && (forall b :: b in cache <==> b in lh)
    }

    /** The kernel boots on a disk whose log may hold a committed transaction. */
    constructor (layout: Layout, disk: Disk)
      requires ValidLog(layout, disk)
      ensures this.layout == layout && this.disk == Recover(layout, disk)
      ensures Valid() && lh == [] && outstanding == 0 && !committing
      ensures trace == RecoverTrace(layout, disk)
    {
      this.layout := layout;
      this.disk, cache, lh := disk, map[], [];
      outstanding, committing, trace := 0, false, [];
      new;
      RecoverFromLog();
    }

    method Bread(b: Uint) returns (data: Block)
      requires b < |disk|
      ensures data == if b in cache then cache[b] else disk[b]
    {
      data := if b in cache then cache[b] else disk[b];
    }

    method Bwrite(b: Uint, data: Block)
      requires b < |disk|
      modifies `disk, `cache, `trace
      ensures disk == old(disk)[b := data] && cache == old(cache) - {b} && trace == old(trace) + [disk]
    {
      disk, cache := disk[b := data], cache - {b};
      trace := trace + [disk];
    }

    /** Each write moves one more slot home; nothing else on the disk changes. */
    method InstallTrans()
      requires Loggable(layout, disk, lh)
      requires forall b :: b in cache ==> b in lh
      modifies `disk, `cache, `trace
      ensures disk == Install(layout, old(disk), lh, |lh|) && cache == map[]
      ensures trace == old(trace) + InstallTrace(layout, old(disk), lh)
    {
      var tail := 0;
      while tail < |lh|
        invariant 0 <= tail <= |lh|
        invariant disk == Install(layout, old(disk), lh, tail)
        invariant forall b :: b in cache ==> b in lh[tail..]
        invariant trace == old(trace) + InstallTrace(layout, old(disk), lh)[..tail]
      {
        assert layout.start + tail + 1 !in cache;
        var lbuf := Bread(layout.start + tail + 1);
        Bwrite(lh[tail], lbuf);
        assert lh[tail..] == [lh[tail]] + lh[tail + 1..];
        tail := tail + 1;
      }
      assert cache == map[];
    }

    /** The in-memory header becomes the one on the disk. */
    method ReadHead()
      requires ValidLog(layout, disk) && layout.start !in cache
      modifies `lh
      ensures lh == GetHead(disk[layout.start])
    {
      var buf := Bread(layout.start);
      var n := Word(buf, 0);
      lh := [];
      var i := 0;
      while i < n
        invariant 0 <= i <= n && |lh| == i
        invariant forall j :: 0 <= j < i ==> lh[j] == Word(buf, j + 1)
      {
        lh := lh + [Word(buf, i + 1)];
        i := i + 1;
      }
    }

    /** One block write replaces the header on the disk. */
    method WriteHead()
      requires Fits(layout, disk) && |lh| <= LOGSIZE && layout.start !in cache
      modifies `disk, `cache, `trace
      ensures disk == SetHead(layout, old(disk), lh) && cache == old(cache) && trace == old(trace) + [disk]
    {
      var buf := Bread(layout.start);
      ghost var was := buf;
      buf := SetWord(buf, 0, |lh|);
      var i := 0;
      while i < |lh|
        invariant 0 <= i <= |lh| && buf == PutHead(was, lh, i)
      {
        buf := SetWord(buf, i + 1, lh[i]);
        i := i + 1;
      }
      Bwrite(layout.start, buf);
      assert cache == old(cache);
    }

    /** The common end of recovery and commit: move the committed blocks home, then clear the header. */
    method InstallAndClear()
      requires ValidLog(layout, disk) && lh == GetHead(disk[layout.start])
      requires forall b :: b in cache ==> b in lh
      modifies `disk, `cache, `lh, `trace
      ensures disk == Recover(layout, old(disk)) && lh == [] && cache == map[]
      ensures Valid()
      ensures trace == old(trace) + RecoverTrace(layout, old(disk))
    {
      InstallTrans();
      lh := [];
      WriteHead();
      RecoverStable(layout, old(disk));
    }

    /** Recovery, write by write. */
    method RecoverFromLog()
      requires ValidLog(layout, disk) && cache == map[]
      modifies `disk, `cache, `lh, `trace
      ensures disk == Recover(layout, old(disk)) && lh == [] && cache == map[]
      ensures Valid()
      ensures trace == old(trace) + RecoverTrace(layout, old(disk))
    {
      ReadHead();
      InstallAndClear();
    }

    /** Each write fills one more slot from the cache. */
    method WriteLog()
      requires Valid()
      modifies `disk, `cache, `trace
      ensures cache == old(cache)
      ensures disk == Fill(layout, old(disk), old(cache), lh, |lh|)
      ensures trace == old(trace) + FillTrace(layout, old(disk), old(cache), lh)
    {
      var tail := 0;
      while tail < |lh|
        invariant 0 <= tail <= |lh| && cache == old(cache)
        invariant disk == Fill(layout, old(disk), old(cache), lh, tail)
        invariant trace == old(trace) + FillTrace(layout, old(disk), old(cache), lh)[..tail]
      {
        var from := Bread(lh[tail]);
        assert layout.start + tail + 1 !in cache;
        Bwrite(layout.start + tail + 1, from);
        assert cache == old(cache);
        tail := tail + 1;
      }
    }

    /** The whole commit, write by write, and the state it leaves: nothing pending, everything home. */
    method Commit()
      requires Valid()
      modifies `disk, `cache, `lh, `trace
      ensures Valid() && lh == []
      ensures AfterImage(layout, old(disk), old(cache), old(lh), disk)
      ensures trace == old(trace)
          + if old(lh) == [] then [] else CommitTrace(layout, old(disk), old(cache), old(lh))
    {
      if |lh| > 0 {
        WriteLog();
        WriteHead();
        AfterCommit(layout, old(disk), old(cache), old(lh));
        ghost var c, fills := disk, FillTrace(layout, old(disk), old(cache), old(lh));
        assert c == Committed(layout, old(disk), old(cache), old(lh));
        InstallAndClear();
        Reassociate(old(trace), fills, c, RecoverTrace(layout, c));
      }
    }

    /** Pin a modified buffer and log its block number, once. */
    method LogWrite(b: Uint, data: Block) returns (r: Outcome)
      requires Valid() && Home(layout, disk, b)
      modifies `lh, `cache
      ensures Valid()
      ensures r == Panic <==> |old(lh)| >= 30 || |old(lh)| >= layout.size - 1 || outstanding < 1
      ensures r == Panic ==> lh == old(lh) && cache == old(cache)
      ensures r == Ok ==> cache == old(cache)[b := data]
      ensures r == Ok ==> lh == if b in old(lh) then old(lh) else old(lh) + [b]
    {
      if |lh| >= LOGSIZE || |lh| >= layout.size - 1 {
        return Panic;
      }
      if outstanding < 1 {
        return Panic;
      }
      var i := 0;
      while i < |lh| && lh[i] != b
        invariant 0 <= i <= |lh| && b !in lh[..i]
      {
        i := i + 1;
      }
      if i == |lh| {
        assert lh[..i] == lh;
        lh := lh + [b];
      } else {
        lh := lh[i := b];
        assert lh == old(lh);
      }
      cache := cache[b := data];
      return Ok;
    }

    /** One pass of the admission test; false means the caller sleeps on the log and tries again. */
    method BeginOp() returns (admitted: bool)
      modifies `outstanding
      ensures admitted <==> !committing && |lh| + (old(outstanding) + 1) * 10 <= 30
      ensures outstanding == old(outstanding) + if admitted then 1 else 0
    {
      if committing {
        return false;
      } else if |lh| + (outstanding + 1) * MAXOPBLOCKS > LOGSIZE {
        return false;
      } else {
        outstanding := outstanding + 1;
        return true;
      }
    }

    /** The last operation out commits everything logged so far; any other leaves the disk alone. */
    method EndOp() returns (r: Outcome)
      requires Valid() && outstanding > 0
      modifies `outstanding, `committing, `disk, `cache, `lh, `trace
      ensures outstanding == old(outstanding) - 1
      ensures r == Panic <==> old(committing)
      ensures r == Ok ==> Valid() && !committing
      ensures r == Ok && outstanding > 0 ==> disk == old(disk) && lh == old(lh) && cache == old(cache)
      ensures r == Ok && outstanding == 0 ==>
          lh == [] && AfterImage(layout, old(disk), old(cache), old(lh), disk)
      ensures r == Ok && (outstanding > 0 || old(lh) == []) ==> trace == old(trace)
      ensures r == Ok && outstanding == 0 && old(lh) != [] ==>
        trace == old(trace) + CommitTrace(layout, old(disk), old(cache), old(lh))
    {
      outstanding := outstanding - 1;
      if committing {
        return Panic;
      }
      if outstanding == 0 {
        committing := true;
        Commit();
        committing := false;
      }
      return Ok;
    }
  }
}
