/**
 The queued disk driver (ide.c) against its synchronous stand-in (memide.c). Callers, the device and its completion
 interrupts interleave freely; the device completes what it was told to do, without error.
 */
module Ide {
  import opened Blocks
  import opened Common

  /** A buffer, and whether its holder is inside iderw with it. */
  datatype Buf = Buf(blockno: nat, data: Block, valid: bool, dirty: bool, busy: bool)

  // The synchronous driver

  /** memide's iderw: the buffer afterwards. */
  function SyncBuf(disk: Disk, b: Buf): (r: Buf)
    requires b.blockno < |disk|
  {
    if b.dirty then b.(dirty := false, valid := true) else b.(data := disk[b.blockno], valid := true)
  }

  /** memide's iderw: the disk afterwards. */
  function SyncDisk(disk: Disk, b: Buf): (r: Disk)
    requires b.blockno < |disk|
    ensures |r| == |disk|
  {
    if b.dirty then disk[b.blockno := b.data] else disk
  }

  ghost predicate InRange(disk: Disk, reqs: seq<Buf>) {
    forall k :: 0 <= k < |reqs| ==> reqs[k].blockno < |disk|
  }

  /** The disk after memide has done the requests one by one. */
  function RunDisk(disk: Disk, reqs: seq<Buf>): (r: Disk)
    requires InRange(disk, reqs)
    ensures |r| == |disk|
  {
    if reqs == [] then disk else SyncDisk(RunDisk(disk, reqs[..|reqs| - 1]), reqs[|reqs| - 1])
  }

  lemma RunStep(disk: Disk, reqs: seq<Buf>, b: Buf)
    requires InRange(disk, reqs) && b.blockno < |disk|
    ensures InRange(disk, reqs + [b]) && RunDisk(disk, reqs + [b]) == SyncDisk(RunDisk(disk, reqs), b)
  {
    assert (reqs + [b])[..|reqs|] == reqs;
  }

  /** Request i is the last of these to write block n. */
  ghost predicate LastWrite(reqs: seq<Buf>, n: nat, i: nat) {
    && i < |reqs| && reqs[i].dirty && reqs[i].blockno == n
    && forall j :: i < j < |reqs| ==> !(reqs[j].dirty && reqs[j].blockno == n)
  }

  /** A block holds the data of the last request that wrote it, or what it held at the start. */
  lemma {:induction false} LastWriteWins(disk: Disk, reqs: seq<Buf>, n: nat)
    requires InRange(disk, reqs) && n < |disk|
    ensures forall i: nat :: LastWrite(reqs, n, i) ==> RunDisk(disk, reqs)[n] == reqs[i].data
    ensures (forall i :: 0 <= i < |reqs| ==> !(reqs[i].dirty && reqs[i].blockno == n)) ==>
      RunDisk(disk, reqs)[n] == disk[n]
  {
    if reqs != [] {
      var last := |reqs| - 1;
      LastWriteWins(disk, reqs[..last], n);
      var before := RunDisk(disk, reqs[..last]);
      assert RunDisk(disk, reqs) == SyncDisk(before, reqs[last]);
      hide RunDisk;
      forall i: nat | LastWrite(reqs, n, i)
        ensures RunDisk(disk, reqs)[n] == reqs[i].data
      {
        if i < last {
          assert !(reqs[last].dirty && reqs[last].blockno == n);
          assert LastWrite(reqs[..last], n, i);
        }
      }
    }
  }

  // The queued driver

  /** The device: a read or write in progress, or finished, a read with its data. */
  datatype Device = Off | Busy(blockno: nat, write: Option<Block>) | Ready(read: Option<Block>)

  /**
   `submitted` lists every call of iderw, in order, with the buffer as it was; `ticket` is the place of each
   buffer's last call in that list. The device has carried out the first `served` of them. disk0 is the
   disk at the start.
   */
  datatype State = State(
    bufs: seq<Buf>, queue: seq<nat>, device: Device, disk: Disk, disk0: Disk, submitted: seq<Buf>, ticket: seq<nat>,
    served: nat)

  /** idestart: the command for buffer b; for a write the data goes with it. */
  function Command(b: Buf): (d: Device) {
    Busy(b.blockno, if b.dirty then Some(b.data) else None)
  }

  datatype Event = Submit(b: nat) | Complete | Interrupt | Return(b: nat) | Use(b: nat, now: Buf)

  /** iderw up to its wait: append b, and start the device if b is the only request. */
  ghost predicate SubmitStep(s: State, b: nat, t: State) {
    && b < |s.bufs| == |s.ticket| && !s.bufs[b].busy && s.bufs[b].blockno < |s.disk|
    && (s.bufs[b].dirty || !s.bufs[b].valid)
    && t == s.(bufs := s.bufs[b := s.bufs[b].(busy := true)], queue := s.queue + [b],
               device := if s.queue == [] then Command(s.bufs[b]) else s.device,
               submitted := s.submitted + [s.bufs[b]], ticket := s.ticket[b := |s.submitted|])
  }

  /** The device carries out the command. */
  ghost predicate CompleteStep(s: State, t: State) {
    && s.device.Busy? && s.device.blockno < |s.disk|
    && t == s.(device := Ready(if s.device.write.Some? then None else Some(s.disk[s.device.blockno])),
               disk := if s.device.write.Some? then s.disk[s.device.blockno := s.device.write.value] else s.disk,
               served := s.served + 1)
  }

  /** The buffer after ideintr. */
  function Received(b: Buf, d: Device): (r: Buf)
    requires d.Ready?
  {
    b.(data := if !b.dirty && d.read.Some? then d.read.value else b.data, valid := true, dirty := false)
  }

  /** ideintr: finish the first request and start the next. */
  ghost predicate InterruptStep(s: State, t: State) {
    && s.device.Ready? && s.queue != [] && s.queue[0] < |s.bufs| && (|s.queue| > 1 ==> s.queue[1] < |s.bufs|)
    && var bufs := s.bufs[s.queue[0] := Received(s.bufs[s.queue[0]], s.device)];
       t == s.(bufs := bufs, queue := s.queue[1..], device := if |s.queue| > 1 then Command(bufs[s.queue[1]]) else Off)
  }

  /** iderw's wait is over. */
  ghost predicate ReturnStep(s: State, b: nat, t: State) {
    && b < |s.bufs| && s.bufs[b].busy && s.bufs[b].valid && !s.bufs[b].dirty
    && t == s.(bufs := s.bufs[b := s.bufs[b].(busy := false)])
  }

  /** Between calls the holder of a buffer may change it, and the cache may reuse it. */
  ghost predicate UseStep(s: State, b: nat, now: Buf, t: State) {
    b < |s.bufs| && !s.bufs[b].busy && !now.busy && t == s.(bufs := s.bufs[b := now])
  }

  ghost predicate Next(s: State, e: Event, t: State) {
    match e
    case Submit(b) => SubmitStep(s, b, t)
    case Complete => CompleteStep(s, t)
    case Interrupt => InterruptStep(s, t)
    case Return(b) => ReturnStep(s, b, t)
    case Use(b, now) => UseStep(s, b, now, t)
  }

  // The invariant

  /** The place in `submitted` of the first request still in the queue. */
  function First(s: State): (n: int) {
    s.served - if s.device.Ready? then 1 else 0
  }

  ghost predicate Shape(s: State) {
    && 0 <= First(s) <= s.served <= |s.submitted| && InRange(s.disk0, s.submitted)
    && |s.queue| == |s.submitted| - First(s) && |s.bufs| == |s.ticket| && |s.disk| == |s.disk0|
  }

  /** Place k of the queue holds the buffer of the call at that place. */
  ghost predicate PlaceOk(s: State, k: nat)
    requires Shape(s) && k < |s.queue|
  {
    && s.queue[k] < |s.bufs| && s.ticket[s.queue[k]] == First(s) + k
    && s.bufs[s.queue[k]] == s.submitted[First(s) + k].(busy := true)
    && (s.bufs[s.queue[k]].dirty || !s.bufs[s.queue[k]].valid)
  }

  /** A buffer in iderw is either in the queue or holds what memide would have made of it. */
  ghost predicate BufOk(s: State, b: nat)
    requires Shape(s) && b < |s.bufs|
  {
    s.bufs[b].busy ==>
      && s.ticket[b] < |s.submitted|
      && if s.ticket[b] < First(s) then
           s.bufs[b] == SyncBuf(RunDisk(s.disk0, s.submitted[..s.ticket[b]]), s.submitted[s.ticket[b]]).(busy := true)
         else s.queue[s.ticket[b] - First(s)] == b
  }

  /** The device works on the first request, and only on that. */
  ghost predicate DeviceOk(s: State)
    requires Shape(s) && forall k :: 0 <= k < |s.queue| ==> PlaceOk(s, k)
  {
    && (s.device.Off? <==> s.queue == [])
    && (s.device.Busy? ==> PlaceOk(s, 0) && s.device == Command(s.bufs[s.queue[0]]))
    && (s.device.Ready? ==>
          && PlaceOk(s, 0) && s.served > 0
          && var b := s.submitted[s.served - 1];
             s.device.read == if b.dirty then None else Some(RunDisk(s.disk0, s.submitted[..s.served - 1])[b.blockno]))
  }

  ghost predicate Inv(s: State) {
    && Shape(s) && (forall k :: 0 <= k < |s.queue| ==> PlaceOk(s, k)) && (forall b :: 0 <= b < |s.bufs| ==> BufOk(s, b))
    && DeviceOk(s) && s.disk == RunDisk(s.disk0, s.submitted[..s.served])
    && (forall k :: 0 <= k < |s.submitted| ==> !s.submitted[k].busy)
  }

  lemma SubmitKeeps(s: State, b: nat, t: State)
    requires Inv(s) && SubmitStep(s, b, t)
    ensures Inv(t)
  {
    forall n | 0 <= n <= |s.submitted|
      ensures t.submitted[..n] == s.submitted[..n]
    {
    }
    assert First(t) == First(s);
    forall k | 0 <= k < |t.queue|
      ensures PlaceOk(t, k)
    {
      assert k < |s.queue| ==> PlaceOk(s, k);
    }
    forall x | 0 <= x < |t.bufs|
      ensures BufOk(t, x)
    {
      assert BufOk(s, x);
    }
  }

  lemma CompleteKeeps(s: State, t: State)
    requires Inv(s) && CompleteStep(s, t)
    ensures Inv(t)
  {
    assert PlaceOk(s, 0);
    var b := s.submitted[s.served];
    RunStep(s.disk0, s.submitted[..s.served], b);
    assert s.submitted[..s.served + 1] == s.submitted[..s.served] + [b];
    forall k | 0 <= k < |t.queue|
      ensures PlaceOk(t, k)
    {
      assert PlaceOk(s, k);
    }
    forall x | 0 <= x < |t.bufs|
      ensures BufOk(t, x)
    {
      assert BufOk(s, x);
    }
  }

  lemma InterruptKeeps(s: State, t: State)
    requires Inv(s) && InterruptStep(s, t)
    ensures Inv(t)
  {
    assert PlaceOk(s, 0);
    assert |s.queue| > 1 ==> PlaceOk(s, 1);
    forall k | 0 <= k < |t.queue|
      ensures PlaceOk(t, k)
    {
      assert PlaceOk(s, k + 1);
    }
    forall x | 0 <= x < |t.bufs|
      ensures BufOk(t, x)
    {
      assert BufOk(s, x);
    }
  }

  lemma ReturnKeeps(s: State, b: nat, t: State)
    requires Inv(s) && ReturnStep(s, b, t)
    ensures Inv(t)
    ensures s.ticket[b] < First(s)
    ensures t.bufs[b] == SyncBuf(RunDisk(s.disk0, s.submitted[..s.ticket[b]]), s.submitted[s.ticket[b]])
  {
    assert BufOk(s, b);
    assert s.ticket[b] >= First(s) ==> PlaceOk(s, s.ticket[b] - First(s));
    forall k | 0 <= k < |t.queue|
      ensures PlaceOk(t, k)
    {
      assert PlaceOk(s, k);
    }
    forall x | 0 <= x < |t.bufs|
      ensures BufOk(t, x)
    {
      assert BufOk(s, x);
    }
  }

  lemma UseKeeps(s: State, b: nat, now: Buf, t: State)
    requires Inv(s) && UseStep(s, b, now, t)
    ensures Inv(t)
  {
    forall k | 0 <= k < |t.queue|
      ensures PlaceOk(t, k)
    {
      assert PlaceOk(s, k);
    }
    forall x | 0 <= x < |t.bufs|
      ensures BufOk(t, x)
    {
      assert BufOk(s, x);
    }
  }

  lemma NextKeeps(s: State, e: Event, t: State)
    requires Inv(s) && Next(s, e, t)
    ensures Inv(t)
  {
    match e
    case Submit(b) => SubmitKeeps(s, b, t);
    case Complete => CompleteKeeps(s, t);
    case Interrupt => InterruptKeeps(s, t);
    case Return(b) => ReturnKeeps(s, b, t);
    case Use(b, now) => UseKeeps(s, b, now, t);
  }

  // Runs

  ghost predicate Initial(s: State) {
    && s.queue == [] && s.device == Off && s.disk == s.disk0 && s.submitted == [] && s.served == 0
    && |s.ticket| == |s.bufs|
    && forall b :: 0 <= b < |s.bufs| ==> !s.bufs[b].busy
  }

  ghost predicate Execution(ss: seq<State>, es: seq<Event>) {
    && |ss| == |es| + 1 && Initial(ss[0])
    && forall k :: 0 <= k < |es| ==> Next(ss[k], es[k], ss[k + 1])
  }

  lemma {:induction false} AlwaysInv(ss: seq<State>, es: seq<Event>, k: nat)
    requires Execution(ss, es) && k < |ss|
    ensures Inv(ss[k])
  {
    if k > 0 {
      AlwaysInv(ss, es, k - 1);
      NextKeeps(ss[k - 1], es[k - 1], ss[k]);
    }
  }

  lemma {:induction false} StartKept(ss: seq<State>, es: seq<Event>, k: nat)
    requires Execution(ss, es) && k < |ss|
    ensures ss[k].disk0 == ss[0].disk
  {
    if k > 0 {
      StartKept(ss, es, k - 1);
      assert Next(ss[k - 1], es[k - 1], ss[k]);
    }
  }

  /** The calls of iderw among the first k events, each with the buffer as it was. */
  ghost function Calls(ss: seq<State>, es: seq<Event>, k: nat): (bs: seq<Buf>)
    requires |ss| == |es| + 1 && k <= |es|
  {
    if k == 0 then []
    else if es[k - 1].Submit? && es[k - 1].b < |ss[k - 1].bufs| then
      Calls(ss, es, k - 1) + [ss[k - 1].bufs[es[k - 1].b]]
    else Calls(ss, es, k - 1)
  }

  /** The number of requests the device has completed. */
  function Completed(es: seq<Event>, k: nat): (n: nat)
    requires k <= |es|
  {
    if k == 0 then 0 else Completed(es, k - 1) + if es[k - 1].Complete? then 1 else 0
  }

  lemma {:induction false} HistoryIsEvents(ss: seq<State>, es: seq<Event>, k: nat)
    requires Execution(ss, es) && k < |ss|
    ensures ss[k].submitted == Calls(ss, es, k) && ss[k].served == Completed(es, k)
  {
    if k > 0 {
      HistoryIsEvents(ss, es, k - 1);
      assert Next(ss[k - 1], es[k - 1], ss[k]);
    }
  }

  /** Who is in iderw is there by its last call, whose place its ticket is. */
  lemma {:induction false} CallOf(ss: seq<State>, es: seq<Event>, k: nat, b: nat) returns (j: nat)
    requires Execution(ss, es) && k < |ss| && b < |ss[k].bufs| && ss[k].bufs[b].busy
    ensures j < k && es[j] == Submit(b) && b < |ss[j].bufs| && |ss[k].ticket| == |ss[k].bufs|
    ensures ss[k].ticket[b] == |Calls(ss, es, j)| && forall i :: j < i < k ==> es[i] != Submit(b)
  {
    hide Next, Calls, Completed;
    TicketStep(ss[k - 1], es[k - 1], ss[k], b);
    if es[k - 1] == Submit(b) {
      j := k - 1;
      HistoryIsEvents(ss, es, j);
    } else {
      j := CallOf(ss, es, k - 1, b);
    }
  }

  /** A buffer gets busy, and a new ticket, only by its own call. */
  lemma TicketStep(s: State, e: Event, t: State, b: nat)
    requires Next(s, e, t) && b < |t.bufs| && t.bufs[b].busy
    ensures b < |s.bufs| == |t.bufs| && |s.ticket| == |t.ticket|
    ensures e == Submit(b) ==> |t.ticket| == |t.bufs| && t.ticket[b] == |s.submitted|
    ensures e != Submit(b) ==> s.bufs[b].busy && (b < |t.ticket| ==> t.ticket[b] == s.ticket[b])
  {
  }

  lemma {:induction false} CallsGrow(ss: seq<State>, es: seq<Event>, j: nat, k: nat)
    requires |ss| == |es| + 1 && j <= k <= |es|
    ensures Calls(ss, es, j) <= Calls(ss, es, k)
  {
    if j < k {
      CallsGrow(ss, es, j, k - 1);
    }
  }

  /** In every run, the disk is what memide makes of the calls served so far, in the order of the calls. */
  lemma DiskAsSync(ss: seq<State>, es: seq<Event>, k: nat)
    requires Execution(ss, es) && k < |ss|
    ensures Completed(es, k) <= |Calls(ss, es, k)| && InRange(ss[0].disk, Calls(ss, es, k))
    ensures ss[k].disk == RunDisk(ss[0].disk, Calls(ss, es, k)[..Completed(es, k)])
  {
    HistoryIsEvents(ss, es, k);
    AlwaysInv(ss, es, k);
    StartKept(ss, es, k);
  }

  /**
   In every run, iderw returns with the buffer as memide would have left it at its turn: valid and clean, with its own
   data after a write, and after a read with what the calls before it left in the block.
   */
  lemma ReturnAsSync(ss: seq<State>, es: seq<Event>, k: nat) returns (j: nat)
    requires Execution(ss, es) && k < |es| && es[k].Return?
    ensures j < k && es[j] == Submit(es[k].b) && es[k].b < |ss[j].bufs| && es[k].b < |ss[k + 1].bufs|
    ensures forall i :: j < i < k ==> es[i] != Submit(es[k].b)
    ensures var before := Calls(ss, es, j);
      && InRange(ss[0].disk, before) && |before| < Completed(es, k)
      && var call, now := ss[j].bufs[es[k].b], ss[k + 1].bufs[es[k].b];
         && call.blockno < |ss[0].disk| && now == SyncBuf(RunDisk(ss[0].disk, before), call)
         && now.valid && !now.dirty && now.blockno == call.blockno
         && now.data == if call.dirty then call.data else RunDisk(ss[0].disk, before)[call.blockno]
  {
    hide Inv, Initial, Calls, Completed, RunDisk, First;
    AlwaysInv(ss, es, k);
    StartKept(ss, es, k);
    HistoryIsEvents(ss, es, k);
    ReturnShape(ss[k], es[k], ss[k + 1]);
    hide Next;
    j := CallOf(ss, es, k, es[k].b);
    CallAt(ss, es, j);
    CallsGrow(ss, es, j + 1, k);
    assert Calls(ss, es, j) == Calls(ss, es, k)[..|Calls(ss, es, j)|];
  }

  /** One return, in terms of the history. */
  lemma ReturnShape(s: State, e: Event, t: State)
    requires Inv(s) && Next(s, e, t) && e.Return?
    ensures e.b < |s.bufs| == |t.bufs| == |s.ticket| && s.bufs[e.b].busy && s.ticket[e.b] < s.served <= |s.submitted|
    ensures InRange(s.disk0, s.submitted)
    ensures t.bufs[e.b] == SyncBuf(RunDisk(s.disk0, s.submitted[..s.ticket[e.b]]), s.submitted[s.ticket[e.b]])
  {
    ReturnKeeps(s, e.b, t);
  }

  /**
   In every run, the device is busy exactly when there are requests, and the queue is the calls not yet finished, in
   order.
   */
  lemma ServedInOrder(ss: seq<State>, es: seq<Event>, k: nat, j: nat)
    requires Execution(ss, es) && k < |ss| && j < |ss[k].queue|
    ensures var s := ss[k];
            && !s.device.Off? && 0 <= First(s) && First(s) + |s.queue| == |s.submitted|
            && s.queue[j] < |s.bufs| && s.bufs[s.queue[j]] == s.submitted[First(s) + j].(busy := true)
    ensures ss[k].device.Busy? ==> ss[k].device == Command(ss[k].submitted[ss[k].served])
  {
    AlwaysInv(ss, es, k);
    assert PlaceOk(ss[k], j) && PlaceOk(ss[k], 0);
  }

  /** Any buffer that is dirty, or not valid, and not yet in iderw can be submitted, and only such a buffer. */
  lemma AcceptedExactly(s: State, b: nat)
    requires Inv(s) && b < |s.bufs| && s.bufs[b].blockno < |s.disk|
    ensures (exists t :: Next(s, Submit(b), t)) <==> !s.bufs[b].busy && (s.bufs[b].dirty || !s.bufs[b].valid)
  {
    if !s.bufs[b].busy && (s.bufs[b].dirty || !s.bufs[b].valid) {
      var t := s.(bufs := s.bufs[b := s.bufs[b].(busy := true)], queue := s.queue + [b],
                  device := if s.queue == [] then Command(s.bufs[b]) else s.device,
                  submitted := s.submitted + [s.bufs[b]], ticket := s.ticket[b := |s.submitted|]);
      assert Next(s, Submit(b), t);
    }
  }

  /** In every run, once a write has returned, its block holds its data until a later call writes the block again. */
  lemma {:induction false} WriteReachesDisk(ss: seq<State>, es: seq<Event>, j: nat, k: nat, l: nat)
    requires Execution(ss, es) && j < k < l < |ss| && es[k].Return? && es[j] == Submit(es[k].b)
    requires forall i :: j < i < k ==> es[i] != Submit(es[k].b)
    requires es[k].b < |ss[j].bufs| && ss[j].bufs[es[k].b].dirty
    requires forall i :: j < i < l && es[i].Submit? && es[i].b < |ss[i].bufs| ==>
      !(ss[i].bufs[es[i].b].dirty && ss[i].bufs[es[i].b].blockno == ss[j].bufs[es[k].b].blockno)
    ensures var call := ss[j].bufs[es[k].b]; call.blockno < |ss[l].disk| && ss[l].disk[call.blockno] == call.data
  {
    hide Next, Initial, Calls, Completed, RunDisk, SyncBuf, LastWrite;
    var call := ss[j].bufs[es[k].b];
    var j' := ReturnAsSync(ss, es, k);
    assert j' == j;
    DiskAsSync(ss, es, l);
    CallAt(ss, es, j);
    CallsGrow(ss, es, j + 1, l);
    CompletedGrows(es, k, l);
    LaterCalls(ss, es, j, l, call.blockno);
    var i, n, all := |Calls(ss, es, j)|, Completed(es, l), Calls(ss, es, l);
    LastOf(all, i, n, call);
    assert InRange(ss[0].disk, all[..n]);
    LastWriteWins(ss[0].disk, all[..n], call.blockno);
  }

  lemma CallAt(ss: seq<State>, es: seq<Event>, j: nat)
    requires |ss| == |es| + 1 && j < |es| && es[j].Submit? && es[j].b < |ss[j].bufs|
    ensures Calls(ss, es, j + 1) == Calls(ss, es, j) + [ss[j].bufs[es[j].b]]
  {
  }

  lemma LastOf(all: seq<Buf>, i: nat, n: nat, call: Buf)
    requires i < n <= |all| && all[i] == call && call.dirty
    requires forall m :: i + 1 <= m < |all| ==> !(all[m].dirty && all[m].blockno == call.blockno)
    ensures LastWrite(all[..n], call.blockno, i) && all[..n][i] == call
  {
  }

  lemma {:induction false} LaterCalls(ss: seq<State>, es: seq<Event>, j: nat, l: nat, n: nat)
    requires |ss| == |es| + 1 && j < l <= |es|
    requires forall i :: j < i < l && es[i].Submit? && es[i].b < |ss[i].bufs| ==>
      !(ss[i].bufs[es[i].b].dirty && ss[i].bufs[es[i].b].blockno == n)
    ensures forall m :: |Calls(ss, es, j + 1)| <= m < |Calls(ss, es, l)| ==>
      !(Calls(ss, es, l)[m].dirty && Calls(ss, es, l)[m].blockno == n)
  {
    if j + 1 < l {
      LaterCalls(ss, es, j, l - 1, n);
    }
  }

  lemma {:induction false} CompletedGrows(es: seq<Event>, k: nat, l: nat)
    requires k <= l <= |es|
    ensures Completed(es, k) <= Completed(es, l)
  {
    if k < l {
      CompletedGrows(es, k, l - 1);
    }
  }

  /** What the device read is what the disk holds. */
  lemma ReadIsDisk(s: State)
    requires Inv(s) && s.device.Ready?
    ensures s.queue != [] && s.queue[0] < |s.bufs|
    ensures var b := s.bufs[s.queue[0]];
      b.blockno < |s.disk| && (!b.dirty ==> s.device.read == Some(s.disk[b.blockno]))
  {
    assert PlaceOk(s, 0);
    var b := s.submitted[s.served - 1];
    RunStep(s.disk0, s.submitted[..s.served - 1], b);
    assert s.submitted[..s.served] == s.submitted[..s.served - 1] + [b];
  }

  /** A caller never waits in vain: the device can finish, or an interrupt can be taken, or the caller can return. */
  lemma SomeoneProgresses(s: State, b: nat)
    requires Inv(s) && b < |s.bufs| && s.bufs[b].busy
    ensures (exists t :: Next(s, Complete, t)) || (exists t :: Next(s, Interrupt, t))
            || (exists t :: Next(s, Return(b), t))
  {
    assert BufOk(s, b);
    if s.ticket[b] < First(s) {
      assert Next(s, Return(b), s.(bufs := s.bufs[b := s.bufs[b].(busy := false)]));
    } else {
      assert PlaceOk(s, 0);
      if s.device.Busy? {
        var d := s.device;
        var t := s.(device := Ready(if d.write.Some? then None else Some(s.disk[d.blockno])),
                    disk := if d.write.Some? then s.disk[d.blockno := d.write.value] else s.disk,
                    served := s.served + 1);
        assert Next(s, Complete, t);
      } else {
        assert |s.queue| > 1 ==> PlaceOk(s, 1);
        var bufs := s.bufs[s.queue[0] := Received(s.bufs[s.queue[0]], s.device)];
        var next := if |s.queue| > 1 then Command(bufs[s.queue[1]]) else Off;
        assert Next(s, Interrupt, s.(bufs := bufs, queue := s.queue[1..], device := next));
      }
    }
  }

  // The linked queue

  ghost predicate Linked(head: Option<nat>, qnext: seq<Option<nat>>, q: seq<nat>) {
    && head == (if q == [] then None else Some(q[0])) && (forall k :: 0 <= k < |q| ==> q[k] < |qnext|)
    && (forall k, l :: 0 <= k < l < |q| ==> q[k] != q[l])
    && forall k {:trigger qnext[q[k]]} :: 0 <= k < |q| ==> qnext[q[k]] == LinkAfter(q, k)
  }

  function LinkAfter(q: seq<nat>, k: nat): (r: Option<nat>)
    requires k < |q|
  {
    if k + 1 < |q| then Some(q[k + 1]) else None
  }

  lemma AppendLinked(head: Option<nat>, qnext: seq<Option<nat>>, q: seq<nat>, b: nat)
    requires Linked(head, qnext, q) && b < |qnext| && b !in q && q != []
    ensures Linked(head, qnext[b := None][q[|q| - 1] := Some(b)], q + [b])
  {
    var q', n' := q + [b], qnext[b := None][q[|q| - 1] := Some(b)];
    forall k | 0 <= k < |q'|
      ensures n'[q'[k]] == LinkAfter(q', k)
    {
      if k < |q| {
        assert qnext[q[k]] == LinkAfter(q, k) && q'[k] == q[k];
      }
    }
  }

  /** idequeue and the qnext fields of the buffers. */
  class RequestQueue {
    var idequeue: Option<nat>
    var qnext: seq<Option<nat>>
    ghost var queue: seq<nat>

    ghost predicate Valid()
      reads this
    {
      Linked(idequeue, qnext, queue)
    }

    constructor (n: nat)
      ensures Valid() && queue == [] && |qnext| == n
    {
      idequeue, qnext, queue := None, seq(n, _ => None), [];
    }

    /** iderw walks to the end of the list and puts b there. */
    method Append(b: nat) returns (first: bool)
      requires Valid() && b < |qnext| && b !in queue
      modifies this
      ensures Valid() && |qnext| == |old(qnext)| && queue == old(queue) + [b] && (first <==> old(queue) == [])
    {
      qnext := qnext[b := None];
      if idequeue == None {
        idequeue := Some(b);
        queue := [b];
        return true;
      }
      var pp := idequeue.value;
      ghost var k := 0;
      while qnext[pp] != None
        invariant 0 <= k < |queue| && pp == queue[k] && qnext == old(qnext)[b := None]
        invariant idequeue == old(idequeue) && queue == old(queue)
        decreases |queue| - k
      {
        assert old(qnext)[queue[k]] == LinkAfter(queue, k);
        pp := qnext[pp].value;
        k := k + 1;
      }
      assert old(qnext)[queue[k]] == LinkAfter(queue, k);
      AppendLinked(old(idequeue), old(qnext), queue, b);
      qnext := qnext[pp := Some(b)];
      queue := queue + [b];
      return false;
    }

    /** ideintr takes the first request off; None is a spurious interrupt. */
    method TakeFirst() returns (b: Option<nat>)
      requires Valid()
      modifies `idequeue, `queue
      ensures Valid() && (b == None <==> old(queue) == [])
      ensures b.Some? ==> b.value == old(queue)[0] && queue == old(queue)[1..]
      ensures b == None ==> queue == []
    {
      b := idequeue;
      if b.Some? {
        assert qnext[queue[0]] == LinkAfter(queue, 0);
        idequeue := qnext[b.value];
        forall k | 0 <= k < |queue| - 1
          ensures qnext[queue[1..][k]] == LinkAfter(queue[1..], k)
        {
          assert qnext[queue[k + 1]] == LinkAfter(queue, k + 1);
        }
        queue := queue[1..];
      }
    }
  }

  /** The driver: the buffers, the linked queue and the device, with the history of the protocol. */
  class Driver {
    const list: RequestQueue
    var bufs: seq<Buf>
    var device: Device
    ghost var disk: Disk
    ghost var disk0: Disk
    ghost var submitted: seq<Buf>
    ghost var ticket: seq<nat>
    ghost var served: nat

    ghost function Value(): (s: State)
      reads this, list
    {
      State(bufs, list.queue, device, disk, disk0, submitted, ticket, served)
    }

    ghost predicate Valid()
      reads this, list
    {
      Inv(Value()) && list.Valid() && |list.qnext| == |bufs|
    }

    constructor (bufs: seq<Buf>, ghost disk: Disk)
      requires forall b :: 0 <= b < |bufs| ==> !bufs[b].busy
      ensures Valid() && Initial(Value()) && this.bufs == bufs && this.disk == disk && fresh(list)
    {
      list := new RequestQueue(|bufs|);
      this.bufs, device := bufs, Off;
      this.disk, disk0, submitted, ticket, served := disk, disk, [], seq(|bufs|, _ => 0), 0;
    }

    /** iderw up to its wait; false is the panic "nothing to do". */
    method Iderw(b: nat) returns (ok: bool)
      requires Valid() && b < |bufs| && !bufs[b].busy && bufs[b].blockno < |disk|
      modifies this, list
      ensures ok <==> old(bufs)[b].dirty || !old(bufs)[b].valid
      ensures ok ==> Valid() && Next(old(Value()), Submit(b), Value())
      ensures ok ==> list.queue == old(list.queue) + [b] && bufs == old(bufs)[b := old(bufs)[b].(busy := true)]
      ensures ok && old(list.queue) == [] ==>
        device == Busy(bufs[b].blockno, if bufs[b].dirty then Some(bufs[b].data) else None)
      ensures ok && old(list.queue) != [] ==> device == old(device)
      ensures !ok ==> Value() == old(Value())
    {
      if bufs[b].valid && !bufs[b].dirty {
        return false;
      }
      ghost var s := Value();
      assert b !in list.queue by {
        forall k | 0 <= k < |list.queue|
          ensures list.queue[k] != b
        {
          assert PlaceOk(s, k);
        }
      }
      submitted, ticket := submitted + [bufs[b]], ticket[b := |submitted|];
      var first := list.Append(b);
      if first {
        device := Command(bufs[b]);
      }
      bufs := bufs[b := bufs[b].(busy := true)];
      NextKeeps(s, Submit(b), Value());
      return true;
    }

    /** ideintr: false is a spurious interrupt, which changes nothing. */
    method Ideintr() returns (ok: bool)
      requires Valid() && (list.queue == [] || device.Ready?)
      modifies this, list
      ensures Valid() && (ok <==> old(list.queue) != [])
      ensures if ok then Next(old(Value()), Interrupt, Value()) else Value() == old(Value())
      ensures ok ==> list.queue == old(list.queue)[1..] && |bufs| == |old(bufs)|
      ensures ok ==> var b := old(list.queue)[0];
        && b < |bufs| && bufs[b].valid && !bufs[b].dirty && bufs == old(bufs)[b := bufs[b]]
        && bufs[b].blockno == old(bufs)[b].blockno && bufs[b].busy
        && bufs[b].data == if old(bufs)[b].dirty then old(bufs)[b].data else old(disk)[bufs[b].blockno]
      ensures ok ==> device == if list.queue == [] then Off else
        var c := bufs[list.queue[0]]; Busy(c.blockno, if c.dirty then Some(c.data) else None)
    {
      ghost var s := Value();
      assert forall k :: 0 <= k < |list.queue| ==> PlaceOk(s, k);
      var b := list.TakeFirst();
      if b == None {
        return false;
      }
      ReadIsDisk(s);
      bufs := bufs[b.value := Received(bufs[b.value], device)];
      if list.idequeue.Some? {
        device := Command(bufs[list.idequeue.value]);
      } else {
        device := Off;
      }
      NextKeeps(s, Interrupt, Value());
      return true;
    }
  }
}
