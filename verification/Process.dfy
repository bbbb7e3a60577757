/**
 The process table (proc.c). Code that runs with ptable.lock held is one atomic step; fork's
 unlocked writes to the slot it is filling are steps of their own.
 */
module Process {
  import opened Common

  datatype Status = UNUSED | EMBRYO | SLEEPING | RUNNABLE | RUNNING | ZOMBIE

  /** What a process sleeps on: in wait, its own table entry; anything else is a number. */
  datatype Chan = OnProc(slot: nat) | Other(addr: nat)

  /** A table entry. `making` is the slot that this process is filling in fork. */
  datatype Proc = Proc(
    state: Status, pid: nat, parent: Option<nat>, chan: Option<Chan>, killed: bool, making: Option<nat>)

  /** `current` is the process on each CPU; `reaped` lists the pids that wait has returned. */
  datatype State = State(procs: seq<Proc>, current: seq<Option<nat>>, nextpid: nat, init: nat, reaped: seq<nat>)

  /** Started and not yet exited. */
  predicate Alive(p: Proc) {
    p.state == SLEEPING || p.state == RUNNABLE || p.state == RUNNING
  }

  /** CPU c runs process i. */
  ghost predicate Runs(s: State, c: nat, i: nat) {
    c < |s.current| && s.current[c] == Some(i) && i < |s.procs|
  }

  predicate Asleep(p: Proc, ch: Chan) {
    p.state == SLEEPING && p.chan == Some(ch)
  }

  // The operations under ptable.lock, on the table

  /** wakeup1: every sleeper on ch becomes runnable. */
  function Woken(ps: seq<Proc>, ch: Chan): (r: seq<Proc>)
    ensures |r| == |ps|
  {
    seq(|ps|, k requires 0 <= k < |ps| => if Asleep(ps[k], ch) then ps[k].(state := RUNNABLE) else ps[k])
  }

  predicate ZombieChild(ps: seq<Proc>, i: nat, n: nat)
    requires n <= |ps|
  {
    exists k :: 0 <= k < n && ps[k].state == ZOMBIE && ps[k].parent == Some(i)
  }

  /** Entry j is a child of process i that has exited and not been waited for. */
  predicate ExitedChild(ps: seq<Proc>, i: nat, j: nat) {
    j < |ps| && ps[j].state == ZOMBIE && ps[j].parent == Some(i)
  }

  ghost predicate HasChild(ps: seq<Proc>, i: nat) {
    exists k :: 0 <= k < |ps| && ps[k].parent == Some(i)
  }

  /**
   Entry p of the table after exit by process i has gone through the first n entries; `past` says p is one of them.
   */
  function ExitEntry(ps: seq<Proc>, i: nat, init: nat, n: nat, k: nat): (p: Proc)
    requires i < |ps| && k < |ps| && n <= |ps| && ps[i].parent.Some?
  {
    var p := ps[k];
    var p := if k < n && p.parent == Some(i) then p.(parent := Some(init)) else p;
    if Asleep(p, OnProc(ps[i].parent.value)) || (ZombieChild(ps, i, n) && Asleep(p, OnProc(init)))
        then p.(state := RUNNABLE) else p
  }

  function ExitTable(ps: seq<Proc>, i: nat, init: nat, n: nat): (r: seq<Proc>)
    requires i < |ps| && n <= |ps| && ps[i].parent.Some?
    ensures |r| == |ps|
  {
    seq(|ps|, k requires 0 <= k < |ps| => ExitEntry(ps, i, init, n, k))
  }

  // Steps

  datatype Event =
    | Alloc(cpu: nat, slot: nat)
    | Abort(cpu: nat)
    | Adopt(cpu: nat)
    | Start(cpu: nat)
    | Exit(cpu: nat)
    | Reap(cpu: nat, slot: nat)
    | WaitSleep(cpu: nat)
    | Schedule(cpu: nat, slot: nat)
    | Yield(cpu: nat)
    | Sleep(cpu: nat, addr: nat)
    | Wakeup(addr: nat)
    | Kill(slot: nat)

  /** allocproc, in fork by process i: a free slot and the next pid. */
  ghost predicate AllocStep(s: State, i: nat, j: nat, t: State) {
    && i < |s.procs| && j < |s.procs| && s.procs[j].state == UNUSED && s.procs[i].making == None && i != j
    && t == s.(procs := s.procs[j := s.procs[j].(state := EMBRYO, pid := s.nextpid)]
                               [i := s.procs[i].(making := Some(j))],
               nextpid := s.nextpid + 1)
  }

  /** The slot being filled by process i. */
  ghost predicate Making(s: State, i: nat, j: nat) {
    i < |s.procs| && j < |s.procs| && s.procs[i].making == Some(j) && i != j
  }

  /** fork fails: the slot is given back as it is. */
  ghost predicate AbortStep(s: State, i: nat, j: nat, t: State) {
    && Making(s, i, j) && s.procs[j].parent == None
    && t == s.(procs := s.procs[j := s.procs[j].(state := UNUSED)][i := s.procs[i].(making := None)])
  }

  ghost predicate AdoptStep(s: State, i: nat, j: nat, t: State) {
    Making(s, i, j) && t == s.(procs := s.procs[j := s.procs[j].(parent := Some(i))])
  }

  /** The new process becomes runnable. */
  ghost predicate StartStep(s: State, i: nat, j: nat, t: State) {
    && Making(s, i, j) && s.procs[j].parent == Some(i)
    && t == s.(procs := s.procs[j := s.procs[j].(state := RUNNABLE)][i := s.procs[i].(making := None)])
  }

  /** exit; init never exits, and a process does not exit inside fork. */
  ghost predicate ExitStep(s: State, c: nat, i: nat, t: State) {
    && Runs(s, c, i) && i != s.init && s.procs[i].making == None && s.procs[i].parent.Some?
    && var ps := ExitTable(s.procs, i, s.init, |s.procs|);
       t == s.(procs := ps[i := ps[i].(state := ZOMBIE)], current := s.current[c := None])
  }

  /** wait finds an exited child. */
  ghost predicate ReapStep(s: State, i: nat, j: nat, t: State) {
    && i < |s.procs| && j < |s.procs| && s.procs[j].parent == Some(i) && s.procs[j].state == ZOMBIE
    && t == s.(procs := s.procs[j := s.procs[j].(state := UNUSED, pid := 0, parent := None, killed := false)],
               reaped := s.reaped + [s.procs[j].pid])
  }

  /** wait finds children but no exited one, and sleeps, unless the process has been killed. */
  ghost predicate WaitSleepStep(s: State, c: nat, i: nat, t: State) {
    && Runs(s, c, i) && HasChild(s.procs, i) && !ZombieChild(s.procs, i, |s.procs|) && !s.procs[i].killed
    && t == s.(procs := s.procs[i := s.procs[i].(state := SLEEPING, chan := Some(OnProc(i)))],
        current := s.current[c := None])
  }

  ghost predicate ScheduleStep(s: State, c: nat, j: nat, t: State) {
    && c < |s.current| && s.current[c] == None && j < |s.procs| && s.procs[j].state == RUNNABLE
    && t == s.(procs := s.procs[j := s.procs[j].(state := RUNNING, chan := None)], current := s.current[c := Some(j)])
  }

  ghost predicate YieldStep(s: State, c: nat, i: nat, t: State) {
    && Runs(s, c, i)
    && t == s.(procs := s.procs[i := s.procs[i].(state := RUNNABLE)], current := s.current[c := None])
  }

  ghost predicate SleepStep(s: State, c: nat, i: nat, a: nat, t: State) {
    && Runs(s, c, i)
    && t == s.(procs := s.procs[i := s.procs[i].(state := SLEEPING, chan := Some(Other(a)))],
        current := s.current[c := None])
  }

  /** kill: the first entry with the pid, whatever its state. */
  ghost predicate KillStep(s: State, j: nat, t: State) {
    && j < |s.procs|
    && t == s.(procs := s.procs[j := s.procs[j].(killed := true, state := if s.procs[j].state == SLEEPING then RUNNABLE
        else s.procs[j].state)])
  }

  ghost predicate Next(s: State, e: Event, t: State) {
    match e
    case Alloc(c, j) => c < |s.current| && s.current[c].Some? && AllocStep(s, s.current[c].value, j, t)
    case Abort(c) => c < |s.current| && s.current[c].Some? && exists j :: AbortStep(s, s.current[c].value, j, t)
    case Adopt(c) => c < |s.current| && s.current[c].Some? && exists j :: AdoptStep(s, s.current[c].value, j, t)
    case Start(c) => c < |s.current| && s.current[c].Some? && exists j :: StartStep(s, s.current[c].value, j, t)
    case Exit(c) => c < |s.current| && s.current[c].Some? && ExitStep(s, c, s.current[c].value, t)
    case Reap(c, j) => c < |s.current| && s.current[c].Some? && ReapStep(s, s.current[c].value, j, t)
    case WaitSleep(c) => c < |s.current| && s.current[c].Some? && WaitSleepStep(s, c, s.current[c].value, t)
    case Schedule(c, j) => ScheduleStep(s, c, j, t)
    case Yield(c) => c < |s.current| && s.current[c].Some? && YieldStep(s, c, s.current[c].value, t)
    case Sleep(c, a) => c < |s.current| && s.current[c].Some? && SleepStep(s, c, s.current[c].value, a, t)
    case Wakeup(a) => t == s.(procs := Woken(s.procs, Other(a)))
    case Kill(j) => KillStep(s, j, t)
  }

  // The invariant

  ghost predicate CpuOk(s: State, c: nat)
    requires c < |s.current|
  {
    s.current[c].Some? ==> s.current[c].value < |s.procs| && s.procs[s.current[c].value].state == RUNNING
  }

  ghost predicate RunOk(s: State, i: nat)
    requires i < |s.procs|
  {
    s.procs[i].state == RUNNING ==> exists c :: 0 <= c < |s.current| && s.current[c] == Some(i)
  }

  /** A process is on a CPU iff it is RUNNING, and then on exactly one. */
  ghost predicate OnCpus(s: State) {
    && (forall c :: 0 <= c < |s.current| ==> CpuOk(s, c))
    && (forall c, d :: 0 <= c < d < |s.current| && s.current[c].Some? ==> s.current[c] != s.current[d])
    && forall i :: 0 <= i < |s.procs| ==> RunOk(s, i)
  }

  /** Pids in use are distinct, and none of them has been returned by wait. */
  ghost predicate Pids(s: State) {
    && (forall i :: 0 <= i < |s.procs| && s.procs[i].state != UNUSED ==>
          0 < s.procs[i].pid < s.nextpid && s.procs[i].pid !in s.reaped)
    && (forall i, j :: 0 <= i < j < |s.procs| && s.procs[i].state != UNUSED && s.procs[j].state != UNUSED ==>
          s.procs[i].pid != s.procs[j].pid)
    && (forall k :: 0 <= k < |s.reaped| ==> 0 < s.reaped[k] < s.nextpid)
    && forall k, l :: 0 <= k < l < |s.reaped| ==> s.reaped[k] != s.reaped[l]
  }

  /** A process that has started, init apart, has a parent that is alive; init and free slots have none. */
  ghost predicate ParentOk(ps: seq<Proc>, init: nat, j: nat)
    requires j < |ps|
  {
    && ((Alive(ps[j]) || ps[j].state == ZOMBIE) && j != init ==>
          ps[j].parent.Some? && ps[j].parent.value < |ps| && ps[j].parent.value != j && Alive(ps[ps[j].parent.value]))
    && (ps[j].state == UNUSED || j == init ==> ps[j].parent == None)
  }

  ghost predicate Parents(s: State) {
    && s.init < |s.procs| && Alive(s.procs[s.init])
    && forall j :: 0 <= j < |s.procs| ==> ParentOk(s.procs, s.init, j)
  }

  /** A process in fork is alive and fills an EMBRYO; an EMBRYO with a parent is being filled by it. */
  ghost predicate MakerOk(ps: seq<Proc>, j: nat)
    requires j < |ps|
  {
    && (ps[j].making.Some? ==> Alive(ps[j]) && ps[j].making.value < |ps| && ps[ps[j].making.value].state == EMBRYO)
    && (ps[j].state == EMBRYO && ps[j].parent.Some? ==>
          ps[j].parent.value < |ps| && ps[ps[j].parent.value].making == Some(j))
  }

  /** A slot being filled belongs to one fork. */
  ghost predicate Makers(s: State) {
    && (forall j :: 0 <= j < |s.procs| ==> MakerOk(s.procs, j))
    && forall i, j :: 0 <= i < j < |s.procs| && s.procs[i].making.Some? ==> s.procs[i].making != s.procs[j].making
  }

  predicate InWait(p: Proc) {
    p.state == SLEEPING && p.chan.Some? && p.chan.value.OnProc?
  }

  /** Whoever sleeps in wait has children, none of them exited, and has not been killed. */
  ghost predicate WaitOk(ps: seq<Proc>, i: nat)
    requires i < |ps|
  {
    InWait(ps[i]) ==> ps[i].chan.value.slot == i && HasChild(ps, i) && !ZombieChild(ps, i, |ps|) && !ps[i].killed
  }

  ghost predicate Waits(s: State) {
    forall i :: 0 <= i < |s.procs| ==> WaitOk(s.procs, i)
  }

  ghost predicate Inv(s: State) {
    OnCpus(s) && Pids(s) && Parents(s) && Makers(s) && Waits(s)
  }

  // What several steps share

  /** Scheduling changes of an entry: it stays alive or keeps its state; pid, parent and fork in progress stay. */
  ghost predicate Quiet(p: Proc, q: Proc) {
    && q.pid == p.pid && q.parent == p.parent && q.making == p.making
    && (q.state == p.state || (Alive(p) && Alive(q)))
  }

  lemma QuietKeeps(s: State, t: State)
    requires Pids(s) && Parents(s) && Makers(s)
    requires |t.procs| == |s.procs| && t.nextpid == s.nextpid && t.init == s.init && t.reaped == s.reaped
    requires forall k :: 0 <= k < |s.procs| ==> Quiet(s.procs[k], t.procs[k])
    ensures Pids(t) && Parents(t) && Makers(t)
  {
    forall k | 0 <= k < |t.procs|
      ensures ParentOk(t.procs, t.init, k) && MakerOk(t.procs, k)
    {
      assert ParentOk(s.procs, s.init, k) && MakerOk(s.procs, k);
    }
  }

  /** No process starts or stops running. */
  lemma SameCpus(s: State, t: State)
    requires OnCpus(s) && |t.procs| == |s.procs| && t.current == s.current
    requires forall k :: 0 <= k < |s.procs| ==> (t.procs[k].state == RUNNING <==> s.procs[k].state == RUNNING)
    ensures OnCpus(t)
  {
    forall c | 0 <= c < |t.current|
      ensures CpuOk(t, c)
    {
      assert CpuOk(s, c);
    }
    forall k | 0 <= k < |t.procs|
      ensures RunOk(t, k)
    {
      assert RunOk(s, k);
    }
  }

  /** Process i leaves CPU c. */
  lemma LeavesCpu(s: State, c: nat, i: nat, t: State)
    requires OnCpus(s) && Runs(s, c, i) && |t.procs| == |s.procs| && t.current == s.current[c := None]
    requires t.procs[i].state != RUNNING
    requires forall k :: 0 <= k < |s.procs| && k != i ==> (t.procs[k].state == RUNNING <==> s.procs[k].state == RUNNING)
    ensures OnCpus(t)
  {
    forall d | 0 <= d < |t.current|
      ensures CpuOk(t, d)
    {
      assert CpuOk(s, d);
    }
    forall k | 0 <= k < |t.procs|
      ensures RunOk(t, k)
    {
      assert RunOk(s, k);
      if t.procs[k].state == RUNNING {
        var d :| 0 <= d < |s.current| && s.current[d] == Some(k);
        assert t.current[d] == Some(k);
      }
    }
  }

  /** No new or newly killed sleeper in wait, no new exited child of one, and no child lost. */
  lemma SameWaits(s: State, t: State)
    requires Waits(s) && |t.procs| == |s.procs|
    requires forall k :: 0 <= k < |s.procs| && InWait(t.procs[k]) ==>
      InWait(s.procs[k]) && t.procs[k].chan == s.procs[k].chan && t.procs[k].killed == s.procs[k].killed
    requires forall k :: 0 <= k < |s.procs| && t.procs[k].state == ZOMBIE ==>
      s.procs[k].state == ZOMBIE && s.procs[k].parent == t.procs[k].parent
    requires forall k :: 0 <= k < |s.procs| ==> KeepsParent(s, t, k)
    ensures Waits(t)
  {
    forall k | 0 <= k < |t.procs|
      ensures WaitOk(t.procs, k)
    {
      assert WaitOk(s.procs, k);
      if InWait(t.procs[k]) {
        var j :| 0 <= j < |s.procs| && s.procs[j].parent == Some(k);
        assert KeepsParent(s, t, j);
      }
    }
  }

  /** Entry k keeps its parent, if that sleeps in wait. */
  ghost predicate KeepsParent(s: State, t: State, k: nat)
    requires |t.procs| == |s.procs| && k < |s.procs|
  {
    var p := s.procs[k].parent;
    p.Some? && p.value < |s.procs| && InWait(s.procs[p.value]) ==> t.procs[k].parent == p
  }

  // Every step keeps it

  lemma AllocKeeps(s: State, i: nat, j: nat, t: State)
    requires Inv(s) && AllocStep(s, i, j, t) && Alive(s.procs[i])
    ensures Inv(t)
  {
    SameCpus(s, t);
    SameWaits(s, t);
    AllocMakers(s, i, j, t);
    AllocPids(s, i, j, t);
    hide OnCpus, Pids, Makers, Waits;
    forall k | 0 <= k < |t.procs|
      ensures ParentOk(t.procs, t.init, k)
    {
      assert ParentOk(s.procs, s.init, k);
    }
  }

  lemma AllocPids(s: State, i: nat, j: nat, t: State)
    requires Pids(s) && AllocStep(s, i, j, t) && s.nextpid > 0
    ensures Pids(t)
  {
  }

  lemma AllocMakers(s: State, i: nat, j: nat, t: State)
    requires Makers(s) && Parents(s) && AllocStep(s, i, j, t) && Alive(s.procs[i])
    ensures Makers(t)
  {
    assert ParentOk(s.procs, s.init, j);
    forall k | 0 <= k < |t.procs|
      ensures MakerOk(t.procs, k) && (k != i ==> t.procs[k].making != Some(j))
    {
      assert MakerOk(s.procs, k);
    }
  }

  lemma AbortKeeps(s: State, i: nat, j: nat, t: State)
    requires Inv(s) && AbortStep(s, i, j, t)
    ensures Inv(t)
  {
    assert MakerOk(s.procs, i);
    SameCpus(s, t);
    SameWaits(s, t);
    AbortParents(s, i, j, t);
  }

  lemma AbortParents(s: State, i: nat, j: nat, t: State)
    requires Parents(s) && Makers(s) && AbortStep(s, i, j, t) && s.procs[j].state == EMBRYO
    ensures Parents(t) && Makers(t)
  {
    forall k | 0 <= k < |t.procs|
      ensures ParentOk(t.procs, t.init, k) && MakerOk(t.procs, k)
    {
      assert ParentOk(s.procs, s.init, k) && MakerOk(s.procs, k);
    }
  }

  lemma AdoptKeeps(s: State, i: nat, j: nat, t: State)
    requires Inv(s) && AdoptStep(s, i, j, t) && s.procs[i].state == RUNNING
    ensures Inv(t)
  {
    assert MakerOk(s.procs, i) && MakerOk(s.procs, j);
    SameCpus(s, t);
    SameWaits(s, t);
    forall k | 0 <= k < |t.procs|
      ensures ParentOk(t.procs, t.init, k) && MakerOk(t.procs, k)
    {
      assert ParentOk(s.procs, s.init, k) && MakerOk(s.procs, k);
    }
  }

  lemma StartKeeps(s: State, i: nat, j: nat, t: State)
    requires Inv(s) && StartStep(s, i, j, t)
    ensures Inv(t)
  {
    assert MakerOk(s.procs, i);
    SameCpus(s, t);
    SameWaits(s, t);
    StartParents(s, i, j, t);
  }

  lemma StartParents(s: State, i: nat, j: nat, t: State)
    requires Parents(s) && Makers(s) && StartStep(s, i, j, t) && Alive(s.procs[i]) && s.procs[j].state == EMBRYO
    ensures Parents(t) && Makers(t)
  {
    forall k | 0 <= k < |t.procs|
      ensures ParentOk(t.procs, t.init, k) && MakerOk(t.procs, k)
    {
      assert ParentOk(s.procs, s.init, k) && MakerOk(s.procs, k);
    }
  }

  lemma ExitKeeps(s: State, c: nat, i: nat, t: State)
    requires Inv(s) && ExitStep(s, c, i, t)
    ensures Inv(t)
  {
    assert CpuOk(s, c);
    LeavesCpu(s, c, i, t);
    ExitEntries(s, c, i, t);
    ExitParents(s, i, t);
    forall k | 0 <= k < |t.procs|
      ensures WaitOk(t.procs, k)
    {
      ExitWaits(s, c, i, t, k);
    }
  }

  /** Entry k after exit by process i. */
  ghost predicate ExitsTo(s: State, i: nat, k: nat, q: Proc)
    requires i < |s.procs| && k < |s.procs|
  {
    var p := s.procs[k];
    && q.pid == p.pid && q.making == p.making && q.chan == p.chan
    && q.parent == (if p.parent == Some(i) then Some(s.init) else p.parent)
    && (k == i ==> q.state == ZOMBIE)
    && (k != i ==> q.state == p.state || (Alive(p) && Alive(q) && p.state != RUNNING && q.state != RUNNING))
  }

  lemma ExitEntries(s: State, c: nat, i: nat, t: State)
    requires ExitStep(s, c, i, t) && s.procs[i].state == RUNNING
    ensures forall k :: 0 <= k < |t.procs| ==> ExitsTo(s, i, k, t.procs[k])
  {
  }

  lemma ExitPids(s: State, i: nat, t: State)
    requires Pids(s) && i < |s.procs| && s.procs[i].state == RUNNING
    requires |t.procs| == |s.procs| && t.nextpid == s.nextpid && t.reaped == s.reaped
    requires forall k :: 0 <= k < |t.procs| ==> ExitsTo(s, i, k, t.procs[k])
    ensures Pids(t) == true
  {
  }

  lemma ExitParents(s: State, i: nat, t: State)
    requires Pids(s) && Parents(s) && Makers(s) && i < |s.procs| && s.procs[i].state == RUNNING && i != s.init
    requires s.procs[i].making == None
    requires |t.procs| == |s.procs| && t.nextpid == s.nextpid && t.init == s.init && t.reaped == s.reaped
    requires forall k :: 0 <= k < |t.procs| ==> ExitsTo(s, i, k, t.procs[k])
    ensures Pids(t) && Parents(t) && Makers(t)
  {
    ExitPids(s, i, t);
    hide Pids;
    forall k | 0 <= k < |t.procs|
      ensures ParentOk(t.procs, t.init, k) && MakerOk(t.procs, k)
    {
      assert ParentOk(s.procs, s.init, k) && MakerOk(s.procs, k);
      assert s.procs[k].parent.Some? && s.procs[k].parent.value < |s.procs| ==>
        ExitsTo(s, i, s.procs[k].parent.value, t.procs[s.procs[k].parent.value]);
    }
  }

  /** exit wakes every waiter that gets an exited child: the parent, and init if it inherits one. */
  lemma ExitWaits(s: State, c: nat, i: nat, t: State, k: nat)
    requires Parents(s) && Waits(s) && ExitStep(s, c, i, t) && s.procs[i].state == RUNNING && k < |s.procs|
    ensures WaitOk(t.procs, k)
  {
    assert WaitOk(s.procs, k) && ParentOk(s.procs, s.init, i);
    if InWait(t.procs[k]) {
      var j :| 0 <= j < |s.procs| && s.procs[j].parent == Some(k);
      assert t.procs[j].parent == Some(k);
      assert s.procs[k].state == SLEEPING && s.procs[k].chan == t.procs[k].chan == Some(OnProc(k));
      forall z | 0 <= z < |t.procs| && t.procs[z].state == ZOMBIE
        ensures t.procs[z].parent != Some(k)
      {
        if z != i {
          assert s.procs[z].state == ZOMBIE && s.procs[z].parent != Some(k);
          assert s.procs[z].parent == Some(i) ==> ZombieChild(s.procs, i, |s.procs|);
        }
      }
    }
  }

  lemma ReapKeeps(s: State, i: nat, j: nat, t: State)
    requires Inv(s) && ReapStep(s, i, j, t) && s.procs[i].state == RUNNING
    ensures Inv(t)
  {
    SameCpus(s, t);
    SameWaits(s, t);
    hide OnCpus, Waits;
    ReapPids(s, i, j, t);
    hide Pids;
    forall k | 0 <= k < |t.procs|
      ensures ParentOk(t.procs, t.init, k) && MakerOk(t.procs, k)
    {
      assert ParentOk(s.procs, s.init, k) && MakerOk(s.procs, k);
    }
  }

  lemma ReapPids(s: State, i: nat, j: nat, t: State)
    requires Pids(s) && ReapStep(s, i, j, t)
    ensures Pids(t)
  {
  }

  lemma WaitSleepKeeps(s: State, c: nat, i: nat, t: State)
    requires Inv(s) && WaitSleepStep(s, c, i, t)
    ensures Inv(t)
  {
    assert CpuOk(s, c);
    LeavesCpu(s, c, i, t);
    QuietKeeps(s, t);
    forall k | 0 <= k < |t.procs|
      ensures WaitOk(t.procs, k)
    {
      assert WaitOk(s.procs, k);
    }
  }

  lemma ScheduleKeeps(s: State, c: nat, j: nat, t: State)
    requires Inv(s) && ScheduleStep(s, c, j, t)
    ensures Inv(t)
  {
    QuietKeeps(s, t);
    SameWaits(s, t);
    forall d | 0 <= d < |t.current|
      ensures CpuOk(t, d) && (d != c ==> t.current[d] != Some(j))
    {
      assert CpuOk(s, d);
    }
    forall k | 0 <= k < |t.procs|
      ensures RunOk(t, k)
    {
      assert RunOk(s, k);
      if k == j {
        assert t.current[c] == Some(j);
      } else if t.procs[k].state == RUNNING {
        var d :| 0 <= d < |s.current| && s.current[d] == Some(k);
        assert t.current[d] == Some(k);
      }
    }
  }

  lemma YieldKeeps(s: State, c: nat, i: nat, t: State)
    requires Inv(s) && YieldStep(s, c, i, t)
    ensures Inv(t)
  {
    assert CpuOk(s, c);
    LeavesCpu(s, c, i, t);
    QuietKeeps(s, t);
    SameWaits(s, t);
  }

  lemma SleepKeeps(s: State, c: nat, i: nat, a: nat, t: State)
    requires Inv(s) && SleepStep(s, c, i, a, t)
    ensures Inv(t)
  {
    assert CpuOk(s, c);
    LeavesCpu(s, c, i, t);
    QuietKeeps(s, t);
    SameWaits(s, t);
  }

  lemma WakeupKeeps(s: State, a: nat, t: State)
    requires Inv(s) && t == s.(procs := Woken(s.procs, Other(a)))
    ensures Inv(t)
  {
    SameCpus(s, t);
    QuietKeeps(s, t);
    SameWaits(s, t);
  }

  lemma KillKeeps(s: State, j: nat, t: State)
    requires Inv(s) && KillStep(s, j, t)
    ensures Inv(t)
  {
    SameCpus(s, t);
    QuietKeeps(s, t);
    SameWaits(s, t);
  }

  lemma NextKeeps(s: State, e: Event, t: State)
    requires Inv(s) && Next(s, e, t)
    ensures Inv(t)
  {
    match e
    case Alloc(c, j) =>
      assert CpuOk(s, c);
      AllocKeeps(s, s.current[c].value, j, t);
    case Abort(c) =>
      var j :| AbortStep(s, s.current[c].value, j, t);
      AbortKeeps(s, s.current[c].value, j, t);
    case Adopt(c) =>
      var j :| AdoptStep(s, s.current[c].value, j, t);
      assert CpuOk(s, c);
      AdoptKeeps(s, s.current[c].value, j, t);
    case Start(c) =>
      var j :| StartStep(s, s.current[c].value, j, t);
      StartKeeps(s, s.current[c].value, j, t);
    case Exit(c) => ExitKeeps(s, c, s.current[c].value, t);
    case Reap(c, j) =>
      assert CpuOk(s, c);
      ReapKeeps(s, s.current[c].value, j, t);
    case WaitSleep(c) => WaitSleepKeeps(s, c, s.current[c].value, t);
    case Schedule(c, j) => ScheduleKeeps(s, c, j, t);
    case Yield(c) => YieldKeeps(s, c, s.current[c].value, t);
    case Sleep(c, a) => SleepKeeps(s, c, s.current[c].value, a, t);
    case Wakeup(a) => WakeupKeeps(s, a, t);
    case Kill(j) => KillKeeps(s, j, t);
  }

  // Runs

  /** After userinit: one runnable process, init, and all CPUs idle. */
  ghost predicate Initial(s: State) {
    && s.init < |s.procs| && s.nextpid == 2 && s.reaped == []
    && (forall c :: 0 <= c < |s.current| ==> s.current[c] == None)
    && s.procs[s.init] == Proc(RUNNABLE, 1, None, None, false, None)
    && forall k :: 0 <= k < |s.procs| && k != s.init ==> s.procs[k] == Proc(UNUSED, 0, None, None, false, None)
  }

  /** A run: states ss, and the event between each two. */
  ghost predicate Execution(ss: seq<State>, es: seq<Event>) {
    && |ss| == |es| + 1 && Initial(ss[0])
    && forall k :: 0 <= k < |es| ==> Next(ss[k], es[k], ss[k + 1])
  }

  lemma InitialInv(s: State)
    requires Initial(s)
    ensures Inv(s)
  {
    forall k | 0 <= k < |s.procs|
      ensures RunOk(s, k) && ParentOk(s.procs, s.init, k) && MakerOk(s.procs, k) && WaitOk(s.procs, k)
    {
    }
  }

  lemma {:induction false} AlwaysInv(ss: seq<State>, es: seq<Event>, k: nat)
    requires Execution(ss, es) && k < |ss|
    ensures Inv(ss[k])
  {
    if k == 0 {
      InitialInv(ss[0]);
    } else {
      AlwaysInv(ss, es, k - 1);
      NextKeeps(ss[k - 1], es[k - 1], ss[k]);
    }
  }

  /** In every run, a RUNNING process is on exactly one CPU, and a CPU only runs RUNNING processes. */
  lemma RunningOnOneCpu(ss: seq<State>, es: seq<Event>, k: nat, i: nat)
    requires Execution(ss, es) && k < |ss| && i < |ss[k].procs|
    ensures ss[k].procs[i].state == RUNNING <==> exists c :: Runs(ss[k], c, i)
    ensures forall c, d :: Runs(ss[k], c, i) && Runs(ss[k], d, i) ==> c == d
  {
    AlwaysInv(ss, es, k);
    assert RunOk(ss[k], i);
    if ss[k].procs[i].state == RUNNING {
      var c :| 0 <= c < |ss[k].current| && ss[k].current[c] == Some(i);
      assert Runs(ss[k], c, i);
    }
    if c :| Runs(ss[k], c, i) {
      assert CpuOk(ss[k], c);
    }
  }

  /** In every run, the pids of all processes are distinct. */
  lemma PidsDistinct(ss: seq<State>, es: seq<Event>, k: nat, i: nat, j: nat)
    requires Execution(ss, es) && k < |ss| && i < j < |ss[k].procs|
    requires ss[k].procs[i].state != UNUSED && ss[k].procs[j].state != UNUSED
    ensures ss[k].procs[i].pid != ss[k].procs[j].pid
  {
    AlwaysInv(ss, es, k);
  }

  /** In every run, wait returns each pid at most once. */
  lemma ReapedOnce(ss: seq<State>, es: seq<Event>, k: nat, a: nat, b: nat)
    requires Execution(ss, es) && k < |ss| && a < b < |ss[k].reaped|
    ensures ss[k].reaped[a] != ss[k].reaped[b]
  {
    AlwaysInv(ss, es, k);
  }

  /** In every run, a started process other than init has a parent that has started and not exited. */
  lemma ParentsAlive(ss: seq<State>, es: seq<Event>, k: nat, j: nat)
    requires Execution(ss, es) && k < |ss| && j < |ss[k].procs| && j != ss[k].init
    requires Alive(ss[k].procs[j]) || ss[k].procs[j].state == ZOMBIE
    ensures var p := ss[k].procs[j].parent; p.Some? && p.value < |ss[k].procs| && Alive(ss[k].procs[p.value])
  {
    AlwaysInv(ss, es, k);
    assert ParentOk(ss[k].procs, ss[k].init, j);
  }

  /** In every run, no process sleeps in wait while it has an exited child. */
  lemma NoMissedExit(ss: seq<State>, es: seq<Event>, k: nat, i: nat, z: nat)
    requires Execution(ss, es) && k < |ss| && i < |ss[k].procs| && z < |ss[k].procs|
    requires Asleep(ss[k].procs[i], OnProc(i)) && ss[k].procs[z].state == ZOMBIE
    ensures ss[k].procs[z].parent != Some(i)
  {
    AlwaysInv(ss, es, k);
    assert WaitOk(ss[k].procs, i);
  }

  /** In every run, who sleeps in wait has a child to wait for, and has not been killed. */
  lemma NoHopelessWait(ss: seq<State>, es: seq<Event>, k: nat, i: nat) returns (j: nat)
    requires Execution(ss, es) && k < |ss| && i < |ss[k].procs| && Asleep(ss[k].procs[i], OnProc(i))
    ensures !ss[k].procs[i].killed && j < |ss[k].procs| && ss[k].procs[j].parent == Some(i)
    ensures ss[k].procs[j].state == EMBRYO || Alive(ss[k].procs[j])
  {
    AlwaysInv(ss, es, k);
    assert WaitOk(ss[k].procs, i);
    j :| 0 <= j < |ss[k].procs| && ss[k].procs[j].parent == Some(i);
    assert ParentOk(ss[k].procs, ss[k].init, j);
  }

  // Who kills whom

  /** In every run, a process that sleeps went to sleep after every kill of it so far. */
  lemma {:induction false} KillWakes(ss: seq<State>, es: seq<Event>, m: nat, k: nat, i: nat) returns (n: nat)
    requires Execution(ss, es) && m < k < |ss| && es[m] == Kill(i) && i < |ss[k].procs|
    requires ss[k].procs[i].state == SLEEPING
    ensures m < n < k && i < |ss[n].procs| == |ss[n + 1].procs|
    ensures ss[n].procs[i].state == RUNNING && ss[n + 1].procs[i].state == SLEEPING
  {
    hide Next, Initial, Inv;
    AlwaysInv(ss, es, k - 1);
    var s, e, t := ss[k - 1], es[k - 1], ss[k];
    SleepStates(s, e, t, i);
    if s.procs[i].state == SLEEPING {
      n := KillWakes(ss, es, m, k - 1, i);
    } else {
      n := k - 1;
    }
  }

  /** What it takes for a process to be asleep after a step. */
  lemma SleepStates(s: State, e: Event, t: State, i: nat)
    requires Inv(s) && Next(s, e, t) && i < |t.procs| && t.procs[i].state == SLEEPING
    ensures |s.procs| == |t.procs| && (s.procs[i].state == SLEEPING || s.procs[i].state == RUNNING) && e != Kill(i)
    ensures s.procs[i].state == RUNNING ==> e.Sleep? || e.WaitSleep?
    ensures s.procs[i].state == SLEEPING ==>
      t.procs[i].chan == s.procs[i].chan && forall a :: e == Wakeup(a) ==> t.procs[i].chan != Some(Other(a))
  {
    hide Pids, Parents, Makers, Waits;
    SameTable(s, e, t);
    if s.procs[i].state == SLEEPING {
      StaysAsleep(s, e, t, i);
    } else {
      FallsAsleep(s, e, t, i);
    }
  }

  lemma SameTable(s: State, e: Event, t: State)
    requires Next(s, e, t)
    ensures |s.procs| == |t.procs|
  {
  }

  /** In every run, a process that sleeps on a channel went to sleep on it after every wakeup of that channel so far. */
  lemma {:induction false} WakeupWakes(ss: seq<State>, es: seq<Event>, m: nat, k: nat, i: nat, a: nat) returns (n: nat)
    requires Execution(ss, es) && m < k < |ss| && es[m] == Wakeup(a) && i < |ss[k].procs|
    requires ss[k].procs[i].state == SLEEPING && ss[k].procs[i].chan == Some(Other(a))
    ensures m < n < k && i < |ss[n].procs| == |ss[n + 1].procs|
    ensures ss[n].procs[i].state == RUNNING && ss[n + 1].procs[i].state == SLEEPING
    ensures ss[n + 1].procs[i].chan == Some(Other(a))
  {
    hide Next, Initial, Inv;
    AlwaysInv(ss, es, k - 1);
    var s, e, t := ss[k - 1], es[k - 1], ss[k];
    SleepStates(s, e, t, i);
    if s.procs[i].state == SLEEPING {
      n := WakeupWakes(ss, es, m, k - 1, i, a);
    } else {
      n := k - 1;
    }
  }

  lemma StaysAsleep(s: State, e: Event, t: State, i: nat)
    requires OnCpus(s) && Next(s, e, t) && i < |s.procs| == |t.procs|
    requires s.procs[i].state == SLEEPING && t.procs[i].state == SLEEPING
    ensures t.procs[i].chan == s.procs[i].chan
  {
    match e
    case WaitSleep(c) => assert CpuOk(s, c);
    case Sleep(c, _) => assert CpuOk(s, c);
    case _ =>
  }

  lemma FallsAsleep(s: State, e: Event, t: State, i: nat)
    requires OnCpus(s) && Next(s, e, t) && i < |s.procs| == |t.procs|
    requires s.procs[i].state != SLEEPING && t.procs[i].state == SLEEPING
    ensures s.procs[i].state == RUNNING && (e.Sleep? || e.WaitSleep?)
  {
    match e
    case WaitSleep(c) => assert CpuOk(s, c);
    case Sleep(c, _) => assert CpuOk(s, c);
    case _ =>
  }

  /** Some kill among the first k events was of this pid. */
  ghost predicate KilledPid(ss: seq<State>, es: seq<Event>, k: nat, pid: nat) {
    exists j :: 0 <= j < k && j < |es| && j < |ss| && IsKillOf(ss[j], es[j], pid)
  }

  predicate IsKillOf(s: State, e: Event, pid: nat) {
    e.Kill? && e.slot < |s.procs| && s.procs[e.slot].pid == pid
  }

  /** No new process gets a slot that is marked as killed. */
  ghost predicate CleanSlots(ss: seq<State>, es: seq<Event>)
    requires |ss| == |es| + 1
  {
    forall k :: 0 <= k < |es| && es[k].Alloc? && es[k].slot < |ss[k].procs| ==> !ss[k].procs[es[k].slot].killed
  }

  /** Every process marked as killed was killed by its own pid. */
  ghost predicate OwnKills(ss: seq<State>, es: seq<Event>) {
    forall k, i ::
      0 <= k < |ss| && 0 <= i < |ss[k].procs| && ss[k].procs[i].state != UNUSED && ss[k].procs[i].killed ==>
      KilledPid(ss, es, k, ss[k].procs[i].pid)
  }

  /** How a process can come to be marked by a step that gives no marked slot to a new one. */
  lemma MarkedBy(s: State, e: Event, t: State, i: nat)
    requires Next(s, e, t) && i < |t.procs| && t.procs[i].killed && t.procs[i].state != UNUSED
    requires e.Alloc? && e.slot < |s.procs| ==> !s.procs[e.slot].killed
    requires Makers(s) && (forall c :: 0 <= c < |s.current| ==> CpuOk(s, c))
    ensures i < |s.procs| && t.procs[i].pid == s.procs[i].pid && s.procs[i].state != UNUSED
    ensures s.procs[i].killed || (e.Kill? && e.slot == i)
  {
    match e
    case Alloc(c, j) => assert CpuOk(s, c);
    case Abort(c) =>
      var j :| AbortStep(s, s.current[c].value, j, t);
      assert MakerOk(s.procs, s.current[c].value) && CpuOk(s, c);
    case Start(c) =>
      var j :| StartStep(s, s.current[c].value, j, t);
      assert MakerOk(s.procs, s.current[c].value) && CpuOk(s, c);
    case Exit(c) => assert CpuOk(s, c);
    case WaitSleep(c) => assert CpuOk(s, c);
    case Yield(c) => assert CpuOk(s, c);
    case Sleep(c, a) => assert CpuOk(s, c);
    case _ =>
  }

  lemma {:induction false} OwnKill(ss: seq<State>, es: seq<Event>, k: nat, i: nat)
    requires Execution(ss, es) && CleanSlots(ss, es) && k < |ss| && i < |ss[k].procs|
    requires ss[k].procs[i].state != UNUSED && ss[k].procs[i].killed
    ensures KilledPid(ss, es, k, ss[k].procs[i].pid)
  {
    if k > 0 {
      AlwaysInv(ss, es, k - 1);
      var s, e, t := ss[k - 1], es[k - 1], ss[k];
      hide Pids, Parents, Waits, RunOk;
      MarkedBy(s, e, t, i);
      if e.Kill? && e.slot == i {
        assert IsKillOf(s, e, t.procs[i].pid);
      } else {
        OwnKill(ss, es, k - 1, i);
      }
    }
  }

  /** The pids in the table, in use or left behind, are below the next one, which only grows. */
  lemma {:induction false} PidsBelow(ss: seq<State>, es: seq<Event>, j: nat, k: nat, i: nat)
    requires Execution(ss, es) && j <= k < |ss| && i < |ss[j].procs|
    ensures ss[j].procs[i].pid < ss[j].nextpid <= ss[k].nextpid
  {
    if j < k {
      PidsBelow(ss, es, j, k - 1, i);
      assert Next(ss[k - 1], es[k - 1], ss[k]);
    } else if k > 0 {
      assert Next(ss[k - 1], es[k - 1], ss[k]);
      assert |ss[k - 1].procs| == |ss[k].procs|;
      PidsBelow(ss, es, k - 1, k - 1, i);
    }
  }

  /**
   In every run, who is marked as killed was killed by its own pid, if and only if no new process got a slot that
   was marked: allocproc does not clear the mark, and kill also marks slots that are not in use.
   */
  lemma OwnKillsExact(ss: seq<State>, es: seq<Event>)
    requires Execution(ss, es)
    ensures OwnKills(ss, es) <==> CleanSlots(ss, es)
  {
    if CleanSlots(ss, es) {
      forall k, i | 0 <= k < |ss| && 0 <= i < |ss[k].procs| && ss[k].procs[i].state != UNUSED && ss[k].procs[i].killed
        ensures KilledPid(ss, es, k, ss[k].procs[i].pid)
      {
        OwnKill(ss, es, k, i);
      }
    } else {
      var k :| 0 <= k < |es| && es[k].Alloc? && es[k].slot < |ss[k].procs| && ss[k].procs[es[k].slot].killed;
      MarkedChild(ss, es, k);
    }
  }

  /** A process that gets a marked slot is marked, and no kill so far was of its pid. */
  lemma MarkedChild(ss: seq<State>, es: seq<Event>, k: nat)
    requires Execution(ss, es) && k < |es| && es[k].Alloc? && es[k].slot < |ss[k].procs|
    requires ss[k].procs[es[k].slot].killed
    ensures !OwnKills(ss, es)
  {
    assert Next(ss[k], es[k], ss[k + 1]);
    var j := es[k].slot;
    var p := ss[k + 1].procs[j];
    assert p.state == EMBRYO && p.killed && p.pid == ss[k].nextpid;
    forall m | 0 <= m < k + 1
      ensures !IsKillOf(ss[m], es[m], p.pid)
    {
      if m < k && es[m].Kill? && es[m].slot < |ss[m].procs| {
        PidsBelow(ss, es, m, k, es[m].slot);
      }
    }
    assert !KilledPid(ss, es, k + 1, p.pid);
  }

  /** It happens: kill(0) marks an unused slot, and a later child starts marked, though no kill was of its pid. */
  lemma KillZero(s: State) returns (ss: seq<State>, es: seq<Event>, j: nat)
    requires Initial(s) && |s.procs| >= 2 && |s.current| >= 1
    ensures Execution(ss, es) && ss[0] == s && j < |s.procs|
    ensures var t := ss[|es|];
            && |t.procs| == |s.procs| && t.procs[j].state == RUNNABLE && t.procs[j].killed
            && !KilledPid(ss, es, |es|, t.procs[j].pid)
  {
    var i := s.init;
    j := if i == 0 then 1 else 0;
    var s1 := s.(procs := s.procs[j := s.procs[j].(killed := true)]);
    var s2 := s1.(procs := s1.procs[i := s1.procs[i].(state := RUNNING, chan := None)],
        current := s.current[0 := Some(i)]);
    assert Next(s, Kill(j), s1) && Next(s1, Schedule(0, i), s2);
    var s3, s4, s5 := ForkBy(s2, i, j);
    ss, es := [s, s1, s2, s3, s4, s5], [Kill(j), Schedule(0, i), Alloc(0, j), Adopt(0), Start(0)];
    hide Next;
    assert forall k :: 0 <= k < 5 ==> Next(ss[k], es[k], ss[k + 1]);
    assert !IsKillOf(ss[0], es[0], s5.procs[j].pid) && forall k :: 0 < k < 5 ==> !es[k].Kill?;
  }

  /** fork by process i on CPU 0 into slot j. */
  lemma ForkBy(s: State, i: nat, j: nat) returns (s3: State, s4: State, s5: State)
    requires i < |s.procs| && j < |s.procs| && i != j && |s.current| > 0 && s.current[0] == Some(i)
    requires s.procs[j].state == UNUSED && s.procs[j].parent == None && s.procs[i].making == None
    ensures Next(s, Alloc(0, j), s3) && Next(s3, Adopt(0), s4) && Next(s4, Start(0), s5)
    ensures |s5.procs| == |s.procs|
    ensures s5.procs[j] == s.procs[j].(state := RUNNABLE, pid := s.nextpid, parent := Some(i))
  {
    s3 := s.(procs := s.procs[j := s.procs[j].(state := EMBRYO, pid := s.nextpid)][i := s.procs[i].(making := Some(j))],
             nextpid := s.nextpid + 1);
    s4 := s3.(procs := s3.procs[j := s3.procs[j].(parent := Some(i))]);
    s5 := s4.(procs := s4.procs[j := s4.procs[j].(state := RUNNABLE)][i := s4.procs[i].(making := None)]);
    assert AdoptStep(s3, i, j, s4) && StartStep(s4, i, j, s5);
  }

  datatype WaitResult = Child(pid: nat) | NoChild | Slept

  class ProcTable {
    const init: nat
    var procs: seq<Proc>
    var current: seq<Option<nat>>
    var nextpid: nat
    ghost var reaped: seq<nat>

    ghost function Value(): State
      reads this
    {
      State(procs, current, nextpid, init, reaped)
    }

    /** CPU c runs a process. */
    ghost predicate Busy(c: nat)
      reads this
    {
      c < |current| && current[c].Some? && current[c].value < |procs|
    }

    /** boot: nothing but init, which is runnable. */
    constructor (n: nat, cpus: nat, init: nat)
      requires init < n
      ensures Initial(Value()) && |procs| == n && |current| == cpus && this.init == init
    {
      this.init := init;
      procs := seq(n, k => if k == init then Proc(RUNNABLE, 1, None, None, false, None)
          else Proc(UNUSED, 0, None, None, false, None));
      current := seq(cpus, _ => None);
      nextpid, reaped := 2, [];
    }

    /** The first free slot gets the next pid; it is filled in by process i. */
    method Allocproc(c: nat) returns (r: Option<nat>)
      requires Inv(Value()) && Busy(c) && procs[current[c].value].making == None
      modifies `procs, `nextpid
      ensures r.Some? ==> Next(old(Value()), Alloc(c, r.value), Value()) && Inv(Value())
      ensures r.Some? ==>
        && r.value < |old(procs)| && old(procs)[r.value].state == UNUSED && current[c].value != r.value
        && procs == old(procs)[r.value := old(procs)[r.value].(state := EMBRYO, pid := old(nextpid))]
                              [current[c].value := old(procs)[current[c].value].(making := r)]
        && nextpid == old(nextpid) + 1
      ensures r.Some? ==> forall k :: 0 <= k < r.value ==> old(procs)[k].state != UNUSED
      ensures r.None? ==> Value() == old(Value()) && forall k :: 0 <= k < |procs| ==> procs[k].state != UNUSED
    {
      var i := current[c].value;
      assert CpuOk(Value(), c);
      var p := 0;
      while p < |procs|
        invariant 0 <= p <= |procs| && procs == old(procs) && nextpid == old(nextpid)
        invariant forall k :: 0 <= k < p ==> procs[k].state != UNUSED
      {
        if procs[p].state == UNUSED {
          procs := procs[p := procs[p].(state := EMBRYO, pid := nextpid)];
          nextpid := nextpid + 1;
          procs := procs[i := procs[i].(making := Some(p))];
          NextKeeps(old(Value()), Alloc(c, p), Value());
          return Some(p);
        }
        p := p + 1;
      }
      return None;
    }

    /** The rest of fork when the memory could not be copied: slot j is given back. */
    method GiveBack(c: nat, j: nat)
      requires Inv(Value()) && Busy(c) && j < |procs| && procs[current[c].value].making == Some(j)
      requires procs[j].parent == None
      modifies `procs
      ensures Inv(Value()) && Next(old(Value()), Abort(c), Value())
      ensures var i := current[c].value;
        && i != j && procs == old(procs)[j := old(procs)[j].(state := UNUSED)][i := old(procs)[i].(making := None)]
    {
      var i := current[c].value;
      assert CpuOk(Value(), c) && MakerOk(procs, i);
      procs := procs[j := procs[j].(state := UNUSED)];
      procs := procs[i := procs[i].(making := None)];
      hide OnCpus, Pids, Parents, Makers, Waits;
      assert AbortStep(old(Value()), i, j, Value());
      NextKeeps(old(Value()), Abort(c), Value());
    }

    /** The rest of fork otherwise: the child in slot j gets its parent, and then is runnable. */
    method Launch(c: nat, j: nat) returns (pid: nat, ghost mid: State)
      requires Inv(Value()) && Busy(c) && j < |procs| && procs[current[c].value].making == Some(j)
      modifies `procs
      ensures Inv(Value()) && Next(old(Value()), Adopt(c), mid) && Next(mid, Start(c), Value())
      ensures pid == old(procs)[j].pid
      ensures var i := current[c].value;
        && i != j
        && procs == old(procs)[j := old(procs)[j].(parent := Some(i), state := RUNNABLE)]
                              [i := old(procs)[i].(making := None)]
    {
      var i := current[c].value;
      assert CpuOk(Value(), c) && MakerOk(procs, i);
      hide OnCpus, Pids, Parents, Makers, Waits;
      procs := procs[j := procs[j].(parent := Some(i))];
      assert AdoptStep(old(Value()), i, j, Value());
      NextKeeps(old(Value()), Adopt(c), Value());
      mid := Value();
      hide AdoptStep;
      pid := procs[j].pid;
      procs := procs[j := procs[j].(state := RUNNABLE)];
      procs := procs[i := procs[i].(making := None)];
      assert StartStep(mid, i, j, Value());
      NextKeeps(mid, Start(c), Value());
    }

    /** sleep on a channel other than in wait: the process leaves the CPU. */
    method Sleep(c: nat, a: nat)
      requires Inv(Value()) && Busy(c)
      modifies `procs, `current
      ensures Inv(Value()) && Next(old(Value()), Event.Sleep(c, a), Value())
      ensures var i := old(current)[c].value;
        procs == old(procs)[i := old(procs)[i].(state := SLEEPING, chan := Some(Other(a)))]
      ensures current == old(current)[c := None]
    {
      var i := current[c].value;
      procs := procs[i := procs[i].(chan := Some(Other(a)))];
      procs := procs[i := procs[i].(state := SLEEPING)];
      current := current[c := None];
      NextKeeps(old(Value()), Event.Sleep(c, a), Value());
    }

    method Yield(c: nat)
      requires Inv(Value()) && Busy(c)
      modifies `procs, `current
      ensures Inv(Value()) && Next(old(Value()), Event.Yield(c), Value())
      ensures var i := old(current)[c].value; procs == old(procs)[i := old(procs)[i].(state := RUNNABLE)]
      ensures current == old(current)[c := None]
    {
      var i := current[c].value;
      procs := procs[i := procs[i].(state := RUNNABLE)];
      current := current[c := None];
      NextKeeps(old(Value()), Event.Yield(c), Value());
    }

    method Wakeup1(ch: Chan)
      modifies `procs
      ensures procs == Woken(old(procs), ch) && |procs| == |old(procs)|
      ensures forall k :: 0 <= k < |procs| ==>
        procs[k] == if old(procs)[k].state == SLEEPING && old(procs)[k].chan == Some(ch)
                    then old(procs)[k].(state := RUNNABLE) else old(procs)[k]
    {
      var p := 0;
      while p < |procs|
        invariant 0 <= p <= |procs| == |old(procs)|
        invariant forall k :: 0 <= k < |procs| ==> procs[k] == if k < p then Woken(old(procs), ch)[k] else old(procs)[k]
      {
        if procs[p].state == SLEEPING && procs[p].chan == Some(ch) {
          procs := procs[p := procs[p].(state := RUNNABLE)];
        }
        p := p + 1;
      }
    }

    method Wakeup(a: nat)
      requires Inv(Value())
      modifies `procs
      ensures Next(old(Value()), Event.Wakeup(a), Value()) && Inv(Value()) && |procs| == |old(procs)|
      ensures forall k :: 0 <= k < |procs| ==>
        procs[k] == if old(procs)[k].state == SLEEPING && old(procs)[k].chan == Some(Other(a))
                    then old(procs)[k].(state := RUNNABLE) else old(procs)[k]
    {
      Wakeup1(Other(a));
      NextKeeps(old(Value()), Event.Wakeup(a), Value());
    }

    /** exit by the process on CPU c. */
    method Exit(c: nat)
      requires Inv(Value()) && Busy(c) && current[c].value != init
      requires procs[current[c].value].making == None
      modifies `procs, `current
      ensures Next(old(Value()), Event.Exit(c), Value()) && Inv(Value()) == true
      ensures current == old(current)[c := None] && |procs| == |old(procs)|
      ensures forall k :: 0 <= k < |procs| ==> Left(old(procs), old(current)[c].value, init, k, procs[k]) == true
    {
      var i := current[c].value;
      assert CpuOk(Value(), c) && ParentOk(procs, init, i);
      Abandon(i);
      LeftTable(old(procs), i, init, procs, procs[i := procs[i].(state := ZOMBIE)]);
      procs := procs[i := procs[i].(state := ZOMBIE)];
      current := current[c := None];
      NextKeeps(old(Value()), Event.Exit(c), Value());
    }

    /** Wake the parent of process i, and pass its children to init. */
    method Abandon(i: nat)
      requires i < |procs| && procs[i].parent.Some?
      modifies `procs
      ensures procs == ExitTable(old(procs), i, init, |old(procs)|)
    {
      Wakeup1(OnProc(procs[i].parent.value));
      assert procs == ExitTable(old(procs), i, init, 0);
      var p := 0;
      while p < |procs|
        invariant 0 <= p <= |procs| == |old(procs)|
        invariant procs == ExitTable(old(procs), i, init, p)
      {
        ghost var before := procs;
        if procs[p].parent == Some(i) {
          procs := procs[p := procs[p].(parent := Some(init))];
          if procs[p].state == ZOMBIE {
            Wakeup1(OnProc(init));
          }
        }
        ExitRound(old(procs), i, init, p, before, procs);
        p := p + 1;
      }
    }

    /** One pass of wait: an exited child is reaped, no child ends the wait, otherwise the process sleeps. */
    method Wait(c: nat) returns (r: WaitResult)
      requires Inv(Value()) && Busy(c)
      modifies `procs, `current, `reaped
      ensures Inv(Value())
      ensures r.Child? ==> exists j: nat ::
        && Next(old(Value()), Reap(c, j), Value()) && reaped == old(reaped) + [r.pid] && current == old(current)
        && j < |old(procs)| && ExitedChild(old(procs), old(current)[c].value, j) && old(procs)[j].pid == r.pid
        && procs == old(procs)[j := old(procs)[j].(state := UNUSED, pid := 0, parent := None, killed := false)]
      ensures r.Child? <==> exists j: nat :: ExitedChild(old(procs), old(current)[c].value, j)
      ensures !r.Child? ==>
        (r.NoChild? <==>
           || old(procs)[old(current)[c].value].killed
           || forall k :: 0 <= k < |old(procs)| ==> old(procs)[k].parent != old(current)[c])
      ensures r.NoChild? ==> Value() == old(Value())
      ensures r.Slept? ==>
        && Next(old(Value()), WaitSleep(c), Value()) && current == old(current)[c := None] && reaped == old(reaped)
        && var i := old(current)[c].value;
           procs == old(procs)[i := old(procs)[i].(state := SLEEPING, chan := Some(OnProc(i)))]
    {
      var i := current[c].value;
      assert CpuOk(Value(), c);
      var p, havekids := 0, false;
      while p < |procs|
        invariant 0 <= p <= |procs| && Value() == old(Value())
        invariant !ZombieChild(procs, i, p) && (havekids <==> exists k :: 0 <= k < p && procs[k].parent == Some(i))
      {
        if procs[p].parent == Some(i) {
          havekids := true;
          if procs[p].state == ZOMBIE {
            assert ExitedChild(old(procs), i, p);
            var pid := procs[p].pid;
            procs := procs[p := procs[p].(state := UNUSED, pid := 0, parent := None, killed := false)];
            reaped := reaped + [pid];
            NextKeeps(old(Value()), Reap(c, p), Value());
            return Child(pid);
          }
        }
        p := p + 1;
      }
      if !havekids || procs[i].killed {
        return NoChild;
      }
      procs := procs[i := procs[i].(state := SLEEPING, chan := Some(OnProc(i)))];
      current := current[c := None];
      NextKeeps(old(Value()), WaitSleep(c), Value());
      return Slept;
    }

    method Kill(pid: nat) returns (ok: bool)
      requires Inv(Value())
      modifies `procs
      ensures Inv(Value())
      ensures ok ==> exists j: nat ::
        && j < |old(procs)| == |procs| && Next(old(Value()), Event.Kill(j), Value())
        && old(procs)[j].pid == pid && (forall k :: 0 <= k < j ==> old(procs)[k].pid != pid)
        && procs[j].killed && (old(procs)[j].state == SLEEPING ==> procs[j].state == RUNNABLE)
        && procs == old(procs)[j := old(procs)[j].(killed := true, state := procs[j].state)]
        && (old(procs)[j].state != SLEEPING ==> procs[j].state == old(procs)[j].state)
      ensures !ok ==> Value() == old(Value()) && forall k :: 0 <= k < |procs| ==> procs[k].pid != pid
    {
      var p := 0;
      while p < |procs|
        invariant 0 <= p <= |procs| && procs == old(procs)
        invariant forall k :: 0 <= k < p ==> procs[k].pid != pid
      {
        if procs[p].pid == pid {
          procs := procs[p := procs[p].(killed := true)];
          if procs[p].state == SLEEPING {
            procs := procs[p := procs[p].(state := RUNNABLE)];
          }
          NextKeeps(old(Value()), Event.Kill(p), Value());
          return true;
        }
        p := p + 1;
      }
      return false;
    }

    /** The scheduler on idle CPU c looks for a runnable process from slot `from` on. */
    method Pick(c: nat, from: nat) returns (r: Option<nat>)
      requires Inv(Value()) && c < |current| && current[c] == None && from <= |procs|
      modifies `procs, `current
      ensures Inv(Value())
      ensures r.Some? ==> Next(old(Value()), Schedule(c, r.value), Value())
      ensures r.Some? ==>
        && from <= r.value < |old(procs)| && old(procs)[r.value].state == RUNNABLE
        && (forall k :: from <= k < r.value ==> old(procs)[k].state != RUNNABLE)
        && procs == old(procs)[r.value := old(procs)[r.value].(state := RUNNING, chan := None)]
        && current == old(current)[c := r]
      ensures r.None? ==> Value() == old(Value()) && forall k :: from <= k < |procs| ==> procs[k].state != RUNNABLE
    {
      var p := from;
      while p < |procs|
        invariant from <= p <= |procs| && Value() == old(Value())
        invariant forall k :: from <= k < p ==> procs[k].state != RUNNABLE
      {
        if procs[p].state == RUNNABLE {
          current := current[c := Some(p)];
          procs := procs[p := procs[p].(state := RUNNING, chan := None)];
          NextKeeps(old(Value()), Schedule(c, p), Value());
          return Some(p);
        }
        p := p + 1;
      }
      return None;
    }
  }

  /**
   Entry k after exit by process i: i is a zombie, its children are init's, and its parent is awake if it slept in
   wait, as is init if one of those children had exited. Nothing else has changed.
   */
  ghost predicate Left(ps: seq<Proc>, i: nat, init: nat, k: nat, q: Proc)
    requires i < |ps| && k < |ps|
  {
    && q.pid == ps[k].pid && q.chan == ps[k].chan && q.killed == ps[k].killed && q.making == ps[k].making
    && q.parent == (if ps[k].parent == Some(i) then Some(init) else ps[k].parent)
    && q.state ==
         if k == i then ZOMBIE
         else if ps[k].state == SLEEPING && ps[k].chan.Some? && ps[k].chan.value.OnProc?
              && (ps[i].parent == Some(ps[k].chan.value.slot)
                  || (ps[k].chan == Some(OnProc(init))
                      && exists z :: 0 <= z < |ps| && ps[z].state == ZOMBIE && ps[z].parent == Some(i)))
              then RUNNABLE
         else ps[k].state
  }

  lemma LeftTable(ps: seq<Proc>, i: nat, init: nat, mid: seq<Proc>, after: seq<Proc>)
    requires i < |ps| && ps[i].parent.Some? && mid == ExitTable(ps, i, init, |ps|)
    requires after == mid[i := mid[i].(state := ZOMBIE)]
    ensures forall k :: 0 <= k < |ps| ==> Left(ps, i, init, k, after[k]) == true
  {
    hide Left;
    forall k | 0 <= k < |ps|
      ensures Left(ps, i, init, k, after[k]) == true
    {
      LeftEntry(ps, i, init, k);
    }
  }

  lemma LeftEntry(ps: seq<Proc>, i: nat, init: nat, k: nat)
    requires i < |ps| && k < |ps| && ps[i].parent.Some?
    ensures var q := ExitEntry(ps, i, init, |ps|, k); Left(ps, i, init, k, if k == i then q.(state := ZOMBIE) else q)
  {
  }

  /** One entry of exit's loop. */
  lemma ExitRound(ps: seq<Proc>, i: nat, init: nat, p: nat, before: seq<Proc>, after: seq<Proc>)
    requires i < |ps| && p < |ps| && ps[i].parent.Some? && before == ExitTable(ps, i, init, p)
    requires var mid := if before[p].parent == Some(i) then before[p := before[p].(parent := Some(init))] else before;
             after == if before[p].parent == Some(i) && before[p].state == ZOMBIE then Woken(mid, OnProc(init)) else mid
    ensures after == ExitTable(ps, i, init, p + 1)
  {
    assert ZombieChild(ps, i, p + 1) <==> ZombieChild(ps, i, p) || (ps[p].state == ZOMBIE && ps[p].parent == Some(i));
  }
}
