/**
 begin_op, log_write and end_op (log.c) as users of sleep and wakeup: the channel is the log, the lock is log.lock, and
 every sleeper waits for its operation to be admitted.
 */
module LogWait {
  import opened Common
  import Log
  import opened Condition

  /** log.lh.n, log.outstanding and log.committing. */
  datatype Vars = Vars(n: nat, outstanding: nat, committing: bool)

  /** The test of begin_op. */
  predicate Admits(v: Vars) {
    !v.committing && v.n + (v.outstanding + 1) * Log.MAXOPBLOCKS <= Log.LOGSIZE
  }

  /**
   Where a thread is. Beginning, Admitted: in begin_op, before and after the test succeeds. Active: in its operation.
   Logging: in log_write. Ending: in end_op, before the counts change; Ended: after. Committing: without the lock.
   Finishing, Finished: back in end_op, before and after committing is cleared. Waked: in end_op, after wakeup.
   */
  datatype Role =
    | Idle | Beginning | Admitted | Active | Logging | Ending | Ended(last: bool) | Committing | Finishing | Finished
    | Waked

  datatype Ops = Ops(s: State<Vars>, role: seq<Role>)

  datatype Event =
    | BeginLock | BeginWait | BeginAdmit | BeginUnlock
    | LogLock | LogAppend | LogUnlock
    | EndLock | EndLast | EndMore | EndUnlock
    | FinishLock | FinishClear | WakeDone | WakeUnlock
    | Inner(e: Condition.Event<Vars>)

  /** In end_op, where wakeup is called: the operation was not the last one, or its commit is over. */
  predicate CallsWakeup(r: Role) {
    r == Ended(false) || r == Finished
  }

  /** The steps inside sleep, and those of wakeup where end_op calls it. */
  predicate IsInner(r: Role, e: Condition.Event<Vars>) {
    || e.TakePt? || e.DropLk? || e.FallAsleep? || e.Leave? || e.Resume? || e.Rise? || e.Retake? || e.Kill?
    || (CallsWakeup(r) && (e.WakeBegin? || e.WakeAll?))
  }

  /** Thread i goes from role r to role r' by step c of sleep and wakeup. */
  ghost predicate Moves(l: Ops, i: nat, r: Role, c: Condition.Event<Vars>, r': Role, m: Ops) {
    && i < |l.role| && l.role[i] == r && Condition.Next(l.s, i, c, m.s)
    && m == Ops(m.s, l.role[i := r'])
  }

  ghost predicate Next(l: Ops, i: nat, e: Event, m: Ops) {
    var v := l.s.v;
    match e
    case BeginLock => Moves(l, i, Idle, Acquire, Beginning, m)
    case BeginWait => !Admits(v) && Moves(l, i, Beginning, Doze, Beginning, m)
    case BeginAdmit => Admits(v) && Moves(l, i, Beginning, Quiet(v.(outstanding := v.outstanding + 1)), Admitted, m)
    case BeginUnlock => Moves(l, i, Admitted, Release, Active, m)
    case LogLock => Moves(l, i, Active, Acquire, Logging, m)
    case LogAppend => Moves(l, i, Logging, Quiet(v.(n := v.n + 1)), Logging, m)
    case LogUnlock => Moves(l, i, Logging, Release, Active, m)
    case EndLock => Moves(l, i, Active, Acquire, Ending, m)
    // the last one out: no wakeup here, the commit ends with one
    case EndLast =>
      v.outstanding == 1 && Moves(l, i, Ending, Quiet(v.(outstanding := 0, committing := true)), Ended(true), m)
    case EndMore =>
      v.outstanding > 1 && Moves(l, i, Ending, Enable(v.(outstanding := v.outstanding - 1)), Ended(false), m)
    case EndUnlock => Moves(l, i, Ended(true), Release, Committing, m)
    case FinishLock => Moves(l, i, Committing, Acquire, Finishing, m)
    // commit has set n to 0, which nobody reads while committing is set
    case FinishClear => Moves(l, i, Finishing, Enable(v.(n := 0, committing := false)), Finished, m)
    case WakeDone => i < |l.role| && CallsWakeup(l.role[i]) && Moves(l, i, l.role[i], WakeEnd, Waked, m)
    case WakeUnlock => Moves(l, i, Waked, Release, Idle, m)
    case Inner(c) => i < |l.role| && IsInner(l.role[i], c) && Moves(l, i, l.role[i], c, l.role[i], m)
  }

  // The invariant

  /** A thread that outstanding counts. */
  predicate Counts(r: Role) {
    r == Admitted || r == Active || r == Logging || r == Ending
  }

  /** A thread between the last end_op and the clearing of committing. */
  predicate Commits(r: Role) {
    r == Ended(true) || r == Committing || r == Finishing
  }

  function Count(role: seq<Role>, p: Role -> bool): (n: nat) {
    if role == [] then 0 else (if p(role[0]) then 1 else 0) + Count(role[1..], p)
  }

  lemma {:induction false} CountUpdate(role: seq<Role>, p: Role -> bool, i: nat, r: Role)
    requires i < |role|
    ensures Count(role[i := r], p) == Count(role, p) - (if p(role[i]) then 1 else 0) + if p(r) then 1 else 0
  {
    if i > 0 {
      assert role[i := r][1..] == role[1..][i - 1 := r];
      CountUpdate(role[1..], p, i - 1, r);
    }
  }

  /** The counts are right, a commit runs alone, and only begin_op sleeps. */
  ghost predicate RolesOk(l: Ops) {
    && |l.role| == |l.s.pc| && l.s.v.outstanding == Count(l.role, Counts)
    && Count(l.role, Commits) == (if l.s.v.committing then 1 else 0) && (l.s.v.committing ==> l.s.v.outstanding == 0)
    && forall i :: 0 <= i < |l.role| ==> Stands(l, i)
  }

  /** Where thread i is in sleep and wakeup, by its role; only a thread that still has to call wakeup owes it. */
  predicate Stands(l: Ops, i: nat)
    requires i < |l.role| == |l.s.pc|
  {
    var r, pc := l.role[i], l.s.pc[i];
    && (if r == Idle || r == Active || r == Committing then pc == Out
        else if r == Beginning then pc == Held || InSleep(pc)
        else if CallsWakeup(r) then pc == Held || pc == Waking || pc == Woke
        else pc == Held)
    && (l.s.pending && l.s.lk == Some(i) ==> CallsWakeup(r))
  }

  ghost predicate Inv(l: Ops) {
    && Condition.Inv(l.s) && RolesOk(l) && forall i, v :: l.s.cond(i, v) <==> Admits(v)
  }

  ghost predicate Initial(l: Ops) {
    && Condition.Initial(l.s) && |l.role| == |l.s.pc| && l.s.v == Vars(0, 0, false)
    && (forall i, v :: l.s.cond(i, v) <==> Admits(v))
    && forall i :: 0 <= i < |l.role| ==> l.role[i] == Idle
  }

  lemma {:induction false} NoneCount(role: seq<Role>, p: Role -> bool)
    requires forall i :: 0 <= i < |role| ==> !p(role[i])
    ensures Count(role, p) == 0
  {
    if role != [] {
      NoneCount(role[1..], p);
    }
  }

  lemma {:induction false} OneCounts(role: seq<Role>, p: Role -> bool, i: nat)
    requires i < |role| && p(role[i])
    ensures Count(role, p) > 0
  {
    if i > 0 {
      OneCounts(role[1..], p, i - 1);
    }
  }

  /** A step of sleep and wakeup moves only its thread, and changes the variables only by Quiet and Enable. */
  lemma StepMoves(s: State<Vars>, i: nat, c: Condition.Event<Vars>, t: State<Vars>)
    requires Condition.Next(s, i, c, t)
    ensures i < |s.pc| == |t.pc| && t.cond == s.cond && forall k :: 0 <= k < |s.pc| && k != i ==> t.pc[k] == s.pc[k]
    ensures t.v == if c.Quiet? || c.Enable? then c.v else s.v
  {
  }

  lemma MoveKeeps(l: Ops, i: nat, r: Role, c: Condition.Event<Vars>, r': Role, m: Ops)
    requires RolesOk(l) && Moves(l, i, r, c, r', m) && CountsMove(l, r, c, r')
    requires forall k :: 0 <= k < |m.role| ==> |m.role| == |m.s.pc| && Stands(m, k)
    ensures RolesOk(m) && m.s.cond == l.s.cond
  {
    StepMoves(l.s, i, c, m.s);
    CountUpdate(l.role, Counts, i, r');
    CountUpdate(l.role, Commits, i, r');
  }

  lemma StandsKept(l: Ops, i: nat, e: Event, m: Ops, k: nat)
    requires Next(l, i, e, m) && i < |l.role| == |l.s.pc| == |l.s.asleep| && k < |l.role|
    requires Stands(l, i) && Stands(l, k) && ThreadOk(l.s, i) && ThreadOk(l.s, k) && (l.s.pending ==> l.s.lk.Some?)
    ensures |m.role| == |m.s.pc| == |l.role| && Stands(m, k)
  {
    StepUnder(l, i, e, m);
    Owes(l.s, i, Under(l, e), m.s, k);
    hide ThreadOk;
    if k == i {
      hide Enabled;
    } else {
      hide Condition.Next;
    }
  }

  lemma AllStand(l: Ops, i: nat, e: Event, m: Ops)
    requires Condition.Inv(l.s) && RolesOk(l) && Next(l, i, e, m)
    ensures |m.role| == |m.s.pc| && forall k :: 0 <= k < |m.role| ==> Stands(m, k)
  {
    StepUnder(l, i, e, m);
    hide Next, Condition.Next, ThreadOk, Stands, Count;
    assert ThreadOk(l.s, i) && Stands(l, i);
    forall k | 0 <= k < |l.role|
      ensures |m.role| == |m.s.pc| == |l.role| && Stands(m, k)
    {
      assert ThreadOk(l.s, k) && Stands(l, k);
      StandsKept(l, i, e, m, k);
    }
    StandsKept(l, i, e, m, i);
  }

  lemma NextKeeps(l: Ops, i: nat, e: Event, m: Ops)
    requires Inv(l) && Next(l, i, e, m)
    ensures Inv(m)
  {
    hide Next, Condition.Next, Condition.Inv, Count, RolesOk, Stands, CountsMove;
    AllStand(l, i, e, m);
    StepUnder(l, i, e, m);
    StepCounts(l, i, e, m);
    Condition.NextKeeps(l.s, i, Under(l, e), m.s);
    MoveKeeps(l, i, l.role[i], Under(l, e), m.role[i], m);
  }

  /** What the step does to the counts. */
  ghost predicate CountsMove(l: Ops, r: Role, c: Condition.Event<Vars>, r': Role) {
    var v := if c.Quiet? || c.Enable? then c.v else l.s.v;
    && v.outstanding == l.s.v.outstanding - (if Counts(r) then 1 else 0) + (if Counts(r') then 1 else 0)
    && (if v.committing then 1 else 0) ==
       (if l.s.v.committing then 1 else 0) - (if Commits(r) then 1 else 0) + (if Commits(r') then 1 else 0)
    && (v.committing ==> v.outstanding == 0)
  }

  lemma StepCounts(l: Ops, i: nat, e: Event, m: Ops)
    requires RolesOk(l) && Next(l, i, e, m)
    ensures i < |l.role| == |m.role| && CountsMove(l, l.role[i], Under(l, e), m.role[i])
  {
    hide Condition.Next, Count;
    if i < |l.role| && Counts(l.role[i]) {
      OneCounts(l.role, Counts, i);
    }
    if i < |l.role| && Commits(l.role[i]) {
      OneCounts(l.role, Commits, i);
    }
  }

  lemma StepUnder(l: Ops, i: nat, e: Event, m: Ops)
    requires Next(l, i, e, m)
    ensures i < |l.role| == |m.role| && Moves(l, i, l.role[i], Under(l, e), m.role[i], m)
  {
  }

  /** The step of sleep and wakeup under a step of the log. */
  function Under(l: Ops, e: Event): (c: Condition.Event<Vars>)
    requires e.EndMore? ==> l.s.v.outstanding > 0
  {
    var v := l.s.v;
    match e
    case BeginWait => Doze
    case BeginAdmit => Quiet(v.(outstanding := v.outstanding + 1))
    case LogAppend => Quiet(v.(n := v.n + 1))
    case EndLast => Quiet(v.(outstanding := 0, committing := true))
    case EndMore => Enable(v.(outstanding := v.outstanding - 1))
    case FinishClear => Enable(v.(n := 0, committing := false))
    case BeginLock => Acquire
    case LogLock => Acquire
    case EndLock => Acquire
    case FinishLock => Acquire
    case BeginUnlock => Release
    case LogUnlock => Release
    case EndUnlock => Release
    case WakeDone => WakeEnd
    case WakeUnlock => Release
    case Inner(c) => c
  }

  datatype Act = Act(thread: nat, event: Event)

  ghost predicate Execution(ls: seq<Ops>, es: seq<Act>) {
    && |ls| == |es| + 1 && Initial(ls[0])
    && forall k :: 0 <= k < |es| ==> Next(ls[k], es[k].thread, es[k].event, ls[k + 1])
  }

  lemma {:induction false} AlwaysInv(ls: seq<Ops>, es: seq<Act>, k: nat)
    requires Execution(ls, es) && k < |ls|
    ensures Inv(ls[k]) == true
  {
    if k == 0 {
      assert forall i :: 0 <= i < |ls[0].s.pc| ==> ThreadOk(ls[0].s, i);
      NoneCount(ls[0].role, Counts);
      NoneCount(ls[0].role, Commits);
    } else {
      AlwaysInv(ls, es, k - 1);
      NextKeeps(ls[k - 1], es[k - 1].thread, es[k - 1].event, ls[k]);
    }
  }

  /** In every run, when log.lock is free, a thread asleep on the log is in begin_op and would not be admitted. */
  lemma NoStrandedOperation(ls: seq<Ops>, es: seq<Act>, k: nat, i: nat)
    requires Execution(ls, es) && k < |ls| && i < |ls[k].role| && ls[k].s.lk == None
    ensures |ls[k].s.asleep| == |ls[k].role|
    ensures var v := ls[k].s.v;
      ls[k].s.asleep[i] ==> ls[k].role[i] == Beginning && (v.committing || v.n + (v.outstanding + 1) * 10 > 30)
  {
    AlwaysInv(ls, es, k);
    assert ThreadOk(ls[k].s, i) && Stands(ls[k], i);
  }

  /** In every run, end_op never finds a commit under way: its panic is unreachable. */
  lemma EndNeverPanics(ls: seq<Ops>, es: seq<Act>, k: nat, i: nat)
    requires Execution(ls, es) && k < |ls| && i < |ls[k].role| && ls[k].role[i] == Ending
    ensures !ls[k].s.v.committing && ls[k].s.v.outstanding > 0
  {
    AlwaysInv(ls, es, k);
    OneCounts(ls[k].role, Counts, i);
  }

  /**
   In every run, a thread can take its next step unless it is asleep or another thread has the lock it needs: no
   thread is stuck, and every end_op gets to its wakeup, at once or after its commit.
   */
  lemma OnlyLocksBlock(ls: seq<Ops>, es: seq<Act>, k: nat, i: nat)
    requires Execution(ls, es) && k < |ls| && i < |ls[k].role|
    ensures |ls[k].s.asleep| == |ls[k].s.pc| == |ls[k].role|
    ensures (exists e, m :: Next(ls[k], i, e, m)) || ls[k].s.asleep[i]
      || (ls[k].s.lk.Some? && ls[k].s.lk != Some(i)) || (ls[k].s.pt.Some? && ls[k].s.pt != Some(i))
  {
    AlwaysInv(ls, es, k);
    var l := ls[k];
    assert ThreadOk(l.s, i) && Stands(l, i);
    if !l.s.asleep[i] && (l.s.lk == None || l.s.lk == Some(i)) && (l.s.pt == None || l.s.pt == Some(i)) {
      if l.role[i] == Ending {
        EndNeverPanics(ls, es, k, i);
      }
      var e, m := Step(l, i);
    }
  }

  /** The next step of thread i, when both locks are free for it. */
  lemma Step(l: Ops, i: nat) returns (e: Event, m: Ops)
    requires Inv(l) && i < |l.role| && ThreadOk(l.s, i) && Stands(l, i) && !l.s.asleep[i]
    requires (l.s.lk == None || l.s.lk == Some(i)) && (l.s.pt == None || l.s.pt == Some(i))
    requires l.role[i] == Ending ==> l.s.v.outstanding > 0
    ensures Next(l, i, e, m) == true
  {
    var pc := l.s.pc[i];
    e := match l.role[i]
         case Idle => BeginLock
         case Admitted => BeginUnlock
         case Active => EndLock
         case Logging => LogUnlock
         case Ending => if l.s.v.outstanding == 1 then EndLast else EndMore
         case Committing => FinishLock
         case Finishing => FinishClear
         case Waked => WakeUnlock
         case Beginning =>
           if pc == Held then if Admits(l.s.v) then BeginAdmit else BeginWait else Inner(SleepEvent(pc))
         case _ =>
           if l.role[i] == Ended(true) then EndUnlock
           else if pc == Woke then WakeDone else Inner(if pc == Held then WakeBegin else WakeAll);
    var r := match e
             case BeginLock => Beginning
             case BeginAdmit => Admitted
             case BeginUnlock => Active
             case LogUnlock => Active
             case EndLock => Ending
             case EndLast => Ended(true)
             case EndMore => Ended(false)
             case EndUnlock => Committing
             case FinishLock => Finishing
             case FinishClear => Finished
             case WakeDone => Waked
             case WakeUnlock => Idle
             case _ => l.role[i];
    m := Ops(After(l.s, i, Under(l, e)), l.role[i := r]);
    assert l.role[i := l.role[i]] == l.role;
  }
}
