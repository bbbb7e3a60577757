/**
 sleep and wakeup (proc.c) as a protocol of two locks, and sleep locks (sleeplock.c) built on it.
 Acquiring and releasing a lock and each write between them are separate steps.
 */
module Condition {
  import opened Common

  /**
   Where a thread is. Held: it holds lk. Dozing, Slipping, Dropping, Switching: the stages of sleep until the
   scheduler lets go of ptable.lock. Down: switched out. Rising: switched in, with ptable.lock. Back: about to
   reacquire lk. Waking, Woke: in wakeup, before and after the scan of the table.
   */
  datatype Pc = Out | Held | Dozing | Slipping | Dropping | Switching | Down | Rising | Back | Waking | Woke

  /**
   Threads wait on one channel, thread i until cond(i, v). `pending` says that lk's holder has made someone's
   condition true and has not woken the sleepers since.
   */
  datatype State<!V> = State(
    cond: (nat, V) -> bool, v: V, pc: seq<Pc>, asleep: seq<bool>, lk: Option<nat>, pt: Option<nat>, pending: bool)

  predicate HasLk(p: Pc) {
    p == Held || p == Dozing || p == Slipping || p == Waking || p == Woke
  }

  predicate HasPt(p: Pc) {
    p == Slipping || p == Dropping || p == Switching || p == Rising || p == Waking || p == Woke
  }

  datatype Event<V> =
    | Acquire | Release | Quiet(v: V) | Enable(v: V)
    | Doze | TakePt | DropLk | FallAsleep | Leave | Resume | Rise | Retake
    | WakeBegin | WakeAll | WakeEnd | Kill

  function To<V>(s: State<V>, i: nat, p: Pc): (t: State<V>)
    requires i < |s.pc|
  {
    s.(pc := s.pc[i := p])
  }

  /** Thread i can take this step. */
  ghost predicate Enabled<V>(s: State<V>, i: nat, e: Event<V>) {
    && i < |s.pc| == |s.asleep|
    && match e
       case Acquire => s.pc[i] == Out && s.lk == None
       case Release => s.pc[i] == Held && !s.pending
       // a change that makes no condition true, and one that may
       case Quiet(v) => s.pc[i] == Held && forall j :: s.cond(j, v) ==> s.cond(j, s.v)
       case Enable(v) => s.pc[i] == Held
       // sleep
       case Doze => s.pc[i] == Held && !s.pending && !s.cond(i, s.v)
       case TakePt => s.pc[i] == Dozing && s.pt == None
       case DropLk => s.pc[i] == Slipping
       case FallAsleep => s.pc[i] == Dropping
       case Leave => s.pc[i] == Switching
       case Resume => s.pc[i] == Down && !s.asleep[i] && s.pt == None
       case Rise => s.pc[i] == Rising
       case Retake => s.pc[i] == Back && s.lk == None
       // wakeup
       case WakeBegin => s.pc[i] == Held && s.pt == None
       case WakeAll => s.pc[i] == Waking
       case WakeEnd => s.pc[i] == Woke
       // kill wakes thread i
       case Kill => s.pt == None
  }

  /** The state after it. */
  function After<V>(s: State<V>, i: nat, e: Event<V>): (t: State<V>)
    requires i < |s.pc| == |s.asleep|
  {
    match e
    case Acquire => To(s, i, Held).(lk := Some(i))
    case Release => To(s, i, Out).(lk := None)
    case Quiet(v) => s.(v := v)
    case Enable(v) => s.(v := v, pending := true)
    case Doze => To(s, i, Dozing)
    case TakePt => To(s, i, Slipping).(pt := Some(i))
    case DropLk => To(s, i, Dropping).(lk := None)
    case FallAsleep => To(s, i, Switching).(asleep := s.asleep[i := true])
    case Leave => To(s, i, Down).(pt := None)
    case Resume => To(s, i, Rising).(pt := Some(i))
    case Rise => To(s, i, Back).(pt := None)
    case Retake => To(s, i, Held).(lk := Some(i))
    case WakeBegin => To(s, i, Waking).(pt := Some(i))
    case WakeAll => To(s, i, Woke).(asleep := seq(|s.asleep|, _ => false), pending := false)
    case WakeEnd => To(s, i, Held).(pt := None)
    case Kill => s.(asleep := s.asleep[i := false])
  }

  ghost predicate Next<V>(s: State<V>, i: nat, e: Event<V>, t: State<V>) {
    Enabled(s, i, e) && t == After(s, i, e)
  }

  predicate InSleep(p: Pc) {
    p == Dozing || p == Slipping || p == Dropping || p == Switching || p == Down || p == Rising || p == Back
  }

  /** What a thread does next inside sleep. */
  function SleepEvent<V>(p: Pc): (e: Event<V>)
    requires InSleep(p)
  {
    match p
    case Dozing => TakePt
    case Slipping => DropLk
    case Dropping => FallAsleep
    case Switching => Leave
    case Down => Resume
    case Rising => Rise
    case Back => Retake
  }

  /** What holds of one thread. */
  ghost predicate ThreadOk<V>(s: State<V>, i: nat)
    requires i < |s.pc| == |s.asleep|
  {
    && (HasLk(s.pc[i]) <==> s.lk == Some(i)) && (HasPt(s.pc[i]) <==> s.pt == Some(i))
    && (s.asleep[i] ==> s.pc[i] == Switching || s.pc[i] == Down)
    && (s.pc[i] == Dozing || s.pc[i] == Slipping || s.pc[i] == Woke ==> !s.pending)
    && (s.pc[i] == Dozing || s.pc[i] == Slipping ==> !s.cond(i, s.v))
    && (s.pc[i] == Dropping || s.asleep[i] ==> s.cond(i, s.v) ==> s.pending)
  }

  ghost predicate Inv<V>(s: State<V>) {
    && |s.pc| == |s.asleep| && (s.pending ==> s.lk.Some?)
    && (s.lk.Some? ==> s.lk.value < |s.pc|) && (s.pt.Some? ==> s.pt.value < |s.pc|)
    && forall i :: 0 <= i < |s.pc| ==> ThreadOk(s, i)
  }

  lemma ThreadKept<V>(s: State<V>, i: nat, e: Event<V>, t: State<V>, k: nat)
    requires i < |s.pc| == |s.asleep| && k < |s.pc| && ThreadOk(s, i) && ThreadOk(s, k) && Next(s, i, e, t) == true
    ensures |t.pc| == |t.asleep| == |s.pc| && ThreadOk(t, k) == true
  {
    hide Next, ThreadOk;
    if k == i {
      MoverKept(s, i, e, t);
    } else {
      OtherKept(s, i, e, t, k);
    }
  }

  lemma MoverKept<V>(s: State<V>, i: nat, e: Event<V>, t: State<V>)
    requires i < |s.pc| == |s.asleep| && ThreadOk(s, i) && Next(s, i, e, t)
    ensures |t.pc| == |t.asleep| == |s.pc| && ThreadOk(t, i) == true
  {
  }

  lemma OtherKept<V>(s: State<V>, i: nat, e: Event<V>, t: State<V>, k: nat)
    requires i < |s.pc| == |s.asleep| && k < |s.pc| && k != i && ThreadOk(s, i) && ThreadOk(s, k) && Next(s, i, e, t)
    ensures |t.pc| == |t.asleep| == |s.pc| && ThreadOk(t, k) == true
  {
  }

  lemma NextKeeps<V>(s: State<V>, i: nat, e: Event<V>, t: State<V>)
    requires Inv(s) && Next(s, i, e, t)
    ensures Inv(t) == true
  {
    assert ThreadOk(s, i);
    forall k | 0 <= k < |s.pc|
      ensures |t.pc| == |t.asleep| == |s.pc| && ThreadOk(t, k) == true
    {
      ThreadKept(s, i, e, t, k);
    }
  }

  /** Only the thread that enables a condition owes a wakeup, and it owes it until its wakeup or its release. */
  lemma Owes<V>(s: State<V>, i: nat, e: Event<V>, t: State<V>, k: nat)
    requires Next(s, i, e, t) && k < |s.pc| && ThreadOk(s, i) && (s.pending ==> s.lk.Some?)
    ensures |t.pc| == |s.pc| && (k != i ==> t.pc[k] == s.pc[k])
    ensures t.pending && t.lk == Some(k) ==>
      (s.pending && s.lk == Some(k) && !(k == i && e.WakeAll?)) || (k == i && e.Enable?)
  {
  }

  ghost predicate Initial<V>(s: State<V>) {
    && |s.pc| == |s.asleep| && s.lk == None && s.pt == None && !s.pending
    && forall i :: 0 <= i < |s.pc| ==> s.pc[i] == Out && !s.asleep[i]
  }

  datatype Act<V> = Act(thread: nat, event: Event<V>)

  ghost predicate Execution<V>(ss: seq<State<V>>, es: seq<Act<V>>) {
    && |ss| == |es| + 1 && Initial(ss[0])
    && forall k :: 0 <= k < |es| ==> Next(ss[k], es[k].thread, es[k].event, ss[k + 1])
  }

  lemma {:induction false} AlwaysInv<V>(ss: seq<State<V>>, es: seq<Act<V>>, k: nat)
    requires Execution(ss, es) && k < |ss|
    ensures Inv(ss[k])
  {
    if k == 0 {
      assert forall i :: 0 <= i < |ss[0].pc| ==> ThreadOk(ss[0], i);
    } else {
      AlwaysInv(ss, es, k - 1);
      NextKeeps(ss[k - 1], es[k - 1].thread, es[k - 1].event, ss[k]);
    }
  }

  /** In every run, whenever lk is free, nobody sleeps with its condition true. */
  lemma NoLostWakeup<V>(ss: seq<State<V>>, es: seq<Act<V>>, k: nat, i: nat)
    requires Execution(ss, es) && k < |ss| && i < |ss[k].pc| && ss[k].lk == None
    ensures |ss[k].asleep| == |ss[k].pc| && (ss[k].asleep[i] ==> !ss[k].cond(i, ss[k].v))
  {
    AlwaysInv(ss, es, k);
    assert ThreadOk(ss[k], i);
  }
}

/** acquiresleep and releasesleep: v is `locked`, and every waiter waits for it to be 0. */
module SleepLock {
  import opened Common
  import opened Condition

  /**
   What a thread does with the sleep lock: Taking has set it, Cleared has reset it, Woken has woken the sleepers since,
   and none of these has released lk yet.
   */
  datatype Role = Idle | Acquiring | Taking | Owner | Releasing | Cleared | Woken

  /** `owner` is the thread whose pid is in the lock, if it is locked. */
  datatype Lock = Lock(s: State<nat>, role: seq<Role>, owner: Option<nat>)

  predicate Owns(r: Role) {
    r == Taking || r == Owner || r == Releasing
  }

  datatype Event =
    | AcquireBegin | AcquireWait | AcquireTake | AcquireEnd
    | ReleaseBegin | ReleaseClear | ReleaseWoken | ReleaseEnd
    | Inner(e: Condition.Event<nat>)

  predicate Plays(l: Lock, i: nat, r: Role) {
    i < |l.role| && l.role[i] == r
  }

  /** The steps inside sleep and wakeup, and kill. */
  predicate IsInner(r: Role, e: Condition.Event<nat>) {
    || e.TakePt? || e.DropLk? || e.FallAsleep? || e.Leave? || e.Resume? || e.Rise? || e.Retake? || e.Kill?
    || (r == Cleared && (e.WakeBegin? || e.WakeAll?))
  }

  ghost predicate Next(l: Lock, i: nat, e: Event, m: Lock) {
    && i < |l.role|
    && match e
       case AcquireBegin =>
         Plays(l, i, Idle) && Condition.Next(l.s, i, Acquire, m.s) && m == Lock(m.s, l.role[i := Acquiring], l.owner)
       case AcquireWait =>
         Plays(l, i, Acquiring) && l.s.v != 0 && Condition.Next(l.s, i, Doze, m.s) && m == Lock(m.s, l.role, l.owner)
       case AcquireTake =>
         && Plays(l, i, Acquiring) && l.s.v == 0 && Condition.Next(l.s, i, Quiet(1), m.s)
         && m == Lock(m.s, l.role[i := Taking], Some(i))
       case AcquireEnd =>
         Plays(l, i, Taking) && Condition.Next(l.s, i, Release, m.s) && m == Lock(m.s, l.role[i := Owner], l.owner)
       case ReleaseBegin =>
         Plays(l, i, Owner) && Condition.Next(l.s, i, Acquire, m.s) && m == Lock(m.s, l.role[i := Releasing], l.owner)
       case ReleaseClear =>
         Plays(l, i, Releasing) && Condition.Next(l.s, i, Enable(0), m.s) && m == Lock(m.s, l.role[i := Cleared], None)
       case ReleaseWoken =>
         Plays(l, i, Cleared) && Condition.Next(l.s, i, WakeEnd, m.s) && m == Lock(m.s, l.role[i := Woken], l.owner)
       case ReleaseEnd =>
         Plays(l, i, Woken) && Condition.Next(l.s, i, Release, m.s) && m == Lock(m.s, l.role[i := Idle], l.owner)
       case Inner(c) => IsInner(l.role[i], c) && Condition.Next(l.s, i, c, m.s) && m == Lock(m.s, l.role, l.owner)
  }

  /** The lock is set exactly while one thread owns it. */
  ghost predicate RolesOk(l: Lock) {
    && |l.role| == |l.s.pc| && (l.s.v != 0 <==> l.owner.Some?)
    && forall i :: 0 <= i < |l.role| ==> (Owns(l.role[i]) <==> l.owner == Some(i)) && Stands(l, i)
  }

  /** Where thread i is in sleep and wakeup, by its role; only a thread that still has to wake the sleepers owes it. */
  predicate Stands(l: Lock, i: nat)
    requires i < |l.role| == |l.s.pc|
  {
    && (match l.role[i]
        case Idle => l.s.pc[i] == Out
        case Owner => l.s.pc[i] == Out
        case Acquiring => l.s.pc[i] == Held || InSleep(l.s.pc[i])
        case Cleared => l.s.pc[i] == Held || l.s.pc[i] == Waking || l.s.pc[i] == Woke
        case _ => l.s.pc[i] == Held)
    && (l.s.pending && l.s.lk == Some(i) ==> l.role[i] == Cleared)
  }

  ghost predicate Initial(l: Lock) {
    && Condition.Initial(l.s) && |l.role| == |l.s.pc| && l.owner == None && l.s.v == 0
    && (forall i, v :: l.s.cond(i, v) <==> v == 0)
    && forall i :: 0 <= i < |l.role| ==> l.role[i] == Idle
  }

  ghost predicate Inv(l: Lock) {
    Condition.Inv(l.s) && RolesOk(l) && forall i, v :: l.s.cond(i, v) <==> v == 0
  }

  /** The step of sleep and wakeup under a step of the lock. */
  function Under(e: Event): (c: Condition.Event<nat>) {
    match e
    case AcquireBegin => Acquire
    case AcquireWait => Doze
    case AcquireTake => Quiet(1)
    case AcquireEnd => Release
    case ReleaseBegin => Acquire
    case ReleaseClear => Enable(0)
    case ReleaseWoken => WakeEnd
    case ReleaseEnd => Release
    case Inner(c) => c
  }

  lemma Refines(l: Lock, i: nat, e: Event, m: Lock)
    requires Next(l, i, e, m)
    ensures Condition.Next(l.s, i, Under(e), m.s) == true
  {
  }

  /** A step moves only the thread that takes it, and changes v only as the lock does. */
  lemma Moves(s: State<nat>, i: nat, c: Condition.Event<nat>, t: State<nat>)
    requires Condition.Next(s, i, c, t)
    ensures i < |s.pc| == |t.pc| && t.cond == s.cond && forall k :: 0 <= k < |s.pc| && k != i ==> t.pc[k] == s.pc[k]
    ensures t.v == if c.Quiet? || c.Enable? then c.v else s.v
  {
  }

  lemma RolesKept(l: Lock, i: nat, e: Event, m: Lock)
    requires Condition.Inv(l.s) && RolesOk(l) && Next(l, i, e, m) == true
    ensures RolesOk(m) && m.s.cond == l.s.cond
  {
    Refines(l, i, e, m);
    Moves(l.s, i, Under(e), m.s);
    OwnerKept(l, i, e, m);
    assert ThreadOk(l.s, i) && Stands(l, i);
    forall k | 0 <= k < |m.role|
      ensures Stands(m, k) && (Owns(m.role[k]) <==> m.owner == Some(k))
    {
      assert ThreadOk(l.s, k) && Stands(l, k);
      StandsKept(l, i, e, m, k);
    }
  }

  lemma OwnerKept(l: Lock, i: nat, e: Event, m: Lock)
    requires Next(l, i, e, m) && i < |l.role| == |l.s.pc| && (l.s.v != 0 <==> l.owner.Some?)
    requires forall k :: 0 <= k < |l.role| ==> (Owns(l.role[k]) <==> l.owner == Some(k))
    ensures |m.role| == |l.role| && (m.s.v != 0 <==> m.owner.Some?)
    ensures forall k :: 0 <= k < |m.role| ==> (Owns(m.role[k]) <==> m.owner == Some(k))
  {
    Refines(l, i, e, m);
    Moves(l.s, i, Under(e), m.s);
    hide Condition.Next;
  }

  lemma StandsKept(l: Lock, i: nat, e: Event, m: Lock, k: nat)
    requires Next(l, i, e, m) && i < |l.role| == |l.s.pc| == |l.s.asleep| && k < |l.role|
    requires Stands(l, i) && Stands(l, k) && ThreadOk(l.s, i) && ThreadOk(l.s, k) && (l.s.pending ==> l.s.lk.Some?)
    ensures |m.role| == |m.s.pc| == |l.role| && Stands(m, k)
  {
    Refines(l, i, e, m);
    Owes(l.s, i, Under(e), m.s, k);
    hide ThreadOk;
    if k == i {
      hide Enabled;
    } else {
      hide Condition.Next;
    }
  }

  lemma NextKeeps(l: Lock, i: nat, e: Event, m: Lock)
    requires Inv(l) && Next(l, i, e, m) == true
    ensures Inv(m)
  {
    Refines(l, i, e, m);
    Condition.NextKeeps(l.s, i, Under(e), m.s);
    RolesKept(l, i, e, m);
  }

  datatype Act = Act(thread: nat, event: Event)

  ghost predicate Execution(ls: seq<Lock>, es: seq<Act>) {
    && |ls| == |es| + 1 && Initial(ls[0])
    && forall k :: 0 <= k < |es| ==> Next(ls[k], es[k].thread, es[k].event, ls[k + 1])
  }

  lemma {:induction false} AlwaysInv(ls: seq<Lock>, es: seq<Act>, k: nat)
    requires Execution(ls, es) && k < |ls|
    ensures Inv(ls[k])
  {
    if k == 0 {
      assert forall i :: 0 <= i < |ls[0].s.pc| ==> ThreadOk(ls[0].s, i);
    } else {
      AlwaysInv(ls, es, k - 1);
      NextKeeps(ls[k - 1], es[k - 1].thread, es[k - 1].event, ls[k]);
    }
  }

  /** In every run, at most one thread is between acquiresleep and releasesleep. */
  lemma MutualExclusion(ls: seq<Lock>, es: seq<Act>, k: nat, i: nat, j: nat)
    requires Execution(ls, es) && k < |ls| && i < |ls[k].role| && j < |ls[k].role|
    requires Owns(ls[k].role[i]) && Owns(ls[k].role[j])
    ensures i == j
  {
    AlwaysInv(ls, es, k);
  }

  /** In every run, when lk is free and a thread sleeps in acquiresleep, another one owns the lock. */
  lemma NoStrandedWaiter(ls: seq<Lock>, es: seq<Act>, k: nat, i: nat)
    requires Execution(ls, es) && k < |ls| && i < |ls[k].role| && ls[k].s.lk == None
    ensures |ls[k].s.asleep| == |ls[k].role| && (ls[k].s.asleep[i] ==> ls[k].owner.Some? && ls[k].owner != Some(i))
  {
    AlwaysInv(ls, es, k);
    assert ThreadOk(ls[k].s, i);
  }

  /**
   In every run, a thread can take its next step unless it is asleep or another thread has the lock it needs: no
   thread is stuck, and every releasesleep gets to wake the sleepers before it lets go of lk.
   */
  lemma OnlyLocksBlock(ls: seq<Lock>, es: seq<Act>, k: nat, i: nat)
    requires Execution(ls, es) && k < |ls| && i < |ls[k].role|
    ensures |ls[k].s.asleep| == |ls[k].s.pc| == |ls[k].role|
    ensures (exists e, m :: Next(ls[k], i, e, m)) || ls[k].s.asleep[i]
      || (ls[k].s.lk.Some? && ls[k].s.lk != Some(i)) || (ls[k].s.pt.Some? && ls[k].s.pt != Some(i))
  {
    AlwaysInv(ls, es, k);
    var l := ls[k];
    assert ThreadOk(l.s, i) && Stands(l, i);
    if !l.s.asleep[i] && (l.s.lk == None || l.s.lk == Some(i)) && (l.s.pt == None || l.s.pt == Some(i)) {
      var e, m := Step(l, i);
    }
  }

  /** The next step of thread i, when both locks are free for it. */
  lemma Step(l: Lock, i: nat) returns (e: Event, m: Lock)
    requires Inv(l) && i < |l.role| && ThreadOk(l.s, i) && Stands(l, i) && !l.s.asleep[i]
    requires (l.s.lk == None || l.s.lk == Some(i)) && (l.s.pt == None || l.s.pt == Some(i))
    ensures Next(l, i, e, m) == true
  {
    e := match l.role[i]
         case Idle => AcquireBegin
         case Owner => ReleaseBegin
         case Taking => AcquireEnd
         case Releasing => ReleaseClear
         case Woken => ReleaseEnd
         case Cleared =>
           if l.s.pc[i] == Woke then ReleaseWoken else Inner(if l.s.pc[i] == Held then WakeBegin else WakeAll)
         case Acquiring =>
           if l.s.pc[i] == Held then if l.s.v == 0 then AcquireTake else AcquireWait else Inner(SleepEvent(l.s.pc[i]));
    var t := After(l.s, i, Under(e));
    var r := match e
             case AcquireBegin => Acquiring
             case AcquireTake => Taking
             case AcquireEnd => Owner
             case ReleaseBegin => Releasing
             case ReleaseClear => Cleared
             case ReleaseWoken => Woken
             case ReleaseEnd => Idle
             case _ => l.role[i];
    m := Lock(t, l.role[i := r], if e.AcquireTake? then Some(i) else if e.ReleaseClear? then None else l.owner);
    assert l.role[i := l.role[i]] == l.role;
  }
}
