/** Pipes (pipe.c): a ring of 512 bytes under counters that wrap at 2^32, and its readers and writers. */
module Pipe {
  import opened Blocks
  import opened Common

  const SIZE := 512

  // The ring

  /** The ring, with the history of what went in and came out. */
  datatype Ring = Ring(data: seq<Byte>, nread: nat, nwrite: nat, written: seq<Byte>, delivered: seq<Byte>)

  ghost predicate Valid(r: Ring) {
    && |r.data| == SIZE && |r.delivered| <= |r.written| <= |r.delivered| + SIZE
    && r.nread == |r.delivered| % WRAP && r.nwrite == |r.written| % WRAP
    && r.delivered == r.written[..|r.delivered|]
    && forall k :: |r.delivered| <= k < |r.written| ==> r.data[k % SIZE] == r.written[k]
  }

  /** The code's tests. */
  predicate Full(r: Ring) {
    r.nwrite == (r.nread + SIZE) % WRAP
  }

  predicate Empty(r: Ring) {
    r.nread == r.nwrite
  }

  /** data[nwrite++ % 512] = b */
  function Put(r: Ring, b: Byte): (t: Ring)
    requires |r.data| == SIZE
  {
    Ring(r.data[r.nwrite % SIZE := b], r.nread, (r.nwrite + 1) % WRAP, r.written + [b], r.delivered)
  }

  /** data[nread++ % 512] */
  function Front(r: Ring): (b: Byte)
    requires |r.data| == SIZE
  {
    r.data[r.nread % SIZE]
  }

  function Get(r: Ring): (t: Ring)
    requires |r.data| == SIZE
  {
    r.(nread := (r.nread + 1) % WRAP, delivered := r.delivered + [Front(r)])
  }

  /** The tests are right across the wrap of the counters. */
  lemma Tests(r: Ring)
    requires Valid(r)
    ensures Full(r) <==> |r.written| == |r.delivered| + 512
    ensures Empty(r) <==> |r.written| == |r.delivered|
  {
  }

  lemma OtherSlot(k: nat, n: nat)
    requires k < n < k + SIZE
    ensures k % SIZE != n % SIZE
  {
  }

  lemma PutValid(r: Ring, b: Byte)
    requires Valid(r) && !Full(r)
    ensures Valid(Put(r, b))
  {
    Tests(r);
    SlotOfCounter(|r.written|);
    CounterStep(|r.written|);
    forall k | |r.delivered| <= k < |r.written| + 1
      ensures Put(r, b).data[k % SIZE] == (r.written + [b])[k]
    {
      if k < |r.written| {
        OtherSlot(k, |r.written|);
      }
    }
  }

  lemma GetValid(r: Ring)
    requires Valid(r) && !Empty(r)
    ensures Valid(Get(r)) && Front(r) == r.written[|r.delivered|]
  {
    Tests(r);
    SlotOfCounter(|r.delivered|);
    CounterStep(|r.delivered|);
  }

  // Readers and writers

  /** What a thread is doing; a reader first waits until there is something to read or no writer left. */
  datatype Job = Idle | Writing(src: seq<Byte>, done: nat) | Waiting(want: nat) | Reading(want: nat, got: seq<Byte>)

  datatype Thread = Thread(job: Job, asleep: bool, killed: bool)

  datatype State = State(ring: Ring, readopen: bool, writeopen: bool, threads: seq<Thread>, lock: Option<nat>)

  /** wakeup(&nread) and wakeup(&nwrite). */
  function WakeReaders(ts: seq<Thread>): (r: seq<Thread>)
    ensures |r| == |ts|
  {
    seq(|ts|, k requires 0 <= k < |ts| => if ts[k].job.Waiting? then ts[k].(asleep := false) else ts[k])
  }

  function WakeWriters(ts: seq<Thread>): (r: seq<Thread>)
    ensures |r| == |ts|
  {
    seq(|ts|, k requires 0 <= k < |ts| => if ts[k].job.Writing? then ts[k].(asleep := false) else ts[k])
  }

  datatype Event =
    | StartWrite(src: seq<Byte>) | StartRead(want: nat) | Relock
    | PutByte | SleepFull | Quit | WriteDone
    | SleepEmpty | GiveUp | Go | GetByte | ReadDone
    | CloseWrite | CloseRead | Kill

  predicate Holds(s: State, i: nat) {
    i < |s.threads| && s.lock == Some(i)
  }

  predicate Free(s: State, i: nat) {
    i < |s.threads| && s.lock == None
  }

  function Do(s: State, i: nat, j: Job): (t: State)
    requires i < |s.threads|
  {
    s.(threads := s.threads[i := s.threads[i].(job := j)])
  }

  function Sleep(s: State, i: nat): (t: State)
    requires i < |s.threads|
  {
    s.(threads := s.threads[i := s.threads[i].(asleep := true)], lock := None)
  }

  /**
   Thread i takes a step. A thread between acquire and release holds the lock; sleep gives it up. The ends
   are closed only when no thread uses them.
   */
  ghost predicate Next(s: State, i: nat, e: Event, t: State) {
    && i < |s.threads| && |s.ring.data| == SIZE
    && var me := s.threads[i];
       match e
       case StartWrite(src) =>
         Free(s, i) && me.job.Idle? && s.writeopen && t == Do(s, i, Writing(src, 0)).(lock := Some(i))
       case StartRead(n) => Free(s, i) && me.job.Idle? && s.readopen && t == Do(s, i, Waiting(n)).(lock := Some(i))
       case Relock => Free(s, i) && !me.job.Idle? && !me.asleep && t == s.(lock := Some(i))
       case PutByte =>
         && Holds(s, i) && me.job.Writing? && me.job.done < |me.job.src| && !Full(s.ring)
         && t == Do(s, i, me.job.(done := me.job.done + 1)).(ring := Put(s.ring, me.job.src[me.job.done]))
       case SleepFull =>
         && Holds(s, i) && me.job.Writing? && me.job.done < |me.job.src| && Full(s.ring) && s.readopen && !me.killed
         && t == Sleep(s.(threads := WakeReaders(s.threads)), i)
       case Quit =>
         && Holds(s, i) && me.job.Writing? && me.job.done < |me.job.src| && Full(s.ring) && (!s.readopen || me.killed)
         && t == Do(s, i, Idle).(lock := None)
       case WriteDone =>
         && Holds(s, i) && me.job.Writing? && me.job.done == |me.job.src|
         && t == Do(s.(threads := WakeReaders(s.threads)), i, Idle).(lock := None)
       case SleepEmpty =>
         Holds(s, i) && me.job.Waiting? && Empty(s.ring) && s.writeopen && !me.killed && t == Sleep(s, i)
       case GiveUp =>
         && Holds(s, i) && me.job.Waiting? && Empty(s.ring) && s.writeopen && me.killed
         && t == Do(s, i, Idle).(lock := None)
       case Go =>
         Holds(s, i) && me.job.Waiting? && !(Empty(s.ring) && s.writeopen) && t == Do(s, i, Reading(me.job.want, []))
       case GetByte =>
         && Holds(s, i) && me.job.Reading? && |me.job.got| < me.job.want && !Empty(s.ring)
         && t == Do(s, i, me.job.(got := me.job.got + [Front(s.ring)])).(ring := Get(s.ring))
       case ReadDone =>
         && Holds(s, i) && me.job.Reading? && (|me.job.got| == me.job.want || Empty(s.ring))
         && t == Do(s.(threads := WakeWriters(s.threads)), i, Idle).(lock := None)
       case CloseWrite =>
         && Free(s, i) && s.writeopen && (forall k :: 0 <= k < |s.threads| ==> !s.threads[k].job.Writing?)
         && t == s.(writeopen := false, threads := WakeReaders(s.threads))
       case CloseRead =>
         && Free(s, i) && s.readopen && (forall k :: 0 <= k < |s.threads| ==> !IsReader(s.threads[k]))
         && t == s.(readopen := false, threads := WakeWriters(s.threads))
       case Kill => t == s.(threads := s.threads[i := me.(killed := true, asleep := false)])
  }

  predicate IsReader(t: Thread) {
    t.job.Waiting? || t.job.Reading?
  }

  /** The lock is held only inside a call, and only Writing and Waiting threads sleep. */
  ghost predicate LockOk(s: State) {
    && (s.lock.Some? ==>
          && s.lock.value < |s.threads|
          && !s.threads[s.lock.value].job.Idle? && !s.threads[s.lock.value].asleep)
    && forall k :: 0 <= k < |s.threads| ==>
         && (s.threads[k].asleep ==> !s.threads[k].killed && (s.threads[k].job.Writing? || s.threads[k].job.Waiting?))
         && (s.threads[k].job.Writing? ==> s.writeopen) && (IsReader(s.threads[k]) ==> s.readopen)
         && (s.threads[k].job.Reading? ==> s.lock == Some(k) && |s.threads[k].job.got| <= s.threads[k].job.want)
         && (s.threads[k].job.Writing? ==> s.threads[k].job.done <= |s.threads[k].job.src|)
  }

  ghost predicate Holder(s: State, reader: bool) {
    && s.lock.Some? && s.lock.value < |s.threads|
    && if reader then s.threads[s.lock.value].job.Reading? else s.threads[s.lock.value].job.Writing?
  }

  /** A sleeping writer faces a full pipe, unless a reader with the lock is about to wake it. */
  ghost predicate WritersOk(s: State) {
    forall k :: 0 <= k < |s.threads| && s.threads[k].asleep && s.threads[k].job.Writing? ==>
      s.readopen && (Full(s.ring) || Holder(s, true))
  }

  /** A sleeping reader faces an empty pipe, unless a writer with the lock is about to wake it. */
  ghost predicate ReadersOk(s: State) {
    forall k :: 0 <= k < |s.threads| && s.threads[k].asleep && s.threads[k].job.Waiting? ==>
      s.writeopen && (Empty(s.ring) || Holder(s, false))
  }

  ghost predicate Inv(s: State) {
    Valid(s.ring) && LockOk(s) && WritersOk(s)
  }

  lemma NextKeeps(s: State, i: nat, e: Event, t: State)
    requires Inv(s) && Next(s, i, e, t)
    ensures Inv(t)
  {
    RingKept(s, i, e, t);
    hide Valid, Put, Get;
    LockKept(s, i, e, t);
  }

  lemma RingKept(s: State, i: nat, e: Event, t: State)
    requires Valid(s.ring) && Next(s, i, e, t)
    ensures Valid(t.ring)
  {
    match e
    case PutByte => PutValid(s.ring, s.threads[i].job.src[s.threads[i].job.done]);
    case GetByte => GetValid(s.ring);
    case _ =>
  }

  lemma LockKept(s: State, i: nat, e: Event, t: State)
    requires LockOk(s) && Next(s, i, e, t)
    ensures LockOk(t)
  {
    hide Full, Empty, Put, Get, Front;
  }

  /** What a step does to sleeping readers: only a writer that quits because it was killed can strand them. */
  lemma ReadersKeep(s: State, i: nat, e: Event, t: State)
    requires Inv(s) && ReadersOk(s) && Next(s, i, e, t)
    requires e.Quit? ==>
      !s.threads[i].killed || forall k :: 0 <= k < |s.threads| ==> !(s.threads[k].asleep && s.threads[k].job.Waiting?)
    ensures ReadersOk(t)
  {
    Tests(s.ring);
  }

  // Runs

  datatype Act = Act(thread: nat, event: Event)

  ghost predicate Initial(s: State) {
    && s.ring == Ring(s.ring.data, 0, 0, [], []) && |s.ring.data| == SIZE && s.readopen && s.writeopen && s.lock == None
    && forall k :: 0 <= k < |s.threads| ==> s.threads[k] == Thread(Idle, false, false)
  }

  ghost predicate Execution(ss: seq<State>, es: seq<Act>) {
    && |ss| == |es| + 1 && Initial(ss[0])
    && forall k :: 0 <= k < |es| ==> Next(ss[k], es[k].thread, es[k].event, ss[k + 1])
  }

  lemma {:induction false} AlwaysInv(ss: seq<State>, es: seq<Act>, k: nat)
    requires Execution(ss, es) && k < |ss|
    ensures Inv(ss[k])
  {
    if k > 0 {
      AlwaysInv(ss, es, k - 1);
      NextKeeps(ss[k - 1], es[k - 1].thread, es[k - 1].event, ss[k]);
    }
  }

  /** The byte k places behind the next one to be read. */
  function ByteAt(r: Ring, k: nat): (b: Byte)
    requires |r.data| == SIZE
  {
    r.data[(r.nread + k) % WRAP % SIZE]
  }

  /** The bytes in the ring, read from the ring. */
  function Contents(r: Ring): (c: seq<Byte>)
    requires |r.data| == SIZE
  {
    seq((r.nwrite - r.nread + WRAP) % WRAP, k requires 0 <= k => ByteAt(r, k))
  }

  lemma ContentsRight(r: Ring)
    requires Valid(r)
    ensures |Contents(r)| <= SIZE && r.delivered + Contents(r) == r.written
  {
    hide ByteAt;
    var n := |r.written| - |r.delivered|;
    StoredCount(|r.delivered|, |r.written|);
    assert |Contents(r)| == n;
    forall k | 0 <= k < n
      ensures Contents(r)[k] == r.written[|r.delivered| + k]
    {
      StoredByte(r, k);
    }
  }

  lemma StoredByte(r: Ring, k: nat)
    requires Valid(r) && |r.delivered| + k < |r.written|
    ensures ByteAt(r, k) == r.written[|r.delivered| + k]
  {
    StoredAt(|r.delivered|, k);
  }

  lemma StoredCount(m: nat, n: nat)
    requires m <= n <= m + SIZE
    ensures (n % WRAP - m % WRAP + WRAP) % WRAP == n - m
  {
  }

  lemma StoredAt(m: nat, k: nat)
    ensures (m % WRAP + k) % WRAP % SIZE == (m + k) % SIZE
  {
    SumCounter(m, k);
    SlotOfCounter(m + k);
  }

  lemma SumCounter(n: nat, k: nat)
    ensures (n % WRAP + k) % WRAP == (n + k) % WRAP
  {
  }

  /** The bytes that writers have put in: at each such step, the next byte of the writer's source. */
  ghost function Sent(ss: seq<State>, es: seq<Act>, k: nat): (bs: seq<Byte>)
    requires |ss| == |es| + 1 && k <= |es|
  {
    if k == 0 then []
    else
      var s, a, before := ss[k - 1], es[k - 1], Sent(ss, es, k - 1);
      if a.event.PutByte? && a.thread < |s.threads| then
        match s.threads[a.thread].job
        case Writing(src, done) => if done < |src| then before + [src[done]] else before
        case _ => before
      else before
  }

  /** The bytes that readers have got: at each such step, the one added to the reader's. */
  ghost function Received(ss: seq<State>, es: seq<Act>, k: nat): (bs: seq<Byte>)
    requires |ss| == |es| + 1 && k <= |es|
  {
    if k == 0 then []
    else
      var t, a, before := ss[k], es[k - 1], Received(ss, es, k - 1);
      if a.event.GetByte? && a.thread < |t.threads| then
        match t.threads[a.thread].job
        case Reading(_, got) => if |got| > 0 then before + [got[|got| - 1]] else before
        case _ => before
      else before
  }

  lemma {:induction false} HistoryIsEvents(ss: seq<State>, es: seq<Act>, k: nat)
    requires Execution(ss, es) && k < |ss|
    ensures ss[k].ring.written == Sent(ss, es, k) && ss[k].ring.delivered == Received(ss, es, k)
  {
    hide Next;
    if k > 0 {
      HistoryIsEvents(ss, es, k - 1);
      HistoryStep(ss[k - 1], es[k - 1].thread, es[k - 1].event, ss[k]);
    }
  }

  lemma HistoryStep(s: State, i: nat, e: Event, t: State)
    requires Next(s, i, e, t)
    ensures i < |s.threads| == |t.threads|
    ensures e.PutByte? ==> s.threads[i].job.Writing? && s.threads[i].job.done < |s.threads[i].job.src|
    ensures t.ring.written ==
      if e.PutByte? then s.ring.written + [s.threads[i].job.src[s.threads[i].job.done]] else s.ring.written
    ensures e.GetByte? ==> t.threads[i].job.Reading? && |t.threads[i].job.got| > 0
    ensures t.ring.delivered ==
      if e.GetByte? then s.ring.delivered + [t.threads[i].job.got[|t.threads[i].job.got| - 1]] else s.ring.delivered
  {
    hide Full, Empty, WakeReaders, WakeWriters;
  }

  /** In every run, what readers got followed by what is in the ring is what writers put in, in order. */
  lemma Fifo(ss: seq<State>, es: seq<Act>, k: nat)
    requires Execution(ss, es) && k < |ss|
    ensures |ss[k].ring.data| == SIZE && |Contents(ss[k].ring)| <= 512
    ensures Received(ss, es, k) + Contents(ss[k].ring) == Sent(ss, es, k)
  {
    AlwaysInv(ss, es, k);
    ContentsRight(ss[k].ring);
    HistoryIsEvents(ss, es, k);
  }

  /** In every run, a call works through its bytes one by one: a writer's count and a reader's bytes grow by one. */
  lemma OneByteAtATime(ss: seq<State>, es: seq<Act>, k: nat, i: nat)
    requires Execution(ss, es) && k < |es| && i < |ss[k].threads| == |ss[k + 1].threads|
    ensures ss[k].threads[i].job.Writing? && ss[k + 1].threads[i].job.Writing? ==>
      var was, now := ss[k].threads[i].job, ss[k + 1].threads[i].job;
      now.src == was.src && now.done == was.done + if es[k] == Act(i, PutByte) then 1 else 0
    ensures ss[k].threads[i].job.Idle? && ss[k + 1].threads[i].job.Writing? ==> ss[k + 1].threads[i].job.done == 0
    ensures ss[k].threads[i].job.Writing? && ss[k + 1].threads[i].job.Idle? ==>
      es[k] == Act(i, WriteDone) ==> ss[k].threads[i].job.done == |ss[k].threads[i].job.src|
    ensures ss[k].threads[i].job.Reading? && ss[k + 1].threads[i].job.Reading? ==>
      var was, now := ss[k].threads[i].job, ss[k + 1].threads[i].job;
      now.want == was.want && (if es[k] == Act(i, GetByte) then was.got < now.got && |now.got| == |was.got| + 1
                               else now.got == was.got)
  {
    hide Next;
    WriterStep(ss[k], es[k].thread, es[k].event, ss[k + 1], i);
    ReaderStep(ss[k], es[k].thread, es[k].event, ss[k + 1], i);
  }

  lemma WriterStep(s: State, j: nat, e: Event, t: State, i: nat)
    requires Next(s, j, e, t) && i < |s.threads| == |t.threads|
    ensures s.threads[i].job.Writing? && t.threads[i].job.Writing? ==>
      && t.threads[i].job.src == s.threads[i].job.src
      && t.threads[i].job.done == s.threads[i].job.done + if j == i && e.PutByte? then 1 else 0
    ensures s.threads[i].job.Idle? && t.threads[i].job.Writing? ==> t.threads[i].job.done == 0
    ensures s.threads[i].job.Writing? && t.threads[i].job.Idle? && e.WriteDone? ==>
      s.threads[i].job.done == |s.threads[i].job.src|
  {
    hide Full, Empty, Put, Get, Front;
  }

  lemma ReaderStep(s: State, j: nat, e: Event, t: State, i: nat)
    requires Next(s, j, e, t) && i < |s.threads| == |t.threads|
    ensures s.threads[i].job.Reading? && t.threads[i].job.Reading? ==>
      && t.threads[i].job.want == s.threads[i].job.want
      && if j == i && e.GetByte? then s.threads[i].job.got < t.threads[i].job.got
                                      && |t.threads[i].job.got| == |s.threads[i].job.got| + 1
         else t.threads[i].job.got == s.threads[i].job.got
  {
    hide Full, Empty, Put, Get, Front;
  }

  /** In every run, whoever has the lock can take a step, and so can anyone in a call who is awake when it is free. */
  lemma NeverStuck(ss: seq<State>, es: seq<Act>, k: nat, i: nat)
    requires Execution(ss, es) && k < |ss| && i < |ss[k].threads| && !ss[k].threads[i].job.Idle?
    requires ss[k].lock == Some(i) || (ss[k].lock == None && !ss[k].threads[i].asleep)
    ensures exists e, t :: Next(ss[k], i, e, t)
  {
    AlwaysInv(ss, es, k);
    var e, t := Step(ss[k], i);
  }

  /** The step of a thread in a call that has the lock, or can take it. */
  lemma Step(s: State, i: nat) returns (e: Event, t: State)
    requires |s.ring.data| == SIZE && i < |s.threads| && !s.threads[i].job.Idle?
    requires s.threads[i].job.Writing? ==> s.threads[i].job.done <= |s.threads[i].job.src|
    requires s.threads[i].job.Reading? ==> |s.threads[i].job.got| <= s.threads[i].job.want
    requires s.lock == Some(i) || (s.lock == None && !s.threads[i].asleep)
    ensures Next(s, i, e, t)
  {
    var me := s.threads[i];
    if s.lock == None {
      return Relock, s.(lock := Some(i));
    }
    match me.job {
      case Writing(src, done) =>
        if done == |src| {
          return WriteDone, Do(s.(threads := WakeReaders(s.threads)), i, Idle).(lock := None);
        } else if !Full(s.ring) {
          return PutByte, Do(s, i, me.job.(done := done + 1)).(ring := Put(s.ring, src[done]));
        } else if s.readopen && !me.killed {
          return SleepFull, Sleep(s.(threads := WakeReaders(s.threads)), i);
        } else {
          return Quit, Do(s, i, Idle).(lock := None);
        }
      case Waiting(want) =>
        if !(Empty(s.ring) && s.writeopen) {
          return Go, Do(s, i, Reading(want, []));
        } else if me.killed {
          return GiveUp, Do(s, i, Idle).(lock := None);
        } else {
          return SleepEmpty, Sleep(s, i);
        }
      case Reading(want, got) =>
        if |got| == want || Empty(s.ring) {
          return ReadDone, Do(s.(threads := WakeWriters(s.threads)), i, Idle).(lock := None);
        } else {
          return GetByte, Do(s, i, me.job.(got := got + [Front(s.ring)])).(ring := Get(s.ring));
        }
    }
  }

  /** In every run, nobody who has been killed sleeps in a pipe. */
  lemma KilledAwake(ss: seq<State>, es: seq<Act>, k: nat, i: nat)
    requires Execution(ss, es) && k < |ss| && i < |ss[k].threads| && ss[k].threads[i].killed
    ensures !ss[k].threads[i].asleep
  {
    AlwaysInv(ss, es, k);
  }

  /** In every run, when the lock is free a sleeping writer faces a full pipe with the read end open. */
  lemma SleepingWriterFull(ss: seq<State>, es: seq<Act>, k: nat, i: nat)
    requires Execution(ss, es) && k < |ss| && i < |ss[k].threads| && ss[k].lock == None
    requires ss[k].threads[i].asleep && ss[k].threads[i].job.Writing?
    ensures ss[k].readopen && |ss[k].ring.data| == SIZE && |Contents(ss[k].ring)| == 512
  {
    AlwaysInv(ss, es, k);
    Tests(ss[k].ring);
    ContentsRight(ss[k].ring);
  }

  /** No writer returns because it was killed while a reader sleeps. */
  ghost predicate NoStranding(ss: seq<State>, es: seq<Act>)
    requires |ss| == |es| + 1
  {
    forall j :: 0 <= j < |es| && es[j].event.Quit? && es[j].thread < |ss[j].threads| ==>
      !ss[j].threads[es[j].thread].killed || !ReaderAsleep(ss[j])
  }

  lemma {:induction false} NoStrandedReaders(ss: seq<State>, es: seq<Act>, k: nat)
    requires Execution(ss, es) && k < |ss| && NoStranding(ss, es)
    ensures ReadersOk(ss[k])
  {
    if k > 0 {
      NoStrandedReaders(ss, es, k - 1);
      AlwaysInv(ss, es, k - 1);
      ReadersKeep(ss[k - 1], es[k - 1].thread, es[k - 1].event, ss[k]);
    }
  }

  /**
   In every such run, kills or not, when the lock is free a sleeping reader faces an empty pipe with the write end open.
   */
  lemma SleepingReaderEmpty(ss: seq<State>, es: seq<Act>, k: nat, i: nat)
    requires Execution(ss, es) && k < |ss| && i < |ss[k].threads| && ss[k].lock == None
    requires NoStranding(ss, es) && ss[k].threads[i].asleep && ss[k].threads[i].job.Waiting?
    ensures ss[k].writeopen && |ss[k].ring.data| == SIZE && Contents(ss[k].ring) == []
  {
    AlwaysInv(ss, es, k);
    NoStrandedReaders(ss, es, k);
    Tests(ss[k].ring);
    ContentsRight(ss[k].ring);
  }

  ghost predicate ReaderAsleep(s: State) {
    exists k :: 0 <= k < |s.threads| && s.threads[k].asleep && s.threads[k].job.Waiting?
  }

  /** A killed writer that quits keeps the promise to readers iff none of them sleeps. */
  lemma QuitExact(s: State, i: nat, t: State)
    requires Inv(s) && ReadersOk(s) && Next(s, i, Quit, t) && s.threads[i].killed
    ensures ReadersOk(t) <==> !ReaderAsleep(s)
  {
    Tests(s.ring);
    if k :| 0 <= k < |s.threads| && s.threads[k].asleep && s.threads[k].job.Waiting? {
      assert t.threads[k] == s.threads[k];
    }
  }

  /** The promise does fail: a run that ends with the pipe full, the lock free and a reader asleep. */
  lemma KilledWriterStrandsReader() returns (ss: seq<State>, es: seq<Act>)
    ensures Execution(ss, es)
    ensures var s := ss[|ss| - 1];
            && s.lock == None && s.writeopen
            && s.threads == [Thread(Waiting(1), true, false), Thread(Idle, false, true)] && Full(s.ring)
  {
    var src: seq<Byte> := seq(SIZE + 1, _ => 7);
    var idle := Thread(Idle, false, false);
    var s := State(Ring(seq(SIZE, _ => 0), 0, 0, [], []), true, true, [idle, idle], None);
    ss, es := [s], [];
    ss, es := Extend(ss, es, 0, StartRead(1), Do(s, 0, Waiting(1)).(lock := Some(0)));
    s := ss[|ss| - 1];
    ss, es := Extend(ss, es, 0, SleepEmpty, Sleep(s, 0));
    s := ss[|ss| - 1];
    ss, es := Extend(ss, es, 1, StartWrite(src), Do(s, 1, Writing(src, 0)).(lock := Some(1)));
    s := ss[|ss| - 1];
    ss, es := Extend(ss, es, 1, Kill, s.(threads := s.threads[1 := s.threads[1].(killed := true, asleep := false)]));
    s := ss[|ss| - 1];
    var m := 0;
    while m < SIZE
      invariant 0 <= m <= SIZE && Execution(ss, es) && s == ss[|ss| - 1]
      invariant s.threads == [Thread(Waiting(1), true, false), Thread(Writing(src, m), false, true)]
      invariant s.lock == Some(1) && s.readopen && s.writeopen && |s.ring.data| == SIZE && s.ring.nread == 0
      invariant s.ring.nwrite == m
    {
      ss, es := Extend(ss, es, 1, PutByte, Do(s, 1, Writing(src, m + 1)).(ring := Put(s.ring, src[m])));
      s := ss[|ss| - 1];
      m := m + 1;
    }
    ss, es := Extend(ss, es, 1, Quit, Do(s, 1, Idle).(lock := None));
  }

  lemma Extend(ss: seq<State>, es: seq<Act>, i: nat, e: Event, t: State) returns (ss': seq<State>, es': seq<Act>)
    requires Execution(ss, es) && Next(ss[|ss| - 1], i, e, t)
    ensures Execution(ss', es') && ss'[|ss'| - 1] == t
  {
    ss', es' := ss + [t], es + [Act(i, e)];
    forall k | 0 <= k < |es'|
      ensures Next(ss'[k], es'[k].thread, es'[k].event, ss'[k + 1])
    {
      if k < |es| {
        assert ss'[k] == ss[k] && ss'[k + 1] == ss[k + 1] && es'[k] == es[k];
      }
    }
  }

  // The copy loops

  class Buffer {
    const data: array<Byte>
    var nread: nat
    var nwrite: nat
    ghost var written: seq<Byte>
    ghost var delivered: seq<Byte>

    ghost function Value(): (r: Ring)
      reads this, data
    {
      Ring(data[..], nread, nwrite, written, delivered)
    }

    constructor ()
      ensures Valid(Value()) && written == [] && delivered == [] && fresh(data)
    {
      data := new Byte[SIZE](_ => 0);
      nread, nwrite, written, delivered := 0, 0, [], [];
    }

    /** pipewrite between two sleeps: bytes of src from i on go in until src is used up or the pipe is full. */
    method WriteSome(src: seq<Byte>, i: nat) returns (j: nat)
      requires Valid(Value()) && i <= |src|
      modifies `nwrite, `written, data
      ensures Valid(Value()) && i <= j <= |src| && written == old(written) + src[i..j]
      ensures j == |src| || |written| == |delivered| + 512
    {
      hide Valid;
      j := i;
      while j < |src| && nwrite != (nread + SIZE) % WRAP
        invariant i <= j <= |src| && Valid(Value()) && written == old(written) + src[i..j]
      {
        PutOne(src[j]);
        j := j + 1;
      }
      Tests(Value());
    }

    method PutOne(b: Byte)
      requires Valid(Value()) && !Full(Value())
      modifies `nwrite, `written, data
      ensures Value() == Put(old(Value()), b) && Valid(Value())
    {
      ghost var r := Value();
      PutValid(r, b);
      data[nwrite % SIZE] := b;
      nwrite := (nwrite + 1) % WRAP;
      written := written + [b];
      hide Valid;
      assert Value() == Put(r, b);
    }

    /** piperead's copy: up to n bytes come out, in the order they went in. */
    method ReadSome(n: nat) returns (got: seq<Byte>)
      requires Valid(Value())
      modifies `nread, `delivered
      ensures Valid(Value()) && delivered == old(delivered) + got
      ensures |got| == n || (|got| < n && |delivered| == |written|)
    {
      got := [];
      while |got| < n
        invariant |got| <= n && Valid(Value()) && delivered == old(delivered) + got
      {
        if nread == nwrite {
          Tests(Value());
          break;
        }
        GetValid(Value());
        var b := data[nread % SIZE];
        nread := (nread + 1) % WRAP;
        delivered := delivered + [b];
        got := got + [b];
      }
    }
  }
}
