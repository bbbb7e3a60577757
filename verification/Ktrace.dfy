/** The kernel's trace ring (ktrace.c): 128 entries under counters that wrap at 2^32. */
module Ktrace {
  import opened Common

  const SIZE := 128

  /** What the caller of traceevent records; strings and ticks are part of `what`. */
  datatype Event = Event(seqno: nat, overwritten: nat, what: int)

  datatype Fate = Delivered | Overwritten | CopyFailed

  /** The last n elements of a queue, or all of them. */
  function Last(q: seq<Event>, n: nat): (r: seq<Event>) {
    if |q| <= n then q else q[|q| - n..]
  }

  /** n - m in unsigned 32-bit arithmetic. */
  function Sub(n: nat, m: nat): (d: nat)
    requires n < WRAP && m < WRAP
  {
    (n - m + WRAP) % WRAP
  }

  lemma SubCounters(n: nat, m: nat)
    requires m <= n < m + WRAP
    ensures Sub(n % WRAP, m % WRAP) == n - m
  {
  }

  /** The counters after one more event, with n recorded and the first unread one at `first`. */
  lemma Advance(n: nat, first: nat)
    requires first <= n <= first + SIZE
    ensures (n % WRAP + 1) % WRAP == (n + 1) % WRAP
    ensures Sub((n + 1) % WRAP, first % WRAP) == n + 1 - first
    ensures n == first + SIZE ==> Sub((n + 1) % WRAP, SIZE) == (first + 1) % WRAP
  {
    SubCounters(n + 1, first);
  }

  lemma QueueStep(all: seq<Event>, first: nat, e: Event)
    requires first <= |all| <= first + SIZE
    ensures Last(all[first..] + [e], SIZE) == (all + [e])[if |all| == first + SIZE then first + 1 else first..]
  {
  }

  /** Event n, from `first` on, is in slot n % 128. */
  ghost predicate Ring(events: seq<Event>, all: seq<Event>, first: nat) {
    |events| == SIZE && forall n :: first <= n < |all| ==> events[n % SIZE] == all[n]
  }

  ghost predicate Numbered(all: seq<Event>) {
    forall n :: 0 <= n < |all| ==> all[n].seqno == n % WRAP
  }

  /** A new event takes the slot of the one 128 before it, and no other. */
  lemma RingPut(events: seq<Event>, all: seq<Event>, first: nat, e: Event)
    requires Ring(events, all, first) && first <= |all| <= first + SIZE
    ensures Ring(events[|all| % SIZE := e], all + [e], if |all| == first + SIZE then first + 1 else first)
  {
    var first' := if |all| == first + SIZE then first + 1 else first;
    forall n | first' <= n < |all| + 1
      ensures events[|all| % SIZE := e][n % SIZE] == (all + [e])[n]
    {
      if n < |all| {
        assert n % SIZE != |all| % SIZE;
      }
    }
  }

  /** The counters, the ring, and the history: all events recorded, and what became of those no longer unread. */
  class TraceBuffer {
    var enabled: bool
    var seqno: nat
    var readseq: nat
    var overwritten: nat
    var events: seq<Event>
    ghost var all: seq<Event>
    ghost var fate: seq<Fate>
    ghost var delivered: seq<Event>

    ghost predicate Valid()
      reads this
    {
      && |events| == SIZE && |fate| <= |all| <= |fate| + SIZE
      && seqno == |all| % WRAP && readseq == |fate| % WRAP && overwritten == Count(fate, Overwritten) % WRAP
      && Ring(events, all, |fate|) && Numbered(all) && delivered == Picked(all, fate)
    }

    /** The events not yet read, oldest first. */
    ghost function Queue(): (q: seq<Event>)
      requires |fate| <= |all|
      reads this
    {
      all[|fate|..]
    }

    constructor ()
      ensures Valid() && Queue() == [] && all == [] && fate == [] && enabled
    {
      enabled, seqno, readseq, overwritten := true, 0, 0, 0;
      events := seq(SIZE, _ => Event(0, 0, 0));
      all, fate, delivered := [], [], [];
    }

    /** Record an event; when 128 are unread the oldest is overwritten. */
    method Traceevent(what: int)
      requires Valid()
      modifies `seqno, `readseq, `overwritten, `events, `all, `fate
      ensures Valid()
      ensures !enabled ==> all == old(all) && fate == old(fate)
      ensures enabled ==> all == old(all) + [Event(|old(all)| % WRAP, Count(old(fate), Overwritten) % WRAP, what)]
      ensures enabled && |old(Queue())| < 128 ==>
        Queue() == old(Queue()) + [all[|old(all)|]] && fate == old(fate)
      ensures enabled && |old(Queue())| >= 128 ==>
        |old(Queue())| == 128 && Queue() == old(Queue())[1..] + [all[|old(all)|]] && fate == old(fate) + [Overwritten]
    {
      if enabled {
        Record(what);
      }
    }

    method Record(what: int)
      requires Valid()
      modifies `seqno, `readseq, `overwritten, `events, `all, `fate
      ensures Valid() == true
      ensures all == old(all) + [Event(|old(all)| % WRAP, Count(old(fate), Overwritten) % WRAP, what)]
      ensures Queue() == Last(old(Queue()) + [all[|old(all)|]], SIZE)
      ensures fate == old(fate) + if |old(Queue())| == SIZE then [Overwritten] else []
    {
      ghost var first, n := |fate|, |all|;
      var e := Event(seqno, overwritten, what);
      SlotOfCounter(n);
      RingPut(events, all, first, e);
      PickedFrame(all, e, fate);
      QueueStep(all, first, e);
      Advance(n, first);
      events := events[seqno % SIZE := e];
      all := all + [e];
      seqno := (seqno + 1) % WRAP;
      if Sub(seqno, readseq) > SIZE {
        readseq := Sub(seqno, SIZE);
        CounterStep(Count(fate, Overwritten));
        FateStep(all, fate, Overwritten);
        overwritten := (overwritten + 1) % WRAP;
        fate := fate + [Overwritten];
      }
    }

    /** Take the oldest unread event, which meets fate f. */
    method Pop(ghost f: Fate) returns (e: Event)
      requires Valid() && readseq != seqno && f != Overwritten
      modifies `readseq, `fate, `delivered
      ensures Valid() && fate == old(fate) + [f] && |old(Queue())| > 0
      ensures e == old(Queue())[0] && Queue() == old(Queue())[1..]
      ensures delivered == old(delivered) + if f == Delivered then [e] else []
    {
      SlotOfCounter(|fate|);
      CounterStep(|fate|);
      FateStep(all, fate, f);
      e := events[readseq % SIZE];
      readseq := (readseq + 1) % WRAP;
      delivered := delivered + if f == Delivered then [e] else [];
      fate := fate + [f];
    }

    /**
     Deliver up to max unread events in order; the copy to the caller fails after `room` of them. A failed copy
     has already consumed its event.
     */
    method Traceread(max: int, room: nat) returns (r: int, out: seq<Event>)
      requires Valid()
      modifies `readseq, `fate, `delivered
      ensures Valid() && delivered == old(delivered) + out
      ensures |out| == if max <= 0 then 0 else Min(Min(max, room), |old(Queue())|)
      ensures out == old(Queue())[..|out|]
      ensures var failed := room < max && room < |old(Queue())|;
              && r == (if failed && |out| == 0 then -1 else |out|)
              && Queue() == old(Queue())[if failed then |out| + 1 else |out|..]
              && fate == old(fate) + Repeat(|out|) + if failed then [CopyFailed] else []
    {
      hide Ring, Numbered, Picked, Count;
      var count := 0;
      out := [];
      if max <= 0 {
        return 0, [];
      }
      while count < max && readseq != seqno
        invariant 0 <= count <= max && count <= room && count == |out| && Valid()
        invariant fate == old(fate) + Repeat(count) && delivered == old(delivered) + out
        invariant count <= |old(Queue())| && out == old(Queue())[..count] && Queue() == old(Queue())[count..]
      {
        if count == room {
          var lost := Pop(CopyFailed);
          return if count > 0 then count else -1, out;
        }
        var event := Pop(Delivered);
        out := out + [event];
        count := count + 1;
      }
      SubCounters(|all|, |fate|);
      return count, out;
    }

    /** Every event recorded is delivered, lost to a failed copy, overwritten, or still unread. */
    lemma Accounted()
      requires Valid()
      ensures |all| == |delivered| + Count(fate, CopyFailed) + Count(fate, Overwritten) + |Queue()|
    {
      FatesAddUp(all, fate);
    }

    /**
     Until the counter wraps: number n was delivered exactly if its fate says so. The gaps in what was delivered
     are the events overwritten, those lost to a failed copy, and those not read yet.
     */
    lemma GapsExact(n: nat)
      requires Valid() && n < |all| <= WRAP
      ensures (exists a :: 0 <= a < |delivered| && delivered[a].seqno == n) <==> n < |fate| && fate[n] == Delivered
      ensures forall a, b :: 0 <= a < b < |delivered| ==> delivered[a].seqno < delivered[b].seqno
    {
      if n < |fate| && fate[n] == Delivered {
        var a := DeliveredFound(all, fate, n);
      }
      forall a | 0 <= a < |delivered|
        ensures delivered[a].seqno < |fate| && fate[delivered[a].seqno] == Delivered
        ensures forall b :: 0 <= b < a ==> delivered[b].seqno < delivered[a].seqno
      {
        DeliveredInOrder(all, fate, a);
      }
    }
  }

  /** The events that were delivered. */
  ghost function Picked(all: seq<Event>, fate: seq<Fate>): (r: seq<Event>)
    requires |fate| <= |all|
  {
    if fate == [] then []
    else Picked(all, fate[..|fate| - 1]) + if fate[|fate| - 1] == Delivered then [all[|fate| - 1]] else []
  }

  lemma {:induction false} PickedFrame(all: seq<Event>, e: Event, fate: seq<Fate>)
    requires |fate| <= |all|
    ensures Picked(all + [e], fate) == Picked(all, fate)
  {
    if fate != [] {
      PickedFrame(all, e, fate[..|fate| - 1]);
    }
  }

  lemma FateStep(all: seq<Event>, fate: seq<Fate>, f: Fate)
    requires |fate| < |all|
    ensures Count(fate + [f], Overwritten) == Count(fate, Overwritten) + if f == Overwritten then 1 else 0
    ensures Picked(all, fate + [f]) == Picked(all, fate) + if f == Delivered then [all[|fate|]] else []
  {
    assert (fate + [f])[..|fate|] == fate;
  }

  /** An event whose fate was to be delivered is among those delivered. */
  lemma {:induction false} DeliveredFound(all: seq<Event>, fate: seq<Fate>, n: nat) returns (a: nat)
    requires n < |fate| <= |all| && fate[n] == Delivered
    ensures a < |Picked(all, fate)| && Picked(all, fate)[a] == all[n]
  {
    if n == |fate| - 1 {
      a := |Picked(all, fate)| - 1;
    } else {
      a := DeliveredFound(all, fate[..|fate| - 1], n);
    }
  }

  /** Until the counter wraps, the sequence numbers delivered increase, and each is of an event to be delivered. */
  lemma {:induction false} DeliveredInOrder(all: seq<Event>, fate: seq<Fate>, a: nat)
    requires |fate| <= |all| <= WRAP && Numbered(all) && a < |Picked(all, fate)|
    ensures Picked(all, fate)[a].seqno < |fate| && fate[Picked(all, fate)[a].seqno] == Delivered
    ensures forall b :: 0 <= b < a ==> Picked(all, fate)[b].seqno < Picked(all, fate)[a].seqno
  {
    var n := |fate| - 1;
    var p := Picked(all, fate[..n]);
    if a < |p| {
      DeliveredInOrder(all, fate[..n], a);
    } else {
      forall b | 0 <= b < a
        ensures Picked(all, fate)[b].seqno < n
      {
        DeliveredInOrder(all, fate[..n], b);
      }
    }
  }

  function Min(a: nat, b: nat): (m: nat) {
    if a < b then a else b
  }

  function Count(fs: seq<Fate>, f: Fate): (n: nat) {
    if fs == [] then 0 else Count(fs[..|fs| - 1], f) + if fs[|fs| - 1] == f then 1 else 0
  }

  /** n events delivered in a row. */
  ghost function Repeat(n: nat): (fs: seq<Fate>)
    ensures |fs| == n && forall k :: 0 <= k < n ==> fs[k] == Delivered
  {
    seq(n, _ => Delivered)
  }

  lemma {:induction false} FatesAddUp(all: seq<Event>, fate: seq<Fate>)
    requires |fate| <= |all|
    ensures |fate| == |Picked(all, fate)| + Count(fate, CopyFailed) + Count(fate, Overwritten)
  {
    if fate != [] {
      FatesAddUp(all, fate[..|fate| - 1]);
    }
  }
}
