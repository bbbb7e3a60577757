/**
 The buffer cache (bio.c). A protocol over values says what processes may do to the cache, in any
 order, and what they observe; the class keeps the buffers on the doubly linked LRU list and is
 proved to take exactly those steps.
 */
module BufferCache {
  import opened Blocks
  import opened Common

  /** Device and block number. Device 0 marks a buffer that has never been used. */
  datatype Id = Id(dev: nat, blockno: nat)

  datatype Buf = Buf(id: Id, valid: bool, dirty: bool, refcnt: nat, data: Block, owner: Option<nat>)

  predicate IsFresh(b: Buf) {
    b.id == Id(0, 0) && !b.valid && !b.dirty && b.refcnt == 0 && b.owner == None
  }

  /**
   The cache and the disk beneath it. `order` lists the buffers from most to least recently used.
   The last four fields are history: which processes hold references, which buffers have been
   modified since they were last logged or written, and when each last became unreferenced.
   */
  datatype Cache = Cache(
    bufs: seq<Buf>, order: seq<nat>, disk: map<Id, Block>,
    refs: seq<multiset<nat>>, touched: set<nat>, freed: seq<nat>, clock: nat)

  datatype Event =
    | Get(p: nat, id: Id)               // bget, up to acquiresleep
    | Lock(p: nat, i: nat)              // acquiresleep succeeds
    | Fill(p: nat, i: nat)              // bread of a buffer that is not valid
    | Modify(p: nat, i: nat, id: Id, data: Block)
    | Pin(p: nat, i: nat)               // log_write
    | WriteBack(p: nat, i: nat)         // bwrite
    | Unlock(p: nat, i: nat)            // brelse, releasesleep
    | Drop(p: nat, i: nat)              // brelse, the rest

  predicate Holds(c: Cache, p: nat, i: nat) {
    i < |c.bufs| && c.bufs[i].owner == Some(p)
  }

  predicate Evictable(b: Buf) {
    b.refcnt == 0 && !b.dirty
  }

  predicate IsCached(c: Cache, i: nat, id: Id) {
    i < |c.bufs| && c.bufs[i].id == id
  }

  ghost predicate Missing(c: Cache, id: Id) {
    forall i :: 0 <= i < |c.bufs| ==> c.bufs[i].id != id
  }

  /** No buffer further down the list than position k can be recycled. */
  ghost predicate NoneAfter(c: Cache, k: int) {
    forall j :: k < j < |c.order| && 0 <= j && c.order[j] < |c.bufs| ==> !Evictable(c.bufs[c.order[j]])
  }

  /** The first evictable buffer from the least recently used end of the list. */
  ghost predicate IsVictim(c: Cache, v: nat) {
    && v < |c.bufs| && Evictable(c.bufs[v])
    && exists k :: 0 <= k < |c.order| && c.order[k] == v && NoneAfter(c, k)
  }

  function MoveToFront(order: seq<nat>, b: nat): (r: seq<nat>) {
    [b] + Without(order, b)
  }

  function Without(order: seq<nat>, b: nat): (r: seq<nat>) {
    if order == [] then [] else if order[0] == b then order[1..] else [order[0]] + Without(order[1..], b)
  }

  // The steps

  ghost predicate HitStep(c: Cache, p: nat, id: Id, i: nat, d: Cache) {
    && IsCached(c, i, id) && i < |c.refs|
    && d == c.(bufs := c.bufs[i := c.bufs[i].(refcnt := c.bufs[i].refcnt + 1)],
               refs := c.refs[i := c.refs[i] + multiset{p}])
  }

  ghost predicate MissStep(c: Cache, p: nat, id: Id, v: nat, d: Cache) {
    && Missing(c, id) && IsVictim(c, v) && v < |c.refs|
    && d == c.(bufs := c.bufs[v := c.bufs[v].(id := id, valid := false, dirty := false, refcnt := 1)],
               refs := c.refs[v := multiset{p}])
  }

  ghost predicate GetStep(c: Cache, p: nat, id: Id, i: nat, d: Cache) {
    id.dev != 0 && (HitStep(c, p, id, i, d) || MissStep(c, p, id, i, d))
  }

  ghost predicate LockStep(c: Cache, p: nat, i: nat, d: Cache) {
    && i < |c.bufs| && i < |c.refs| && p in c.refs[i] && c.bufs[i].owner == None
    && d == c.(bufs := c.bufs[i := c.bufs[i].(owner := Some(p))])
  }

  ghost predicate FillStep(c: Cache, p: nat, i: nat, d: Cache) {
    && Holds(c, p, i) && !c.bufs[i].valid && !c.bufs[i].dirty && c.bufs[i].id in c.disk
    && d == c.(bufs := c.bufs[i := c.bufs[i].(valid := true, data := c.disk[c.bufs[i].id])])
  }

  ghost predicate ModifyStep(c: Cache, p: nat, i: nat, id: Id, data: Block, d: Cache) {
    && Holds(c, p, i) && c.bufs[i].valid && c.bufs[i].id == id
    && d == c.(bufs := c.bufs[i := c.bufs[i].(data := data)], touched := c.touched + {i})
  }

  ghost predicate PinStep(c: Cache, p: nat, i: nat, d: Cache) {
    && Holds(c, p, i) && c.bufs[i].valid
    && d == c.(bufs := c.bufs[i := c.bufs[i].(dirty := true)], touched := c.touched - {i})
  }

  ghost predicate WriteBackStep(c: Cache, p: nat, i: nat, d: Cache) {
    && Holds(c, p, i) && c.bufs[i].valid && c.bufs[i].id in c.disk
    && d == c.(bufs := c.bufs[i := c.bufs[i].(dirty := false)],
               disk := c.disk[c.bufs[i].id := c.bufs[i].data], touched := c.touched - {i})
  }

  /** Clients log or write a buffer they have modified before they release it. */
  ghost predicate UnlockStep(c: Cache, p: nat, i: nat, d: Cache) {
    && Holds(c, p, i) && i !in c.touched
    && d == c.(bufs := c.bufs[i := c.bufs[i].(owner := None)])
  }

  ghost predicate DropStep(c: Cache, p: nat, i: nat, d: Cache) {
    && i < |c.bufs| && i < |c.refs| && i < |c.freed| && p in c.refs[i] && c.bufs[i].refcnt > 0
    && (Holds(c, p, i) ==> c.refs[i][p] > 1)
    && var b := c.bufs[i].(refcnt := c.bufs[i].refcnt - 1);
       if b.refcnt == 0 then
         d == c.(bufs := c.bufs[i := b], refs := c.refs[i := c.refs[i] - multiset{p}],
                 order := MoveToFront(c.order, i), freed := c.freed[i := c.clock], clock := c.clock + 1)
       else
         d == c.(bufs := c.bufs[i := b], refs := c.refs[i := c.refs[i] - multiset{p}])
  }

  ghost predicate Next(c: Cache, e: Event, d: Cache) {
    match e
    case Get(p, id) => exists i :: GetStep(c, p, id, i, d)
    case Lock(p, i) => LockStep(c, p, i, d)
    case Fill(p, i) => FillStep(c, p, i, d)
    case Modify(p, i, id, data) => ModifyStep(c, p, i, id, data, d)
    case Pin(p, i) => PinStep(c, p, i, d)
    case WriteBack(p, i) => WriteBackStep(c, p, i, d)
    case Unlock(p, i) => UnlockStep(c, p, i, d)
    case Drop(p, i) => DropStep(c, p, i, d)
  }

  /** The cache binit leaves: n fresh buffers, last one first. */
  ghost predicate Init(c: Cache) {
    && |c.order| == |c.refs| == |c.freed| == c.clock == |c.bufs| && c.touched == {}
    && (forall i :: 0 <= i < |c.bufs| ==> IsFresh(c.bufs[i]) && c.refs[i] == multiset{} && c.freed[i] == i)
    && (forall k :: 0 <= k < |c.order| ==> c.order[k] == |c.bufs| - 1 - k)
  }

  ghost predicate Execution(cs: seq<Cache>, es: seq<Event>) {
    && |cs| == |es| + 1 && Init(cs[0])
    && forall k :: 0 <= k < |es| ==> Next(cs[k], es[k], cs[k + 1])
  }

  // The invariant

  /** `order` lists every buffer exactly once. */
  ghost predicate Permutation(order: seq<nat>, n: nat) {
    && |order| == n
    && (forall k :: 0 <= k < n ==> order[k] < n)
    && (forall j, k :: 0 <= j < k < n ==> order[j] != order[k])
  }

  /** The list runs from the buffer freed last to the one freed first. */
  ghost predicate ByRecency(order: seq<nat>, freed: seq<nat>, clock: nat)
    requires Permutation(order, |freed|)
  {
    && (forall i :: 0 <= i < |freed| ==> freed[i] < clock)
    && (forall j, k :: 0 <= j < k < |order| ==> freed[order[j]] > freed[order[k]])
  }

  ghost predicate Unique(bufs: seq<Buf>) {
    forall i, j :: 0 <= i < j < |bufs| && bufs[i].id.dev != 0 ==> bufs[i].id != bufs[j].id
  }

  ghost predicate RefsOk(b: Buf, refs: multiset<nat>, touched: bool) {
    && |refs| == b.refcnt && (b.owner.Some? ==> b.owner.value in refs)
    && (touched ==> b.owner.Some? && b.valid)
    && (b.dirty ==> b.valid) && (b.valid || b.refcnt > 0 ==> b.id.dev != 0)
  }

  /** Buffer i holds contents of block id that the disk may not have yet. */
  predicate Ahead(c: Cache, i: nat, id: Id) {
    i < |c.bufs| && c.bufs[i].id == id && c.bufs[i].valid && (c.bufs[i].dirty || i in c.touched)
  }

  /** Cache and disk together hold the plain block map m. */
  ghost predicate Represents(c: Cache, m: map<Id, Block>) {
    && m.Keys == c.disk.Keys
    && (forall i :: 0 <= i < |c.bufs| && c.bufs[i].valid ==> c.bufs[i].id in m && m[c.bufs[i].id] == c.bufs[i].data)
    && (forall id :: id in m ==> m[id] == c.disk[id] || exists i :: Ahead(c, i, id))
  }

  ghost predicate Inv(c: Cache) {
    && |c.refs| == |c.freed| == |c.bufs|
    && Permutation(c.order, |c.bufs|) && ByRecency(c.order, c.freed, c.clock) && Unique(c.bufs)
    && forall i :: 0 <= i < |c.bufs| ==> RefsOk(c.bufs[i], c.refs[i], i in c.touched)
  }

  /** A plain block store: the last modification of each block, in the order they happened. */
  function Plain(m: map<Id, Block>, es: seq<Event>): (r: map<Id, Block>) {
    if es == [] then m
    else
      var r := Plain(m, es[..|es| - 1]);
      var e := es[|es| - 1];
      if e.Modify? then r[e.id := e.data] else r
  }

  // Every step keeps the invariant and what the cache represents

  lemma {:induction false} WithoutElements(order: seq<nat>, b: nat, n: nat) returns (at: nat)
    requires Permutation(order, n) && b < n
    ensures at < n && order[at] == b && Without(order, b) == order[..at] + order[at + 1..]
  {
    at := Position(order, n, b);
    WithoutAt(order, b, at);
  }

  lemma {:induction false} WithoutAt(order: seq<nat>, b: nat, at: nat)
    requires at < |order| && order[at] == b && b !in order[..at]
    ensures Without(order, b) == order[..at] + order[at + 1..]
  {
    if at > 0 {
      assert order[0] in order[..at];
      assert order[1..][..at - 1] == order[..at][1..];
      WithoutAt(order[1..], b, at - 1);
      assert order[1..][at..] == order[at + 1..];
    }
  }

  /** Every buffer is somewhere on the list: a list of n distinct numbers below n misses none. */
  lemma Position(order: seq<nat>, n: nat, b: nat) returns (at: nat)
    requires Permutation(order, n) && b < n
    ensures at < n && order[at] == b && b !in order[..at]
  {
    Elements(order, n);
    if b !in order {
      SubsetSize(Range(order), Below(n) - {b});
    }
    var k :| 0 <= k < n && order[k] == b;
    at := k;
    forall j | 0 <= j < at
      ensures order[..at][j] != b
    {
      assert order[j] != order[at];
    }
  }

  function Below(n: nat): (s: set<nat>)
    ensures |s| == n && forall i :: i in s <==> 0 <= i < n
  {
    if n == 0 then {} else Below(n - 1) + {n - 1}
  }

  function Range(order: seq<nat>): (s: set<nat>) {
    if order == [] then {} else Range(order[..|order| - 1]) + {order[|order| - 1]}
  }

  lemma {:induction false} Elements(order: seq<nat>, n: nat)
    requires forall k :: 0 <= k < |order| ==> order[k] < n
    requires forall j, k :: 0 <= j < k < |order| ==> order[j] != order[k]
    ensures |Range(order)| == |order| && Range(order) <= Below(n)
    ensures forall b :: b in order <==> b in Range(order)
  {
    if order != [] {
      var init, last := order[..|order| - 1], order[|order| - 1];
      assert order == init + [last];
      Elements(init, n);
      assert last !in init;
    }
  }

  /** Where the k-th element of the list with its element `at` moved to the front came from. */
  function Source(at: nat, k: nat): (j: nat) {
    if k == 0 then at else if k <= at then k - 1 else k
  }

  lemma MoveToFrontAt(order: seq<nat>, b: nat, n: nat) returns (at: nat)
    requires Permutation(order, n) && b < n
    ensures at < n && order[at] == b && |MoveToFront(order, b)| == n
    ensures forall k :: 0 <= k < n ==> MoveToFront(order, b)[k] == order[Source(at, k)]
  {
    at := WithoutElements(order, b, n);
  }

  /** The element b of the list, at place `at`, is now in front; the others are in their order. */
  ghost predicate Fronted(order: seq<nat>, at: nat, b: nat, order': seq<nat>) {
    at < |order| && order[at] == b && order' == [b] + order[..at] + order[at + 1..]
  }

  lemma MovedFrom(order: seq<nat>, b: nat, n: nat)
    requires Permutation(order, n) && b < n
    ensures exists at :: Fronted(order, at, b, MoveToFront(order, b))
  {
    var at := WithoutElements(order, b, n);
    assert [b] + (order[..at] + order[at + 1..]) == [b] + order[..at] + order[at + 1..];
    assert Fronted(order, at, b, MoveToFront(order, b));
  }

  lemma MoveToFrontPermutes(order: seq<nat>, b: nat, n: nat)
    requires Permutation(order, n) && b < n
    ensures Permutation(MoveToFront(order, b), n)
  {
    var at := MoveToFrontAt(order, b, n);
    var r := MoveToFront(order, b);
    forall j, k | 0 <= j < k < n
      ensures r[j] != r[k]
    {
      assert r[j] == order[Source(at, j)] && r[k] == order[Source(at, k)];
    }
    forall k | 0 <= k < n
      ensures r[k] < n
    {
      assert r[k] == order[Source(at, k)];
    }
  }

  lemma MoveToFrontKeeps(order: seq<nat>, freed: seq<nat>, clock: nat, b: nat)
    requires Permutation(order, |freed|) && ByRecency(order, freed, clock) && b < |freed|
    ensures Permutation(MoveToFront(order, b), |freed|)
    ensures ByRecency(MoveToFront(order, b), freed[b := clock], clock + 1)
  {
    var n := |freed|;
    MoveToFrontPermutes(order, b, n);
    var at := MoveToFrontAt(order, b, n);
    var r := MoveToFront(order, b);
    forall j, k | 0 <= j < k < n
      ensures freed[b := clock][r[j]] > freed[b := clock][r[k]]
    {
      var x, y := Source(at, j), Source(at, k);
      assert r[j] == order[x] && r[k] == order[y];
      assert order[y] != b;
      if j > 0 {
        assert order[x] != b;
      }
    }
  }

  ghost predicate Good(c: Cache, m: map<Id, Block>) {
    Inv(c) && Represents(c, m)
  }

  lemma HitKeeps(c: Cache, m: map<Id, Block>, p: nat, id: Id, i: nat, d: Cache)
    requires Good(c, m) && HitStep(c, p, id, i, d) && id.dev != 0
    ensures Good(d, m)
  {
    SameContents(c, m, d);
    assert RefsOk(c.bufs[i], c.refs[i], i in c.touched);
    assert RefsOk(d.bufs[i], d.refs[i], i in d.touched);
  }

  /** Recycling never loses contents: the victim's block is up to date on the disk. */
  lemma MissKeeps(c: Cache, m: map<Id, Block>, p: nat, id: Id, v: nat, d: Cache)
    requires Good(c, m) && MissStep(c, p, id, v, d) && id.dev != 0
    ensures Good(d, m)
  {
    assert RefsOk(c.bufs[v], c.refs[v], v in c.touched);
    assert c.refs[v] == multiset{};
    forall id | id in m
      ensures m[id] == d.disk[id] || exists j :: Ahead(d, j, id)
    {
      if m[id] != c.disk[id] {
        var j :| Ahead(c, j, id);
        assert j != v;
        assert Ahead(d, j, id);
      }
    }
    assert RefsOk(d.bufs[v], d.refs[v], v in d.touched);
  }

  lemma FillKeeps(c: Cache, m: map<Id, Block>, p: nat, i: nat, d: Cache)
    requires Good(c, m) && FillStep(c, p, i, d)
    ensures Good(d, m)
  {
    var id := c.bufs[i].id;
    assert RefsOk(c.bufs[i], c.refs[i], i in c.touched);
    assert m[id] == c.disk[id] by {
      if m[id] != c.disk[id] {
        var j :| Ahead(c, j, id);
      }
    }
    assert RefsOk(c.bufs[i], c.refs[i], i in c.touched);
    forall id | id in m
      ensures m[id] == d.disk[id] || exists j :: Ahead(d, j, id)
    {
      if m[id] != c.disk[id] {
        var j :| Ahead(c, j, id);
        assert Ahead(d, j, id);
      }
    }
  }

  lemma ModifyKeeps(c: Cache, m: map<Id, Block>, p: nat, i: nat, id: Id, data: Block, d: Cache)
    requires Good(c, m) && ModifyStep(c, p, i, id, data, d)
    ensures Good(d, m[id := data])
  {
    assert RefsOk(c.bufs[i], c.refs[i], i in c.touched);
    assert Ahead(d, i, id);
    forall x | x in m[id := data]
      ensures m[id := data][x] == d.disk[x] || exists j :: Ahead(d, j, x)
    {
      if x != id && m[x] != c.disk[x] {
        var j :| Ahead(c, j, x);
        assert Ahead(d, j, x);
      }
    }
    forall j | 0 <= j < |d.bufs| && d.bufs[j].valid
      ensures d.bufs[j].id in m && m[id := data][d.bufs[j].id] == d.bufs[j].data
    {
      if j != i {
        assert c.bufs[j].id != id;
      }
    }
  }

  lemma PinKeeps(c: Cache, m: map<Id, Block>, p: nat, i: nat, d: Cache)
    requires Good(c, m) && PinStep(c, p, i, d)
    ensures Good(d, m)
  {
    assert RefsOk(c.bufs[i], c.refs[i], i in c.touched);
    forall x | x in m
      ensures m[x] == d.disk[x] || exists j :: Ahead(d, j, x)
    {
      if m[x] != c.disk[x] {
        var j :| Ahead(c, j, x);
        assert Ahead(d, j, x);
      }
    }
  }

  lemma WriteBackKeeps(c: Cache, m: map<Id, Block>, p: nat, i: nat, d: Cache)
    requires Good(c, m) && WriteBackStep(c, p, i, d)
    ensures Good(d, m)
  {
    var id := c.bufs[i].id;
    assert RefsOk(c.bufs[i], c.refs[i], i in c.touched);
    forall x | x in m
      ensures m[x] == d.disk[x] || exists j :: Ahead(d, j, x)
    {
      if x != id && m[x] != c.disk[x] {
        var j :| Ahead(c, j, x);
        assert j != i;
        assert Ahead(d, j, x);
      }
    }
  }

  /** Contents that are ahead of the disk stay so when no buffer changes its block, data or flags. */
  lemma SameContents(c: Cache, m: map<Id, Block>, d: Cache)
    requires Represents(c, m) && d.disk == c.disk && d.touched == c.touched && |d.bufs| == |c.bufs|
    requires forall i :: 0 <= i < |c.bufs| ==>
      d.bufs[i] == c.bufs[i].(refcnt := d.bufs[i].refcnt, owner := d.bufs[i].owner)
    ensures Represents(d, m)
  {
    forall x | x in m
      ensures m[x] == d.disk[x] || exists j :: Ahead(d, j, x)
    {
      if m[x] != c.disk[x] {
        var j :| Ahead(c, j, x);
        assert Ahead(d, j, x);
      }
    }
  }

  lemma LockKeeps(c: Cache, m: map<Id, Block>, e: Event, d: Cache)
    requires Good(c, m) && (e.Lock? || e.Unlock?) && Next(c, e, d)
    ensures Good(d, m)
  {
    SameContents(c, m, d);
    assert RefsOk(c.bufs[e.i], c.refs[e.i], e.i in c.touched);
    assert RefsOk(d.bufs[e.i], d.refs[e.i], e.i in d.touched);
  }

  lemma DropKeeps(c: Cache, m: map<Id, Block>, p: nat, i: nat, d: Cache)
    requires Good(c, m) && DropStep(c, p, i, d)
    ensures Good(d, m)
  {
    SameContents(c, m, d);
    MoveToFrontKeeps(c.order, c.freed, c.clock, i);
    assert RefsOk(c.bufs[i], c.refs[i], i in c.touched);
    assert RefsOk(d.bufs[i], d.refs[i], i in d.touched);
  }

  lemma NextKeeps(c: Cache, m: map<Id, Block>, e: Event, d: Cache)
    requires Good(c, m) && Next(c, e, d)
    ensures Good(d, if e.Modify? then m[e.id := e.data] else m)
  {
    match e
    case Get(p, id) =>
      var i :| GetStep(c, p, id, i, d);
      if HitStep(c, p, id, i, d) {
        HitKeeps(c, m, p, id, i, d);
      } else {
        MissKeeps(c, m, p, id, i, d);
      }
    case Fill(p, i) => FillKeeps(c, m, p, i, d);
    case Modify(p, i, id, data) => ModifyKeeps(c, m, p, i, id, data, d);
    case Pin(p, i) => PinKeeps(c, m, p, i, d);
    case WriteBack(p, i) => WriteBackKeeps(c, m, p, i, d);
    case Drop(p, i) => DropKeeps(c, m, p, i, d);
    case _ => LockKeeps(c, m, e, d);
  }

  // What every execution guarantees

  /** The cache is invisible: at every moment, cache and disk together hold what a plain store would. */
  lemma {:induction false} Transparent(cs: seq<Cache>, es: seq<Event>, k: nat)
    requires Execution(cs, es) && k <= |es|
    ensures Good(cs[k], Plain(cs[0].disk, es[..k]))
  {
    if k == 0 {
      assert Inv(cs[0]);
    } else {
      Transparent(cs, es, k - 1);
      assert es[..k][..k - 1] == es[..k - 1];
      assert Next(cs[k - 1], es[k - 1], cs[k]);
      NextKeeps(cs[k - 1], Plain(cs[0].disk, es[..k - 1]), es[k - 1], cs[k]);
    }
  }

  /** Once a buffer is locked and filled, its holder reads the last modification of that block by anyone. */
  lemma ReadsLatest(cs: seq<Cache>, es: seq<Event>, k: nat, p: nat, i: nat)
    requires Execution(cs, es) && k <= |es| && Holds(cs[k], p, i) && cs[k].bufs[i].valid
    ensures var m := Plain(cs[0].disk, es[..k]);
            cs[k].bufs[i].id in m && cs[k].bufs[i].data == m[cs[k].bufs[i].id]
  {
    Transparent(cs, es, k);
  }

  /** No block of a real device is ever in two buffers, and the list never loses or repeats one. */
  lemma OneBufferPerBlock(cs: seq<Cache>, es: seq<Event>, k: nat)
    requires Execution(cs, es) && k <= |es|
    ensures Unique(cs[k].bufs) && Permutation(cs[k].order, |cs[k].bufs|)
  {
    Transparent(cs, es, k);
  }

  /**
   Of the buffers without references that are not dirty, bget takes the one unreferenced for the longest time: each time
   v was released before, every other such buffer j was released again later.
   */
  lemma VictimLeastRecent(cs: seq<Cache>, es: seq<Event>, k: nat, p: nat, id: Id, v: nat, d: Cache, m: nat, j: nat)
    returns (m': nat)
    requires Execution(cs, es) && m < k <= |es| && MissStep(cs[k], p, id, v, d) && Releases(cs, m, v)
    requires j < |cs[k].bufs| && j != v && cs[k].bufs[j].refcnt == 0 && !cs[k].bufs[j].dirty
    ensures cs[k].bufs[v].refcnt == 0 && !cs[k].bufs[v].dirty && m < m' < k && Releases(cs, m', j)
  {
    Transparent(cs, es, k);
    VictimOldest(cs[k], v);
    FreedOnce(cs[k], v, j);
    m' := ReleasedLater(cs, es, k, m, v, j);
  }

  /** In step m buffer i lost its last reference. */
  ghost predicate Releases(cs: seq<Cache>, m: nat, i: nat) {
    && m + 1 < |cs| && i < |cs[m].bufs| && i < |cs[m + 1].bufs|
    && cs[m].bufs[i].refcnt > 0 && cs[m + 1].bufs[i].refcnt == 0
  }

  lemma FreedOnce(c: Cache, i: nat, j: nat)
    requires Inv(c) && i < |c.bufs| && j < |c.bufs| && i != j
    ensures c.freed[i] != c.freed[j]
  {
    var x := Position(c.order, |c.bufs|, i);
    var y := Position(c.order, |c.bufs|, j);
  }

  /** What one step does to the history of releases. */
  lemma FreedStep(c: Cache, e: Event, d: Cache, i: nat)
    requires Inv(c) && Next(c, e, d) && i < |c.bufs|
    ensures |d.bufs| == |d.freed| == |c.bufs|
    ensures if c.bufs[i].refcnt > 0 && d.bufs[i].refcnt == 0 then d.freed[i] == c.clock else d.freed[i] == c.freed[i]
    ensures forall j :: 0 <= j < |c.bufs| ==> c.freed[j] < c.clock && d.freed[j] <= c.clock
    ensures c.bufs[i].refcnt > 0 && d.bufs[i].refcnt == 0 ==>
      forall j :: 0 <= j < |c.bufs| && j != i ==> d.freed[j] == c.freed[j]
  {
  }

  lemma StepAt(cs: seq<Cache>, es: seq<Event>, k: nat)
    requires Execution(cs, es) && k < |es|
    ensures |cs| == |es| + 1 && Inv(cs[k]) && |cs[k].freed| == |cs[k].bufs| == |cs[k + 1].bufs| == |cs[k + 1].freed|
    ensures Next(cs[k], es[k], cs[k + 1])
  {
    hide Next, Represents, RefsOk, Unique, ByRecency, Permutation;
    Transparent(cs, es, k);
    Transparent(cs, es, k + 1);
    SameBufs(cs[k], es[k], cs[k + 1]);
  }

  lemma SameBufs(c: Cache, e: Event, d: Cache)
    requires Next(c, e, d)
    ensures |d.bufs| == |c.bufs|
  {
    hide NoneAfter, Missing;
  }

  lemma {:induction false} ReleasedLater(cs: seq<Cache>, es: seq<Event>, k: nat, m: nat, v: nat, j: nat)
    returns (m': nat)
    requires Execution(cs, es) && m < k <= |es| && Releases(cs, m, v) && v != j
    requires j < |cs[k].freed| && v < |cs[k].freed| && cs[k].freed[v] < cs[k].freed[j]
    ensures m < m' < k && Releases(cs, m', j)
    decreases k
  {
    hide Inv, Next, Execution;
    StepAt(cs, es, k - 1);
    FreedStep(cs[k - 1], es[k - 1], cs[k], v);
    FreedStep(cs[k - 1], es[k - 1], cs[k], j);
    if Releases(cs, k - 1, j) {
      m' := k - 1;
    } else {
      m' := ReleasedLater(cs, es, k - 1, m, v, j);
    }
  }

  lemma VictimOldest(c: Cache, v: nat)
    requires |c.freed| == |c.bufs| && Permutation(c.order, |c.freed|) && ByRecency(c.order, c.freed, c.clock)
    requires IsVictim(c, v)
    ensures forall j :: 0 <= j < |c.bufs| && c.bufs[j].refcnt == 0 && !c.bufs[j].dirty ==> c.freed[v] <= c.freed[j]
  {
    var at :| 0 <= at < |c.order| && c.order[at] == v && NoneAfter(c, at);
    forall j | 0 <= j < |c.bufs| && c.bufs[j].refcnt == 0 && !c.bufs[j].dirty
      ensures c.freed[v] <= c.freed[j]
    {
      var x := Position(c.order, |c.bufs|, j);
      assert x <= at;
    }
  }

  /** A referenced or dirty buffer keeps its block, and only writing a buffer back changes the disk. */
  lemma PinnedStays(cs: seq<Cache>, es: seq<Event>, k: nat, i: nat)
    requires Execution(cs, es) && k < |es| && i < |cs[k].bufs|
    ensures |cs[k + 1].bufs| == |cs[k].bufs|
    ensures cs[k].bufs[i].dirty || cs[k].bufs[i].refcnt > 0 ==> cs[k + 1].bufs[i].id == cs[k].bufs[i].id
    ensures cs[k].bufs[i].dirty && !es[k].Modify? ==> cs[k + 1].bufs[i].data == cs[k].bufs[i].data
    ensures cs[k].bufs[i].dirty && !cs[k + 1].bufs[i].dirty ==> es[k].WriteBack? && es[k].i == i
    ensures cs[k + 1].disk != cs[k].disk ==>
      && es[k].WriteBack? && Holds(cs[k], es[k].p, es[k].i)
      && var b := cs[k].bufs[es[k].i]; cs[k + 1].disk == cs[k].disk[b.id := b.data]
  {
    assert Next(cs[k], es[k], cs[k + 1]);
    Transparent(cs, es, k);
    assert RefsOk(cs[k].bufs[i], cs[k].refs[i], i in cs[k].touched);
  }

  // The doubly linked list

  /** The links close the nodes of r into a circle, in that order. */
  ghost predicate Ring(next: seq<nat>, prev: seq<nat>, r: seq<nat>) {
    && |next| == |prev| && |r| > 0
    && (forall k :: 0 <= k < |r| ==> r[k] < |next|)
    && (forall j, k :: 0 <= j < k < |r| ==> r[j] != r[k])
    && (forall k {:trigger next[r[k]]} :: 0 <= k < |r| ==> next[r[k]] == Succ(r, k))
    && (forall k {:trigger prev[r[k]]} :: 0 <= k < |r| ==> prev[r[k]] == Pred(r, k))
  }

  function Succ(r: seq<nat>, k: nat): (x: nat)
    requires k < |r|
  {
    if k + 1 == |r| then r[0] else r[k + 1]
  }

  function Pred(r: seq<nat>, k: nat): (x: nat)
    requires k < |r|
  {
    if k == 0 then r[|r| - 1] else r[k - 1]
  }

  /** Distinct numbers below n. */
  ghost predicate Nodes(r: seq<nat>, n: nat) {
    (forall k :: 0 <= k < |r| ==> r[k] < n) && Distinct(r)
  }

  lemma UnlinkNode(next: seq<nat>, prev: seq<nat>, r: seq<nat>, k: nat, i: nat)
    requires Ring(next, prev, r) && 0 < k < |r| && i < |r| && i != k
    ensures next[r[k]] < |next| && prev[r[k]] < |next|
    ensures next[prev[r[k]] := next[r[k]]][r[i]] == if i + 1 == k then Succ(r, k) else Succ(r, i)
    ensures prev[next[r[k]] := prev[r[k]]][r[i]] == if i == k + 1 || (i == 0 && k + 1 == |r|) then Pred(r, k)
        else Pred(r, i)
  {
    assert next[r[k]] == Succ(r, k) && prev[r[k]] == Pred(r, k);
    assert next[r[i]] == Succ(r, i) && prev[r[i]] == Pred(r, i);
    assert r[i] == r[k - 1] <==> i == k - 1;
  }

  /** Taking a node out joins its neighbours. */
  lemma UnlinkRing(next: seq<nat>, prev: seq<nat>, r: seq<nat>, k: nat)
    requires Ring(next, prev, r) && 0 < k < |r|
    ensures next[r[k]] < |next| && prev[r[k]] < |next|
    ensures Ring(next[prev[r[k]] := next[r[k]]], prev[next[r[k]] := prev[r[k]]], r[..k] + r[k + 1..])
  {
    UnlinkNode(next, prev, r, k, 0);
    var q := r[..k] + r[k + 1..];
    assert Nodes(q, |next|);
    forall j | 0 <= j < |q|
      ensures next[prev[r[k]] := next[r[k]]][q[j]] == Succ(q, j)
      ensures prev[next[r[k]] := prev[r[k]]][q[j]] == Pred(q, j)
    {
      UnlinkNode(next, prev, r, k, if j < k then j else j + 1);
    }
  }

  lemma LinkNode(next: seq<nat>, prev: seq<nat>, r: seq<nat>, b: nat, i: nat)
    requires Ring(next, prev, r) && b < |next| && b !in r && i < |r|
    ensures next[r[0]] < |next|
    ensures next[b := next[r[0]]][r[0] := b][r[i]] == if i == 0 then b else Succ(r, i)
    ensures prev[b := r[0]][next[r[0]] := b][r[i]] == if i == 1 || (i == 0 && |r| == 1) then b else Pred(r, i)
  {
    assert next[r[0]] == Succ(r, 0);
    assert next[r[i]] == Succ(r, i) && prev[r[i]] == Pred(r, i);
    assert r[i] != b;
  }

  /** Putting a node behind the head. */
  lemma LinkRing(next: seq<nat>, prev: seq<nat>, r: seq<nat>, b: nat)
    requires Ring(next, prev, r) && b < |next| && b !in r
    ensures next[r[0]] < |next|
    ensures Ring(next[b := next[r[0]]][r[0] := b], prev[b := r[0]][next[r[0]] := b], [r[0], b] + r[1..])
  {
    var q := [r[0], b] + r[1..];
    LinkNode(next, prev, r, b, 0);
    assert next[r[0]] == Succ(r, 0);
    assert Nodes(q, |next|);
    forall j | 0 <= j < |q|
      ensures next[b := next[r[0]]][r[0] := b][q[j]] == Succ(q, j)
      ensures prev[b := r[0]][next[r[0]] := b][q[j]] == Pred(q, j)
    {
      if j != 1 {
        LinkNode(next, prev, r, b, if j == 0 then 0 else j - 1);
      }
    }
  }

  /** binit's and brelse's six assignments: take b off the circle, put it back behind the head h. */
  lemma RelinkRing(next: seq<nat>, prev: seq<nat>, order: seq<nat>, b: nat)
    requires |next| > 0 && b < |next| - 1 && Permutation(order, |next| - 1)
    requires Ring(next, prev, [|next| - 1] + order)
    ensures next[b] < |next| && prev[b] < |next|
    ensures var h := |next| - 1;
            var next', prev' := next[prev[b] := next[b]], prev[next[b] := prev[b]];
            && next'[h] < |next| && next[b] != b
            && Ring(next'[b := next'[h]][h := b], prev'[b := h][next'[h] := b], [h] + MoveToFront(order, b))
  {
    var h := |next| - 1;
    var r := [h] + order;
    hide Ring, MoveToFront, Without, Permutation;
    var at := RelinkOrder(order, b, h);
    RingStep(next, prev, r, at + 1);
    UnlinkRing(next, prev, r, at + 1);
    var next', prev' := next[prev[b] := next[b]], prev[next[b] := prev[b]];
    var q := [h] + Without(order, b);
    LinkRing(next', prev', q, b);
  }

  lemma RingStep(next: seq<nat>, prev: seq<nat>, r: seq<nat>, k: nat)
    requires Ring(next, prev, r) && k < |r| && |r| > 1
    ensures r[k] < |next| == |prev| && next[r[k]] != r[k]
  {
    assert next[r[k]] == Succ(r, k);
  }

  lemma RelinkOrder(order: seq<nat>, b: nat, h: nat) returns (at: nat)
    requires Permutation(order, h) && b < h
    ensures at < h == |order| && ([h] + order)[at + 1] == b
    ensures ([h] + order)[..at + 1] + ([h] + order)[at + 2..] == [h] + Without(order, b)
    ensures b !in [h] + Without(order, b)
    ensures [h, b] + ([h] + Without(order, b))[1..] == [h] + MoveToFront(order, b)
  {
    at := WithoutElements(order, b, h);
    CutBehind(order, at, h);
  }

  lemma CutBehind(order: seq<nat>, at: nat, h: nat)
    requires Permutation(order, h) && at < |order|
    ensures var w := order[..at] + order[at + 1..];
            && ([h] + order)[at + 1] == order[at]
            && ([h] + order)[..at + 1] + ([h] + order)[at + 2..] == [h] + w
            && order[at] !in [h] + w && order[at] != h
            && [h, order[at]] + ([h] + w)[1..] == [h] + ([order[at]] + w)
  {
    var r := [h] + order;
    assert r[..at + 1] == [h] + order[..at];
    assert r[at + 2..] == order[at + 1..];
  }

  datatype Outcome = Ok | Panic

  /** bcache: the buffers, and their links as indices; index |bufs| is the list head. */
  class BCache {
    var bufs: seq<Buf>
    var next: seq<nat>
    var prev: seq<nat>
    var disk: map<Id, Block>
    ghost var order: seq<nat>
    ghost var refs: seq<multiset<nat>>
    ghost var touched: set<nat>
    ghost var freed: seq<nat>
    ghost var clock: nat
    ghost var contents: map<Id, Block>  // the plain block map the cache stands for

    ghost function Abs(): (c: Cache)
      reads this
    {
      Cache(bufs, order, disk, refs, touched, freed, clock)
    }

    /** The links spell out the order. */
    ghost predicate Linked()
      reads this
    {
      |next| == |bufs| + 1 && Permutation(order, |bufs|) && Ring(next, prev, [|bufs|] + order)
    }

    ghost predicate Valid()
      reads this
    {
      Linked() && Good(Abs(), contents)
    }

    /** binit. */
    constructor (n: nat, disk: map<Id, Block>, bufs: seq<Buf>)
      requires |bufs| == n && forall i :: 0 <= i < n ==> IsFresh(bufs[i])
      ensures Init(Abs()) && Valid() && this.bufs == bufs && this.disk == disk == contents
    {
      this.bufs, this.disk, contents := bufs, disk, disk;
      refs, touched, clock := seq(n, _ => multiset{}), {}, n;
      freed := seq(n, i => i);
      next := seq(n + 1, _ => n);
      prev := seq(n + 1, _ => n);
      order := [];
      new;
      assert Ring(next, prev, [n]);
      var b := 0;
      while b < n
        invariant 0 <= b <= n && |next| == n + 1 && |order| == b
        invariant forall k :: 0 <= k < b ==> order[k] == b - 1 - k
        invariant Ring(next, prev, [n] + order)
        invariant this.bufs == bufs && this.disk == disk == contents && |refs| == |freed| == clock == n && touched == {}
        invariant forall i :: 0 <= i < n ==> refs[i] == multiset{} && freed[i] == i
      {
        Insert(b, n);
        b := b + 1;
      }
      FreshInv(Abs());
    }

    /** Put a new buffer behind the list head. */
    method Insert(b: nat, head: nat)
      requires |next| == head + 1 && b < head && b !in order && Ring(next, prev, [head] + order)
      modifies `next, `prev, `order
      ensures |next| == |old(next)| && order == [b] + old(order) && Ring(next, prev, [head] + order)
    {
      LinkRing(next, prev, [head] + order, b);
      next, prev := next[b := next[head]], prev[b := head];
      prev := prev[next[head] := b];
      next := next[head := b];
      assert [head, b] + ([head] + order)[1..] == [head] + ([b] + order);
      order := [b] + order;
    }

    /** bget's first loop, along next. */
    method FindCached(id: Id) returns (r: Option<nat>)
      requires Linked()
      ensures r.Some? ==> r.value < |bufs| && bufs[r.value].id == id
      ensures r.None? ==> forall i :: 0 <= i < |bufs| ==> bufs[i].id != id
    {
      var n := |bufs|;
      ghost var ring := [n] + order;
      ghost var k := 1;
      assert next[ring[0]] == Succ(ring, 0);
      var b := next[n];
      while b != n
        invariant 1 <= k <= n + 1 && b == if k == n + 1 then n else ring[k]
        invariant forall j :: 0 <= j < k - 1 ==> bufs[order[j]].id != id
        decreases n + 1 - k
      {
        assert b == order[k - 1];
        if bufs[b].id == id {
          return Some(b);
        }
        assert next[ring[k]] == Succ(ring, k);
        b := next[b];
        k := k + 1;
      }
      ScannedAll(order, bufs, id);
      return None;
    }

    /** bget's second loop, along prev from the least recently used end. */
    method FindVictim() returns (r: Option<nat>)
      requires Linked()
      ensures r.Some? ==> IsVictim(Abs(), r.value) && bufs[r.value].refcnt == 0 && !bufs[r.value].dirty
      ensures r.None? ==> NoneAfter(Abs(), -1) && forall i :: 0 <= i < |bufs| ==> bufs[i].refcnt > 0 || bufs[i].dirty
    {
      var n := |bufs|;
      ghost var ring := [n] + order;
      ghost var k := n;
      assert prev[ring[0]] == Pred(ring, 0);
      var b := prev[n];
      while b != n
        invariant 0 <= k <= n && b == ring[k] && NoneAfter(Abs(), k - 1)
        decreases k
      {
        assert k > 0 && b == order[k - 1];
        if bufs[b].refcnt == 0 && !bufs[b].dirty {
          return Some(b);
        }
        assert prev[ring[k]] == Pred(ring, k);
        b := prev[b];
        k := k - 1;
      }
      NoneAtAll(Abs());
      return None;
    }

    /** bget: a hit, or the recycling of the least recently used idle clean buffer; None is the panic. */
    method Bget(ghost p: nat, id: Id) returns (r: Option<nat>)
      requires Valid() && id.dev != 0
      modifies this
      ensures Valid() && contents == old(contents)
      ensures r.Some? ==> GetStep(old(Abs()), p, id, r.value, Abs())
      ensures r.None? <==>
        forall i :: 0 <= i < |old(bufs)| ==>
          old(bufs)[i].id != id && (old(bufs)[i].refcnt > 0 || old(bufs)[i].dirty)
      ensures r.None? ==> Abs() == old(Abs())
      ensures r.Some? ==> r.value < |old(bufs)| && bufs[r.value].id == id
      ensures r.Some? && old(bufs)[r.value].id == id ==>
        bufs == old(bufs)[r.value := old(bufs)[r.value].(refcnt := old(bufs)[r.value].refcnt + 1)]
      ensures r.Some? && old(bufs)[r.value].id != id ==>
        && old(bufs)[r.value].refcnt == 0 && !old(bufs)[r.value].dirty
        && bufs == old(bufs)[r.value := old(bufs)[r.value].(id := id, valid := false, dirty := false, refcnt := 1)]
        && (forall i :: 0 <= i < |old(bufs)| ==> old(bufs)[i].id != id)
        && forall i :: 0 <= i < |old(bufs)| && old(bufs)[i].refcnt == 0 && !old(bufs)[i].dirty ==>
             old(freed)[r.value] <= old(freed)[i]
      ensures order == old(order) && disk == old(disk) && freed == old(freed)
    {
      r := FindCached(id);
      if r.Some? {
        var b := r.value;
        bufs := bufs[b := bufs[b].(refcnt := bufs[b].refcnt + 1)];
        refs := refs[b := refs[b] + multiset{p}];
        HitKeeps(old(Abs()), contents, p, id, b, Abs());
        return;
      }
      r := FindVictim();
      if r.Some? {
        var b := r.value;
        VictimOldest(Abs(), b);
        bufs := bufs[b := bufs[b].(id := id, valid := false, dirty := false, refcnt := 1)];
        refs := refs[b := multiset{p}];
        MissKeeps(old(Abs()), contents, p, id, b, Abs());
      }
    }

    /** acquiresleep; false means the caller sleeps until the holder releases the buffer. */
    method Lock(p: nat, i: nat) returns (ok: bool)
      requires Valid() && i < |bufs| && p in refs[i]
      modifies this
      ensures Valid() && contents == old(contents)
      ensures ok <==> old(bufs)[i].owner == None
      ensures ok ==> bufs == old(bufs)[i := old(bufs)[i].(owner := Some(p))]
      ensures if ok then LockStep(old(Abs()), p, i, Abs()) else Abs() == old(Abs())
    {
      if bufs[i].owner != None {
        return false;
      }
      bufs := bufs[i := bufs[i].(owner := Some(p))];
      LockKeeps(old(Abs()), contents, Event.Lock(p, i), Abs());
      return true;
    }

    /** The rest of bread: the buffer the caller gets holds the block's latest contents. */
    method Bread(p: nat, i: nat) returns (r: Outcome)
      requires Valid() && Holds(Abs(), p, i)
      modifies this
      ensures Valid() && contents == old(contents) && |bufs| == |old(bufs)|
      ensures r == Panic <==> !old(bufs)[i].valid && old(bufs)[i].id !in disk
      ensures r == Ok ==> Holds(Abs(), p, i) && bufs[i].id in contents && bufs[i].data == contents[bufs[i].id]
      ensures r == Ok ==> bufs == old(bufs)[i := old(bufs)[i].(valid := true, data := contents[old(bufs)[i].id])]
      ensures r == Ok ==> FillStep(old(Abs()), p, i, Abs()) || Abs() == old(Abs())
    {
      if !bufs[i].valid {
        assert RefsOk(bufs[i], refs[i], i in touched);
        if bufs[i].id !in disk {
          return Panic;
        }
        bufs := bufs[i := bufs[i].(valid := true, data := disk[bufs[i].id])];
        FillKeeps(old(Abs()), contents, p, i, Abs());
      }
      return Ok;
    }

    /** A client changes the data of a buffer it holds. */
    method Modify(p: nat, i: nat, data: Block)
      requires Valid() && Holds(Abs(), p, i) && bufs[i].valid
      modifies this
      ensures Valid() && contents == old(contents)[old(bufs)[i].id := data]
      ensures ModifyStep(old(Abs()), p, i, old(bufs)[i].id, data, Abs())
      ensures bufs == old(bufs)[i := old(bufs)[i].(data := data)] && disk == old(disk)
    {
      ghost var id := bufs[i].id;
      bufs := bufs[i := bufs[i].(data := data)];
      touched := touched + {i};
      ModifyKeeps(old(Abs()), contents, p, i, id, data, Abs());
      contents := contents[id := data];
    }

    /** The flag log_write sets. */
    method Pin(p: nat, i: nat)
      requires Valid() && Holds(Abs(), p, i) && bufs[i].valid
      modifies this
      ensures Valid() && contents == old(contents) && PinStep(old(Abs()), p, i, Abs())
      ensures bufs == old(bufs)[i := old(bufs)[i].(dirty := true)] && disk == old(disk)
    {
      bufs := bufs[i := bufs[i].(dirty := true)];
      touched := touched - {i};
      PinKeeps(old(Abs()), contents, p, i, Abs());
    }

    /** bwrite: mark dirty, then the driver writes the block and clears the mark. */
    method Bwrite(p: nat, i: nat)
      requires Valid() && Holds(Abs(), p, i) && bufs[i].valid
      modifies this
      ensures Valid() && contents == old(contents) && WriteBackStep(old(Abs()), p, i, Abs())
      ensures disk == old(disk)[old(bufs)[i].id := old(bufs)[i].data] && disk[bufs[i].id] == contents[bufs[i].id]
      ensures bufs == old(bufs)[i := old(bufs)[i].(dirty := false)]
    {
      bufs := bufs[i := bufs[i].(dirty := true)];
      disk := disk[bufs[i].id := bufs[i].data];
      bufs := bufs[i := bufs[i].(dirty := false)];
      touched := touched - {i};
      WriteBackKeeps(old(Abs()), contents, p, i, Abs());
    }

    /** The first half of brelse. */
    method Unlock(p: nat, i: nat)
      requires Valid() && Holds(Abs(), p, i) && i !in touched
      modifies this
      ensures Valid() && contents == old(contents) && UnlockStep(old(Abs()), p, i, Abs())
      ensures bufs == old(bufs)[i := old(bufs)[i].(owner := None)]
    {
      bufs := bufs[i := bufs[i].(owner := None)];
      LockKeeps(old(Abs()), contents, Event.Unlock(p, i), Abs());
    }

    /** Move a buffer to the head of the list. */
    method Relink(b: nat)
      requires Linked() && b < |bufs|
      modifies `next, `prev, `order
      ensures Linked() && order == MoveToFront(old(order), b) && |order| == |old(order)| == |bufs|
    {
      var head := |bufs|;
      RelinkRing(next, prev, order, b);
      prev := prev[next[b] := prev[b]];
      next := next[prev[b] := next[b]];
      next, prev := next[b := next[head]], prev[b := head];
      prev := prev[next[head] := b];
      next := next[head := b];
      MoveToFrontPermutes(order, b, head);
      order := MoveToFront(order, b);
    }

    /** The second half of brelse: drop the reference, and on the last one move to the front of the list. */
    method Drop(p: nat, i: nat)
      requires Valid() && i < |bufs| && p in refs[i] && (Holds(Abs(), p, i) ==> refs[i][p] > 1)
      modifies this
      ensures Valid() && contents == old(contents) && DropStep(old(Abs()), p, i, Abs())
      ensures old(bufs)[i].refcnt > 0
      ensures bufs == old(bufs)[i := old(bufs)[i].(refcnt := old(bufs)[i].refcnt - 1)]
      ensures |order| == |old(order)| == |bufs|
      ensures old(bufs)[i].refcnt == 1 ==> exists at :: Fronted(old(order), at, i, order)
      ensures old(bufs)[i].refcnt > 1 ==> order == old(order)
    {
      CanDrop(Abs(), contents, p, i);
      hide Good, Ring, Fronted, MoveToFront, Permutation;
      bufs := bufs[i := bufs[i].(refcnt := bufs[i].refcnt - 1)];
      refs := refs[i := refs[i] - multiset{p}];
      if bufs[i].refcnt == 0 {
        MovedFrom(order, i, |bufs|);
        Relink(i);
        freed, clock := freed[i := clock], clock + 1;
      }
      hide Linked;
      DropKeeps(old(Abs()), contents, p, i, Abs());
    }
  }

  lemma CanDrop(c: Cache, m: map<Id, Block>, p: nat, i: nat)
    requires Good(c, m) && i < |c.bufs| && i < |c.refs| && p in c.refs[i]
    ensures c.bufs[i].refcnt > 0 && |c.refs| == |c.freed| == |c.bufs| == |c.order| && Permutation(c.order, |c.bufs|)
  {
    assert RefsOk(c.bufs[i], c.refs[i], i in c.touched);
  }

  lemma FreshInv(c: Cache)
    requires Init(c)
    ensures Inv(c)
  {
  }

  lemma NoneAtAll(c: Cache)
    requires Permutation(c.order, |c.bufs|) && NoneAfter(c, -1)
    ensures forall i :: 0 <= i < |c.bufs| ==> c.bufs[i].refcnt > 0 || c.bufs[i].dirty
  {
    forall i | 0 <= i < |c.bufs|
      ensures c.bufs[i].refcnt > 0 || c.bufs[i].dirty
    {
      var k := Position(c.order, |c.bufs|, i);
    }
  }

  lemma ScannedAll(order: seq<nat>, bufs: seq<Buf>, id: Id)
    requires Permutation(order, |bufs|)
    requires forall j :: 0 <= j < |order| ==> bufs[order[j]].id != id
    ensures forall i :: 0 <= i < |bufs| ==> bufs[i].id != id
  {
    forall i | 0 <= i < |bufs|
      ensures bufs[i].id != id
    {
      var k := Position(order, |bufs|, i);
    }
  }
}
