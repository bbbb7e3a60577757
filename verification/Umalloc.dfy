/**
 The user-level allocator (umalloc.c): a circular, address-ordered, coalesced list of free blocks.
 Addresses and sizes are in units of one header. A set of blocks is a map from the address of a
 block's header to the block's size, header included.
 */
module Umalloc {
  import opened Common

  type Blocks = map<int, int>

  /** Unit u lies in one of the blocks. */
  ghost predicate Covers(m: Blocks, u: int) {
    exists a :: a in m && a <= u < a + m[a]
  }

  /** n follows a in the circle: the next higher block, or the base after the highest one. */
  ghost predicate Follows(free: Blocks, base: int, a: int, n: int) {
    && n in free
    && if a < n then forall x :: x in free ==> x <= a || n <= x
       else n == base && forall x :: x in free ==> x <= a
  }

  /** The headers of the free blocks, the base among them, form one circle in address order. */
  ghost predicate Circle(ptr: seq<int>, free: Blocks, base: int) {
    && base in free && (forall a :: a in free ==> base <= a && 0 <= a < |ptr|)
    && forall a {:trigger ptr[a]} :: a in free ==> Follows(free, base, a, ptr[a])
  }

  /** Between any two free blocks there is a gap: blocks that touch have been merged. */
  ghost predicate Merged(free: Blocks) {
    forall a, b :: a in free && b in free && a < b ==> a + free[a] < b
  }

  ghost predicate Apart(a: int, n: int, b: int, m: int) {
    a + n <= b || b + m <= a
  }

  ghost predicate LiveApart(free: Blocks, live: Blocks) {
    && (forall a, b :: a in free && b in live ==> Apart(a, free[a], b, live[b]))
    && forall a, b :: a in live && b in live && a != b ==> Apart(a, live[a], b, live[b])
  }

  /** Only the base is empty. It lies below the heap. */
  ghost predicate Sized(free: Blocks, live: Blocks, base: int, brk: int) {
    && base in free && free[base] == 0 && base < brk
    && (forall a :: a in free && a != base ==> base < a && free[a] > 0 && a + free[a] <= brk)
    && forall a :: a in live ==> base < a && live[a] > 0 && a + live[a] <= brk
  }

  // Linking and unlinking

  /** p -> bp -> what p pointed to. */
  lemma Link(ptr: seq<int>, free: Blocks, base: int, p: int, bp: int, n: int)
    requires Circle(ptr, free, base) && p in free && 0 <= bp < |ptr| && bp !in free && p < bp
    requires (p < ptr[p] ==> bp < ptr[p])
    ensures Circle(ptr[bp := ptr[p]][p := bp], free[bp := n], base)
  {
    hide Follows;
    var ptr', free' := ptr[bp := ptr[p]][p := bp], free[bp := n];
    var q := ptr[p];
    forall a | a in free'
      ensures Follows(free', base, a, ptr'[a]) == true
    {
      var x := if a == bp then p else a;
      LinkNode(free, base, p, bp, n, q, x, ptr[x]);
    }
  }

  lemma LinkNode(free: Blocks, base: int, p: int, bp: int, size: int, q: int, a: int, n: int)
    requires p in free && base in free && base <= p && bp !in free && p < bp && (p < q ==> bp < q) && a in free
    requires base <= a
    requires Follows(free, base, p, q) == true && Follows(free, base, a, n) == true
    ensures Follows(free[bp := size], base, a, if a == p then bp else n) == true
    ensures Follows(free[bp := size], base, bp, q) == true
  {
  }

  /** p -> what the block after it pointed to. */
  lemma Unlink(ptr: seq<int>, free: Blocks, base: int, p: int)
    requires Circle(ptr, free, base) && p in free && p < ptr[p]
    ensures 0 <= ptr[p] < |ptr| && Circle(ptr[p := ptr[ptr[p]]], free - {ptr[p]}, base)
  {
    var q := ptr[p];
    assert Follows(free, base, p, q);
    var ptr', free' := ptr[p := ptr[q]], free - {q};
    forall a | a in free'
      ensures Follows(free', base, a, ptr'[a])
    {
      UnlinkNode(free, base, p, q, ptr[q], a, ptr[a]);
    }
  }

  lemma UnlinkNode(free: Blocks, base: int, p: int, q: int, r: int, a: int, n: int)
    requires p in free && base in free && p < q && base <= p && a in free && a != q && base <= a
    requires Follows(free, base, p, q) && Follows(free, base, q, r) && Follows(free, base, a, n)
    ensures Follows(free - {q}, base, a, if a == p then r else n)
  {
    assert q in free;
    if a != p {
      assert n != q;
    }
  }

  lemma Resize(ptr: seq<int>, free: Blocks, base: int, a: int, n: int)
    requires Circle(ptr, free, base) && a in free
    ensures Circle(ptr, free[a := n], base)
  {
    var free' := free[a := n];
    forall x | x in free'
      ensures Follows(free', base, x, ptr[x])
    {
      assert Follows(free, base, x, ptr[x]);
    }
  }

  // free on sets of blocks

  /** Block b of n units can be added: p is the last free block below it. */
  ghost predicate Fits(free: Blocks, base: int, p: int, b: int, n: int) {
    && Merged(free) && base in free && base < b && n > 0 && p in free && p < b && b !in free
    && (forall a :: a in free ==> Apart(a, free[a], b, n) && (a <= p || b < a))
    && forall a :: a in free && a != base ==> free[a] > 0
  }

  /** The size of b once merged with the block above, if they touch. */
  function Joined(free: Blocks, b: int, n: int): (m: int) {
    if b + n in free then n + free[b + n] else n
  }

  /** The free blocks after freeing b, with p below it. */
  function Freed(free: Blocks, p: int, b: int, n: int): (r: Blocks)
    requires p in free
  {
    var m := Joined(free, b, n);
    if p + free[p] == b then (free - {b + n})[p := free[p] + m] else (free - {b + n})[b := m]
  }

  /** Freeing leaves a gap between any two free blocks. */
  lemma FreedMerged(free: Blocks, base: int, p: int, b: int, n: int)
    requires Fits(free, base, p, b, n)
    ensures Merged(Freed(free, p, b, n))
  {
    var r := Freed(free, p, b, n);
    forall x, y | x in r && y in r && x < y
      ensures x + r[x] < y
    {
      assert p + free[p] <= b;
      if x != p && x != b && x < p {
        assert x + free[x] < p;
      }
      assert y in free || y == b;
      if y in free && b < y {
        assert b + n <= y;
      }
    }
  }

  /** Freeing adds exactly the units of b. */
  lemma FreedCovers(free: Blocks, base: int, p: int, b: int, n: int, u: int)
    requires Fits(free, base, p, b, n)
    ensures Covers(Freed(free, p, b, n), u) <==> Covers(free, u) || b <= u < b + n
  {
    if Covers(free, u) || b <= u < b + n {
      FreedHas(free, base, p, b, n, u);
    }
    if Covers(Freed(free, p, b, n), u) {
      FreedHasOnly(free, base, p, b, n, u);
    }
  }

  lemma FreedHas(free: Blocks, base: int, p: int, b: int, n: int, u: int)
    requires Fits(free, base, p, b, n) && (Covers(free, u) || b <= u < b + n)
    ensures Covers(Freed(free, p, b, n), u)
  {
    hide Merged;
    var r := Freed(free, p, b, n);
    var top := if p + free[p] == b then p else b;
    assert top in r;
    assert p in free && Apart(p, free[p], b, n);
    if b <= u < b + n {
      assert top <= u < top + r[top];
    } else {
      var a :| a in free && a <= u < a + free[a];
      if a != b + n && a != p {
        assert a in r && r[a] == free[a];
      } else if a == p && top == b {
        assert p != b + n && p in r && r[p] == free[p];
      } else {
        assert top <= u < top + r[top];
      }
    }
  }

  lemma FreedHasOnly(free: Blocks, base: int, p: int, b: int, n: int, u: int)
    requires Fits(free, base, p, b, n) && Covers(Freed(free, p, b, n), u)
    ensures Covers(free, u) || b <= u < b + n
  {
    hide Merged;
    var r := Freed(free, p, b, n);
    var top := if p + free[p] == b then p else b;
    var a :| a in r && a <= u < a + r[a];
    if a != top {
      assert a in free && r[a] == free[a];
    } else if b + n <= u {
      assert b + n in free;
    } else if u < b {
      assert p in free && p <= u < p + free[p];
    }
  }

  lemma Overwrite(m: seq<int>, p: int, x: int, b: int, y: int, z: int)
    requires 0 <= p < |m| && 0 <= b < |m|
    ensures m[p := x][b := y][p := z] == m[b := y][p := z]
  {
  }

  lemma Absent(m: map<int, int>, k: int)
    requires k !in m
    ensures m - {k} == m
  {
  }

  lemma Added(m: map<int, int>, k: int, v: int)
    requires k !in m
    ensures m[k := v] - {k} == m
  {
  }

  /** free's first branch: b absorbs the block above it or points to it; p is made to point to b. */
  lemma UpperCircle(ptr: seq<int>, free: Blocks, base: int, p: int, b: int, n: int)
    requires Circle(ptr, free, base) && Fits(free, base, p, b, n) && 0 <= b < |ptr|
    ensures 0 <= ptr[p] < |ptr| && (b + n == ptr[p] <==> b + n in free)
    ensures Circle(ptr[b := if b + n == ptr[p] then ptr[ptr[p]] else ptr[p]][p := b],
                   (free - {b + n})[b := Joined(free, b, n)], base) == true
  {
    hide Follows, Merged, Apart;
    var q, m := ptr[p], Joined(free, b, n);
    NextAbove(ptr, free, base, p, b, n);
    if b + n == q {
      Unlink(ptr, free, base, p);
      Link(ptr[p := ptr[q]], free - {q}, base, p, b, m);
      Overwrite(ptr, p, ptr[q], b, ptr[q], b);
    } else {
      Link(ptr, free, base, p, b, m);
      Absent(free, b + n);
    }
  }

  /** free's second branch: p absorbs the block it points to. */
  lemma LowerCircle(ptr: seq<int>, free: Blocks, base: int, p: int, k: int)
    requires Circle(ptr, free, base) && p in free && p < ptr[p]
    ensures 0 <= ptr[p] < |ptr| && Circle(ptr[p := ptr[ptr[p]]], (free - {ptr[p]})[p := k], base) == true
  {
    Unlink(ptr, free, base, p);
    Resize(ptr[p := ptr[ptr[p]]], free - {ptr[p]}, base, p, k);
  }

  /** The effect of free's assignments on the headers. */
  lemma FreeCircle(ptr: seq<int>, free: Blocks, base: int, p: int, b: int, n: int)
    requires Circle(ptr, free, base) == true && Fits(free, base, p, b, n) == true && 0 <= b < |ptr|
    ensures 0 <= ptr[p] < |ptr| && (b + n == ptr[p] <==> b + n in free)
    ensures var ptr1 := ptr[b := if b + n == ptr[p] then ptr[ptr[p]] else ptr[p]];
            Circle(ptr1[p := if p + free[p] == b then ptr1[b] else b], Freed(free, p, b, n), base) == true
  {
    hide Follows, Merged, Apart;
    UpperCircle(ptr, free, base, p, b, n);
    if p + free[p] == b {
      var ptr1 := ptr[b := if b + n == ptr[p] then ptr[ptr[p]] else ptr[p]];
      var m := Joined(free, b, n);
      var free1 := (free - {b + n})[b := m];
      LowerCircle(ptr1[p := b], free1, base, p, free[p] + m);
      assert ptr1[p := b][p := ptr1[b]] == ptr1[p := ptr1[b]];
      Added(free - {b + n}, b, m);
      assert (free1 - {b})[p := free[p] + m] == Freed(free, p, b, n);
    }
  }

  /** The block after p is the next one above b, if there is one. */
  lemma NextAbove(ptr: seq<int>, free: Blocks, base: int, p: int, b: int, n: int)
    requires Circle(ptr, free, base) && Fits(free, base, p, b, n) && 0 <= b < |ptr|
    ensures ptr[p] in free && 0 <= ptr[p] < |ptr| && (b + n == ptr[p] <==> b + n in free)
    ensures p < ptr[p] ==> b < ptr[p] && Follows(free, base, ptr[p], ptr[ptr[p]])
    ensures b + n == ptr[p] ==> b < ptr[ptr[p]] || ptr[ptr[p]] == base
  {
    assert Follows(free, base, p, ptr[p]);
    assert Follows(free, base, ptr[p], ptr[ptr[p]]);
    if b + n in free {
      assert ptr[p] <= b + n;
      assert Apart(ptr[p], free[ptr[p]], b, n);
    }
  }

  // malloc on sets of blocks

  /** The free blocks after taking n units from the end of block p. */
  function Taken(free: Blocks, p: int, n: int): (r: Blocks)
    requires p in free
  {
    if free[p] == n then free - {p} else free[p := free[p] - n]
  }

  lemma TakenCovers(free: Blocks, base: int, p: int, n: int, u: int)
    requires Merged(free) && p in free && 0 < n <= free[p]
    requires forall a :: a in free && a != base ==> free[a] > 0
    ensures Covers(Taken(free, p, n), u) <==> Covers(free, u) && !(p + free[p] - n <= u < p + free[p])
    ensures p + free[p] - n <= u < p + free[p] ==> Covers(free, u)
  {
    var r := Taken(free, p, n);
    if Covers(free, u) {
      var a :| a in free && a <= u < a + free[a];
      if a != p {
        assert a in r && r[a] == free[a];
        assert a < p ==> a + free[a] < p;
        assert p < a ==> p + free[p] < a;
      } else if u < p + free[p] - n {
        assert p in r && p <= u < p + r[p];
      }
    }
    if Covers(r, u) {
      var a :| a in r && a <= u < a + r[a];
      assert a in free && a <= u < a + free[a];
      assert a < p ==> a + free[a] < p;
      assert p < a ==> p + free[p] < a;
    }
  }

  // The heap's invariant

  ghost predicate Headers(size: seq<int>, m: Blocks) {
    forall a :: a in m ==> 0 <= a < |size| && size[a] == m[a]
  }

  /** Free and live blocks are apart from each other, and together are all the units obtained. */
  ghost predicate Heaped(free: Blocks, live: Blocks, base: int, brk: int, obtained: set<int>) {
    && Merged(free) && LiveApart(free, live) && Sized(free, live, base, brk)
    && forall u :: u in obtained <==> Covers(free, u) || Covers(live, u)
  }

  lemma LiveRemoved(live: Blocks, b: int, u: int)
    requires b in live && forall a :: a in live && a != b ==> Apart(a, live[a], b, live[b])
    ensures Covers(live, u) <==> Covers(live - {b}, u) || b <= u < b + live[b]
  {
    if Covers(live - {b}, u) {
      var a :| a in live - {b} && a <= u < a + (live - {b})[a];
      assert a in live;
    }
    if Covers(live, u) {
      var a :| a in live && a <= u < a + live[a];
      assert a != b ==> a in live - {b};
    }
  }

  lemma LiveAdded(live: Blocks, b: int, n: int, u: int)
    requires b !in live
    ensures Covers(live[b := n], u) <==> Covers(live, u) || b <= u < b + n
  {
    var live' := live[b := n];
    if Covers(live, u) {
      var a :| a in live && a <= u < a + live[a];
      assert a in live' && live'[a] == live[a];
    }
    if b <= u < b + n {
      assert b in live' && live'[b] == n;
    }
  }

  /** A live block can be freed. */
  lemma LiveFits(free: Blocks, live: Blocks, base: int, brk: int, p: int, b: int)
    requires Merged(free) && LiveApart(free, live) && Sized(free, live, base, brk) && b in live
    requires p in free && p < b && forall a :: a in free ==> a <= p || b < a
    ensures Fits(free, base, p, b, live[b])
  {
    forall a | a in free
      ensures Apart(a, free[a], b, live[b])
    {
    }
  }

  lemma LiveAt(free: Blocks, live: Blocks, base: int, brk: int, obtained: set<int>, b: int)
    requires Heaped(free, live, base, brk, obtained) && b in live
    ensures base < b && b !in free
  {
    assert b in free ==> Apart(b, free[b], b, live[b]);
  }

  /** free moves a block from live to free, and keeps everything else. */
  lemma FreedKeeps(free: Blocks, live: Blocks, base: int, brk: int, obtained: set<int>, p: int, b: int)
    requires Heaped(free, live, base, brk, obtained) && b in live
    requires p in free && p < b && forall a :: a in free ==> a <= p || b < a
    ensures Fits(free, base, p, b, live[b])
    ensures Heaped(Freed(free, p, b, live[b]), live - {b}, base, brk, obtained) == true
  {
    var n := live[b];
    var free', live' := Freed(free, p, b, n), live - {b};
    LiveFits(free, live, base, brk, p, b);
    FreedMerged(free, base, p, b, n);
    FreedSized(free, live, base, brk, p, b);
    FreedApart(free, live, base, brk, p, b);
    forall u
      ensures u in obtained <==> Covers(free', u) || Covers(live', u)
    {
      FreedCovers(free, base, p, b, n, u);
      LiveRemoved(live, b, u);
    }
  }

  lemma FreedSized(free: Blocks, live: Blocks, base: int, brk: int, p: int, b: int)
    requires Sized(free, live, base, brk) && b in live && Fits(free, base, p, b, live[b])
    ensures Sized(Freed(free, p, b, live[b]), live - {b}, base, brk)
  {
    assert p == base ==> p + free[p] != b;
  }

  lemma FreedApart(free: Blocks, live: Blocks, base: int, brk: int, p: int, b: int)
    requires LiveApart(free, live) && Sized(free, live, base, brk) && b in live && Fits(free, base, p, b, live[b])
    ensures LiveApart(Freed(free, p, b, live[b]), live - {b})
  {
    var n := live[b];
    var free', live' := Freed(free, p, b, n), live - {b};
    forall x, y | x in free' && y in live'
      ensures Apart(x, free'[x], y, live'[y])
    {
      assert y in live && live'[y] == live[y];
      assert Apart(y, live[y], b, n) && Apart(p, free[p], y, live[y]);
      if b + n in free {
        assert Apart(b + n, free[b + n], y, live[y]);
      }
      if x in free && x != p {
        assert Apart(x, free[x], y, live[y]);
      }
    }
  }

  /** malloc moves the end of a free block to live. */
  lemma TakenKeeps(free: Blocks, live: Blocks, base: int, brk: int, obtained: set<int>, p: int, n: int)
    requires Heaped(free, live, base, brk, obtained) && p in free && 0 < n <= free[p]
    ensures p + free[p] - n !in live && p != base
    ensures Heaped(Taken(free, p, n), live[p + free[p] - n := n], base, brk, obtained) == true
  {
    var b := p + free[p] - n;
    var free', live' := Taken(free, p, n), live[b := n];
    assert p != base;
    assert b in live ==> Apart(p, free[p], b, live[b]);
    TakenApart(free, live, base, brk, p, n);
    forall u
      ensures u in obtained <==> Covers(free', u) || Covers(live', u)
    {
      TakenCovers(free, base, p, n, u);
      LiveAdded(live, b, n, u);
    }
  }

  lemma TakenApart(free: Blocks, live: Blocks, base: int, brk: int, p: int, n: int)
    requires Merged(free) && LiveApart(free, live) && Sized(free, live, base, brk) && p in free && 0 < n <= free[p]
    ensures LiveApart(Taken(free, p, n), live[p + free[p] - n := n])
    ensures Merged(Taken(free, p, n)) && Sized(Taken(free, p, n), live[p + free[p] - n := n], base, brk)
  {
    TakenSized(free, live, base, brk, p, n);
    hide Merged, LiveApart, Sized, Taken;
    var b := p + free[p] - n;
    var free', live' := Taken(free, p, n), live[b := n];
    assert LiveApart(free', live') by {
      forall x, y | x in free' && y in live'
        ensures Apart(x, free'[x], y, live'[y])
      {
        TakenFreeLive(free, live, p, n, x, y);
      }
      forall x, y | x in live' && y in live' && x != y
        ensures Apart(x, live'[x], y, live'[y])
      {
        TakenLiveLive(free, live, p, n, x, y);
      }
      AllApart(free', live');
    }
  }

  lemma AllApart(free: Blocks, live: Blocks)
    requires forall a, b :: a in free && b in live ==> Apart(a, free[a], b, live[b])
    requires forall a, b :: a in live && b in live && a != b ==> Apart(a, live[a], b, live[b])
    ensures LiveApart(free, live)
  {
  }

  lemma TakenFreeLive(free: Blocks, live: Blocks, p: int, n: int, x: int, y: int)
    requires Merged(free) && LiveApart(free, live) && p in free && 0 < n <= free[p]
    requires x in Taken(free, p, n) && y in live[p + free[p] - n := n]
    ensures Apart(x, Taken(free, p, n)[x], y, live[p + free[p] - n := n][y])
  {
    var b := p + free[p] - n;
    assert x in free && Taken(free, p, n)[x] <= free[x];
    if y == b {
      assert x < p ==> x + free[x] < p;
      assert p < x ==> p + free[p] < x;
    } else {
      assert Apart(x, free[x], y, live[y]);
    }
  }

  lemma TakenLiveLive(free: Blocks, live: Blocks, p: int, n: int, x: int, y: int)
    requires LiveApart(free, live) && p in free && 0 < n <= free[p] && x != y
    requires var live' := live[p + free[p] - n := n]; x in live' && y in live'
    ensures var live' := live[p + free[p] - n := n]; Apart(x, live'[x], y, live'[y])
  {
    var b := p + free[p] - n;
    assert x != b ==> Apart(p, free[p], x, live[x]);
    assert y != b ==> Apart(p, free[p], y, live[y]);
  }

  lemma TakenSized(free: Blocks, live: Blocks, base: int, brk: int, p: int, n: int)
    requires Merged(free) && Sized(free, live, base, brk) && p in free && 0 < n <= free[p]
    ensures Merged(Taken(free, p, n)) && Sized(Taken(free, p, n), live[p + free[p] - n := n], base, brk)
  {
  }

  ghost function Units(a: int, n: nat): (us: set<int>) {
    if n == 0 then {} else Units(a, n - 1) + {a + n - 1}
  }

  lemma {:induction false} UnitsIn(a: int, n: nat, u: int)
    ensures u in Units(a, n) <==> a <= u < a + n
  {
    if n > 0 {
      UnitsIn(a, n - 1, u);
    }
  }

  /** sbrk hands out the units from brk on. */
  lemma GrownKeeps(free: Blocks, live: Blocks, base: int, brk: int, obtained: set<int>, n: int)
    requires Heaped(free, live, base, brk, obtained) && n > 0
    ensures brk !in live
    ensures Heaped(free, live[brk := n], base, brk + n, obtained + Units(brk, n))
  {
    var live', o' := live[brk := n], obtained + Units(brk, n);
    forall x, y | x in free && y in live'
      ensures Apart(x, free[x], y, live'[y])
    {
      assert y != brk ==> Apart(x, free[x], y, live[y]);
    }
    forall u
      ensures u in o' <==> Covers(free, u) || Covers(live', u)
    {
      LiveAdded(live, brk, n, u);
      UnitsIn(brk, n, u);
    }
  }

  /** The header of the new memory is no other block's. */
  lemma GrownHeaders(size: seq<int>, free: Blocks, live: Blocks, base: int, brk: int, n: int)
    requires Sized(free, live, base, brk) && Headers(size, free) && Headers(size, live) && 0 <= brk < |size|
    ensures Headers(size[brk := n], free) && Headers(size[brk := n], live[brk := n])
  {
  }

  // Going round the circle

  /** The free blocks above p. */
  ghost function Above(free: Blocks, p: int): (s: set<int>) {
    set a | a in free && p < a
  }

  lemma AboveShrinks(free: Blocks, p: int, q: int)
    requires p < q && q in free
    ensures |Above(free, q)| < |Above(free, p)|
  {
    var s, t := Above(free, q), Above(free, p);
    assert q in t - s;
    assert t == s + (t - s) && s * (t - s) == {};
  }

  /** Going from p to q comes closer to the goal. */
  ghost predicate Closer(free: Blocks, p: int, q: int, goal: int) {
    (q <= goal < p) || ((p <= goal ==> q <= goal) && |Above(free, q)| < |Above(free, p)|)
  }

  /** Going round from p, block b comes no later than f. */
  ghost predicate Reaches(p: int, b: int, f: int) {
    if p <= b then b <= f || f < p else b <= f < p
  }

  /** Going round from just after f, block x comes before p. */
  ghost predicate Passed(f: int, x: int, p: int) {
    if f < p then f < x < p else f < x || x < p
  }

  /** Some free block has n units. */
  ghost predicate HasLarge(free: Blocks, n: int) {
    exists a :: a in free && free[a] >= n
  }

  /** Going round from just after f, p is the first free block with n units. */
  ghost predicate NextFit(free: Blocks, f: int, n: int, p: int) {
    p in free && free[p] >= n && forall x :: x in free && Passed(f, x, p) ==> free[x] < n
  }

  /** What morecore asks the system for. */
  function Ask(nu: nat): (m: nat)
    ensures m >= 4096 && m >= nu && (m == 4096 || m == nu)
  {
    if nu < 4096 then 4096 else nu
  }

  function Nunits(nbytes: nat): (n: nat)
    ensures n >= 1 && nbytes <= (n - 1) * 16 < nbytes + 16
  {
    (nbytes + 16 - 1) / 16 + 1
  }

  /** Memory up to `limit` units; `freep` is null before the first malloc. Headers are two fields per unit. */
  class Heap {
    const base: int
    const limit: int
    var ptr: seq<int>
    var size: seq<int>
    var freep: Option<int>
    var brk: int
    ghost var free: Blocks
    ghost var live: Blocks
    ghost var obtained: set<int>

    ghost predicate Valid()
      reads this
    {
      && 0 <= base < brk <= limit == |ptr| == |size|
      && Heaped(free, live, base, brk, obtained) && Headers(size, live)
      && if freep.None? then free == map[base := 0] && live == map[] else Ready()
    }

    ghost predicate Ready()
      reads this
    {
      Circle(ptr, free, base) && Headers(size, free) && freep.Some? && freep.value in free
    }

    constructor (base: int, brk: int, limit: int)
      requires 0 <= base < brk <= limit
      ensures Valid() && live == map[] && obtained == {} && this.brk == brk && this.limit == limit
    {
      this.base, this.brk, this.limit := base, brk, limit;
      ptr, size := seq(limit, _ => 0), seq(limit, _ => 0);
      freep := None;
      free, live, obtained := map[base := 0], map[], {};
    }

    /** Another part of the program obtains memory from the system. */
    method OtherSbrk(n: nat) returns (ok: bool)
      requires Valid()
      modifies `brk
      ensures Valid() && (ok <==> old(brk) + n <= limit) && brk == old(brk) + if ok then n else 0
    {
      ok := brk + n <= limit;
      if ok {
        brk := brk + n;
      }
    }

    /** free's scan: the last free block below bp. */
    method FindPlace(bp: int) returns (p: int)
      requires Ready() && base < bp && bp !in free
      ensures p in free && p < bp && forall a :: a in free ==> a <= p || bp < a
    {
      p := freep.value;
      while !(bp > p && bp < ptr[p])
        invariant p in free
        decreases if p < bp then 0 else 1, |Above(free, p)|
      {
        assert Follows(free, base, p, ptr[p]);
        if p >= ptr[p] && (bp > p || bp < ptr[p]) {
          break;
        }
        if p < ptr[p] {
          AboveShrinks(free, p, ptr[p]);
        }
        p := ptr[p];
      }
      assert Follows(free, base, p, ptr[p]);
    }

    /** free's header updates. */
    method PutBehind(p: int, bp: int)
      requires |ptr| == |size| && 0 <= p < |ptr| && 0 <= bp < |ptr| && 0 <= ptr[p] < |ptr| && p != bp
      modifies `ptr, `size
      ensures ptr == PtrAfter(old(ptr), old(size), p, bp) && size == SizeAfter(old(ptr), old(size), p, bp)
      ensures |ptr| == |old(ptr)| && |size| == |old(size)|
    {
      if bp + size[bp] == ptr[p] {
        size := size[bp := size[bp] + size[ptr[p]]];
        ptr := ptr[bp := ptr[ptr[p]]];
      } else {
        ptr := ptr[bp := ptr[p]];
      }
      if p + size[p] == bp {
        size := size[p := size[p] + size[bp]];
        ptr := ptr[p := ptr[bp]];
      } else {
        ptr := ptr[p := bp];
      }
    }

    /** Give a block back. Its units become free, merged with the free blocks next to them. */
    method Free(ap: int)
      requires Valid() && ap - 1 in live
      modifies `ptr, `size, `freep, `free, `live
      ensures Valid() == true && live == old(live) - {ap - 1} && freep.Some?
      ensures freep.value in old(free) && freep.value < ap - 1
      ensures forall a :: a in old(free) ==> a <= freep.value || ap - 1 < a
      ensures forall u :: Covers(free, u) <==> old(Covers(free, u)) || ap - 1 <= u < ap - 1 + old(live)[ap - 1]
      ensures exists a :: a in free && free[a] >= old(live)[ap - 1]
    {
      var bp := ap - 1;
      ghost var n, f, l := live[bp], free, live;
      hide Heaped, Merged, LiveApart, Sized, Covers, Circle, Headers, Freed, Fits, PtrAfter, SizeAfter;
      LiveAt(f, l, base, brk, obtained, bp);
      var p := FindPlace(bp);
      FreedKeeps(f, l, base, brk, obtained, p, bp);
      FreeWrites(ptr, size, f, l, base, brk, obtained, p, bp);
      FreedUnits(f, base, p, bp, n);
      PutBehind(p, bp);
      freep := Some(p);
      free, live := Freed(f, p, bp, n), l - {bp};
    }

    /** Obtain at least 4096 units from the system and free them; some free block then has nu units. */
    method Morecore(nu: nat) returns (r: Option<int>)
      requires Valid() && freep.Some? && nu > 0
      modifies `ptr, `size, `freep, `brk, `free, `live, `obtained
      ensures Valid() && live == old(live)
      ensures r.None? ==>
        && brk == old(brk) && brk + Ask(nu) > limit && free == old(free) && freep == old(freep) && ptr == old(ptr)
      ensures r.Some? ==> freep == r && brk == old(brk) + Ask(nu) <= limit
      ensures r.Some? ==>
        obtained == old(obtained) + Units(old(brk), Ask(nu)) && exists a :: a in free && free[a] >= nu
    {
      var n := if nu < 4096 then 4096 else nu;
      if brk + n > limit {
        return None;
      }
      GrownHeaders(size, free, live, base, brk, n);
      hide Merged, LiveApart, Covers, Circle, Units, Heaped, Headers, Sized;
      GrownKeeps(free, live, base, brk, obtained, n);
      var hp := brk;
      size := size[hp := n];
      brk := brk + n;
      live, obtained := live[hp := n], obtained + Units(hp, n);
      Free(hp + 1);
      Added(old(live), hp, n);
      return freep;
    }

    /** malloc's header updates. */
    method CutFrom(prevp: int, p: int, nunits: nat) returns (b: int)
      requires |ptr| == |size| && 0 <= prevp < |ptr| && 0 <= p < |ptr| && 0 < nunits <= size[p] && p + size[p] <= |size|
      modifies `ptr, `size
      ensures b == p + old(size)[p] - nunits
      ensures ptr == PtrTaken(old(ptr), old(size), prevp, p, nunits) && size == SizeTaken(old(size), p, nunits)
    {
      b := p;
      if size[p] == nunits {
        ptr := ptr[prevp := ptr[p]];
      } else {
        size := size[p := size[p] - nunits];
        b := p + size[p];
        size := size[b := nunits];
      }
    }

    /** Take nunits units from the end of block p, which prevp points to. */
    method Take(prevp: int, p: int, nunits: nat) returns (b: int)
      requires Valid() && freep.Some? && prevp in free && p == ptr[prevp] && p in free && 0 < nunits <= size[p]
      modifies `ptr, `size, `freep, `free, `live
      ensures Valid() == true && b !in old(live) && live == old(live)[b := nunits]
      ensures b == p + old(free)[p] - nunits && freep == Some(prevp)
    {
      hide Merged, LiveApart, Covers;
      ghost var f, l := free, live;
      TakenKeeps(f, l, base, brk, obtained, p, nunits);
      TakeCircle(ptr, size, f, base, prevp, p, nunits);
      TakeHeaders(size, f, l, base, brk, p, nunits);
      ghost var at := p + f[p] - nunits;
      b := CutFrom(prevp, p, nunits);
      assert b == at;
      freep := Some(prevp);
      free, live := Taken(f, p, nunits), l[at := nunits];
    }

    /**
     A block of the units asked for, disjoint from every live block. None means that no free block
     was large enough and the system refused more memory.
     */
    method Malloc(nbytes: nat) returns (r: Option<int>)
      requires Valid() && nbytes < 0x1_0000_0000
      modifies `ptr, `size, `freep, `brk, `free, `live, `obtained
      ensures Valid()
      ensures r.Some? ==> r.value - 1 !in old(live) && live == old(live)[r.value - 1 := Nunits(nbytes)]
      ensures r.None? ==> live == old(live) && free == old(free) && brk + Ask(Nunits(nbytes)) > limit
      ensures r.None? ==> forall a :: a in free ==> free[a] < Nunits(nbytes)
      ensures r.Some? <==> HasLarge(old(free), Nunits(nbytes)) || old(brk) + Ask(Nunits(nbytes)) <= limit
      ensures brk == old(brk) + if HasLarge(old(free), Nunits(nbytes)) || r.None? then 0 else Ask(Nunits(nbytes))
      ensures HasLarge(old(free), Nunits(nbytes)) ==>
        && old(freep).Some?
        && exists p :: NextFit(old(free), old(freep).value, Nunits(nbytes), p)
                       && r == Some(p + old(free)[p] - Nunits(nbytes) + 1)
    {
      var nunits := (nbytes + 16 - 1) / 16 + 1;
      if freep.None? {
        Start();
      }
      assert nunits == Nunits(nbytes) && free == old(free);
      NothingLarge(old(free), base, nunits);
      hide Heaped, Headers, Circle, Nunits, Ask, HasLarge, NextFit;
      var b := Search(nunits);
      if b.None? {
        return None;
      }
      assert b.value + 1 - 1 == b.value;
      return Some(b.value + 1);
    }

    /** The first call: a list of the base alone. */
    method Start()
      requires Valid() && freep.None?
      modifies `ptr, `size, `freep
      ensures Valid() && freep.Some?
    {
      ptr, size := ptr[base := base], size[base := 0];
      freep := Some(base);
    }

    /** malloc's loop; the result is the header of the block taken. */
    method Search(nunits: nat) returns (r: Option<int>)
      requires Valid() && freep.Some? && nunits > 0
      modifies `ptr, `size, `freep, `brk, `free, `live, `obtained
      ensures Valid()
      ensures r.Some? ==> r.value !in old(live) && live == old(live)[r.value := nunits]
      ensures r.None? ==> live == old(live) && free == old(free) && brk + Ask(nunits) > limit
      ensures r.None? ==> forall a :: a in free ==> free[a] < nunits
      ensures r.Some? <==> HasLarge(old(free), nunits) || old(brk) + Ask(nunits) <= limit
      ensures brk == old(brk) + if HasLarge(old(free), nunits) || r.None? then 0 else Ask(nunits)
      ensures HasLarge(old(free), nunits) ==>
        exists p :: NextFit(old(free), old(freep).value, nunits, p) && r == Some(p + old(free)[p] - nunits)
    {
      hide Merged, LiveApart, Covers, HasLarge, NextFit, Passed, Reaches;
      var prevp := freep.value;
      var p := ptr[prevp];
      ghost var grown, goal := false, prevp;
      assert Follows(free, base, prevp, p);
      NothingPassed(free, base, prevp, p);
      while true
        invariant Valid() && freep.Some? && live == old(live) && prevp in free && p == ptr[prevp]
        invariant goal in free && p in free
        invariant !grown ==> goal == freep.value && freep == old(freep) && free == old(free) && brk == old(brk)
        invariant !grown ==> forall x :: x in free && Passed(goal, x, p) ==> free[x] < nunits
        invariant grown ==> free[goal] >= nunits && Reaches(p, goal, freep.value) && brk == old(brk) + Ask(nunits)
        invariant grown ==> forall x :: x in old(free) ==> old(free)[x] < nunits
        decreases !grown, if p <= goal then 0 else 1, |Above(free, p)|
      {
        assert Follows(free, base, p, ptr[p]);
        if size[p] >= nunits {
          if !grown {
            FitFound(free, freep.value, nunits, p);
          } else {
            AllSmall(old(free), nunits);
          }
          var b := Take(prevp, p, nunits);
          return Some(b);
        }
        if grown {
          SeekStep(free, base, freep.value, p, ptr[p], goal);
        } else {
          ScanStep(free, base, goal, p, ptr[p], nunits);
        }
        if p == freep.value {
          var m := Morecore(nunits);
          if m.None? {
            AllSmall(old(free), nunits);
            return None;
          }
          p := m.value;
          grown := true;
          goal :| goal in free && free[goal] >= nunits;
          assert Follows(free, base, p, ptr[p]);
          SeekStart(free, base, p, ptr[p], goal);
        }
        prevp := p;
        p := ptr[p];
      }
    }
  }

  /** The headers after malloc has taken n units from block p. */
  ghost function PtrTaken(ptr: seq<int>, size: seq<int>, prevp: int, p: int, n: int): (r: seq<int>)
    requires |ptr| == |size| && 0 <= prevp < |ptr| && 0 <= p < |ptr|
  {
    if size[p] == n then ptr[prevp := ptr[p]] else ptr
  }

  ghost function SizeTaken(size: seq<int>, p: int, n: int): (r: seq<int>)
    requires 0 <= p < |size| && 0 < n <= size[p] && p + size[p] <= |size|
  {
    if size[p] == n then size else size[p := size[p] - n][p + size[p] - n := n]
  }

  /** They describe the shortened free list. */
  lemma TakeCircle(ptr: seq<int>, size: seq<int>, free: Blocks, base: int, prevp: int, p: int, n: int)
    requires |ptr| == |size| && Circle(ptr, free, base) && Headers(size, free)
    requires prevp in free && 0 <= prevp < |ptr| && ptr[prevp] == p && p in free && 0 < n <= free[p] && free[base] == 0
    ensures 0 <= p < |size| && size[p] == free[p] && prevp in Taken(free, p, n)
    ensures Circle(PtrTaken(ptr, size, prevp, p, n), Taken(free, p, n), base) == true
  {
    assert Follows(free, base, prevp, p);
    if free[p] == n {
      Unlink(ptr, free, base, prevp);
    } else {
      Resize(ptr, free, base, p, free[p] - n);
    }
  }

  lemma TakeHeaders(size: seq<int>, free: Blocks, live: Blocks, base: int, brk: int, p: int, n: int)
    requires brk <= |size| && Headers(size, free) && Headers(size, live)
    requires Merged(free) && LiveApart(free, live) && Sized(free, live, base, brk) && p in free && 0 < n <= free[p]
    ensures 0 <= p < |size| && size[p] == free[p] && p + size[p] <= |size|
    ensures Headers(SizeTaken(size, p, n), Taken(free, p, n)) == true
    ensures Headers(SizeTaken(size, p, n), live[p + free[p] - n := n]) == true
  {
    if free[p] != n {
      SplitHeaders(size, free, live, base, brk, p, n);
    }
  }

  lemma SplitHeaders(size: seq<int>, free: Blocks, live: Blocks, base: int, brk: int, p: int, n: int)
    requires brk <= |size| && Headers(size, free) && Headers(size, live)
    requires Merged(free) && LiveApart(free, live) && Sized(free, live, base, brk) && p in free && 0 < n < free[p]
    ensures var b := p + free[p] - n;
      var size' := size[p := free[p] - n][b := n];
      Headers(size', free[p := free[p] - n]) == true && Headers(size', live[b := n]) == true
  {
    var b := p + free[p] - n;
    forall a | a in free && a != p
      ensures a != b
    {
      assert a < p ==> a + free[a] < p;
      assert p < a ==> p + free[p] < a;
    }
    forall a | a in live
      ensures a != p && a != b
    {
      assert Apart(p, free[p], a, live[a]);
    }
  }

  /** One step of the scan before memory was obtained: all blocks passed are too small. */
  lemma ScanStep(free: Blocks, base: int, f: int, p: int, q: int, n: int)
    requires f in free && p in free && Follows(free, base, p, q) && free[p] < n && forall x :: x in free ==> base <= x
    requires forall x :: x in free && Passed(f, x, p) ==> free[x] < n
    ensures p != f ==> Closer(free, p, q, f) && forall x :: x in free && Passed(f, x, q) ==> free[x] < n
    ensures p == f ==> forall x :: x in free ==> free[x] < n
  {
    if p < q {
      AboveShrinks(free, p, q);
    }
    forall x | x in free && p != f && Passed(f, x, q)
      ensures free[x] < n
    {
      assert x == p || Passed(f, x, p);
    }
  }

  /** One step of the scan towards block b. */
  lemma SeekStep(free: Blocks, base: int, f: int, p: int, q: int, b: int)
    requires f in free && b in free && base <= f && base <= b && Follows(free, base, p, q)
    requires Reaches(p, b, f) && p != b
    ensures p != f && Closer(free, p, q, b) && Reaches(q, b, f)
  {
    if p < q {
      AboveShrinks(free, p, q);
    }
  }

  lemma NothingPassed(free: Blocks, base: int, f: int, q: int)
    requires f in free && Follows(free, base, f, q) && forall x :: x in free ==> base <= x
    ensures forall x :: x in free ==> !Passed(f, x, q)
  {
  }

  lemma FitFound(free: Blocks, f: int, n: int, p: int)
    requires p in free && free[p] >= n && forall x :: x in free && Passed(f, x, p) ==> free[x] < n
    ensures NextFit(free, f, n, p) && HasLarge(free, n)
  {
  }

  lemma AllSmall(free: Blocks, n: int)
    requires forall x :: x in free ==> free[x] < n
    ensures !HasLarge(free, n)
  {
  }

  /** Before the first call there is no free block. */
  lemma NothingLarge(free: Blocks, base: int, n: int)
    requires n > 0
    ensures free == map[base := 0] ==> !HasLarge(free, n)
  {
  }

  lemma SeekStart(free: Blocks, base: int, f: int, q: int, b: int)
    requires b in free && base <= b && Follows(free, base, f, q)
    ensures Reaches(q, b, f)
  {
  }

  lemma FreedUnits(free: Blocks, base: int, p: int, b: int, n: int)
    requires Fits(free, base, p, b, n) == true
    ensures forall u :: Covers(Freed(free, p, b, n), u) <==> Covers(free, u) || b <= u < b + n
    ensures exists a :: a in Freed(free, p, b, n) && Freed(free, p, b, n)[a] >= n
    ensures p in Freed(free, p, b, n)
  {
    forall u
      ensures Covers(Freed(free, p, b, n), u) <==> Covers(free, u) || b <= u < b + n
    {
      FreedCovers(free, base, p, b, n, u);
    }
    assert (if p + free[p] == b then p else b) in Freed(free, p, b, n);
    assert Apart(p, free[p], b, n);
  }

  /** The sizes free writes. */
  lemma FreedHeaders(size: seq<int>, free: Blocks, live: Blocks, base: int, p: int, b: int)
    requires Headers(size, free) && Headers(size, live) && b in live && Fits(free, base, p, b, live[b])
    requires forall a :: a in live ==> base < a && live[a] > 0
    requires LiveApart(free, live)
    ensures var n := live[b];
            var size1 := if b + n in free then size[b := n + free[b + n]] else size;
            var size2 := if p + free[p] == b then size1[p := free[p] + size1[b]] else size1;
            Headers(size2, Freed(free, p, b, n)) && Headers(size2, live - {b})
  {
    forall a | a in live
      ensures a != p
    {
      assert Apart(p, free[p], a, live[a]);
    }
  }

  /** The headers after free has put b behind p. */
  ghost function PtrAfter(ptr: seq<int>, size: seq<int>, p: int, b: int): (r: seq<int>)
    requires |ptr| == |size| && 0 <= p < |ptr| && 0 <= b < |ptr| && 0 <= ptr[p] < |ptr|
  {
    var ptr1 := ptr[b := if b + size[b] == ptr[p] then ptr[ptr[p]] else ptr[p]];
    ptr1[p := if p + size[p] == b then ptr1[b] else b]
  }

  ghost function SizeAfter(ptr: seq<int>, size: seq<int>, p: int, b: int): (r: seq<int>)
    requires |ptr| == |size| && 0 <= p < |ptr| && 0 <= b < |ptr| && 0 <= ptr[p] < |ptr| && p != b
  {
    var size1 := if b + size[b] == ptr[p] then size[b := size[b] + size[ptr[p]]] else size;
    if p + size[p] == b then size1[p := size[p] + size1[b]] else size1
  }

  /** They describe the merged free list. */
  lemma FreeWrites(ptr: seq<int>, size: seq<int>, free: Blocks, live: Blocks, base: int, brk: int, obtained: set<int>,
                   p: int, b: int)
    requires |ptr| == |size| && Circle(ptr, free, base) == true && Headers(size, free) && Headers(size, live)
    requires b in live
    requires Fits(free, base, p, b, live[b]) == true && Heaped(free, live, base, brk, obtained)
    ensures 0 <= p < |ptr| && 0 <= ptr[p] < |ptr| && 0 <= b < |ptr| && p != b
    ensures Circle(PtrAfter(ptr, size, p, b), Freed(free, p, b, live[b]), base) == true
    ensures Headers(SizeAfter(ptr, size, p, b), Freed(free, p, b, live[b])) == true
    ensures Headers(SizeAfter(ptr, size, p, b), live - {b}) == true
  {
    FreePlaces(ptr, size, free, live, base, brk, p, b);
    hide Circle, Headers, Fits, LiveApart, Sized, Freed, Covers, Merged;
    FreedHeadersAt(size, free, live, base, brk, p, b);
    FreeCircle(ptr, free, base, p, b, live[b]);
  }

  lemma FreedHeadersAt(size: seq<int>, free: Blocks, live: Blocks, base: int, brk: int, p: int, b: int)
    requires Headers(size, free) && Headers(size, live) && b in live && p in free && 0 <= p < |size| && 0 <= b < |size|
    requires Fits(free, base, p, b, live[b]) == true && LiveApart(free, live) && Sized(free, live, base, brk)
    ensures var n := live[b];
            var size1 := if b + n in free then size[b := n + free[b + n]] else size;
            var size2 := if p + free[p] == b then size1[p := free[p] + size1[b]] else size1;
            Headers(size2, Freed(free, p, b, n)) == true && Headers(size2, live - {b}) == true
  {
    FreedHeaders(size, free, live, base, p, b);
  }

  /** The headers that free reads. */
  lemma FreePlaces(ptr: seq<int>, size: seq<int>, free: Blocks, live: Blocks, base: int, brk: int, p: int, b: int)
    requires |ptr| == |size| && Circle(ptr, free, base) && Headers(size, free) && Headers(size, live) && b in live
    requires Fits(free, base, p, b, live[b])
    ensures p in free && 0 <= p < |ptr| && 0 <= ptr[p] < |ptr| && 0 <= b < |ptr| && p != b
    ensures size[p] == free[p] && size[b] == live[b] && (b + live[b] == ptr[p] <==> b + live[b] in free)
    ensures b + live[b] in free ==> size[ptr[p]] == free[b + live[b]]
  {
    NextAbove(ptr, free, base, p, b, live[b]);
  }
}
