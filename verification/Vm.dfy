/**
 Page tables (vm.c) and the frame allocator (kalloc.c). Physical memory is a sequence of frames of 512 words; a frame
 is named by its number. A page-table entry is a frame number times 4096 plus flags. Virtual pages are numbered
 too: page v of an address space is found through index digits of v in base 512.
 */
module Vm {
  import opened Common

  const ENTRIES := 512
  const USER_HALF := 256            // entries of the top table that belong to the user
  const PAGES := 0x8_0000_0000      // pages below 2^47
  const VISIBLE := 0x10_0000_0000   // pages below 2^48, which the four indexes tell apart

  type Words = w: seq<int> | |w| == ENTRIES witness seq(512, _ => 0)
  datatype Page = Page(w: Words)
  type Memory = seq<Page>

  function ZeroPage(): (p: Page)
    ensures forall i :: 0 <= i < ENTRIES ==> p.w[i] == 0
  {
    Page(seq(512, _ => 0))
  }

  predicate Present(e: int) {
    e % 2 == 1
  }

  /** PTE_ADDR, as a frame number. */
  function Addr(e: int): (f: int) {
    e / 4096
  }

  function Flags(e: int): (g: int) {
    e % 4096
  }

  /** pa | flags | PTE_P */
  function Entry(f: int, flags: int): (e: int) {
    f * 4096 + if flags % 2 == 1 then flags else flags + 1
  }

  lemma EntryParts(f: int, flags: int)
    requires 0 <= flags < 4096
    ensures Present(Entry(f, flags)) && Addr(Entry(f, flags)) == f
    ensures Flags(Entry(f, flags)) == if flags % 2 == 1 then flags else flags + 1
  {
    var g := if flags % 2 == 1 then flags else flags + 1;
    assert g % 2 == 1 && 0 <= g < 4096;
    Parts(f, g);
  }

  lemma Parts(f: int, g: int)
    requires 0 <= g < 4096
    ensures (f * 4096 + g) / 4096 == f && (f * 4096 + g) % 4096 == g && (f * 4096 + g) % 2 == g % 2
  {
    var h := g / 2;
    assert f * 4096 + g == 2 * (f * 2048 + h) + g % 2;
    Parity(f * 2048 + h, g % 2);
  }

  lemma Parity(k: int, b: int)
    requires 0 <= b < 2
    ensures (2 * k + b) % 2 == b
  {
  }

  // Walking

  function Child(mem: Memory, t: nat, i: nat): (c: Option<nat>)
    requires i < ENTRIES
  {
    if t < |mem| && Present(mem[t].w[i]) && Addr(mem[t].w[i]) >= 0 then Some(Addr(mem[t].w[i])) else None
  }

  /** The table of the given level on the way to the pages with prefix x; level 4 is the top table, level 1 the last. */
  function Node(mem: Memory, root: nat, level: nat, x: nat): (t: Option<nat>)
    decreases 4 - level
  {
    if level >= 4 then Some(root)
    else
      var up := Node(mem, root, level + 1, x / ENTRIES);
      if up.None? then None else Child(mem, up.value, x % ENTRIES)
  }

  /** What the hardware finds for page v: a frame and its flags. */
  datatype Mapping = Unmapped | Mapped(frame: int, flags: int)

  function Decode(e: int): (m: Mapping) {
    if Present(e) then Mapped(Addr(e), Flags(e)) else Unmapped
  }

  function Lookup(mem: Memory, root: nat, v: nat): (m: Mapping) {
    var t := Node(mem, root, 1, v / ENTRIES);
    if t.None? || t.value >= |mem| then Unmapped else Decode(mem[t.value].w[v % ENTRIES])
  }

  // Page-table trees

  /** Where a frame is in its tree: level 0 is a user page. x is its path from the root, in base 512. */
  datatype Place = Place(root: nat, level: nat, x: nat, parent: nat)

  type Tree = map<nat, Place>

  datatype Slot = Slot(table: nat, i: nat)

  /** The prefix x belongs to the user half. */
  predicate UserX(level: nat, x: nat)
    decreases 4 - level
  {
    if level >= 4 then x == 0 else if level == 3 then x < USER_HALF else UserX(level + 1, x / ENTRIES)
  }

  /** A frame is what its parent's entry says. */
  ghost predicate UpOk(mem: Memory, at: Tree, dead: set<Slot>, f: nat)
    requires f in at
  {
    var p := at[f];
    && f < |mem| && p.level <= 4 && UserX(p.level, p.x)
    && if p.level == 4 then p == Place(f, 4, 0, f)
       else
         && p.parent in at && p.parent < |mem| && at[p.parent].level == p.level + 1 && at[p.parent].root == p.root
         && at[p.parent].x == p.x / ENTRIES && Slot(p.parent, p.x % ENTRIES) !in dead
         && Child(mem, p.parent, p.x % ENTRIES) == Some(f)
  }

  /** An entry of a table is 0 or leads to the frame in that place; an entry for a table allows all access. */
  ghost predicate KidOk(mem: Memory, at: Tree, t: nat, i: nat)
    requires t in at && i < ENTRIES
  {
    && t < |mem|
    && (at[t].level > 0 && (at[t].level == 4 ==> i < USER_HALF) ==>
          if Present(mem[t].w[i]) then
            && Addr(mem[t].w[i]) >= 0 && Addr(mem[t].w[i]) in at && (at[t].level >= 2 ==> Flags(mem[t].w[i]) == 7)
            && at[Addr(mem[t].w[i])] == Place(at[t].root, at[t].level - 1, at[t].x * ENTRIES + i, t)
          else mem[t].w[i] == 0)
  }

  /** Entry 256 of every top table is the kernel's, shared by all. */
  ghost predicate KernelOk(mem: Memory, at: Tree, kern: int) {
    forall r :: r in at && at[r].level == 4 ==> r < |mem| && mem[r].w[USER_HALF] == kern
  }

  ghost predicate SamePlace(p: Place, q: Place) {
    p.root == q.root && p.level == q.level && p.x == q.x
  }

  /** The frames of `at` form page-table trees. Entries in `dead` lead to frames that freevm has already freed. */
  ghost predicate Trees(mem: Memory, at: Tree, dead: set<Slot>) {
    && (forall f :: f in at ==> UpOk(mem, at, dead, f))
    && (forall t, i: nat :: t in at && i < ENTRIES && Slot(t, i) !in dead ==> KidOk(mem, at, t, i))
    && forall f, g :: f in at && g in at && SamePlace(at[f], at[g]) ==> f == g
  }

  datatype Access = Write | User

  /** PTE_W or PTE_U is set. */
  predicate Allows(flags: int, a: Access) {
    match a
    case Write => flags / 2 % 2 == 1
    case User => flags / 4 % 2 == 1
  }

  /** Every entry on the way to the pages with prefix x allows it. */
  predicate Granted(mem: Memory, root: nat, level: nat, x: nat, a: Access)
    decreases 4 - level
  {
    level >= 4
    || (Granted(mem, root, level + 1, x / ENTRIES, a)
        && var up := Node(mem, root, level + 1, x / ENTRIES);
           up.Some? && up.value < |mem| && Allows(Flags(mem[up.value].w[x % ENTRIES]), a))
  }

  lemma {:induction false} TablesGrant(mem: Memory, at: Tree, r: nat, level: nat, x: nat, a: Access)
    requires Trees(mem, at, {}) && r in at && at[r].level == 4 && 1 <= level <= 4 && UserX(level, x)
    requires Node(mem, r, level, x).Some?
    ensures Granted(mem, r, level, x, a)
    decreases 4 - level
  {
    hide Trees, Allows;
    if level < 4 {
      UserDown(level, x);
      TablesGrant(mem, at, r, level + 1, x / ENTRIES, a);
      NodeAt(mem, at, r, level + 1, x / ENTRIES);
      var up := Node(mem, r, level + 1, x / ENTRIES);
      TableGrants(mem, at, up.value, x % ENTRIES, a);
    }
  }

  lemma TableGrants(mem: Memory, at: Tree, t: nat, i: nat, a: Access)
    requires Trees(mem, at, {}) && t in at && at[t].level >= 2 && i < ENTRIES && (at[t].level == 4 ==> i < USER_HALF)
    requires t < |mem| && Present(mem[t].w[i])
    ensures Allows(Flags(mem[t].w[i]), a)
  {
    hide Trees, Flags, Addr;
    KidAt(mem, at, t, i);
    assert Allows(7, Write) && Allows(7, User);
  }

  lemma KidAt(mem: Memory, at: Tree, t: nat, i: nat)
    requires Trees(mem, at, {}) && t in at && i < ENTRIES
    ensures KidOk(mem, at, t, i) == true
  {
    hide KidOk, UpOk;
    assert Slot(t, i) !in {};
  }

  /** The processor grants a page, through all four levels, exactly the access that the page's own entry allows. */
  lemma AccessExact(mem: Memory, at: Tree, r: nat, v: nat, a: Access)
    requires Trees(mem, at, {}) && r in at && at[r].level == 4 && v < PAGES && Lookup(mem, r, v).Mapped?
    ensures Granted(mem, r, 0, v, a) <==> Allows(Lookup(mem, r, v).flags, a)
  {
    hide Trees, Allows, Flags, Addr, Present;
    UserPage(v);
    TablesGrant(mem, at, r, 1, v / ENTRIES, a);
  }

  // What a walk finds

  lemma UserDown(level: nat, x: nat)
    requires level < 4 && UserX(level, x)
    ensures UserX(level + 1, x / ENTRIES) && (level == 3 ==> x < USER_HALF)
  {
  }

  lemma UserPage(v: nat)
    requires v < PAGES
    ensures UserX(0, v) && UserX(1, v / ENTRIES)
  {
    assert UserX(3, v / ENTRIES / ENTRIES / ENTRIES);
    assert UserX(2, v / ENTRIES / ENTRIES);
    assert UserX(1, v / ENTRIES);
  }

  /** A walk from a root stays in its tree. */
  lemma {:induction false} NodeAt(mem: Memory, at: Tree, r: nat, level: nat, x: nat)
    requires Trees(mem, at, {}) && r in at && at[r].level == 4 && level <= 4 && UserX(level, x)
    ensures var t := Node(mem, r, level, x);
            t.Some? ==>
              && t.value in at && t.value < |mem|
              && at[t.value].root == r && at[t.value].level == level && at[t.value].x == x
    decreases 4 - level
  {
    assert UpOk(mem, at, {}, r);
    if level < 4 {
      UserDown(level, x);
      NodeAt(mem, at, r, level + 1, x / ENTRIES);
      var up := Node(mem, r, level + 1, x / ENTRIES);
      if up.Some? {
        assert KidOk(mem, at, up.value, x % ENTRIES);
      }
    }
  }

  /** And a walk finds every frame of the tree. */
  lemma {:induction false} NodeFinds(mem: Memory, at: Tree, f: nat)
    requires Trees(mem, at, {}) && f in at
    ensures Node(mem, at[f].root, at[f].level, at[f].x) == Some(f)
    decreases 4 - at[f].level
  {
    assert UpOk(mem, at, {}, f);
    if at[f].level < 4 {
      NodeFinds(mem, at, at[f].parent);
    }
  }

  // Adding a frame to a tree

  /** An empty entry of a table in the trees. */
  ghost predicate Vacant(mem: Memory, at: Tree, t: nat, i: nat) {
    && t in at && t < |mem| && i < ENTRIES && at[t].level >= 1 && (at[t].level == 4 ==> i < USER_HALF)
    && mem[t].w[i] == 0
  }

  function SetEntry(mem: Memory, t: nat, i: nat, e: int): (r: Memory)
    requires t < |mem| && i < ENTRIES
    ensures |r| == |mem|
  {
    mem[t := Page(mem[t].w[i := e])]
  }

  ghost function PlaceUnder(at: Tree, t: nat, i: nat): (p: Place)
    requires t in at && at[t].level >= 1
  {
    Place(at[t].root, at[t].level - 1, at[t].x * ENTRIES + i, t)
  }

  lemma Digits(x: nat, i: nat)
    requires i < ENTRIES
    ensures (x * ENTRIES + i) / ENTRIES == x && (x * ENTRIES + i) % ENTRIES == i
  {
  }

  /** The frame an entry leads to has no other place, and no other frame has that place. */
  lemma VacantPlace(mem: Memory, at: Tree, t: nat, i: nat, g: nat)
    requires Trees(mem, at, {}) && Vacant(mem, at, t, i) && g in at
    ensures !SamePlace(at[g], PlaceUnder(at, t, i))
  {
    hide Trees, Child;
    NoChild(mem, t, i);
    TableLevel(mem, at, t);
    if SamePlace(at[g], PlaceUnder(at, t, i)) {
      Digits(at[t].x, i);
      ParentIs(mem, at, g, t);
    }
  }

  lemma NoChild(mem: Memory, t: nat, i: nat)
    requires t < |mem| && i < ENTRIES && mem[t].w[i] == 0
    ensures Child(mem, t, i) == None
  {
  }

  lemma TableLevel(mem: Memory, at: Tree, t: nat)
    requires Trees(mem, at, {}) && t in at
    ensures at[t].level <= 4
  {
    assert UpOk(mem, at, {}, t);
  }

  /** The table one level up on the way to frame g is its parent, and its entry leads to g. */
  lemma ParentIs(mem: Memory, at: Tree, g: nat, t: nat)
    requires Trees(mem, at, {}) && g in at && t in at && at[g].level < 4
    requires at[t].root == at[g].root && at[t].level == at[g].level + 1 && at[t].x == at[g].x / ENTRIES
    ensures at[g].parent == t && Child(mem, t, at[g].x % ENTRIES) == Some(g)
  {
    hide KidOk, UserX, Child;
    assert UpOk(mem, at, {}, g);
    assert SamePlace(at[at[g].parent], at[t]);
  }

  /** c can be put behind entry i of table t: the entry is empty and c is in no tree. */
  ghost predicate CanAdd(mem: Memory, at: Tree, t: nat, i: nat, c: nat, page: Page, e: int) {
    && Vacant(mem, at, t, i) && c !in at && c < |mem| && Present(e) && Addr(e) == c
    && (at[t].level >= 2 ==> page == ZeroPage() && Flags(e) == 7)
  }

  /** Frame c, holding page, is put behind entry i of table t. */
  lemma AddKeeps(mem: Memory, at: Tree, t: nat, i: nat, c: nat, page: Page, e: int)
    requires Trees(mem, at, {}) && CanAdd(mem, at, t, i, c, page, e)
    ensures Trees(SetEntry(mem[c := page], t, i, e), at[c := PlaceUnder(at, t, i)], {})
  {
    hide UpOk, KidOk, Child, UserX;
    var mem', at' := SetEntry(mem[c := page], t, i, e), at[c := PlaceUnder(at, t, i)];
    forall f | f in at'
      ensures UpOk(mem', at', {}, f)
    {
      assert f in at ==> UpOk(mem, at, {}, f);
      assert UpOk(mem, at, {}, t);
      AddUp(mem, at, t, i, c, page, e, f);
    }
    forall u, j: nat | u in at' && j < ENTRIES
      ensures KidOk(mem', at', u, j)
    {
      assert u in at ==> KidOk(mem, at, u, j);
      AddKid(mem, at, t, i, c, page, e, u, j);
    }
    forall f, g | f in at' && g in at' && SamePlace(at'[f], at'[g])
      ensures f == g
    {
      if f != c {
        VacantPlace(mem, at, t, i, f);
      }
      if g != c {
        VacantPlace(mem, at, t, i, g);
      }
    }
  }

  lemma AddUp(mem: Memory, at: Tree, t: nat, i: nat, c: nat, page: Page, e: int, f: nat)
    requires CanAdd(mem, at, t, i, c, page, e) && (f in at || f == c) && UpOk(mem, at, {}, t)
    requires (f in at ==> UpOk(mem, at, {}, f))
    ensures UpOk(SetEntry(mem[c := page], t, i, e), at[c := PlaceUnder(at, t, i)], {}, f)
  {
    hide UserX;
    Digits(at[t].x, i);
    UserUp(at[t].level, at[t].x, i);
  }

  lemma AddKid(mem: Memory, at: Tree, t: nat, i: nat, c: nat, page: Page, e: int, u: nat, j: nat)
    requires CanAdd(mem, at, t, i, c, page, e) && (u in at || u == c) && j < ENTRIES
    requires (u in at ==> KidOk(mem, at, u, j))
    ensures KidOk(SetEntry(mem[c := page], t, i, e), at[c := PlaceUnder(at, t, i)], u, j)
  {
  }

  lemma UserUp(level: nat, x: nat, i: nat)
    requires 1 <= level <= 4 && i < ENTRIES && UserX(level, x) && (level == 4 ==> i < USER_HALF)
    ensures UserX(level - 1, x * ENTRIES + i)
  {
    Digits(x, i);
  }

  // What adding does to the walks

  /** A walk that succeeded still does; one that failed still fails, or ends at the new frame. */
  lemma {:induction false} NodeGrows(mem: Memory, at: Tree, t: nat, i: nat, c: nat, page: Page, e: int, r: nat,
                                     level: nat, x: nat)
    requires Trees(mem, at, {}) && CanAdd(mem, at, t, i, c, page, e) && at[t].level >= 2
    requires r in at && at[r].level == 4 && 1 <= level <= 4 && UserX(level, x)
    ensures var was := Node(mem, r, level, x);
            var now := Node(SetEntry(mem[c := page], t, i, e), r, level, x);
            if was.Some? then now == was else now == None || now == Some(c)
    decreases 4 - level
  {
    hide Trees, Flags;
    if level < 4 {
      UserDown(level, x);
      NodeGrows(mem, at, t, i, c, page, e, r, level + 1, x / ENTRIES);
      NodeAt(mem, at, r, level + 1, x / ENTRIES);
    }
  }

  /** A new table changes no mapping. */
  lemma TableKeepsMaps(mem: Memory, at: Tree, t: nat, i: nat, c: nat, e: int, r: nat, v: nat)
    requires Trees(mem, at, {}) && CanAdd(mem, at, t, i, c, ZeroPage(), e) && at[t].level >= 2
    requires r in at && at[r].level == 4 && v < PAGES
    ensures Lookup(SetEntry(mem[c := ZeroPage()], t, i, e), r, v) == Lookup(mem, r, v)
  {
    hide Trees;
    UserPage(v);
    NodeGrows(mem, at, t, i, c, ZeroPage(), e, r, 1, v / ENTRIES);
    NodeAt(mem, at, r, 1, v / ENTRIES);
  }

  /** Changing a last-level table changes no walk to a table. */
  lemma {:induction false} NodeSame(mem: Memory, at: Tree, t: nat, page: Page, r: nat, level: nat, x: nat)
    requires Trees(mem, at, {}) && t < |mem| && (t in at ==> at[t].level <= 1)
    requires r in at && at[r].level == 4 && 1 <= level <= 4 && UserX(level, x)
    ensures Node(mem[t := page], r, level, x) == Node(mem, r, level, x)
    decreases 4 - level
  {
    hide Trees;
    if level < 4 {
      UserDown(level, x);
      NodeSame(mem, at, t, page, r, level + 1, x / ENTRIES);
      NodeAt(mem, at, r, level + 1, x / ENTRIES);
    }
  }

  /** Writing an entry of a last-level table changes the mapping of its page, and no other. */
  lemma LeafMaps(mem: Memory, at: Tree, t: nat, i: nat, e: int, r: nat, v: nat)
    requires Trees(mem, at, {}) && t in at && at[t].level == 1 && t < |mem| && i < ENTRIES
    requires r in at && at[r].level == 4 && v < PAGES
    ensures Lookup(SetEntry(mem, t, i, e), r, v) ==
            if r == at[t].root && v == at[t].x * ENTRIES + i then Decode(e) else Lookup(mem, r, v)
  {
    hide Trees;
    UserPage(v);
    NodeSame(mem, at, t, Page(mem[t].w[i := e]), r, 1, v / ENTRIES);
    NodeAt(mem, at, r, 1, v / ENTRIES);
    NodeFinds(mem, at, t);
    Digits(at[t].x, i);
    assert v == v / ENTRIES * ENTRIES + v % ENTRIES;
  }

  /** Changing a frame outside the tables changes no mapping. */
  lemma PageMaps(mem: Memory, at: Tree, f: nat, page: Page, r: nat, v: nat)
    requires Trees(mem, at, {}) && f < |mem| && (f in at ==> at[f].level == 0)
    requires r in at && at[r].level == 4 && v < PAGES
    ensures Lookup(mem[f := page], r, v) == Lookup(mem, r, v)
  {
    hide Trees;
    UserPage(v);
    NodeSame(mem, at, f, page, r, 1, v / ENTRIES);
    NodeAt(mem, at, r, 1, v / ENTRIES);
  }

  // Removing a page

  /** A page leaves its tree: its entry is cleared. */
  lemma RemoveKeeps(mem: Memory, at: Tree, f: nat)
    requires Trees(mem, at, {}) && f in at && at[f].level == 0
    ensures var p := at[f]; p.parent in at && p.parent < |mem| && at[p.parent].level == 1
    ensures Trees(SetEntry(mem, at[f].parent, at[f].x % ENTRIES, 0), at - {f}, {})
  {
    hide KidOk, Child, UserX;
    assert UpOk(mem, at, {}, f);
    var t, i := at[f].parent, at[f].x % ENTRIES;
    var mem', at' := SetEntry(mem, t, i, 0), at - {f};
    forall g | g in at'
      ensures UpOk(mem', at', {}, g)
    {
      assert UpOk(mem, at, {}, g);
      RemoveUp(mem, at, f, g);
    }
    forall u, j: nat | u in at' && j < ENTRIES
      ensures KidOk(mem', at', u, j)
    {
      assert KidOk(mem, at, u, j);
      RemoveKid(mem, at, f, u, j);
    }
  }

  lemma RemoveUp(mem: Memory, at: Tree, f: nat, g: nat)
    requires f in at && g in at && g != f && at[f].level == 0 && UpOk(mem, at, {}, f) && UpOk(mem, at, {}, g)
    ensures UpOk(SetEntry(mem, at[f].parent, at[f].x % ENTRIES, 0), at - {f}, {}, g)
  {
    hide UserX;
  }

  lemma RemoveKid(mem: Memory, at: Tree, f: nat, u: nat, j: nat)
    requires f in at && u in at && u != f && at[f].level == 0 && UpOk(mem, at, {}, f) && j < ENTRIES
    requires KidOk(mem, at, u, j)
    ensures KidOk(SetEntry(mem, at[f].parent, at[f].x % ENTRIES, 0), at - {f}, u, j)
  {
    hide UserX;
    Digits(at[u].x, j);
  }

  /** Frames outside the trees, and user pages, may hold anything. */
  lemma TreesFrame(mem: Memory, at: Tree, f: nat, page: Page)
    requires Trees(mem, at, {}) && f < |mem| && (f in at ==> at[f].level == 0)
    ensures Trees(mem[f := page], at, {})
  {
    hide UpOk, KidOk;
    var mem' := mem[f := page];
    forall g | g in at
      ensures UpOk(mem', at, {}, g)
    {
      assert UpOk(mem, at, {}, g);
      FrameUp(mem, at, f, page, g);
    }
    forall u, j: nat | u in at && j < ENTRIES
      ensures KidOk(mem', at, u, j)
    {
      assert KidOk(mem, at, u, j);
      FrameKid(mem, at, f, page, u, j);
    }
  }

  lemma FrameUp(mem: Memory, at: Tree, f: nat, page: Page, g: nat)
    requires f < |mem| && (f in at ==> at[f].level == 0) && g in at && UpOk(mem, at, {}, g)
    ensures UpOk(mem[f := page], at, {}, g)
  {
    hide UserX;
  }

  lemma FrameKid(mem: Memory, at: Tree, f: nat, page: Page, u: nat, j: nat)
    requires f < |mem| && (f in at ==> at[f].level == 0) && u in at && j < ENTRIES && KidOk(mem, at, u, j)
    ensures KidOk(mem[f := page], at, u, j)
  {
  }

  // Physical memory

  /** The free frames, linked through their first words; 0 ends the list. */
  ghost predicate FreeList(mem: Memory, head: int, free: seq<nat>) {
    && head == LinkTo(free, 0)
    && (forall k :: 0 <= k < |free| ==> 0 < free[k] < |mem|)
    && (forall k, l :: 0 <= k < l < |free| ==> free[k] != free[l])
    && forall k {:trigger mem[free[k]]} :: 0 <= k < |free| ==> mem[free[k]].w[0] == LinkTo(free, k + 1)
  }

  function LinkTo(free: seq<nat>, k: nat): (f: int) {
    if k < |free| then free[k] else 0
  }

  /** Every frame is free, in a page-table tree, or in other use, and only one of these. */
  ghost predicate Partition(lo: nat, hi: nat, free: seq<nat>, at: Tree, other: set<nat>) {
    && (forall f: nat :: lo <= f < hi <==> f in free || f in at || f in other)
    && (forall f :: f in free ==> f !in at && f !in other) && forall f :: f in other ==> f !in at
  }

  /** A frame freed twice is no list. */
  lemma FreeTwice(mem: Memory, free: seq<nat>, f: nat)
    requires f in free
    ensures !FreeList(mem, f, [f] + free)
  {
    var k :| 0 <= k < |free| && free[k] == f;
    var free' := [f] + free;
    assert free'[0] == free'[k + 1];
  }

  lemma FreePush(mem: Memory, head: int, free: seq<nat>, f: nat, page: Page)
    requires FreeList(mem, head, free) && f !in free && 0 < f < |mem| && page.w[0] == head
    ensures FreeList(mem[f := page], f, [f] + free)
  {
    var free', mem' := [f] + free, mem[f := page];
    forall k | 0 <= k < |free'|
      ensures mem'[free'[k]].w[0] == LinkTo(free', k + 1)
    {
      if k > 0 {
        assert mem[free[k - 1]].w[0] == LinkTo(free, k);
      }
    }
  }

  lemma FreePop(mem: Memory, head: int, free: seq<nat>)
    requires FreeList(mem, head, free) && free != []
    ensures head == free[0] && FreeList(mem, mem[head].w[0], free[1..]) && free[0] !in free[1..]
  {
    assert mem[free[0]].w[0] == LinkTo(free, 1);
    forall k | 0 <= k < |free| - 1
      ensures mem[free[1..][k]].w[0] == LinkTo(free[1..], k + 1)
    {
      assert mem[free[k + 1]].w[0] == LinkTo(free, k + 2);
    }
  }

  lemma FreeFrame(mem: Memory, head: int, free: seq<nat>, f: nat, page: Page)
    requires FreeList(mem, head, free) && f < |mem| && f !in free
    ensures FreeList(mem[f := page], head, free)
  {
    forall k | 0 <= k < |free|
      ensures mem[f := page][free[k]].w[0] == LinkTo(free, k + 1)
    {
      assert mem[free[k]].w[0] == LinkTo(free, k + 1);
    }
  }

  // The machine

  /** No mapping of any address space changes. */
  ghost predicate SameMaps(mem: Memory, at: Tree, mem': Memory) {
    forall r, v: nat :: r in at && at[r].level == 4 && v < PAGES ==> Lookup(mem', r, v) == Lookup(mem, r, v)
  }

  /** User pages and frames in other use keep their contents. */
  ghost predicate SamePages(mem: Memory, at: Tree, other: set<nat>, mem': Memory) {
    |mem'| == |mem| && forall f: nat :: f < |mem| && (f in other || (f in at && at[f].level == 0)) ==> mem'[f] == mem[f]
  }

  /** Only address space root gets new frames, and no new top table. */
  ghost predicate Grows(at: Tree, at': Tree, root: nat) {
    forall f ::
      (f in at ==> f in at' && at'[f] == at[f]) && (f in at' && f !in at ==> at'[f].level <= 3 && at'[f].root == root)
  }

  ghost predicate Good(mem: Memory, head: int, lo: nat, hi: nat, kern: int, free: seq<nat>, at: Tree, other: set<nat>) {
    && 0 < lo <= hi <= |mem| && FreeList(mem, head, free) && Trees(mem, at, {}) && KernelOk(mem, at, kern)
    && Partition(lo, hi, free, at, other)
  }

  /** kalloc moves the first free frame to other use. */
  lemma TakeGood(mem: Memory, head: int, lo: nat, hi: nat, kern: int, free: seq<nat>, at: Tree, other: set<nat>)
    requires Good(mem, head, lo, hi, kern, free, at, other) && free != []
    ensures 0 < head < |mem| && Good(mem, mem[head].w[0], lo, hi, kern, free[1..], at, other + {head})
    ensures head !in at && head !in other && head in free
  {
    hide Trees, KernelOk;
    FreePop(mem, head, free);
    forall f
      ensures f in free <==> f == head || f in free[1..]
    {
      assert free == [free[0]] + free[1..];
    }
  }

  /** kfree puts it back. */
  lemma GiveGood(mem: Memory, head: int, lo: nat, hi: nat, kern: int, free: seq<nat>, at: Tree, other: set<nat>, f: nat,
                 page: Page)
    requires Good(mem, head, lo, hi, kern, free, at, other) && f in other && page.w[0] == head
    ensures f < |mem| && Good(mem[f := page], f, lo, hi, kern, [f] + free, at, other - {f})
  {
    hide Trees;
    FreePush(mem, head, free, f, page);
    TreesFrame(mem, at, f, page);
  }

  /** A frame in other use may be written. */
  lemma FillGood(mem: Memory, head: int, lo: nat, hi: nat, kern: int, free: seq<nat>, at: Tree, other: set<nat>, f: nat,
                 page: Page)
    requires Good(mem, head, lo, hi, kern, free, at, other) && f in other
    ensures f < |mem| && Good(mem[f := page], head, lo, hi, kern, free, at, other)
  {
    hide Trees;
    FreeFrame(mem, head, free, f, page);
    TreesFrame(mem, at, f, page);
  }

  /** A frame in other use is put behind an empty entry. */
  lemma AddGood(mem: Memory, head: int, lo: nat, hi: nat, kern: int, free: seq<nat>, at: Tree, other: set<nat>, t: nat,
                i: nat, c: nat, e: int)
    requires Good(mem, head, lo, hi, kern, free, at, other) && c in other && c < |mem|
    requires CanAdd(mem, at, t, i, c, mem[c], e)
    ensures Good(SetEntry(mem, t, i, e), head, lo, hi, kern, free, at[c := PlaceUnder(at, t, i)], other - {c})
  {
    hide Trees, UserX, UpOk, KidOk;
    AddKeeps(mem, at, t, i, c, mem[c], e);
    assert mem[c := mem[c]] == mem;
    FreeFrame(mem, head, free, t, Page(mem[t].w[i := e]));
    RootLevel(mem, at, t);
  }

  lemma RootLevel(mem: Memory, at: Tree, t: nat)
    requires Trees(mem, at, {}) && t in at
    ensures at[t].level <= 4
  {
    assert UpOk(mem, at, {}, t);
  }

  /** What finding a table can end in; kalloc panics when no frame is free. */
  datatype Got = Found(t: nat) | Missing | OutOfMemory

  const TABLE_FLAGS := 7  // PTE_P | PTE_W | PTE_U

  /** A new zeroed table keeps every mapping and every page. */
  lemma TableSame(mem: Memory, at: Tree, other: set<nat>, t: nat, i: nat, c: nat, e: int)
    requires Trees(mem, at, {}) && c < |mem| && CanAdd(mem, at, t, i, c, ZeroPage(), e) && at[t].level >= 2
    requires c !in other && t !in other
    ensures SameMaps(mem, at, SetEntry(mem[c := ZeroPage()], t, i, e))
    ensures SamePages(mem, at, other, SetEntry(mem[c := ZeroPage()], t, i, e))
    ensures Grows(at, at[c := PlaceUnder(at, t, i)], at[t].root)
  {
    hide Trees, Lookup;
    RootLevel(mem, at, t);
    var mem' := SetEntry(mem[c := ZeroPage()], t, i, e);
    forall r, v: nat | r in at && at[r].level == 4 && v < PAGES
      ensures Lookup(mem', r, v) == Lookup(mem, r, v)
    {
      TableKeepsMaps(mem, at, t, i, c, e, r, v);
    }
  }

  lemma SameTrans(mem: Memory, at: Tree, other: set<nat>, mem1: Memory, at1: Tree, mem2: Memory, at2: Tree, root: nat)
    requires SameMaps(mem, at, mem1) && SamePages(mem, at, other, mem1) && Grows(at, at1, root)
    requires SameMaps(mem1, at1, mem2) && SamePages(mem1, at1, other, mem2) && Grows(at1, at2, root)
    ensures SameMaps(mem, at, mem2) == true && SamePages(mem, at, other, mem2) == true && Grows(at, at2, root) == true
  {
    hide Lookup;
    forall r, v: nat | r in at && at[r].level == 4 && v < PAGES
      ensures Lookup(mem2, r, v) == Lookup(mem, r, v)
    {
      assert Lookup(mem1, r, v) == Lookup(mem, r, v);
    }
  }

  datatype Outcome = Done | Remap | NoMemory

  /** The mappings in m replace those of address space root; nothing else changes. */
  ghost predicate Updated(mem: Memory, at: Tree, mem': Memory, root: nat, m: map<nat, Mapping>) {
    forall r, v: nat :: r in at && at[r].level == 4 && v < PAGES ==>
      Lookup(mem', r, v) == if r == root && v in m then m[v] else Lookup(mem, r, v)
  }

  lemma SameAt(mem: Memory, at: Tree, mem': Memory, r: nat, v: nat)
    requires SameMaps(mem, at, mem') && r in at && at[r].level == 4 && v < PAGES
    ensures Lookup(mem', r, v) == Lookup(mem, r, v)
  {
  }

  /** The entry for page v in the table a walk found is its mapping. */
  lemma LeafAt(mem: Memory, at: Tree, t: nat, root: nat, v: nat)
    requires Trees(mem, at, {}) && t in at && t < |mem| && at[t].root == root && at[t].level == 1
    requires at[t].x == v / ENTRIES
    ensures Lookup(mem, root, v) == Decode(mem[t].w[v % ENTRIES])
  {
    hide Trees;
    NodeFinds(mem, at, t);
  }

  lemma LeafVacant(mem: Memory, at: Tree, t: nat, i: nat)
    requires Trees(mem, at, {}) && t in at && t < |mem| && at[t].level == 1 && i < ENTRIES && !Present(mem[t].w[i])
    ensures Vacant(mem, at, t, i)
  {
    assert KidOk(mem, at, t, i);
  }

  /** The walk and then the entry: one new mapping. */
  lemma LeafUpdates(m0: Memory, a0: Tree, m1: Memory, a1: Tree, other: set<nat>, t: nat, i: nat, f: nat, e: int,
                    root: nat, v: nat)
    requires SameMaps(m0, a0, m1) && SamePages(m0, a0, other, m1) && Grows(a0, a1, root) && Trees(m1, a1, {})
    requires f in other && f !in a1
    requires t in a1 && t < |m1| && a1[t].root == root && a1[t].level == 1 && a1[t].x == v / ENTRIES && i == v % ENTRIES
    requires t !in other
    ensures Updated(m0, a0, SetEntry(m1, t, i, e), root, map[v := Decode(e)]) == true
    ensures SamePages(m0, a0, other, SetEntry(m1, t, i, e)) == true
    ensures Grows(a0, a1[f := PlaceUnder(a1, t, i)], root) == true
  {
    hide Trees, Lookup;
    var m2, m := SetEntry(m1, t, i, e), map[v := Decode(e)];
    forall r, u: nat | r in a0 && a0[r].level == 4 && u < PAGES
      ensures Lookup(m2, r, u) == if r == root && u in m then m[u] else Lookup(m0, r, u)
    {
      LeafMaps(m1, a1, t, i, e, r, u);
      assert Lookup(m1, r, u) == Lookup(m0, r, u);
    }
  }

  /** Pages a, a + 1, ... mapped to the frames fs. */
  ghost function FrameMap(a: nat, fs: seq<nat>, flags: int): (m: map<nat, Mapping>) {
    if fs == [] then map[]
    else FrameMap(a, fs[..|fs| - 1], flags)[a + |fs| - 1 := Mapped(fs[|fs| - 1], flags)]
  }

  lemma {:induction false} FrameMapIn(a: nat, fs: seq<nat>, flags: int, v: nat)
    ensures v in FrameMap(a, fs, flags) <==> a <= v < a + |fs|
    ensures a <= v < a + |fs| ==> FrameMap(a, fs, flags)[v] == Mapped(fs[v - a], flags)
  {
    if fs != [] {
      FrameMapIn(a, fs[..|fs| - 1], flags, v);
    }
  }

  lemma FrameMapMore(a: nat, fs: seq<nat>, flags: int, f: nat, v: nat)
    requires v == a + |fs|
    ensures FrameMap(a, fs + [f], flags) == FrameMap(a, fs, flags) + map[v := Mapped(f, flags)]
  {
    assert (fs + [f])[..|fs|] == fs;
  }

  lemma UpdatedTrans(m0: Memory, a0: Tree, m1: Memory, a1: Tree, m2: Memory, root: nat, x: map<nat, Mapping>,
                     y: map<nat, Mapping>)
    requires Updated(m0, a0, m1, root, x) && Updated(m1, a1, m2, root, y)
    requires forall f :: f in a0 && a0[f].level == 4 ==> f in a1 && a1[f].level == 4
    ensures Updated(m0, a0, m2, root, x + y) == true
  {
    hide Lookup;
    var z := x + y;
    forall r, v: nat | r in a0 && a0[r].level == 4 && v < PAGES
      ensures Lookup(m2, r, v) == if r == root && v in z then z[v] else Lookup(m0, r, v)
    {
      assert Lookup(m1, r, v) == if r == root && v in x then x[v] else Lookup(m0, r, v);
      assert Lookup(m2, r, v) == if r == root && v in y then y[v] else Lookup(m1, r, v);
    }
  }

  lemma PagesTrans(m0: Memory, a0: Tree, o0: set<nat>, m1: Memory, a1: Tree, o1: set<nat>, m2: Memory)
    requires SamePages(m0, a0, o0, m1) && SamePages(m1, a1, o1, m2)
    requires forall f: nat :: f in o0 || (f in a0 && a0[f].level == 0) ==> f in o1 || (f in a1 && a1[f].level == 0)
    ensures SamePages(m0, a0, o0, m2) == true
  {
  }

  lemma GrowsTrans(a0: Tree, a1: Tree, a2: Tree, root: nat)
    requires Grows(a0, a1, root) && Grows(a1, a2, root)
    ensures Grows(a0, a2, root) == true
  {
  }

  /**
   Address space root has got pages p, p + 1, ... with frames fs; they were unmapped before, and nothing else changed.
   */
  ghost predicate MapsTo(m0: Memory, a0: Tree, o0: set<nat>, m: Memory, a: Tree, root: nat, p: nat, fs: seq<nat>,
                         flags: int) {
    && Updated(m0, a0, m, root, FrameMap(p, fs, flags)) && Grows(a0, a, root) && SamePages(m0, a0, o0, m)
    && (forall k :: 0 <= k < |fs| ==> fs[k] in a && a[fs[k]].level == 0 && a[fs[k]].root == root)
    && forall v: nat :: p <= v < p + |fs| ==> Lookup(m0, root, v) == Unmapped
  }

  lemma MapsNothing(mem: Memory, at: Tree, other: set<nat>, root: nat, p: nat, flags: int)
    ensures MapsTo(mem, at, other, mem, at, root, p, [], flags) == true
  {
  }

  /** One more page. */
  lemma MapsMore(m0: Memory, a0: Tree, o0: set<nat>, m1: Memory, a1: Tree, o1: set<nat>, m2: Memory, a2: Tree,
                 root: nat, p: nat, fs: seq<nat>, flags: int, f: nat, v: nat)
    requires MapsTo(m0, a0, o0, m1, a1, root, p, fs, flags) && v == p + |fs| < PAGES && root in a0
    requires a0[root].level == 4
    requires Updated(m1, a1, m2, root, map[v := Mapped(f, flags)]) && Grows(a1, a2, root) && SamePages(m1, a1, o1, m2)
    requires (forall g :: g in o0 ==> g in o1 || (g in a1 && a1[g].level == 0)) && f in a2 && a2[f].level == 0
    requires a2[f].root == root && Lookup(m1, root, v) == Unmapped
    ensures MapsTo(m0, a0, o0, m2, a2, root, p, fs + [f], flags) == true
  {
    hide Lookup, FrameMap;
    UpdatedTrans(m0, a0, m1, a1, m2, root, FrameMap(p, fs, flags), map[v := Mapped(f, flags)]);
    FrameMapMore(p, fs, flags, f, v);
    GrowsTrans(a0, a1, a2, root);
    PagesTrans(m0, a0, o0, m1, a1, o1, m2);
    MapsLooks(m0, a0, o0, m1, a1, root, p, fs, flags, v);
  }

  /** A page not among those keeps its mapping. */
  lemma MapsLooks(m0: Memory, a0: Tree, o0: set<nat>, m1: Memory, a1: Tree, root: nat, p: nat, fs: seq<nat>, flags: int,
                  v: nat)
    requires MapsTo(m0, a0, o0, m1, a1, root, p, fs, flags) && v == p + |fs| < PAGES && root in a0
    requires a0[root].level == 4
    ensures Lookup(m1, root, v) == Lookup(m0, root, v)
  {
    hide Lookup;
    FrameMapIn(p, fs, flags, v);
  }

  /** Filling a frame that was free changes nothing of that. */
  lemma MapsFill(m0: Memory, a0: Tree, o0: set<nat>, m1: Memory, a1: Tree, root: nat, p: nat, fs: seq<nat>, flags: int,
                 f: nat, page: Page)
    requires MapsTo(m0, a0, o0, m1, a1, root, p, fs, flags) && Trees(m1, a1, {}) && f < |m1| && f !in a1 && f !in o0
    ensures MapsTo(m0, a0, o0, m1[f := page], a1, root, p, fs, flags) == true
  {
    hide Trees, Lookup, FrameMap;
    var m2, x := m1[f := page], FrameMap(p, fs, flags);
    forall r, v: nat | r in a0 && a0[r].level == 4 && v < PAGES
      ensures Lookup(m2, r, v) == if r == root && v in x then x[v] else Lookup(m0, r, v)
    {
      PageMaps(m1, a1, f, page, r, v);
    }
  }

  lemma MapsGrows(m0: Memory, a0: Tree, o0: set<nat>, m: Memory, a: Tree, root: nat, p: nat, fs: seq<nat>, flags: int)
    requires MapsTo(m0, a0, o0, m, a, root, p, fs, flags)
    ensures Grows(a0, a, root)
  {
  }

  /** A frame of the range that is neither in a tree nor in other use is free. */
  lemma Fresh(m0: Memory, a0: Tree, o0: set<nat>, lo: nat, hi: nat, free: seq<nat>, f: nat)
    requires Partition(lo, hi, free, a0, o0) && lo <= f < hi && f !in a0 && f !in o0
    ensures f in free
  {
  }

  lemma MapsOne(m0: Memory, a0: Tree, o0: set<nat>, m: Memory, a: Tree, root: nat, p: nat, f: nat, flags: int)
    requires MapsTo(m0, a0, o0, m, a, root, p, [f], flags)
    ensures Updated(m0, a0, m, root, map[p := Mapped(f, flags)]) == true && Lookup(m0, root, p) == Unmapped
    ensures Grows(a0, a, root) == true && SamePages(m0, a0, o0, m) == true && f in a && a[f].level == 0
    ensures a[f].root == root
  {
    hide Lookup;
    FrameMapMore(p, [], flags, f, p);
    assert [] + [f] == [f];
    assert FrameMap(p, [f], flags) == map[p := Mapped(f, flags)];
    assert [f][0] == f;
  }

  const KERNBASE := 0xFFFF_8000_0000_0000
  const PGSIZE := 4096
  const USER_PERM := 6  // PTE_W | PTE_U

  /** PGROUNDUP(n) / PGSIZE */
  function RoundUp(n: nat): (p: nat)
    ensures n <= p * 4096 < n + 4096
  {
    (n + PGSIZE - 1) / PGSIZE
  }

  datatype SizeResult = Size(n: nat) | Panic

  // Index digits of an address

  function PMX(va: nat): (i: nat) { va / 0x80_0000_0000 % ENTRIES }
  function PDPX(va: nat): (i: nat) { va / 0x4000_0000 % ENTRIES }
  function PDX(va: nat): (i: nat) { va / 0x20_0000 % ENTRIES }
  function PTX(va: nat): (i: nat) { va / 0x1000 % ENTRIES }

  /** The four indexes are the four low digits of the page number in base 512. */
  lemma IndexDigits(va: nat)
    ensures var v := va / 4096;
            && PTX(va) == v % ENTRIES && PDX(va) == v / ENTRIES % ENTRIES
            && PDPX(va) == v / ENTRIES / ENTRIES % ENTRIES && PMX(va) == v / ENTRIES / ENTRIES / ENTRIES % ENTRIES
    ensures va < PAGES * 4096 ==> va / 4096 < PAGES && PMX(va) == va / 4096 / ENTRIES / ENTRIES / ENTRIES < USER_HALF
  {
    var v := va / 4096;
    assert va / 0x20_0000 == v / ENTRIES;
    assert va / 0x4000_0000 == v / ENTRIES / ENTRIES;
    assert va / 0x80_0000_0000 == v / ENTRIES / ENTRIES / ENTRIES;
  }

  /** The page number without the bits that no index sees is made of the four indexes. */
  lemma IndexValue(va: nat)
    ensures va / 4096 % VISIBLE == PTX(va) + ENTRIES * (PDX(va) + ENTRIES * (PDPX(va) + ENTRIES * PMX(va)))
  {
    var v := va / 4096;
    IndexDigits(va);
    var high := v / ENTRIES / ENTRIES / ENTRIES / ENTRIES;
    assert v == VISIBLE * high + PTX(va) + ENTRIES * (PDX(va) + ENTRIES * (PDPX(va) + ENTRIES * PMX(va)));
  }

  /** Two addresses have the same four indexes iff their page numbers agree below bit 36, addresses below bit 48. */
  lemma IndexesExact(va: nat, vb: nat)
    ensures PMX(va) == PMX(vb) && PDPX(va) == PDPX(vb) && PDX(va) == PDX(vb) && PTX(va) == PTX(vb) <==>
            va / 4096 % VISIBLE == vb / 4096 % VISIBLE
  {
    IndexValue(va);
    IndexValue(vb);
    IndexDigits(va);
    IndexDigits(vb);
  }

  /** Once a walk has failed it stays failed. */
  lemma NodeStuck(mem: Memory, r: nat, v: nat)
    requires
      || Node(mem, r, 3, v / ENTRIES / ENTRIES / ENTRIES).None?
      || Node(mem, r, 2, v / ENTRIES / ENTRIES).None? || Node(mem, r, 1, v / ENTRIES).None?
    ensures Lookup(mem, r, v) == Unmapped
  {
  }

  /** An absent entry of a table on the way to v. */
  lemma MissingUnmapped(mem: Memory, at: Tree, t: nat, level: nat, x: nat, r: nat)
    requires Trees(mem, at, {}) && t in at && at[t].root == r && at[t].level == level + 1 && 1 <= level <= 3
    requires at[t].x == x / ENTRIES
    requires t < |mem| && !Present(mem[t].w[x % ENTRIES])
    ensures Node(mem, r, level, x) == None
  {
    hide Trees;
    NodeFinds(mem, at, t);
  }

  /** A freed page: filled with ones, then linked. */
  function Junk(next: int): (p: Page)
    ensures p.w[0] == next && forall k :: 1 <= k < ENTRIES ==> p.w[k] == 0x0101_0101_0101_0101
  {
    Page(seq(512, k => if k == 0 then next else 0x0101_0101_0101_0101))
  }

  /** The frames from lo up to hi. */
  ghost function Frames(lo: nat, hi: nat): (fs: set<nat>)
    ensures forall f :: f in fs <==> lo <= f < hi
    decreases hi - lo
  {
    if lo >= hi then {} else {lo} + Frames(lo + 1, hi)
  }

  // Unmapping

  /** A user page is mapped where its place says. */
  lemma MappedAt(mem: Memory, at: Tree, g: nat)
    requires Trees(mem, at, {}) && g in at && at[g].level == 0
    ensures Lookup(mem, at[g].root, at[g].x).Mapped? && Lookup(mem, at[g].root, at[g].x).frame == g
  {
    assert UpOk(mem, at, {}, g);
    assert UpOk(mem, at, {}, at[g].parent);
    NodeFinds(mem, at, at[g].parent);
  }

  /** And the frame a page is mapped to has that place. */
  lemma FrameOf(mem: Memory, at: Tree, t: nat, i: nat, root: nat, v: nat)
    requires Trees(mem, at, {}) && t in at && t < |mem| && at[t].root == root && at[t].level == 1
    requires at[t].x == v / ENTRIES && i == v % ENTRIES
    requires Present(mem[t].w[i])
    ensures var f := Addr(mem[t].w[i]); f >= 0 && f in at && at[f] == Place(root, 0, v, t)
  {
    assert KidOk(mem, at, t, i);
    assert v == v / ENTRIES * ENTRIES + v % ENTRIES;
  }

  /** kfree of a user page and then clearing its entry. */
  lemma UnmapGood(mem: Memory, head: int, lo: nat, hi: nat, kern: int, free: seq<nat>, at: Tree, other: set<nat>,
                  f: nat, t: nat, i: nat)
    requires Good(mem, head, lo, hi, kern, free, at, other) && f in at && at[f].level == 0 && t == at[f].parent
    requires i == at[f].x % ENTRIES
    ensures f < |mem| && t < |mem| && t != f && f !in free && lo <= f < hi
    ensures Good(SetEntry(mem[f := Junk(head)], t, i, 0), f, lo, hi, kern, [f] + free, at - {f}, other) == true
  {
    hide KidOk, UserX, Trees;
    UpPlace(mem, at, f);
    RemoveKeeps(mem, at, f);
    var m1, m2 := SetEntry(mem, t, i, 0), SetEntry(mem[f := Junk(head)], t, i, 0);
    TreesFrame(m1, at - {f}, f, Junk(head));
    assert m1[f := Junk(head)] == m2;
    FreeFrame(mem, head, free, t, Page(mem[t].w[i := 0]));
    FreePush(m1, head, free, f, Junk(head));
  }

  lemma UpPlace(mem: Memory, at: Tree, f: nat)
    requires Trees(mem, at, {}) && f in at
    ensures f < |mem|
    ensures at[f].level < 4 ==>
      at[f].parent in at && at[f].parent < |mem| && at[at[f].parent].level == at[f].level + 1
    ensures at[f].level < 4 ==> at[at[f].parent].root == at[f].root && at[at[f].parent].x == at[f].x / ENTRIES
  {
    assert UpOk(mem, at, {}, f);
  }

  /** It changes one mapping. */
  lemma UnmapUpdates(mem: Memory, at: Tree, f: nat, t: nat, i: nat, page: Page)
    requires Trees(mem, at, {}) && f in at && at[f].level == 0 && t == at[f].parent && i == at[f].x % ENTRIES
    ensures f < |mem| && t < |mem|
    ensures Updated(mem, at, SetEntry(mem[f := page], t, i, 0), at[f].root, map[at[f].x := Unmapped]) == true
  {
    hide Trees, Lookup;
    UpPlace(mem, at, f);
    TreesFrame(mem, at, f, page);
    var m1, x := mem[f := page], map[at[f].x := Unmapped];
    var m2 := SetEntry(m1, t, i, 0);
    assert at[f].x == at[f].x / ENTRIES * ENTRIES + i;
    forall r, v: nat | r in at && at[r].level == 4 && v < PAGES
      ensures Lookup(m2, r, v) == if r == at[f].root && v in x then x[v] else Lookup(mem, r, v)
    {
      LeafMaps(m1, at, t, i, 0, r, v);
      PageMaps(mem, at, f, page, r, v);
    }
  }

  /** Pages p up to p + n without a mapping. */
  ghost function Cleared(p: nat, n: nat): (m: map<nat, Mapping>) {
    if n == 0 then map[] else Cleared(p, n - 1)[p + n - 1 := Unmapped]
  }

  lemma {:induction false} ClearedIn(p: nat, n: nat, v: nat)
    ensures v in Cleared(p, n) <==> p <= v < p + n
    ensures p <= v < p + n ==> Cleared(p, n)[v] == Unmapped
  {
    if n > 0 {
      ClearedIn(p, n - 1, v);
    }
  }

  /** Address space root has lost the pages from p up to a: their frames left the trees, and nothing else changed. */
  ghost predicate Unmaps(m0: Memory, a0: Tree, other: set<nat>, m: Memory, at: Tree, root: nat, p: nat, a: nat) {
    && p <= a && Updated(m0, a0, m, root, Cleared(p, a - p)) && |m| == |m0|
    && (forall g :: g in at <==> g in a0 && !Among(a0[g], root, p, a))
    && (forall g :: g in at ==> at[g] == a0[g])
    && forall g: nat :: g < |m| && (g in other || (g in at && at[g].level == 0)) ==> m[g] == m0[g]
  }

  ghost predicate Among(q: Place, root: nat, p: nat, a: nat) {
    q.level == 0 && q.root == root && p <= q.x < a
  }

  lemma UnmapsNothing(mem: Memory, at: Tree, other: set<nat>, root: nat, p: nat)
    ensures Unmaps(mem, at, other, mem, at, root, p, p) == true
  {
  }

  lemma UnmapsMore(m0: Memory, a0: Tree, other: set<nat>, m1: Memory, a1: Tree, m2: Memory, a2: Tree, root: nat, p: nat,
                   a: nat)
    requires Unmaps(m0, a0, other, m1, a1, root, p, a) && Unmaps(m1, a1, other, m2, a2, root, a, a + 1)
    ensures Unmaps(m0, a0, other, m2, a2, root, p, a + 1) == true
  {
    hide Lookup, Cleared;
    UpdatedTrans(m0, a0, m1, a1, m2, root, Cleared(p, a - p), Cleared(a, 1));
    assert Cleared(p, a - p) + Cleared(a, 1) == Cleared(p, a + 1 - p) by {
      ClearedStep(p, a);
    }
  }

  lemma ClearedStep(p: nat, a: nat)
    requires p <= a
    ensures Cleared(p, a - p) + Cleared(a, 1) == Cleared(p, a + 1 - p)
  {
    assert Cleared(a, 1) == map[a := Unmapped];
  }

  /** Shrinking undoes growing: every mapping of every address space is as it was. */
  lemma ShrinkUndoesGrow(m0: Memory, a0: Tree, o0: set<nat>, m1: Memory, a1: Tree, m2: Memory, a2: Tree, root: nat,
                         p: nat, fs: seq<nat>, flags: int)
    requires MapsTo(m0, a0, o0, m1, a1, root, p, fs, flags) && Unmaps(m1, a1, o0, m2, a2, root, p, p + |fs|)
    ensures SameMaps(m0, a0, m2)
  {
    hide Lookup, FrameMap, Cleared;
    forall r, v: nat | r in a0 && a0[r].level == 4 && v < PAGES
      ensures Lookup(m2, r, v) == Lookup(m0, r, v)
    {
      FrameMapIn(p, fs, flags, v);
      ClearedIn(p, |fs|, v);
      assert Lookup(m1, r, v) == if r == root && v in FrameMap(p, fs, flags) then FrameMap(p, fs, flags)[v]
          else Lookup(m0, r, v);
      assert Lookup(m2, r, v) == if r == root && v in Cleared(p, |fs|) then Cleared(p, |fs|)[v] else Lookup(m1, r, v);
    }
  }

  // A new address space

  lemma RootKeeps(mem: Memory, at: Tree, c: nat, kern: int)
    requires Trees(mem, at, {}) && c < |mem| && c !in at
    ensures Trees(SetEntry(mem[c := ZeroPage()], c, USER_HALF, kern), at[c := Place(c, 4, 0, c)], {})
  {
    var mem', at' := SetEntry(mem[c := ZeroPage()], c, USER_HALF, kern), at[c := Place(c, 4, 0, c)];
    hide UpOk, KidOk, SamePlace;
    forall f | f in at'
      ensures UpOk(mem', at', {}, f)
    {
      NewRootUp(mem, at, c, kern, f);
    }
    forall u, j: nat | u in at' && j < ENTRIES
      ensures KidOk(mem', at', u, j)
    {
      NewRootKid(mem, at, c, kern, u, j);
    }
    forall f, g | f in at' && g in at' && SamePlace(at'[f], at'[g])
      ensures f == g
    {
      if f == c && g != c {
        NewRootPlace(mem, at, c, g);
      } else if g == c && f != c {
        NewRootPlace(mem, at, c, f);
      }
    }
  }

  lemma NewRootUp(mem: Memory, at: Tree, c: nat, kern: int, f: nat)
    requires c < |mem| && c !in at && (f == c || (f in at && UpOk(mem, at, {}, f)))
    ensures UpOk(SetEntry(mem[c := ZeroPage()], c, USER_HALF, kern), at[c := Place(c, 4, 0, c)], {}, f)
  {
  }

  lemma NewRootKid(mem: Memory, at: Tree, c: nat, kern: int, u: nat, j: nat)
    requires c < |mem| && c !in at && j < ENTRIES && (u == c || (u in at && KidOk(mem, at, u, j)))
    ensures KidOk(SetEntry(mem[c := ZeroPage()], c, USER_HALF, kern), at[c := Place(c, 4, 0, c)], u, j)
  {
  }

  lemma NewRootPlace(mem: Memory, at: Tree, c: nat, g: nat)
    requires c !in at && g in at && UpOk(mem, at, {}, g)
    ensures !SamePlace(at[g], Place(c, 4, 0, c)) && !SamePlace(Place(c, 4, 0, c), at[g])
  {
  }

  /** A new top table maps nothing. */
  lemma RootEmpty(mem: Memory, c: nat, v: nat)
    requires c < |mem| && v < PAGES && forall i :: 0 <= i < USER_HALF ==> mem[c].w[i] == 0
    ensures Lookup(mem, c, v) == Unmapped
  {
    var x := v / ENTRIES / ENTRIES / ENTRIES;
    assert x < USER_HALF && x % ENTRIES == x;
    assert Node(mem, c, 3, x) == None;
    NodeStuck(mem, c, v);
  }

  lemma RootGood(mem: Memory, head: int, lo: nat, hi: nat, kern: int, free: seq<nat>, at: Tree, other: set<nat>, c: nat)
    requires Good(mem, head, lo, hi, kern, free, at, other) && c in other
    ensures c < |mem|
    ensures Good(SetEntry(mem[c := ZeroPage()], c, USER_HALF, kern), head, lo, hi, kern, free,
        at[c := Place(c, 4, 0, c)], other - {c}) == true
  {
    hide Trees;
    RootKeeps(mem, at, c, kern);
    FreeFrame(mem, head, free, c, Page(ZeroPage().w[USER_HALF := kern]));
    assert SetEntry(mem[c := ZeroPage()], c, USER_HALF, kern) == mem[c := Page(ZeroPage().w[USER_HALF := kern])];
  }

  lemma RootSame(mem: Memory, at: Tree, other: set<nat>, c: nat, page: Page)
    requires Trees(mem, at, {}) && c < |mem| && c !in at && c !in other
    ensures SameMaps(mem, at, mem[c := page]) == true && SamePages(mem, at, other, mem[c := page]) == true
  {
    hide Trees, Lookup;
    var mem' := mem[c := page];
    forall r, v: nat | r in at && at[r].level == 4 && v < PAGES
      ensures Lookup(mem', r, v) == Lookup(mem, r, v)
    {
      PageMaps(mem, at, c, page, r, v);
    }
  }

  // Copying an address space

  /** Pages 1 up to n of address space d hold what those of root held, with the same flags, in the frames fs. */
  ghost predicate SameContent(m0: Memory, root: nat, m: Memory, d: nat, fs: seq<nat>, n: nat) {
    |fs| == n - 1 && forall v: nat :: 1 <= v < n ==> PageCopied(m0, root, m, d, fs, v)
  }

  /** Page v of d is in frame fs[v - 1]; it has the contents and the flags that page v of root had. */
  ghost predicate PageCopied(m0: Memory, root: nat, m: Memory, d: nat, fs: seq<nat>, v: nat) {
    1 <= v <= |fs| &&
    var f, p := fs[v - 1], Lookup(m0, root, v);
    p.Mapped? && 0 <= p.frame < |m0| && f < |m| && Lookup(m, d, v) == Mapped(f, p.flags) && m[f] == m0[p.frame]
  }

  /** copyuvm has copied the pages below n to the new address space d; all that was there is untouched. */
  ghost predicate Copying(m0: Memory, a0: Tree, o0: set<nat>, m: Memory, a: Tree, root: nat, d: nat, fs: seq<nat>,
                          n: nat) {
    && SameMaps(m0, a0, m) && SamePages(m0, a0, o0, m) && d !in a0 && d in a && a[d].level == 4
    && (forall f :: f in a0 ==> f in a && a[f] == a0[f])
    && (forall v: nat :: v < PAGES && (v < 1 || n <= v) ==> Lookup(m, d, v) == Unmapped)
    && (forall k :: 0 <= k < |fs| ==> fs[k] in a && a[fs[k]].level == 0 && fs[k] !in a0 && fs[k] !in o0)
    && SameContent(m0, root, m, d, fs, n)
  }

  lemma CopyStarts(m0: Memory, a0: Tree, o0: set<nat>, m: Memory, a: Tree, root: nat, d: nat)
    requires SameMaps(m0, a0, m) && SamePages(m0, a0, o0, m) && d !in a0 && a == a0[d := Place(d, 4, 0, d)]
    requires forall v: nat :: v < PAGES ==> Lookup(m, d, v) == Unmapped
    ensures Copying(m0, a0, o0, m, a, root, d, [], 1) == true
  {
  }

  /** The frame for the next page is filled with the parent's page. */
  lemma CopyFill(m0: Memory, a0: Tree, o0: set<nat>, m: Memory, a: Tree, root: nat, d: nat, fs: seq<nat>, n: nat,
                 f: nat, page: Page)
    requires Copying(m0, a0, o0, m, a, root, d, fs, n) && Trees(m, a, {}) && f < |m| && f !in a && f !in o0
    requires n <= PAGES
    ensures Copying(m0, a0, o0, m[f := page], a, root, d, fs, n) == true
  {
    hide Trees, Lookup;
    var m' := m[f := page];
    forall r, v: nat | r in a && a[r].level == 4 && v < PAGES
      ensures Lookup(m', r, v) == Lookup(m, r, v)
    {
      PageMaps(m, a, f, page, r, v);
    }
    assert SameMaps(m0, a0, m');
    forall v: nat | 1 <= v < n
      ensures PageCopied(m0, root, m', d, fs, v)
    {
      assert PageCopied(m0, root, m, d, fs, v);
      assert fs[v - 1] in a;
    }
  }

  /** And mapped. */
  lemma CopyMore(m0: Memory, a0: Tree, o0: set<nat>, m1: Memory, a1: Tree, o1: set<nat>, m2: Memory, a2: Tree,
                 root: nat, d: nat, fs: seq<nat>, n: nat, f: nat, flags: int)
    requires Copying(m0, a0, o0, m1, a1, root, d, fs, n) && 1 <= n < PAGES && o0 <= o1 && f in o1 && f < |m1|
    requires f !in a0 && f !in o0
    requires Updated(m1, a1, m2, d, map[n := Mapped(f, flags)]) && Grows(a1, a2, d) && SamePages(m1, a1, o1, m2)
    requires f in a2 && a2[f].level == 0
    requires var p := Lookup(m0, root, n); p.Mapped? && p.flags == flags && 0 <= p.frame < |m0| && m1[f] == m0[p.frame]
    ensures Copying(m0, a0, o0, m2, a2, root, d, fs + [f], n + 1) == true
  {
    hide Lookup;
    forall r, v: nat | r in a0 && a0[r].level == 4 && v < PAGES
      ensures Lookup(m2, r, v) == Lookup(m0, r, v)
    {
      assert Lookup(m1, r, v) == Lookup(m0, r, v);
    }
    assert SameMaps(m0, a0, m2);
    CopyContent(m0, a0, o0, m1, a1, o1, m2, a2, root, d, fs, n, f, flags);
  }

  lemma CopyContent(m0: Memory, a0: Tree, o0: set<nat>, m1: Memory, a1: Tree, o1: set<nat>, m2: Memory, a2: Tree,
                    root: nat, d: nat, fs: seq<nat>, n: nat, f: nat, flags: int)
    requires Copying(m0, a0, o0, m1, a1, root, d, fs, n) && 1 <= n < PAGES && f in o1 && f < |m1|
    requires Updated(m1, a1, m2, d, map[n := Mapped(f, flags)]) && SamePages(m1, a1, o1, m2)
    requires var p := Lookup(m0, root, n); p.Mapped? && p.flags == flags && 0 <= p.frame < |m0| && m1[f] == m0[p.frame]
    ensures SameContent(m0, root, m2, d, fs + [f], n + 1)
  {
    hide Lookup;
    var fs' := fs + [f];
    forall v: nat | 1 <= v < n + 1
      ensures PageCopied(m0, root, m2, d, fs', v)
    {
      assert Lookup(m2, d, v) == if v == n then Mapped(f, flags) else Lookup(m1, d, v);
      if v < n {
        assert PageCopied(m0, root, m1, d, fs, v);
        assert fs[v - 1] in a1;
      }
    }
  }

  // Tearing a tree down

  /** x without its last n digits. */
  function Up(x: nat, n: nat): (y: nat) {
    if n == 0 then x else Up(x / ENTRIES, n - 1)
  }

  /** The place is in the subtree of the table at (root, level, x). */
  ghost predicate Below(p: Place, root: nat, level: nat, x: nat) {
    p.root == root && p.level <= level && Up(p.x, level - p.level) == x
  }

  /** The place is below one of the first i entries of the table at q. */
  ghost predicate Gone(p: Place, q: Place, i: nat) {
    p.root == q.root && p.level < q.level && q.x * ENTRIES <= Up(p.x, q.level - 1 - p.level) < q.x * ENTRIES + i
  }

  lemma {:induction false} UpStep(x: nat, n: nat)
    ensures Up(x, n + 1) == Up(x, n) / ENTRIES
  {
    if n > 0 {
      UpStep(x / ENTRIES, n - 1);
    }
  }

  lemma UpFacts(mem: Memory, at: Tree, dead: set<Slot>, g: nat)
    requires Trees(mem, at, dead) && g in at
    ensures at[g].level < 4 ==>
      var p := at[g].parent;
      p in at && at[p].level == at[g].level + 1 && at[p].root == at[g].root && at[p].x == at[g].x / ENTRIES
  {
    assert UpOk(mem, at, dead, g);
  }

  /** The frame above g at a higher level. */
  lemma {:induction false} AncestorAt(mem: Memory, at: Tree, dead: set<Slot>, g: nat, level: nat) returns (h: nat)
    requires Trees(mem, at, dead) && g in at && at[g].level <= level <= 4
    ensures h in at && at[h].root == at[g].root && at[h].level == level && at[h].x == Up(at[g].x, level - at[g].level)
    decreases level - at[g].level
  {
    hide Trees, UpOk;
    UpFacts(mem, at, dead, g);
    if at[g].level == level {
      h := g;
    } else {
      h := AncestorAt(mem, at, dead, at[g].parent, level);
    }
  }

  /** Nothing is below an entry that is not present. */
  lemma NoneBelow(mem: Memory, at: Tree, dead: set<Slot>, t: nat, i: nat, g: nat)
    requires Trees(mem, at, dead) && t in at && t < |mem| && 1 <= at[t].level <= 4 && i < ENTRIES
    requires !Present(mem[t].w[i]) && g in at
    ensures !Below(at[g], at[t].root, at[t].level - 1, at[t].x * ENTRIES + i)
  {
    hide KidOk, UserX, UpOk, Child, Up;
    if at[g].root == at[t].root && at[g].level < at[t].level {
      var h := AncestorAt(mem, at, dead, g, at[t].level - 1);
      assert UpOk(mem, at, dead, h);
      ParentIn(mem, at, dead, h);
      NotAtEntry(mem, at, dead, t, i, h);
    }
  }

  lemma ParentIn(mem: Memory, at: Tree, dead: set<Slot>, h: nat)
    requires h in at && UpOk(mem, at, dead, h)
    ensures at[h].level < 4 ==> at[h].parent in at
  {
  }

  lemma NotAtEntry(mem: Memory, at: Tree, dead: set<Slot>, t: nat, i: nat, h: nat)
    requires t in at && t < |mem| && at[t].level >= 1 && i < ENTRIES && !Present(mem[t].w[i]) && h in at
    requires at[h].level == at[t].level - 1
    requires UpOk(mem, at, dead, h) && at[h].level < 4 && at[h].root == at[t].root
    requires (SamePlace(at[at[h].parent], at[t]) ==> at[h].parent == t)
    ensures at[h].x != at[t].x * ENTRIES + i
  {
    hide UserX;
    Digits(at[t].x, i);
  }

  /** A frame with nothing below it leaves its tree; its parent's entry is dead. */
  lemma DropKeeps(mem: Memory, at: Tree, dead: set<Slot>, f: nat, page: Page)
    requires Trees(mem, at, dead) && f in at && at[f].level < 4
    requires forall g :: g in at && at[g].level < 4 ==> at[g].parent != f
    ensures f < |mem| && Trees(mem[f := page], at - {f}, dead + {Slot(at[f].parent, at[f].x % ENTRIES)})
  {
    hide UpOk, KidOk, UserX, Child;
    assert UpOk(mem, at, dead, f);
    DropIn(mem, at, dead, f);
    var mem', at', dead' := mem[f := page], at - {f}, dead + {Slot(at[f].parent, at[f].x % ENTRIES)};
    forall g | g in at'
      ensures UpOk(mem', at', dead', g)
    {
      assert UpOk(mem, at, dead, g);
      DropUp(mem, at, dead, f, page, g);
    }
    forall u, j: nat | u in at' && j < ENTRIES && Slot(u, j) !in dead'
      ensures KidOk(mem', at', u, j)
    {
      assert KidOk(mem, at, u, j);
      DropKid(mem, at, dead, f, page, u, j);
    }
  }

  lemma DropIn(mem: Memory, at: Tree, dead: set<Slot>, f: nat)
    requires f in at && UpOk(mem, at, dead, f)
    ensures f < |mem|
  {
  }

  lemma DropUp(mem: Memory, at: Tree, dead: set<Slot>, f: nat, page: Page, g: nat)
    requires f in at && at[f].level < 4 && g in at && g != f && (at[g].level < 4 ==> at[g].parent != f)
    requires UpOk(mem, at, dead, f) && UpOk(mem, at, dead, g)
    ensures UpOk(mem[f := page], at - {f}, dead + {Slot(at[f].parent, at[f].x % ENTRIES)}, g)
  {
    hide UserX;
  }

  lemma DropKid(mem: Memory, at: Tree, dead: set<Slot>, f: nat, page: Page, u: nat, j: nat)
    requires f in at && at[f].level < 4 && u in at && u != f && j < ENTRIES && f < |mem| && KidOk(mem, at, u, j)
    requires Slot(u, j) !in dead + {Slot(at[f].parent, at[f].x % ENTRIES)}
    ensures KidOk(mem[f := page], at - {f}, u, j)
  {
    Digits(at[u].x, j);
  }

  /** freevm at work: some entries are dead, but the frames not yet freed are in order. */
  ghost predicate Torn(mem: Memory, head: int, lo: nat, hi: nat, kern: int, free: seq<nat>, at: Tree, other: set<nat>,
                       dead: set<Slot>) {
    && 0 < lo <= hi <= |mem| && FreeList(mem, head, free) && Trees(mem, at, dead) && KernelOk(mem, at, kern)
    && Partition(lo, hi, free, at, other)
  }

  /** kfree of a frame with nothing below it. */
  lemma DropTorn(mem: Memory, head: int, lo: nat, hi: nat, kern: int, free: seq<nat>, at: Tree, other: set<nat>,
                 dead: set<Slot>, f: nat)
    requires Torn(mem, head, lo, hi, kern, free, at, other, dead) && f in at && at[f].level < 4
    requires forall g :: g in at && at[g].level < 4 ==> at[g].parent != f
    ensures 0 < f < |mem| && f !in free && f !in other && lo <= f < hi
    ensures Torn(mem[f := Junk(head)], f, lo, hi, kern, [f] + free, at - {f}, other,
        dead + {Slot(at[f].parent, at[f].x % ENTRIES)}) == true
  {
    hide Trees;
    DropKeeps(mem, at, dead, f, Junk(head));
    FreePush(mem, head, free, f, Junk(head));
  }

  /** The frames left after the first i entries of the table at q are done. */
  ghost predicate Left(a0: Tree, at: Tree, q: Place, i: nat) {
    (forall g :: g in at <==> g in a0 && !Gone(a0[g], q, i)) && forall g :: g in at ==> at[g] == a0[g]
  }

  /** Frames not freed keep their contents. */
  ghost predicate Kept(m0: Memory, m: Memory, at: Tree, other: set<nat>) {
    |m| == |m0| && forall g: nat :: g < |m| && (g in at || g in other) ==> m[g] == m0[g]
  }

  /** One entry more, if everything below it is gone. */
  lemma LeftMore(a0: Tree, a1: Tree, a2: Tree, q: Place, i: nat)
    requires Left(a0, a1, q, i) && q.level >= 1
    requires forall g :: g in a2 <==> g in a1 && !Below(a1[g], q.root, q.level - 1, q.x * ENTRIES + i)
    requires forall g :: g in a2 ==> a2[g] == a1[g]
    ensures Left(a0, a2, q, i + 1)
  {
  }

  /** When all entries are done nothing is below the table. */
  lemma {:induction false} AllGone(mem: Memory, a0: Tree, at: Tree, dead: set<Slot>, t: nat, g: nat)
    requires Trees(mem, at, dead) && t in a0 && 1 <= a0[t].level <= 3 && Left(a0, at, a0[t], ENTRIES) && g in at
    requires at[g].level < 4
    ensures at[g].parent != t
  {
    hide KidOk, UserX, Child;
    assert UpOk(mem, at, dead, g);
    assert Up(at[g].x, 0) == at[g].x;
    assert at[g].x == at[g].x / ENTRIES * ENTRIES + at[g].x % ENTRIES;
  }

  /** Dead entries of a table that is gone do not matter. */
  lemma TornFewer(mem: Memory, head: int, lo: nat, hi: nat, kern: int, free: seq<nat>, at: Tree, other: set<nat>,
                  dead: set<Slot>, fewer: set<Slot>)
    requires Torn(mem, head, lo, hi, kern, free, at, other, dead) && fewer <= dead
    requires forall s :: s in dead && s !in fewer ==> s.table !in at
    ensures Torn(mem, head, lo, hi, kern, free, at, other, fewer) == true
  {
    hide KidOk, UserX, Child;
    forall f | f in at
      ensures UpOk(mem, at, fewer, f)
    {
      assert UpOk(mem, at, dead, f);
    }
    forall u, j: nat | u in at && j < ENTRIES && Slot(u, j) !in fewer
      ensures KidOk(mem, at, u, j)
    {
      assert Slot(u, j) !in dead;
    }
  }

  /** The table's subtree is what is below its entries, and the table. */
  lemma SubtreeOf(p: Place, q: Place)
    requires 1 <= q.level
    ensures Below(p, q.root, q.level, q.x) <==> SamePlace(p, q) || Gone(p, q, ENTRIES)
  {
    if p.level < q.level {
      UpStep(p.x, q.level - 1 - p.level);
    }
  }

  /** A present entry leads to a frame whose subtree is all that is below the entry. */
  lemma EntryLeads(mem: Memory, at: Tree, dead: set<Slot>, t: nat, i: nat)
    requires Trees(mem, at, dead) && t in at && i < ENTRIES && Slot(t, i) !in dead && 1 <= at[t].level <= 4
    requires (at[t].level == 4 ==> i < USER_HALF) && t < |mem|
    requires Present(mem[t].w[i])
    ensures var c := Addr(mem[t].w[i]);
            c >= 0 && c in at && at[c] == Place(at[t].root, at[t].level - 1, at[t].x * ENTRIES + i, t)
    ensures (at[t].x * ENTRIES + i) % ENTRIES == i
  {
    hide UpOk, UserX, SamePlace;
    assert KidOk(mem, at, t, i);
    Digits(at[t].x, i);
  }

  /** User pages have nothing below them, and only one frame is in a place. */
  lemma PageAlone(mem: Memory, at: Tree, dead: set<Slot>, c: nat, g: nat)
    requires Trees(mem, at, dead) && c in at && at[c].level == 0 && g in at
    ensures at[g].level < 4 ==> at[g].parent != c
    ensures Below(at[g], at[c].root, 0, at[c].x) <==> g == c
  {
    assert UpOk(mem, at, dead, g);
    assert Below(at[g], at[c].root, 0, at[c].x) <==> SamePlace(at[g], at[c]);
  }

  lemma {:induction false} UserTop(level: nat, x: nat)
    requires level <= 3 && UserX(level, x)
    ensures Up(x, 3 - level) < USER_HALF
    decreases 3 - level
  {
    if level < 3 {
      UserTop(level + 1, x / ENTRIES);
    }
  }

  /** When all user entries of the top table are done, the top table is all that is left of the tree. */
  lemma OnlyRootLeft(mem: Memory, a0: Tree, at: Tree, dead: set<Slot>, root: nat, g: nat)
    requires Trees(mem, at, dead) && root in a0 && a0[root] == Place(root, 4, 0, root)
    requires Left(a0, at, a0[root], USER_HALF) && g in at
    ensures at[g].root == root ==> g == root
  {
    hide KidOk, Child;
    assert UpOk(mem, at, dead, g);
    if at[g].level < 4 {
      UserTop(at[g].level, at[g].x);
    }
  }

  /** The top table goes last. */
  lemma DropRoot(mem: Memory, head: int, lo: nat, hi: nat, kern: int, free: seq<nat>, at: Tree, other: set<nat>,
                 dead: set<Slot>, root: nat)
    requires Torn(mem, head, lo, hi, kern, free, at, other, dead) && root in at && at[root].root == root
    requires (forall s :: s in dead ==> s.table == root)
    requires forall g :: g in at && at[g].root == root ==> g == root
    ensures 0 < root < |mem| && root !in free && root !in other && lo <= root < hi
    ensures Good(mem[root := Junk(head)], root, lo, hi, kern, [root] + free, at - {root}, other) == true
  {
    hide Trees, FreeList, Junk;
    TableIn(mem, at, dead, root);
    RootTrees(mem, at, dead, root, Junk(head));
    FreePush(mem, head, free, root, Junk(head));
  }

  lemma RootTrees(mem: Memory, at: Tree, dead: set<Slot>, root: nat, page: Page)
    requires Trees(mem, at, dead) && root in at && at[root].root == root && root < |mem|
    requires (forall s :: s in dead ==> s.table == root)
    requires forall g :: g in at && at[g].root == root ==> g == root
    ensures Trees(mem[root := page], at - {root}, {})
  {
    hide UserX, UpOk, KidOk, Child;
    var mem', at' := mem[root := page], at - {root};
    forall g | g in at'
      ensures UpOk(mem', at', {}, g)
    {
      assert UpOk(mem, at, dead, g);
      RootUp(mem, at, dead, root, page, g);
    }
    forall u, j: nat | u in at' && j < ENTRIES
      ensures KidOk(mem', at', u, j)
    {
      assert Slot(u, j) !in dead;
      assert KidOk(mem, at, u, j);
      RootKid(mem, at, root, page, u, j);
    }
  }

  lemma RootUp(mem: Memory, at: Tree, dead: set<Slot>, root: nat, page: Page, g: nat)
    requires root in at && at[root].root == root && root < |mem| && g in at && g != root && at[g].root != root
    requires UpOk(mem, at, dead, g)
    ensures UpOk(mem[root := page], at - {root}, {}, g)
  {
    hide UserX;
  }

  lemma RootKid(mem: Memory, at: Tree, root: nat, page: Page, u: nat, j: nat)
    requires root in at && root < |mem| && u in at && u != root && j < ENTRIES && KidOk(mem, at, u, j)
    requires at[u].root != at[root].root
    ensures KidOk(mem[root := page], at - {root}, u, j)
  {
  }

  /** Other address spaces do not notice. */
  lemma {:induction false} NodeSub(m0: Memory, a0: Tree, m: Memory, at: Tree, root: nat, r: nat, level: nat, x: nat)
    requires Trees(m0, a0, {}) && r in a0 && a0[r].level == 4 && r != root && 1 <= level <= 4 && UserX(level, x)
    requires |m| == |m0|
    requires forall g: nat :: g in a0 && a0[g].root != root && g < |m0| ==> m[g] == m0[g]
    ensures Node(m, r, level, x) == Node(m0, r, level, x)
    decreases 4 - level
  {
    hide Trees;
    if level < 4 {
      UserDown(level, x);
      NodeSub(m0, a0, m, at, root, r, level + 1, x / ENTRIES);
      NodeAt(m0, a0, r, level + 1, x / ENTRIES);
    }
  }

  lemma OthersSame(m0: Memory, a0: Tree, m: Memory, at: Tree, other: set<nat>, root: nat)
    requires Trees(m0, a0, {}) && Kept(m0, m, at, other) && forall g :: g in at <==> g in a0 && a0[g].root != root
    requires forall g :: g in at ==> at[g] == a0[g]
    ensures SameMaps(m0, at, m)
  {
    hide Trees;
    forall r, v: nat | r in at && at[r].level == 4 && v < PAGES
      ensures Lookup(m, r, v) == Lookup(m0, r, v)
    {
      UserPage(v);
      RootPlace(m0, a0, r);
      NodeSub(m0, a0, m, at, root, r, 1, v / ENTRIES);
      NodeAt(m0, a0, r, 1, v / ENTRIES);
    }
  }

  datatype CopyResult = Copied(root: nat) | CopyPanic

  class Machine {
    const lo: nat
    const hi: nat
    const kern: int
    var mem: Memory
    var freelist: int
    ghost var free: seq<nat>
    ghost var at: Tree
    ghost var other: set<nat>

    ghost predicate Valid()
      reads this
    {
      Good(mem, freelist, lo, hi, kern, free, at, other)
    }

    /** At boot no frame is free and there is no address space. */
    constructor (mem: Memory, lo: nat, hi: nat, kern: int)
      requires 0 < lo <= hi <= |mem|
      ensures Valid() && free == [] && at == map[] && this.mem == mem && this.lo == lo && this.hi == hi
      ensures this.kern == kern
      ensures other == Frames(lo, hi)
    {
      this.mem, this.lo, this.hi, this.kern := mem, lo, hi, kern;
      freelist, free, at, other := 0, [], map[], Frames(lo, hi);
    }

    /** freerange: all frames become free. */
    method Freerange()
      requires Valid() && free == [] && at == map[] && other == Frames(lo, hi)
      modifies `mem, `freelist, `free, `other
      ensures Valid() && other == {} && forall f :: f in free <==> lo <= f < hi
    {
      hide Trees;
      var f := lo;
      while f < hi
        invariant lo <= f <= hi && Valid() && other == Frames(f, hi)
      {
        GiveGood(mem, freelist, lo, hi, kern, free, at, other, f, Junk(freelist));
        var ok := Kfree(f);
        other := other - {f};
        f := f + 1;
      }
    }

    method Kalloc() returns (r: Option<nat>)
      requires Valid()
      modifies `freelist, `free, `other
      ensures Valid() == true && (r.None? <==> old(free) == [])
      ensures r.None? ==> freelist == old(freelist) && free == old(free) && other == old(other)
      ensures r.Some? ==>
        && r.value == old(free)[0] && free == old(free)[1..] && other == old(other) + {r.value}
        && r.value !in at && r.value !in old(other) && 0 < r.value < |mem|
    {
      if freelist == 0 {
        return None;
      }
      TakeGood(mem, freelist, lo, hi, kern, free, at, other);
      r := Some(freelist);
      freelist := mem[freelist].w[0];
      free, other := free[1..], other + {r.value};
    }

    /** Put a frame on the free list; false is the panic for a frame outside the allocator's range. */
    method Kfree(f: nat) returns (ok: bool)
      requires FreeList(mem, freelist, free) && 0 < f < |mem|
      modifies `mem, `freelist, `free
      ensures ok <==> lo <= f < hi
      ensures ok ==> mem == old(mem)[f := Junk(old(freelist))] && freelist == f && free == [f] + old(free)
      ensures ok ==> (FreeList(mem, freelist, free) <==> f !in old(free))
    {
      if f < lo || f >= hi {
        return false;
      }
      if f !in free {
        FreePush(mem, freelist, free, f, Junk(freelist));
      } else {
        FreeTwice(mem[f := Junk(freelist)], free, f);
      }
      mem := mem[f := Junk(freelist)];
      freelist := f;
      free := [f] + free;
      return true;
    }

    /** One level of walkpgdir: the table behind entry i of t, allocated if asked for. */
    method Descend(t: nat, i: nat, alloc: bool) returns (r: Got)
      requires Valid() && t in at && i < ENTRIES && 2 <= at[t].level <= 4 && (at[t].level == 4 ==> i < USER_HALF)
      requires t < |mem|
      modifies `mem, `freelist, `free, `at, `other
      ensures Valid() == true && other == old(other) && SameMaps(old(mem), old(at), mem) == true
      ensures SamePages(old(mem), old(at), other, mem) == true && Grows(old(at), at, old(at)[t].root) == true
      ensures r.Found? ==> r.t in at && at[r.t] == PlaceUnder(old(at), t, i) && r.t < |mem|
      ensures r.Missing? ==> !alloc && !Present(mem[t].w[i])
      ensures r.OutOfMemory? ==> alloc && free == []
      ensures !alloc || !r.Found? ==> mem == old(mem) && at == old(at) && free == old(free)
    {
      assert KidOk(mem, at, t, i);
      var e := mem[t].w[i];
      if e % 2 == 1 {
        assert UpOk(mem, at, {}, Addr(e));
        return Found(e / 4096);
      }
      if !alloc {
        return Missing;
      }
      var c := NewTable(t, i);
      return if c.None? then OutOfMemory else Found(c.value);
    }

    /** A zeroed frame behind an empty entry of a table. */
    method NewTable(t: nat, i: nat) returns (r: Option<nat>)
      requires Valid() && Vacant(mem, at, t, i) && at[t].level >= 2
      modifies `mem, `freelist, `free, `at, `other
      ensures Valid() == true && other == old(other) && SameMaps(old(mem), old(at), mem) == true
      ensures SamePages(old(mem), old(at), other, mem) == true && Grows(old(at), at, old(at)[t].root) == true
      ensures r.Some? ==> r.value in at && at[r.value] == PlaceUnder(old(at), t, i) && r.value < |mem|
      ensures r.None? ==> free == [] && mem == old(mem) && at == old(at) && free == old(free)
    {
      hide Trees, KernelOk, FreeList;
      ghost var was := other;
      var k := Kalloc();
      if k.None? {
        return None;
      }
      var c, e := k.value, Entry(k.value, TABLE_FLAGS);
      EntryParts(c, TABLE_FLAGS);
      TableSame(mem, at, was, t, i, c, e);
      FillGood(mem, freelist, lo, hi, kern, free, at, other, c, ZeroPage());
      mem := mem[c := ZeroPage()];
      AddGood(mem, freelist, lo, hi, kern, free, at, other, t, i, c, e);
      mem := SetEntry(mem, t, i, e);
      at, other := at[c := PlaceUnder(at, t, i)], other - {c};
      assert other == was;
      return Some(c);
    }

    /** The last-level table for address va; the entry is number PTX(va) in it. */
    method Walkpgdir(root: nat, va: nat, alloc: bool) returns (r: Got)
      requires Valid() && root in at && at[root].level == 4 && va < PAGES * 4096
      modifies `mem, `freelist, `free, `at, `other
      ensures Valid() == true && other == old(other) && SameMaps(old(mem), old(at), mem) == true
      ensures SamePages(old(mem), old(at), other, mem) == true && Grows(old(at), at, root) == true
      ensures r.Found? ==>
        r.t in at && r.t < |mem| && at[r.t].root == root && at[r.t].level == 1 && at[r.t].x == va / 4096 / ENTRIES
      ensures r.Missing? ==> !alloc && Lookup(mem, root, va / 4096) == Unmapped
      ensures !alloc ==> !r.OutOfMemory? && mem == old(mem) && at == old(at) && free == old(free)
      ensures r.OutOfMemory? ==> free == []
    {
      hide Trees, KernelOk, FreeList, Lookup, Node, SameMaps, SamePages, UserX;
      IndexDigits(va);
      ghost var v := va / 4096;
      RootPlace(mem, at, root);
      ghost var m0, a0 := mem, at;
      r := Descend(root, PMX(va), alloc);
      if !r.Found? {
        if r.Missing? {
          MissingUnmapped(mem, at, root, 3, v / ENTRIES / ENTRIES / ENTRIES, root);
          NodeStuck(mem, root, v);
        }
        return;
      }
      ghost var m1, a1 := mem, at;
      var pdp := r.t;
      r := Descend(pdp, PDPX(va), alloc);
      SameTrans(m0, a0, other, m1, a1, mem, at, root);
      if !r.Found? {
        if r.Missing? {
          MissingUnmapped(mem, at, pdp, 2, v / ENTRIES / ENTRIES, root);
          NodeStuck(mem, root, v);
        }
        return;
      }
      ghost var m2, a2 := mem, at;
      var pd := r.t;
      r := Descend(pd, PDX(va), alloc);
      SameTrans(m0, a0, other, m2, a2, mem, at, root);
      if r.Missing? {
        MissingUnmapped(mem, at, pd, 1, v / ENTRIES, root);
        NodeStuck(mem, root, v);
      }
    }

    /** One round of mappages: page va / 4096 gets frame f. */
    method MapPage(root: nat, va: nat, f: nat, perm: int) returns (r: Outcome)
      requires Valid() && root in at && at[root].level == 4 && va < PAGES * 4096 && f in other && 0 <= perm < 4096
      modifies `mem, `freelist, `free, `at, `other
      ensures r == Remap <==> Lookup(old(mem), root, va / 4096) != Unmapped && r != NoMemory
      ensures r == NoMemory ==> free == []
      ensures r == Done ==>
        Valid() == true && other == old(other) - {f} && f in at && at[f].level == 0 && at[f].root == root
      ensures r == Done ==> Updated(old(mem), old(at), mem, root, map[va / 4096 := Decode(Entry(f, perm))]) == true
      ensures r == Done ==> SamePages(old(mem), old(at), old(other), mem) == true && Grows(old(at), at, root) == true
    {
      hide Trees, KernelOk, FreeList, Lookup, Node, SameMaps, SamePages, UserX, Updated, Grows;
      ghost var m0, a0, o0, v := mem, at, other, va / 4096;
      var w := Walkpgdir(root, va, true);
      if !w.Found? {
        return NoMemory;
      }
      IndexDigits(va);
      ghost var m1, a1 := mem, at;
      LeafAt(mem, at, w.t, root, v);
      SameAt(m0, a0, m1, root, v);
      if mem[w.t].w[PTX(va)] % 2 == 1 {
        return Remap;
      }
      LeafVacant(mem, at, w.t, PTX(va));
      EntryParts(f, perm);
      AddGood(mem, freelist, lo, hi, kern, free, at, other, w.t, PTX(va), f, Entry(f, perm));
      LeafUpdates(m0, a0, m1, a1, o0, w.t, PTX(va), f, Entry(f, perm), root, v);
      mem := SetEntry(mem, w.t, PTX(va), Entry(f, perm));
      at, other := at[f := PlaceUnder(at, w.t, PTX(va))], other - {f};
      return Done;
    }

    /** Map the pages that hold va up to va + size to the frames from pf on. */
    method Mappages(root: nat, va: nat, size: nat, pf: nat, perm: int) returns (r: Outcome, ghost fs: seq<nat>)
      requires Valid() && root in at && at[root].level == 4 && 0 <= perm < 4096 && size > 0 && va + size <= PAGES * 4096
      requires forall k :: pf <= k <= pf + (va + size - 1) / 4096 - va / 4096 ==> k in other
      modifies `mem, `freelist, `free, `at, `other
      ensures r == Done ==>
        && MapsTo(old(mem), old(at), old(other), mem, at, root, va / 4096, fs, Flags(Entry(0, perm))) == true
        && Valid() == true
      ensures r == Done ==>
        |fs| == (va + size - 1) / 4096 - va / 4096 + 1 && forall k :: 0 <= k < |fs| ==> fs[k] == pf + k
      ensures r == Done ==> forall f :: f in other <==> f in old(other) && !(pf <= f < pf + |fs|)
      ensures r == Remap ==>
        exists v: nat :: va / 4096 <= v <= (va + size - 1) / 4096 && Lookup(old(mem), root, v) != Unmapped
      ensures r == NoMemory ==> free == []
    {
      hide Trees, KernelOk, FreeList, Lookup, Node, SamePages, Updated, Partition, MapsTo, FrameMap;
      ghost var m0, a0, o0, g := mem, at, other, Flags(Entry(0, perm));
      var p, last := va / 4096, (va + size - 1) / 4096;
      var a, f := p, pf;
      fs := [];
      MapsNothing(mem, at, other, root, p, g);
      FlagsOnly(perm);
      while true
        invariant p <= a <= last && f == pf + (a - p) && |fs| == a - p && Valid() == true && root in at
        invariant at[root].level == 4
        invariant forall k :: 0 <= k < |fs| ==> fs[k] == pf + k
        invariant forall h :: h in other <==> h in o0 && !(pf <= h < f)
        invariant MapsTo(m0, a0, o0, mem, at, root, p, fs, g) == true
        decreases last - a
      {
        ghost var m1, a1, o1 := mem, at, other;
        AddressOf(a);
        MapsLooks(m0, a0, o0, mem, at, root, p, fs, g, a);
        r := MapPage(root, a * 4096, f, perm);
        if r != Done {
          return;
        }
        DecodeEntry(f, perm);
        OtherOrMapped(m0, a0, o0, m1, a1, root, p, fs, g, o1, pf);
        MapsMore(m0, a0, o0, m1, a1, o1, mem, at, root, p, fs, g, f, a);
        fs := fs + [f];
        if a == last {
          return Done, fs;
        }
        a, f := a + 1, f + 1;
      }
    }

    /**
     Grow an address space from oldsz to newsz bytes: the new pages get zeroed frames that were free. Growing to
     KERNBASE or more is refused with 0; kalloc and mappages may panic.
     */
    method Allocuvm(root: nat, oldsz: nat, newsz: nat) returns (r: SizeResult, ghost fs: seq<nat>)
      requires Valid() && root in at && at[root].level == 4 && (newsz <= PAGES * 4096 || newsz >= KERNBASE)
      modifies `mem, `freelist, `free, `at, `other
      ensures newsz >= 0xFFFF_8000_0000_0000 ==> r == Size(0)
      ensures newsz < 0xFFFF_8000_0000_0000 && newsz < oldsz ==> r == Size(oldsz)
      ensures newsz >= KERNBASE || newsz < oldsz ==> mem == old(mem) && at == old(at) && Valid() && fs == []
      ensures r.Panic? ==>
        free == [] || exists v: nat :: RoundUp(oldsz) <= v < RoundUp(newsz) && Lookup(old(mem), root, v) != Unmapped
      ensures oldsz <= newsz < KERNBASE && r.Size? ==>
        && r.n == newsz && |fs| == RoundUp(newsz) - RoundUp(oldsz) && Valid() == true && other == old(other)
        && MapsTo(old(mem), old(at), old(other), mem, at, root, RoundUp(oldsz), fs, 7) == true
        && forall k :: 0 <= k < |fs| ==> fs[k] in old(free) && fs[k] < |mem| && mem[fs[k]] == ZeroPage()
    {
      hide Trees, KernelOk, FreeList, Lookup, Node, Updated, MapsTo, FrameMap;
      fs := [];
      if newsz >= KERNBASE {
        return Size(0), [];
      }
      if newsz < oldsz {
        return Size(oldsz), [];
      }
      ghost var m0, a0, o0 := mem, at, other;
      var a := RoundUp(oldsz);
      MapsNothing(mem, at, other, root, a, 7);
      ghost var p := a;
      while a * PGSIZE < newsz
        invariant p <= a <= RoundUp(newsz) && |fs| == a - p && Valid() == true && root in at && at[root].level == 4
        invariant other == o0
        invariant MapsTo(m0, a0, o0, mem, at, root, p, fs, 7) == true
        invariant forall k :: 0 <= k < |fs| ==>
          fs[k] in old(free) && fs[k] in at && at[fs[k]].level == 0 && fs[k] < |mem| && mem[fs[k]] == ZeroPage()
        decreases newsz - a * PGSIZE
      {
        ghost var m1, a1 := mem, at;
        var f := AllocPage(root, a, m0, a0, o0, p, fs);
        if f.None? {
          return Panic, fs;
        }
        Fresh(m0, a0, o0, lo, hi, old(free), f.value);
        a := a + 1;
        fs := fs + [f.value];
      }
      return Size(newsz), fs;
    }

    /** One round of allocuvm: a zeroed frame for page a. */
    method AllocPage(root: nat, a: nat, ghost m0: Memory, ghost a0: Tree, ghost o0: set<nat>, ghost p: nat,
                     ghost fs: seq<nat>) returns (r: Option<nat>)
      requires Valid() && root in at && at[root].level == 4 && a < PAGES && a == p + |fs| && other == o0 && root in a0
      requires a0[root].level == 4
      requires MapsTo(m0, a0, o0, mem, at, root, p, fs, 7) == true
      modifies `mem, `freelist, `free, `at, `other
      ensures r.Some? ==>
        && Valid() == true && other == o0 && root in at && at[root].level == 4 && r.value < |mem|
        && mem[r.value] == ZeroPage()
      ensures r.Some? ==> lo <= r.value < hi && r.value !in a0 && r.value !in o0
      ensures r.Some? ==>
        && MapsTo(m0, a0, o0, mem, at, root, p, fs + [r.value], 7) == true
        && SamePages(old(mem), old(at), old(other), mem) == true
      ensures r.Some? ==> Grows(old(at), at, root) && r.value in at && at[r.value].level == 0
      ensures r.None? ==> free == [] || Lookup(m0, root, a) != Unmapped
    {
      hide Trees, KernelOk, FreeList, Lookup, Node, Updated, MapsTo, FrameMap;
      ghost var m1 := mem;
      assert forall g :: g in a0 ==> g in at by {
        MapsGrows(m0, a0, o0, mem, at, root, p, fs, 7);
      }
      var k := Kalloc();
      if k.None? {
        return None;
      }
      var f := k.value;
      FillGood(mem, freelist, lo, hi, kern, free, at, other, f, ZeroPage());
      MapsFill(m0, a0, o0, mem, at, root, p, fs, 7, f, ZeroPage());
      mem := mem[f := ZeroPage()];
      ghost var m2, a2, o2 := mem, at, other;
      AddressOf(a);
      MapsLooks(m0, a0, o0, mem, at, root, p, fs, 7, a);
      var w, one := Mappages(root, a * PGSIZE, PGSIZE, f, USER_PERM);
      if w != Done {
        return None;
      }
      assert one == [f];
      MapsOne(m2, a2, o2, mem, at, root, a, f, 7);
      MapsMore(m0, a0, o0, m2, a2, o2, mem, at, root, p, fs, 7, f, a);
      return Some(f);
    }

    /** One round of deallocuvm: page a, if mapped, is freed and its entry cleared. */
    method FreePage(root: nat, a: nat) returns (ok: bool)
      requires Valid() && root in at && at[root].level == 4 && a < PAGES
      modifies `mem, `freelist, `free, `at, `other
      ensures ok && Valid() == true && other == old(other)
      ensures Unmaps(old(mem), old(at), other, mem, at, root, a, a + 1) == true
    {
      hide Trees, KernelOk, FreeList, Lookup, Node, Updated, Partition, UserX;
      ghost var m0, a0 := mem, at;
      AddressOf(a);
      IndexDigits(a * PGSIZE);
      var w := Walkpgdir(root, a * PGSIZE, false);
      if w.Found? {
        LeafAt(mem, at, w.t, root, a);
        var i := PTX(a * PGSIZE);
        if mem[w.t].w[i] % 2 == 1 {
          FrameOf(mem, at, w.t, i, root, a);
          var f := mem[w.t].w[i] / 4096;
          UnmapGood(mem, freelist, lo, hi, kern, free, at, other, f, w.t, i);
          UnmapsOne(mem, at, other, lo, hi, free, f, w.t, i, root, a, Junk(freelist));
          if f == 0 {
            return false;
          }
          ok := Kfree(f);
          mem := SetEntry(mem, w.t, i, 0);
          at := at - {f};
          return;
        }
      }
      NoPage(mem, at, other, root, a);
      return true;
    }

    /** Shrink an address space; sizes need not be aligned, and pages already absent are skipped. */
    method Deallocuvm(root: nat, oldsz: nat, newsz: nat) returns (r: SizeResult)
      requires Valid() && root in at && at[root].level == 4 && oldsz <= PAGES * 4096
      modifies `mem, `freelist, `free, `at, `other
      ensures r == Size(if newsz >= oldsz then oldsz else newsz) && Valid() == true && other == old(other)
      ensures newsz >= oldsz ==> mem == old(mem) && at == old(at)
      ensures newsz < oldsz ==>
        Unmaps(old(mem), old(at), other, mem, at, root, RoundUp(newsz), if RoundUp(newsz) <= RoundUp(oldsz)
            then RoundUp(oldsz) else RoundUp(newsz)) == true
    {
      hide Trees, KernelOk, FreeList, Lookup, Node, Updated, Partition, UserX, Unmaps;
      if newsz >= oldsz {
        return Size(oldsz);
      }
      ghost var m0, a0 := mem, at;
      var a := RoundUp(newsz);
      ghost var p := a;
      UnmapsNothing(mem, at, other, root, p);
      while a * PGSIZE < oldsz
        invariant p <= a <= RoundUp(oldsz) && Valid() == true && other == old(other) && root in at
        invariant at[root].level == 4
        invariant Unmaps(m0, a0, other, mem, at, root, p, a) == true
        decreases oldsz - a * PGSIZE
      {
        ghost var m1, a1 := mem, at;
        var ok := FreePage(root, a);
        UnmapsMore(m0, a0, other, m1, a1, mem, at, root, p, a);
        UnmapsRoot(m1, a1, other, mem, at, root, a, a + 1);
        a := a + 1;
      }
      return Size(newsz);
    }

    /** A top table with nothing but the kernel's entry. None is the panic of kalloc. */
    method Setupkvm() returns (r: Option<nat>)
      requires Valid()
      modifies `mem, `freelist, `free, `at, `other
      ensures r.Some? ==>
        && Valid() == true && other == old(other) && r.value in old(free) && r.value !in old(at)
        && at == old(at)[r.value := Place(r.value, 4, 0, r.value)]
      ensures r.Some? ==> SameMaps(old(mem), old(at), mem) == true && SamePages(old(mem), old(at), other, mem) == true
      ensures r.Some? ==> forall v: nat :: v < PAGES ==> Lookup(mem, r.value, v) == Unmapped
      ensures r.None? ==> free == []
    {
      hide Trees, KernelOk, FreeList, Lookup, Node, UserX;
      ghost var o0 := other;
      var k := Kalloc();
      if k.None? {
        return None;
      }
      var c := k.value;
      RootGood(mem, freelist, lo, hi, kern, free, at, other, c);
      RootSame(mem, at, o0, c, Page(ZeroPage().w[USER_HALF := kern]));
      mem := mem[c := ZeroPage()];
      mem := SetEntry(mem, c, USER_HALF, kern);
      at, other := at[c := Place(c, 4, 0, c)], other - {c};
      assert other == o0;
      assert mem == old(mem)[c := Page(ZeroPage().w[USER_HALF := kern])];
      forall v: nat | v < PAGES
        ensures Lookup(mem, c, v) == Unmapped
      {
        RootEmpty(mem, c, v);
      }
      return Some(c);
    }

    /**
     A copy of pages 1 up to sz of an address space, in frames that were free. A page that is missing is a panic,
     as is running out of frames; page 0 is not copied.
     */
    method Copyuvm(root: nat, sz: nat) returns (r: CopyResult, ghost fs: seq<nat>)
      requires Valid() && root in at && at[root].level == 4 && sz < 0x1_0000_0000
      modifies `mem, `freelist, `free, `at, `other
      ensures r.Copied? ==> Valid() == true && other == old(other)
      ensures r.CopyPanic? ==>
        free == [] || exists v: nat :: 1 <= v < RoundUp(sz) && Lookup(old(mem), root, v) == Unmapped
      ensures r.Copied? ==> Copying(old(mem), old(at), old(other), mem, at, root, r.root, fs, if RoundUp(sz) < 1 then 1
          else RoundUp(sz)) == true
    {
      hide Trees, KernelOk, FreeList, Lookup, Node, UserX, Partition, Copying, SameMaps, SamePages;
      ghost var m0, a0, o0 := mem, at, other;
      fs := [];
      var k := Setupkvm();
      if k.None? {
        return CopyPanic, [];
      }
      var d := k.value;
      CopyStarts(m0, a0, o0, mem, at, root, d);
      var v := 1;
      while v * PGSIZE < sz
        invariant 1 <= v && (v == 1 || v <= RoundUp(sz)) && Valid() == true && other == o0 && root in at
        invariant at[root].level == 4 && d in at && at[d].level == 4
        invariant Copying(m0, a0, o0, mem, at, root, d, fs, v) == true
        decreases sz - v * PGSIZE
      {
        var f := CopyPage(root, d, v, m0, a0, o0, fs);
        if f.None? {
          return CopyPanic, fs;
        }
        fs := fs + [f.value];
        v := v + 1;
      }
      return Copied(d), fs;
    }

    /** One round of copyuvm. */
    method CopyPage(root: nat, d: nat, v: nat, ghost m0: Memory, ghost a0: Tree, ghost o0: set<nat>, ghost fs: seq<nat>)
      returns (r: Option<nat>)
      requires Valid() && other == o0 && root in at && at[root].level == 4 && d in at && at[d].level == 4
      requires 1 <= v < PAGES
      requires root in a0 && a0[root].level == 4 && Trees(m0, a0, {})
      requires Copying(m0, a0, o0, mem, at, root, d, fs, v) == true
      modifies `mem, `freelist, `free, `at, `other
      ensures r.Some? ==>
        Valid() == true && other == o0 && root in at && at[root].level == 4 && d in at && at[d].level == 4
      ensures r.Some? ==> Copying(m0, a0, o0, mem, at, root, d, fs + [r.value], v + 1) == true
      ensures r.None? ==> free == [] || Lookup(m0, root, v) == Unmapped
    {
      hide Trees, KernelOk, FreeList, Lookup, Node, UserX, SameMaps, SamePages, Copying, Partition;
      AddressOf(v);
      IndexDigits(v * PGSIZE);
      CopyLooks(m0, a0, o0, mem, at, root, d, fs, v);
      var w := Walkpgdir(root, v * PGSIZE, false);
      if !w.Found? {
        return None;
      }
      var e := mem[w.t].w[PTX(v * PGSIZE)];
      LeafAt(mem, at, w.t, root, v);
      if e % 2 != 1 {
        return None;
      }
      FrameOf(mem, at, w.t, PTX(v * PGSIZE), root, v);
      ghost var src := Addr(e);
      ParentPage(m0, a0, o0, mem, at, root, d, fs, v, src, e);
      ghost var m1, a1 := mem, at;
      var k := Kalloc();
      if k.None? {
        return None;
      }
      var f := k.value;
      var page := mem[e / 4096];
      FillGood(mem, freelist, lo, hi, kern, free, at, other, f, page);
      CopyFill(m0, a0, o0, mem, at, root, d, fs, v, f, page);
      mem := mem[f := page];
      CopyLooks(m0, a0, o0, mem, at, root, d, fs, v);
      ghost var m2, a2, o2 := mem, at, other;
      var o, one := Mappages(d, v * PGSIZE, PGSIZE, f, e % 4096);
      if o != Done {
        return None;
      }
      assert one == [f];
      PresentFlags(e);
      MapsOne(m2, a2, o2, mem, at, d, v, f, Flags(e));
      CopyMore(m0, a0, o0, m2, a2, o2, mem, at, root, d, fs, v, f, Flags(e));
      return Some(f);
    }

    /** A loop of freevm over the entries of a table below the top one: everything below is freed, then the table. */
    method FreeTable(t: nat, level: nat, ghost dead: set<Slot>)
      requires Torn(mem, freelist, lo, hi, kern, free, at, other, dead) == true && t in at && at[t].level == level
      requires 1 <= level <= 3
      requires forall s :: s in dead && s.table in at ==> at[s.table].level > level
      modifies `mem, `freelist, `free, `at
      ensures Torn(mem, freelist, lo, hi, kern, free, at, other,
          dead + {Slot(old(at)[t].parent, old(at)[t].x % ENTRIES)}) == true
      ensures forall g :: g in at <==> g in old(at) && !Below(old(at)[g], old(at)[t].root, level, old(at)[t].x)
      ensures (forall g :: g in at ==> at[g] == old(at)[g]) && Kept(old(mem), mem, at, other) == true
      decreases level, ENTRIES
    {
      hide Trees, KernelOk, FreeList, Partition, Gone, Below, Up, UserX;
      ghost var m0, a0, q, d := mem, at, at[t], dead;
      var i := 0;
      LeftStarts(at, q);
      while i < ENTRIES
        invariant 0 <= i <= ENTRIES && Torn(mem, freelist, lo, hi, kern, free, at, other, d) == true
        invariant Left(a0, at, q, i) == true
        invariant t in at && at[t] == q && dead <= d && forall s :: s in d ==> s in dead || (s.table == t && s.i < i)
        invariant Kept(m0, mem, at, other) == true
        decreases ENTRIES - i
      {
        ghost var a1 := at;
        d := FreeEntry(t, level, i, d, m0);
        LeftMore(a0, a1, at, q, i);
        i := i + 1;
      }
      forall g | g in at && at[g].level < 4
        ensures at[g].parent != t
      {
        AllGone(mem, a0, at, d, t, g);
      }
      DropTorn(mem, freelist, lo, hi, kern, free, at, other, d, t);
      var ok := Kfree(t);
      at := at - {t};
      ghost var slot := Slot(q.parent, q.x % ENTRIES);
      TornFewer(mem, freelist, lo, hi, kern, free, at, other, d + {slot}, dead + {slot});
      SubtreeGone(m0, a0, dead, at, t);
    }

    /** One entry of a table: if present, what it leads to is freed, with all below it. */
    method FreeEntry(t: nat, level: nat, i: nat, ghost dead: set<Slot>, ghost m0: Memory) returns (ghost d: set<Slot>)
      requires Torn(mem, freelist, lo, hi, kern, free, at, other, dead) == true && t in at && at[t].level == level
      requires 1 <= level <= 4
      requires i < ENTRIES && (level == 4 ==> i < USER_HALF) && Slot(t, i) !in dead && Kept(m0, mem, at, other) == true
      requires forall s :: s in dead && s.table in at ==> at[s.table].level >= level
      modifies `mem, `freelist, `free, `at
      ensures Torn(mem, freelist, lo, hi, kern, free, at, other, d) == true && Kept(m0, mem, at, other) == true
      ensures dead <= d <= dead + {Slot(t, i)} && t in at
      ensures forall g :: g in at <==>
        g in old(at) && !Below(old(at)[g], old(at)[t].root, level - 1, old(at)[t].x * ENTRIES + i)
      ensures forall g :: g in at ==> at[g] == old(at)[g]
      decreases level, i
    {
      hide Trees, KernelOk, FreeList, Partition, Below, Up, UserX;
      d := dead;
      TableIn(mem, at, dead, t);
      if mem[t].w[i] % 2 == 1 {
        EntryLeads(mem, at, dead, t, i);
        var c := mem[t].w[i] / 4096;
        d := dead + {Slot(t, i)};
        if level == 1 {
          forall g | g in at
            ensures (at[g].level < 4 ==> at[g].parent != c) && (Below(at[g], at[c].root, 0, at[c].x) <==> g == c)
          {
            PageAlone(mem, at, dead, c, g);
          }
          DropTorn(mem, freelist, lo, hi, kern, free, at, other, dead, c);
          var ok := Kfree(c);
          at := at - {c};
        } else {
          FreeTable(c, level - 1, dead);
          NotBelowItself(old(at)[t], i);
        }
      } else {
        forall g | g in at
          ensures !Below(at[g], at[t].root, level - 1, at[t].x * ENTRIES + i)
        {
          NoneBelow(mem, at, dead, t, i, g);
        }
      }
    }

    /**
     Free every user page and every table of an address space, once each, the top table last. The kernel's entry
     is not followed, and no freed frame is read: a table is freed after its entries.
     */
    method Freevm(root: nat)
      requires Valid() && root in at && at[root].level == 4
      modifies `mem, `freelist, `free, `at
      ensures Valid() == true && forall g :: g in at <==> g in old(at) && old(at)[g].root != root
      ensures forall g :: g in at ==> at[g] == old(at)[g]
      ensures forall g :: g in free <==> g in old(free) || (g in old(at) && old(at)[g].root == root)
      ensures SameMaps(old(mem), at, mem) == true && Kept(old(mem), mem, at, other) == true
    {
      hide Trees, KernelOk, FreeList, Gone, Below, Up, UserX, SameMaps;
      ghost var m0, a0, d: set<Slot> := mem, at, {};
      RootPlace(mem, at, root);
      var i := 0;
      LeftStarts(at, a0[root]);
      while i < USER_HALF
        invariant 0 <= i <= USER_HALF && Torn(mem, freelist, lo, hi, kern, free, at, other, d) == true
        invariant Left(a0, at, a0[root], i) == true
        invariant root in at && at[root] == a0[root] && forall s :: s in d ==> s.table == root && s.i < i
        invariant Kept(m0, mem, at, other) == true
      {
        ghost var a1 := at;
        d := FreeEntry(root, 4, i, d, m0);
        LeftMore(a0, a1, at, a0[root], i);
        i := i + 1;
      }
      forall g | g in at
        ensures at[g].root == root ==> g == root
      {
        OnlyRootLeft(mem, a0, at, d, root, g);
      }
      DropRoot(mem, freelist, lo, hi, kern, free, at, other, d, root);
      RootsGone(m0, a0, at, root);
      var ok := Kfree(root);
      at := at - {root};
      OthersSame(m0, a0, mem, at, other, root);
    }
  }

  lemma RootsGone(mem: Memory, a0: Tree, at: Tree, root: nat)
    requires Trees(mem, a0, {}) && root in a0 && a0[root] == Place(root, 4, 0, root)
    requires Left(a0, at, a0[root], USER_HALF)
    requires forall g :: g in at && at[g].root == root ==> g == root
    ensures forall g :: g in at && g != root <==> g in a0 && a0[g].root != root
  {
  }

  lemma LeftStarts(at: Tree, q: Place)
    ensures Left(at, at, q, 0) == true
  {
  }

  lemma TableIn(mem: Memory, at: Tree, dead: set<Slot>, t: nat)
    requires Trees(mem, at, dead) && t in at
    ensures t < |mem|
  {
    assert UpOk(mem, at, dead, t);
  }

  lemma NotBelowItself(q: Place, i: nat)
    requires q.level >= 1
    ensures !Below(q, q.root, q.level - 1, q.x * ENTRIES + i)
  {
  }

  /** What is left after the entries and the table are done. */
  lemma SubtreeGone(mem: Memory, a0: Tree, dead: set<Slot>, at: Tree, t: nat)
    requires Trees(mem, a0, dead) && t in a0 && 1 <= a0[t].level
    requires forall g :: g in at <==> g in a0 && !Gone(a0[g], a0[t], ENTRIES) && g != t
    ensures forall g :: g in at <==> g in a0 && !Below(a0[g], a0[t].root, a0[t].level, a0[t].x)
  {
    hide Gone, Below, UpOk, KidOk;
    forall g | g in a0
      ensures Below(a0[g], a0[t].root, a0[t].level, a0[t].x) <==> g == t || Gone(a0[g], a0[t], ENTRIES)
    {
      SubtreeOf(a0[g], a0[t]);
    }
  }

  /** The parent's page is where it was when copyuvm began. */
  lemma ParentPage(m0: Memory, a0: Tree, o0: set<nat>, m: Memory, a: Tree, root: nat, d: nat, fs: seq<nat>, v: nat,
                   f: nat, e: int)
    requires Trees(m0, a0, {}) && root in a0 && a0[root].level == 4 && Copying(m0, a0, o0, m, a, root, d, fs, v)
    requires v < PAGES
    requires Lookup(m, root, v) == Decode(e) && Present(e) && Addr(e) == f
    ensures Lookup(m0, root, v) == Mapped(f, Flags(e)) && 0 <= f < |m0| && f < |m| && m[f] == m0[f]
  {
    hide Trees, KidOk;
    assert Lookup(m0, root, v) == Lookup(m, root, v);
    UserPage(v);
    NodeAt(m0, a0, root, 1, v / ENTRIES);
    var t := Node(m0, root, 1, v / ENTRIES).value;
    FrameOf(m0, a0, t, v % ENTRIES, root, v);
    UpPlace(m0, a0, f);
  }

  /** The parent's mapping is as it was, and the child does not have the page yet. */
  lemma CopyLooks(m0: Memory, a0: Tree, o0: set<nat>, m: Memory, a: Tree, root: nat, d: nat, fs: seq<nat>, v: nat)
    requires Copying(m0, a0, o0, m, a, root, d, fs, v) && root in a0 && a0[root].level == 4 && 1 <= v < PAGES
    ensures Lookup(m, root, v) == Lookup(m0, root, v) && Lookup(m, d, v) == Unmapped
    ensures forall f :: f in a0 ==> f in a
  {
  }

  lemma PresentFlags(e: int)
    requires Present(e)
    ensures Flags(Entry(0, e % 4096)) == Flags(e)
  {
    var q, r := e / 4096, e % 4096;
    assert e == 2 * (2048 * q + r / 2) + r % 2;
    Parity(2048 * q + r / 2, r % 2);
    hide Entry;
    EntryParts(0, r);
  }

  lemma UnmapsRoot(m0: Memory, a0: Tree, other: set<nat>, m: Memory, at: Tree, root: nat, p: nat, a: nat)
    requires Unmaps(m0, a0, other, m, at, root, p, a) && root in a0 && a0[root].level == 4
    ensures root in at && at[root].level == 4
  {
  }

  /** Freeing the frame of page a is losing that page. */
  lemma UnmapsOne(mem: Memory, at: Tree, other: set<nat>, lo: nat, hi: nat, free: seq<nat>, f: nat, t: nat, i: nat,
                  root: nat, a: nat, page: Page)
    requires Trees(mem, at, {}) && Partition(lo, hi, free, at, other) && f in at && at[f] == Place(root, 0, a, t)
    requires i == a % ENTRIES
    ensures f < |mem| && t < |mem|
    ensures Unmaps(mem, at, other, SetEntry(mem[f := page], t, i, 0), at - {f}, root, a, a + 1) == true
  {
    hide Lookup, UpOk, KidOk, Updated;
    UnmapUpdates(mem, at, f, t, i, page);
    UpPlace(mem, at, f);
    assert Cleared(a, 1) == map[a := Unmapped];
    forall g | g in at && Among(at[g], root, a, a + 1)
      ensures g == f
    {
      assert SamePlace(at[g], at[f]);
    }
  }

  /** A page without a mapping has no frame: nothing to do. */
  lemma NoPage(mem: Memory, at: Tree, other: set<nat>, root: nat, a: nat)
    requires Trees(mem, at, {}) && Lookup(mem, root, a) == Unmapped
    ensures Unmaps(mem, at, other, mem, at, root, a, a + 1) == true
  {
    hide Trees, Lookup;
    forall g | g in at
      ensures !Among(at[g], root, a, a + 1)
    {
      if Among(at[g], root, a, a + 1) {
        MappedAt(mem, at, g);
      }
    }
    assert Cleared(a, 1) == map[a := Unmapped];
  }

  lemma FlagsOnly(perm: int)
    requires 0 <= perm < 4096
    ensures forall f {:trigger Entry(f, perm)} :: Flags(Entry(f, perm)) == Flags(Entry(0, perm))
  {
    forall f
      ensures Flags(Entry(f, perm)) == Flags(Entry(0, perm))
    {
      EntryParts(f, perm);
      EntryParts(0, perm);
    }
  }

  lemma AddressOf(a: nat)
    ensures a * 4096 / 4096 == a
  {
  }

  lemma DecodeEntry(f: nat, perm: int)
    requires 0 <= perm < 4096
    ensures Decode(Entry(f, perm)) == Mapped(f, Flags(Entry(0, perm)))
  {
    EntryParts(f, perm);
    EntryParts(0, perm);
  }

  lemma OtherOrMapped(m0: Memory, a0: Tree, o0: set<nat>, m1: Memory, a1: Tree, root: nat, p: nat, fs: seq<nat>, g: int,
                      o1: set<nat>, pf: nat)
    requires MapsTo(m0, a0, o0, m1, a1, root, p, fs, g) && (forall k :: 0 <= k < |fs| ==> fs[k] == pf + k)
    requires forall h :: h in o1 <==> h in o0 && !(pf <= h < pf + |fs|)
    ensures forall h :: h in o0 ==> h in o1 || (h in a1 && a1[h].level == 0)
  {
    forall h | h in o0
      ensures h in o1 || (h in a1 && a1[h].level == 0)
    {
      if pf <= h < pf + |fs| {
        assert fs[h - pf] == h;
      }
    }
  }

  lemma RootPlace(mem: Memory, at: Tree, r: nat)
    requires Trees(mem, at, {}) && r in at && at[r].level == 4
    ensures at[r] == Place(r, 4, 0, r) && r < |mem|
  {
    assert UpOk(mem, at, {}, r);
  }
}
