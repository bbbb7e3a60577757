/**
 Directories (fs.c) and link counts (sysfile.c). A directory is a sequence of entries; a path is already resolved to a
 directory and a last name. Names count up to 14 bytes.
 */
module Directory {
  import opened Common

  const DIRSIZ := 14
  const ROOTINO := 1
  const MAXENTRIES := 4480  // of 16 bytes, in the 140 blocks of the largest file

  /** A directory entry; inum 0 marks a free one. */
  datatype Dirent = Dirent(inum: nat, name: string)

  /** What strncpy stores and strncmp compares. */
  function Trunc(name: string): (t: string)
    ensures t <= name && |t| <= 14 && (|name| <= 14 ==> t == name) && (|name| > 14 ==> |t| == 14)
  {
    if |name| > DIRSIZ then name[..DIRSIZ] else name
  }

  // One directory

  ghost predicate NoDup(es: seq<Dirent>) {
    forall j, k :: 0 <= j < k < |es| && es[j].inum != 0 && es[k].inum != 0 ==> es[j].name != es[k].name
  }

  /** Entry k is in use under this name. */
  predicate Has(es: seq<Dirent>, k: nat, key: string) {
    k < |es| && es[k].inum != 0 && es[k].name == key
  }

  /** A directory as a map from names to inode numbers. */
  ghost function DirMap(es: seq<Dirent>): (m: map<string, nat>) {
    if es == [] then map[]
    else
      var m, e := DirMap(es[..|es| - 1]), es[|es| - 1];
      if e.inum == 0 then m else m[e.name := e.inum]
  }

  lemma {:induction false} MapHas(es: seq<Dirent>, key: string) returns (k: nat)
    requires key in DirMap(es)
    ensures Has(es, k, key) && es[k].inum == DirMap(es)[key]
  {
    var e := es[|es| - 1];
    if e.inum != 0 && e.name == key {
      k := |es| - 1;
    } else {
      k := MapHas(es[..|es| - 1], key);
    }
  }

  lemma {:induction false} HasMap(es: seq<Dirent>, k: nat, key: string)
    requires NoDup(es) && Has(es, k, key)
    ensures key in DirMap(es) && DirMap(es)[key] == es[k].inum
  {
    var n := |es| - 1;
    if k < n {
      HasMap(es[..n], k, key);
    }
  }

  /** Two directories with the same names and numbers in use are the same map. */
  lemma SameMap(es: seq<Dirent>, m: map<string, nat>)
    requires NoDup(es)
    requires forall k :: 0 <= k < |es| && es[k].inum != 0 ==> es[k].name in m && m[es[k].name] == es[k].inum
    requires forall key :: key in m ==> exists k :: 0 <= k < |es| && Has(es, k, key)
    ensures DirMap(es) == m
  {
    hide DirMap;
    forall key | key in m
      ensures key in DirMap(es) && DirMap(es)[key] == m[key]
    {
      var k :| 0 <= k < |es| && Has(es, k, key);
      HasMap(es, k, key);
    }
    forall key | key in DirMap(es)
      ensures key in m
    {
      var k := MapHas(es, key);
    }
  }

  /** dirlookup: the place and number of the entry with this name. */
  method Dirlookup(es: seq<Dirent>, name: string) returns (r: Option<nat>)
    requires NoDup(es)
    ensures r.Some? ==>
      && r.value < |es| && es[r.value].inum != 0 && es[r.value].name == Trunc(name)
      && Trunc(name) in DirMap(es) && es[r.value].inum == DirMap(es)[Trunc(name)]
    ensures r.None? <==> Trunc(name) !in DirMap(es)
  {
    var k := 0;
    while k < |es|
      invariant 0 <= k <= |es| && forall j :: 0 <= j < k ==> !Has(es, j, Trunc(name))
    {
      if es[k].inum != 0 && Trunc(name) == es[k].name {
        HasMap(es, k, Trunc(name));
        return Some(k);
      }
      k := k + 1;
    }
    if Trunc(name) in DirMap(es) {
      var j := MapHas(es, Trunc(name));
    }
    return None;
  }

  /** The entries after writing e at place k, which may be the end. */
  function Write(es: seq<Dirent>, k: nat, e: Dirent): (r: seq<Dirent>)
    requires k <= |es|
  {
    if k == |es| then es + [e] else es[k := e]
  }

  /** A place for a new entry: the first free one, or the end if the directory can grow. */
  ghost predicate FirstFree(es: seq<Dirent>, k: nat) {
    k < MAXENTRIES && k <= |es| && (k < |es| ==> es[k].inum == 0) && forall j :: 0 <= j < k ==> es[j].inum != 0
  }

  lemma LinkMap(es: seq<Dirent>, k: nat, key: string, inum: nat)
    requires NoDup(es) && FirstFree(es, k) && key !in DirMap(es) && inum != 0
    ensures NoDup(Write(es, k, Dirent(inum, key)))
    ensures DirMap(Write(es, k, Dirent(inum, key))) == DirMap(es)[key := inum]
  {
    var es' := Write(es, k, Dirent(inum, key));
    forall j | 0 <= j < |es| && es[j].inum != 0
      ensures es[j].name != key
    {
      HasMap(es, j, es[j].name);
    }
    var m := DirMap(es)[key := inum];
    forall j | 0 <= j < |es'| && es'[j].inum != 0
      ensures es'[j].name in m && m[es'[j].name] == es'[j].inum
    {
      if j != k {
        HasMap(es, j, es[j].name);
      }
    }
    forall x | x in m
      ensures exists j :: 0 <= j < |es'| && Has(es', j, x)
    {
      if x == key {
        assert Has(es', k, key);
      } else {
        var j := MapHas(es, x);
        assert Has(es', j, x);
      }
    }
    SameMap(es', m);
  }

  lemma UnlinkMap(es: seq<Dirent>, k: nat)
    requires NoDup(es) && k < |es| && es[k].inum != 0
    ensures NoDup(es[k := Dirent(0, "")]) && DirMap(es[k := Dirent(0, "")]) == DirMap(es) - {es[k].name}
  {
    var es', m := es[k := Dirent(0, "")], DirMap(es) - {es[k].name};
    forall j | 0 <= j < |es'| && es'[j].inum != 0
      ensures es'[j].name in m && m[es'[j].name] == es'[j].inum
    {
      HasMap(es, j, es[j].name);
    }
    forall x | x in m
      ensures exists j :: 0 <= j < |es'| && Has(es', j, x)
    {
      var j := MapHas(es, x);
      assert Has(es', j, x);
    }
    SameMap(es', m);
  }

  /** dirlink's results: the new entries, -1, or the panic of a full directory. */
  datatype LinkResult = Made(es: seq<Dirent>) | Taken | Full

  /** dirlink: refused if the name is there, else one more name. */
  method Dirlink(es: seq<Dirent>, name: string, inum: nat) returns (r: LinkResult, ghost k: nat)
    requires NoDup(es) && inum != 0
    ensures r.Taken? <==> Trunc(name) in DirMap(es)
    ensures r.Full? <==>
      && Trunc(name) !in DirMap(es) && |es| >= 140 * 512 / 16
      && forall j :: 0 <= j < 140 * 512 / 16 ==> es[j].inum != 0
    ensures r.Made? ==> FirstFree(es, k) && r.es == Write(es, k, Dirent(inum, Trunc(name)))
    ensures r.Made? ==>
      && k <= |es| && (forall j :: 0 <= j < k ==> es[j].inum != 0) && (k < |es| ==> es[k].inum == 0)
      && |r.es| == (if k < |es| then |es| else |es| + 1) && r.es[k] == Dirent(inum, Trunc(name))
      && forall j :: 0 <= j < |es| && j != k ==> r.es[j] == es[j]
    ensures r.Made? ==> NoDup(r.es) && DirMap(r.es) == DirMap(es)[Trunc(name) := inum]
  {
    k := 0;
    var found := Dirlookup(es, name);
    if found.Some? {
      return Taken, 0;
    }
    var off := 0;
    while off < |es|
      invariant 0 <= off <= |es| && forall j :: 0 <= j < off ==> es[j].inum != 0
    {
      if es[off].inum == 0 {
        break;
      }
      off := off + 1;
    }
    if off >= MAXENTRIES {
      return Full, 0;
    }
    LinkMap(es, off, Trunc(name), inum);
    return Made(Write(es, off, Dirent(inum, Trunc(name)))), off;
  }

  /** isdirempty: nothing in use behind "." and "..". */
  method Isdirempty(es: seq<Dirent>) returns (r: bool)
    ensures r <==> forall k :: 2 <= k < |es| ==> es[k].inum == 0
  {
    var k := 2;
    while k < |es|
      invariant 2 <= k && forall j :: 2 <= j < k && j < |es| ==> es[j].inum == 0
    {
      if es[k].inum != 0 {
        return false;
      }
      k := k + 1;
    }
    return true;
  }

  // Link counts

  datatype Kind = Free | Dir | File | Dev

  datatype Node = Node(kind: Kind, nlink: int, entries: seq<Dirent>)

  type Nodes = seq<Node>

  predicate Linked(ns: Nodes, d: nat) {
    d < |ns| && ns[d].kind == Dir && ns[d].nlink > 0
  }

  datatype Pos = Pos(d: nat, k: nat)

  /** Entry k of linked directory d names inode i, and is not ".". */
  predicate Names(ns: Nodes, d: nat, k: nat, i: nat) {
    Linked(ns, d) && k < |ns[d].entries| && ns[d].entries[k].inum == i && ns[d].entries[k].name != "."
  }

  ghost function Links(ns: Nodes, i: nat): (ps: set<Pos>) {
    set d, k | 0 <= d < |ns| && 0 <= k < |ns[d].entries| && Names(ns, d, k, i) :: Pos(d, k)
  }

  lemma LinksIn(ns: Nodes, i: nat, p: Pos)
    ensures p in Links(ns, i) <==> Names(ns, p.d, p.k, i)
  {
  }

  /** A linked directory starts with "." and "..", and has no name twice. */
  ghost predicate DirOk(ns: Nodes, d: nat) {
    Linked(ns, d) ==>
      var es := ns[d].entries;
      && d > 0 && NoDup(es) && |es| >= 2 && es[0] == Dirent(d, ".") && es[1].name == ".." && es[1].inum != 0
      && (d == ROOTINO ==> es[1].inum == ROOTINO) && forall k :: 0 <= k < |es| ==> es[k].inum < |ns|
  }

  /** A linked directory other than the root has a name in its parent. */
  ghost predicate ChildOk(ns: Nodes, c: nat) {
    Linked(ns, c) && c != ROOTINO ==>
      |ns[c].entries| >= 2 && exists k :: k >= 2 && Names(ns, ns[c].entries[1].inum, k, c)
  }

  /** A linked directory has only one name, apart from "." and ".."; the root has none. */
  ghost predicate OneName(ns: Nodes) {
    && (forall p: Pos, q: Pos, c: nat {:trigger Names(ns, p.d, p.k, c), Names(ns, q.d, q.k, c)} ::
          Linked(ns, c) && p.k >= 2 && q.k >= 2 && Names(ns, p.d, p.k, c) && Names(ns, q.d, q.k, c) ==> p == q)
    && forall d: nat, k: nat :: k >= 2 ==> !Names(ns, d, k, ROOTINO)
  }

  /** nlink is the number of entries in linked directories that name the inode, other than ".". */
  ghost predicate CountOk(ns: Nodes, i: nat) {
    0 < i < |ns| ==> ns[i].nlink == |Links(ns, i)| && (ns[i].kind == Free ==> ns[i].nlink == 0)
  }

  /** A directory that is no longer linked is empty. */
  ghost predicate GoneOk(ns: Nodes, d: nat) {
    d < |ns| && ns[d].kind == Dir && !Linked(ns, d) ==>
      forall k :: 2 <= k < |ns[d].entries| ==> ns[d].entries[k].inum == 0
  }

  ghost predicate Inv(ns: Nodes) {
    && (forall d: nat :: GoneOk(ns, d))
    && Linked(ns, ROOTINO) && (forall d: nat :: DirOk(ns, d)) && (forall c: nat :: ChildOk(ns, c)) && OneName(ns)
    && forall i: nat :: CountOk(ns, i)
  }

  // Counting

  lemma CountSame(ns: Nodes, ns': Nodes, i: nat)
    requires forall d: nat, k: nat :: Names(ns', d, k, i) <==> Names(ns, d, k, i)
    ensures Links(ns', i) == Links(ns, i)
  {
    forall p: Pos
      ensures p in Links(ns', i) <==> p in Links(ns, i)
    {
      LinksIn(ns, i, p);
      LinksIn(ns', i, p);
    }
  }

  lemma CountPlus(ns: Nodes, ns': Nodes, i: nat, q: Pos)
    requires forall d: nat, k: nat :: Names(ns', d, k, i) <==> Names(ns, d, k, i) || Pos(d, k) == q
    requires !Names(ns, q.d, q.k, i)
    ensures |Links(ns', i)| == |Links(ns, i)| + 1
  {
    forall p: Pos
      ensures p in Links(ns', i) <==> p in Links(ns, i) + {q}
    {
      LinksIn(ns, i, p);
      LinksIn(ns', i, p);
    }
    LinksIn(ns, i, q);
    assert Links(ns', i) == Links(ns, i) + {q};
  }

  lemma CountMinus(ns: Nodes, ns': Nodes, i: nat, q: Pos)
    requires forall d: nat, k: nat :: Names(ns, d, k, i) <==> Names(ns', d, k, i) || Pos(d, k) == q
    requires !Names(ns', q.d, q.k, i)
    ensures |Links(ns', i)| == |Links(ns, i)| - 1
  {
    CountPlus(ns', ns, i, q);
  }

  // The operations

  /** dp with one more entry. */
  function Named(ns: Nodes, dp: nat, k: nat, key: string, ip: nat): (r: Node)
    requires dp < |ns| && k <= |ns[dp].entries|
  {
    ns[dp].(entries := Write(ns[dp].entries, k, Dirent(ip, key)))
  }

  /** The code puts a new name in place k of directory dp, linked or not. */
  ghost predicate MayName(ns: Nodes, dp: nat, k: nat, key: string, ip: nat) {
    && 0 < dp < |ns| && ns[dp].kind == Dir && FirstFree(ns[dp].entries, k) && key !in DirMap(ns[dp].entries)
    && 0 < ip < |ns|
  }

  /** And the directory is linked. */
  ghost predicate CanName(ns: Nodes, dp: nat, k: nat, key: string, ip: nat) {
    Linked(ns, dp) && MayName(ns, dp, k, key, ip)
  }

  /** sys_link: one more name for a file. */
  ghost predicate LinkStep(ns: Nodes, dp: nat, k: nat, key: string, ip: nat, ns': Nodes) {
    && CanName(ns, dp, k, key, ip) && (ns[ip].kind == File || ns[ip].kind == Dev)
    && ns' == ns[dp := Named(ns, dp, k, key, ip)][ip := ns[ip].(nlink := ns[ip].nlink + 1)]
  }

  /** create of a file or a device. */
  ghost predicate CreateStep(ns: Nodes, dp: nat, k: nat, key: string, ip: nat, kind: Kind, ns': Nodes) {
    && CanName(ns, dp, k, key, ip) && ns[ip].kind == Free && (kind == File || kind == Dev)
    && ns' == ns[dp := Named(ns, dp, k, key, ip)][ip := Node(kind, 1, [])]
  }

  /** create of a directory. */
  ghost predicate MkdirStep(ns: Nodes, dp: nat, k: nat, key: string, ip: nat, ns': Nodes) {
    && CanName(ns, dp, k, key, ip) && ns[ip].kind == Free
    && ns' == ns[dp := Named(ns, dp, k, key, ip).(nlink := ns[dp].nlink + 1)]
                [ip := Node(Dir, 1, [Dirent(ip, "."), Dirent(dp, "..")])]
  }

  /** Entry k of dp is a name of ip that unlink may remove. */
  ghost predicate CanUnlink(ns: Nodes, dp: nat, k: nat, ip: nat) {
    && Linked(ns, dp) && k < |ns[dp].entries| && ns[dp].entries[k].inum == ip && 0 < ip < |ns|
    && ns[dp].entries[k].name != "." && ns[dp].entries[k].name != ".."
  }

  function Unnamed(ns: Nodes, dp: nat, k: nat): (r: Node)
    requires dp < |ns| && k < |ns[dp].entries|
  {
    ns[dp].(entries := ns[dp].entries[k := Dirent(0, "")])
  }

  /** unlink of something that is no directory. */
  ghost predicate UnlinkStep(ns: Nodes, dp: nat, k: nat, ip: nat, ns': Nodes) {
    && CanUnlink(ns, dp, k, ip) && ns[ip].kind != Dir
    && ns' == ns[dp := Unnamed(ns, dp, k)][ip := ns[ip].(nlink := ns[ip].nlink - 1)]
  }

  /** unlink of an empty directory. */
  ghost predicate RmdirStep(ns: Nodes, dp: nat, k: nat, ip: nat, ns': Nodes) {
    && CanUnlink(ns, dp, k, ip) && ns[ip].kind == Dir && dp != ip
    && (forall j :: 2 <= j < |ns[ip].entries| ==> ns[ip].entries[j].inum == 0)
    && ns' == ns[dp := Unnamed(ns, dp, k).(nlink := ns[dp].nlink - 1)][ip := ns[ip].(nlink := ns[ip].nlink - 1)]
  }

  /** iput of the last reference to an inode without links. */
  ghost predicate FreeStep(ns: Nodes, i: nat, ns': Nodes) {
    0 < i < |ns| && ns[i].kind != Free && ns[i].nlink == 0 && ns' == ns[i := Node(Free, 0, [])]
  }

  // What a new name does

  lemma NewNameKey(ns: Nodes, dp: nat, k: nat, key: string, ip: nat)
    requires DirOk(ns, dp) && CanName(ns, dp, k, key, ip)
    ensures k >= 2 && key != "." && key != ".."
  {
    var es := ns[dp].entries;
    HasMap(es, 0, ".");
    HasMap(es, 1, "..");
  }

  /** A directory with one more name is still well formed. */
  lemma NamedDir(ns: Nodes, dp: nat, k: nat, key: string, ip: nat)
    requires DirOk(ns, dp) && CanName(ns, dp, k, key, ip)
    ensures var es := Named(ns, dp, k, key, ip).entries;
            && NoDup(es) && |es| >= 2 && es[0] == Dirent(dp, ".") && es[1] == ns[dp].entries[1]
            && forall j :: 0 <= j < |es| ==> es[j].inum < |ns|
  {
    NewNameKey(ns, dp, k, key, ip);
    LinkMap(ns[dp].entries, k, key, ip);
  }

  /** Which entries name what, after link and create. */
  lemma NamesPlus(ns: Nodes, dp: nat, k: nat, key: string, ip: nat, ns': Nodes, d: nat, j: nat, i: nat)
    requires CanName(ns, dp, k, key, ip) && key != "." && i > 0 && dp != ip
    requires |ns'| == |ns| && ns' == ns[dp := Named(ns, dp, k, key, ip)][ip := ns'[ip]] && ns[ip].kind != Dir
    requires ns'[ip].kind != Dir
    ensures Names(ns', d, j, i) <==> Names(ns, d, j, i) || (d == dp && j == k && i == ip)
    ensures !Names(ns, dp, k, i) && (Linked(ns', d) <==> Linked(ns, d))
  {
  }

  /** A directory's name in its parent is still there. */
  lemma ChildKept(ns: Nodes, ns': Nodes, c: nat)
    requires ChildOk(ns, c) && (Linked(ns', c) ==> Linked(ns, c))
    requires Linked(ns, c) ==>
      DirOk(ns, c) && |ns'| == |ns| && |ns'[c].entries| >= 2 && ns'[c].entries[1] == ns[c].entries[1]
    requires forall d: nat, k: nat :: Names(ns, d, k, c) ==> Names(ns', d, k, c)
    ensures ChildOk(ns', c)
  {
    if Linked(ns', c) && c != ROOTINO {
      var k :| k >= 2 && Names(ns, ns[c].entries[1].inum, k, c);
      assert Names(ns', ns'[c].entries[1].inum, k, c);
    }
  }

  /** No linked directory gets a second name. */
  lemma NamesKept(ns: Nodes, ns': Nodes)
    requires OneName(ns) && Linked(ns, ROOTINO)
    requires forall d: nat, k: nat, c: nat :: k >= 2 && Linked(ns', c) && Names(ns', d, k, c) ==>
      Linked(ns, c) && Names(ns, d, k, c)
    requires Linked(ns', ROOTINO)
    ensures OneName(ns')
  {
  }

  lemma PlusKeeps(ns: Nodes, dp: nat, k: nat, key: string, ip: nat, ns': Nodes)
    requires Inv(ns) && CanName(ns, dp, k, key, ip) && |ns'| == |ns| && ns[ip].kind != Dir && ns'[ip].kind != Dir
    requires ns'[ip].kind != Free
    requires ns' == ns[dp := Named(ns, dp, k, key, ip)][ip := ns'[ip]] && ns'[ip].nlink == ns[ip].nlink + 1
    ensures Inv(ns')
  {
    NewNameKey(ns, dp, k, key, ip);
    NamedDir(ns, dp, k, key, ip);
    forall d: nat, j: nat, i: nat | i > 0
      ensures Names(ns', d, j, i) <==> Names(ns, d, j, i) || (d == dp && j == k && i == ip)
      ensures !Names(ns, dp, k, i) && (Linked(ns', d) <==> Linked(ns, d))
    {
      NamesPlus(ns, dp, k, key, ip, ns', d, j, i);
    }
    forall d: nat
      ensures DirOk(ns', d) && GoneOk(ns', d)
    {
      assert DirOk(ns, d) && GoneOk(ns, d);
    }
    forall c: nat
      ensures ChildOk(ns', c)
    {
      assert DirOk(ns, c) && ChildOk(ns, c);
      if c > 0 {
        ChildKept(ns, ns', c);
      }
    }
    assert OneName(ns') by {
      assert DirOk(ns, 0) && DirOk(ns', 0);
      NamesKept(ns, ns');
    }
    forall i: nat
      ensures CountOk(ns', i)
    {
      assert CountOk(ns, i);
      if i == ip {
        CountPlus(ns, ns', i, Pos(dp, k));
      } else if i > 0 {
        CountSame(ns, ns', i);
      }
    }
  }

  lemma LinkKeeps(ns: Nodes, dp: nat, k: nat, key: string, ip: nat, ns': Nodes)
    requires Inv(ns) && LinkStep(ns, dp, k, key, ip, ns')
    ensures Inv(ns')
  {
    PlusKeeps(ns, dp, k, key, ip, ns');
  }

  lemma CreateKeeps(ns: Nodes, dp: nat, k: nat, key: string, ip: nat, kind: Kind, ns': Nodes)
    requires Inv(ns) && CreateStep(ns, dp, k, key, ip, kind, ns')
    ensures Inv(ns')
  {
    assert CountOk(ns, ip);
    PlusKeeps(ns, dp, k, key, ip, ns');
  }

  // What a removed name does

  lemma OldName(ns: Nodes, dp: nat, k: nat, ip: nat)
    requires DirOk(ns, dp) && CanUnlink(ns, dp, k, ip)
    ensures k >= 2 && Names(ns, dp, k, ip)
    ensures var es := Unnamed(ns, dp, k).entries;
            && NoDup(es) && |es| >= 2 && es[0] == Dirent(dp, ".") && es[1] == ns[dp].entries[1]
            && forall j :: 0 <= j < |es| ==> es[j].inum < |ns|
  {
    UnlinkMap(ns[dp].entries, k);
  }

  lemma NamesMinus(ns: Nodes, dp: nat, k: nat, ip: nat, ns': Nodes, d: nat, j: nat, i: nat)
    requires CanUnlink(ns, dp, k, ip) && i > 0 && dp != ip && |ns'| == |ns|
    requires ns' == ns[dp := Unnamed(ns, dp, k)][ip := ns'[ip]] && ns[ip].kind != Dir && ns'[ip].kind != Dir
    ensures Names(ns, d, j, i) <==> Names(ns', d, j, i) || (d == dp && j == k && i == ip)
    ensures !Names(ns', dp, k, i) && (Linked(ns', d) <==> Linked(ns, d))
  {
  }

  lemma UnlinkKeeps(ns: Nodes, dp: nat, k: nat, ip: nat, ns': Nodes)
    requires Inv(ns) && UnlinkStep(ns, dp, k, ip, ns')
    ensures Inv(ns')
  {
    OldName(ns, dp, k, ip);
    forall d: nat, j: nat, i: nat | i > 0
      ensures Names(ns, d, j, i) <==> Names(ns', d, j, i) || (d == dp && j == k && i == ip)
      ensures !Names(ns', dp, k, i) && (Linked(ns', d) <==> Linked(ns, d))
    {
      NamesMinus(ns, dp, k, ip, ns', d, j, i);
    }
    forall d: nat
      ensures DirOk(ns', d) && GoneOk(ns', d)
    {
      assert DirOk(ns, d) && GoneOk(ns, d);
    }
    forall c: nat
      ensures ChildOk(ns', c)
    {
      assert DirOk(ns, c) && ChildOk(ns, c);
      if c > 0 && c != ip {
        ChildKept(ns, ns', c);
      }
    }
    assert OneName(ns') by {
      assert DirOk(ns, 0) && DirOk(ns', 0);
      NamesKept(ns, ns');
    }
    forall i: nat
      ensures CountOk(ns', i)
    {
      assert CountOk(ns, i);
      if i == ip {
        LinksIn(ns, i, Pos(dp, k));
        CountMinus(ns, ns', i, Pos(dp, k));
      } else if i > 0 {
        CountSame(ns, ns', i);
      }
    }
  }

  // New and removed directories

  /** An inode not in use has no names. */
  lemma FreeUnnamed(ns: Nodes, ip: nat, d: nat, k: nat)
    requires CountOk(ns, ip) && 0 < ip < |ns| && ns[ip].nlink == 0
    ensures !Names(ns, d, k, ip)
  {
    LinksIn(ns, ip, Pos(d, k));
  }

  lemma NamesMkdir(ns: Nodes, dp: nat, k: nat, key: string, ip: nat, ns': Nodes, d: nat, j: nat, i: nat)
    requires CanName(ns, dp, k, key, ip) && key != "." && i > 0 && MkdirStep(ns, dp, k, key, ip, ns')
    ensures Names(ns', d, j, i) <==>
      Names(ns, d, j, i) || (d == dp && j == k && i == ip) || (d == ip && j == 1 && i == dp)
    ensures !Names(ns, dp, k, i) && !Names(ns, ip, j, i) && (Linked(ns', d) <==> Linked(ns, d) || d == ip)
  {
  }

  lemma MkdirKeeps(ns: Nodes, dp: nat, k: nat, key: string, ip: nat, ns': Nodes)
    requires Inv(ns) && MkdirStep(ns, dp, k, key, ip, ns')
    ensures Inv(ns')
  {
    NewNameKey(ns, dp, k, key, ip);
    NamedDir(ns, dp, k, key, ip);
    assert CountOk(ns, ip) && CountOk(ns, dp) && DirOk(ns, dp);
    forall d: nat, j: nat, i: nat | i > 0
      ensures Names(ns', d, j, i) <==>
        Names(ns, d, j, i) || (d == dp && j == k && i == ip) || (d == ip && j == 1 && i == dp)
      ensures !Names(ns, dp, k, i) && !Names(ns, ip, j, i) && (Linked(ns', d) <==> Linked(ns, d) || d == ip)
    {
      NamesMkdir(ns, dp, k, key, ip, ns', d, j, i);
    }
    forall d: nat, j: nat
      ensures !Names(ns, d, j, ip)
    {
      FreeUnnamed(ns, ip, d, j);
    }
    forall d: nat
      ensures DirOk(ns', d) && GoneOk(ns', d)
    {
      assert DirOk(ns, d) && GoneOk(ns, d);
    }
    forall c: nat
      ensures ChildOk(ns', c)
    {
      assert DirOk(ns, c) && ChildOk(ns, c);
      if c == ip {
        assert Names(ns', ns'[ip].entries[1].inum, k, ip);
      } else if c > 0 {
        ChildKept(ns, ns', c);
      }
    }
    assert DirOk(ns, 0);
    MkdirOneName(ns, dp, k, ip, ns');
    forall i: nat
      ensures CountOk(ns', i)
    {
      assert CountOk(ns, i);
      if i == ip {
        CountPlus(ns, ns', i, Pos(dp, k));
      } else if i == dp {
        CountPlus(ns, ns', i, Pos(ip, 1));
      } else if i > 0 {
        CountSame(ns, ns', i);
      }
    }
  }

  lemma MkdirOneName(ns: Nodes, dp: nat, k: nat, ip: nat, ns': Nodes)
    requires OneName(ns) && Linked(ns, ROOTINO) && ip != ROOTINO
    requires forall d: nat, j: nat, i: nat :: i > 0 ==>
      (Names(ns', d, j, i) <==> Names(ns, d, j, i) || (d == dp && j == k && i == ip) || (d == ip && j == 1 && i == dp))
    requires forall d: nat, j: nat :: !Names(ns, d, j, ip)
    requires (forall d: nat :: Linked(ns', d) <==> Linked(ns, d) || d == ip) && !Linked(ns, 0) && ip > 0
    ensures OneName(ns')
  {
  }

  /** An empty directory has one link: its name in its parent. */
  lemma EmptyOneLink(ns: Nodes, dp: nat, k: nat, ip: nat, d: nat, j: nat)
    requires Inv(ns) && CanUnlink(ns, dp, k, ip) && ns[ip].kind == Dir && Linked(ns, ip)
    requires forall l :: 2 <= l < |ns[ip].entries| ==> ns[ip].entries[l].inum == 0
    ensures Names(ns, d, j, ip) <==> Pos(d, j) == Pos(dp, k)
    ensures |ns[ip].entries| >= 2 && ns[ip].entries[1].inum == dp && ip != ROOTINO && k >= 2
  {
    assert DirOk(ns, dp) && DirOk(ns, d) && ChildOk(ns, d) && ChildOk(ns, ip) && DirOk(ns, ip);
    OldName(ns, dp, k, ip);
    var l :| l >= 2 && Names(ns, ns[ip].entries[1].inum, l, ip);
    assert Pos(ns[ip].entries[1].inum, l) == Pos(dp, k) by {
      OnlyName(ns, Pos(ns[ip].entries[1].inum, l), Pos(dp, k), ip);
    }
    if Names(ns, d, j, ip) && j >= 2 {
      OnlyName(ns, Pos(d, j), Pos(dp, k), ip);
    }
  }

  lemma OnlyName(ns: Nodes, p: Pos, q: Pos, c: nat)
    requires OneName(ns) && Linked(ns, c) && p.k >= 2 && q.k >= 2 && Names(ns, p.d, p.k, c) && Names(ns, q.d, q.k, c)
    ensures p == q
  {
  }

  lemma NamesRmdir(ns: Nodes, dp: nat, k: nat, ip: nat, ns': Nodes, d: nat, j: nat, i: nat)
    requires RmdirStep(ns, dp, k, ip, ns') && i > 0 && ns[ip].nlink == 1 && ns[dp].nlink > 1 && DirOk(ns, ip)
    requires ns[ip].entries[1].inum == dp
    ensures Names(ns, d, j, i) <==>
      Names(ns', d, j, i) || (d == dp && j == k && i == ip) || (d == ip && j == 1 && i == dp)
    ensures !Names(ns', dp, k, i) && !Names(ns', ip, j, i) && (Linked(ns', d) <==> Linked(ns, d) && d != ip)
  {
  }

  /** Two different links make two. */
  lemma TwoLinks(ns: Nodes, i: nat, p: Pos, q: Pos)
    requires p != q && Names(ns, p.d, p.k, i) && Names(ns, q.d, q.k, i) && CountOk(ns, i) && 0 < i < |ns|
    ensures ns[i].nlink > 1
  {
    LinksIn(ns, i, p);
    LinksIn(ns, i, q);
    var ps := Links(ns, i);
    assert ps == ps - {p, q} + {p, q};
    assert |{p, q}| == 2;
  }

  lemma RmdirCounts(ns: Nodes, dp: nat, k: nat, ip: nat)
    requires Inv(ns) && CanUnlink(ns, dp, k, ip) && ns[ip].kind == Dir && dp != ip
    requires forall l :: 2 <= l < |ns[ip].entries| ==> ns[ip].entries[l].inum == 0
    ensures ns[ip].nlink == 1 && ns[dp].nlink > 1 && |ns[ip].entries| >= 2 && ns[ip].entries[1].inum == dp
    ensures ip != ROOTINO && DirOk(ns, ip) && Linked(ns, ip)
  {
    assert DirOk(ns, dp) && CountOk(ns, ip) && CountOk(ns, dp);
    OldName(ns, dp, k, ip);
    LinksIn(ns, ip, Pos(dp, k));
    assert Linked(ns, ip);
    assert DirOk(ns, ip);
    EmptyOneLink(ns, dp, k, ip, dp, k);
    assert Links(ns, ip) == {Pos(dp, k)} by {
      forall p: Pos
        ensures p in Links(ns, ip) <==> p == Pos(dp, k)
      {
        LinksIn(ns, ip, p);
        EmptyOneLink(ns, dp, k, ip, p.d, p.k);
      }
    }
    assert ChildOk(ns, dp);
    if dp == ROOTINO {
      TwoLinks(ns, dp, Pos(dp, 1), Pos(ip, 1));
    } else {
      var l :| l >= 2 && Names(ns, ns[dp].entries[1].inum, l, dp);
      TwoLinks(ns, dp, Pos(ns[dp].entries[1].inum, l), Pos(ip, 1));
    }
  }

  lemma RmdirKeeps(ns: Nodes, dp: nat, k: nat, ip: nat, ns': Nodes)
    requires Inv(ns) && RmdirStep(ns, dp, k, ip, ns')
    ensures Inv(ns')
  {
    RmdirCounts(ns, dp, k, ip);
    OldName(ns, dp, k, ip);
    forall d: nat, j: nat, i: nat | i > 0
      ensures Names(ns, d, j, i) <==>
        Names(ns', d, j, i) || (d == dp && j == k && i == ip) || (d == ip && j == 1 && i == dp)
      ensures !Names(ns', dp, k, i) && !Names(ns', ip, j, i) && (Linked(ns', d) <==> Linked(ns, d) && d != ip)
    {
      NamesRmdir(ns, dp, k, ip, ns', d, j, i);
    }
    forall d: nat
      ensures DirOk(ns', d) && GoneOk(ns', d)
    {
      assert DirOk(ns, d) && GoneOk(ns, d);
    }
    forall c: nat
      ensures ChildOk(ns', c)
    {
      RmdirChild(ns, dp, k, ip, ns', c);
    }
    assert OneName(ns') by {
      assert DirOk(ns, 0) && DirOk(ns', 0);
      NamesKept(ns, ns');
    }
    forall i: nat
      ensures CountOk(ns', i)
    {
      assert CountOk(ns, i);
      if i == ip {
        CountMinus(ns, ns', i, Pos(dp, k));
      } else if i == dp {
        CountMinus(ns, ns', i, Pos(ip, 1));
      } else if i > 0 {
        CountSame(ns, ns', i);
      }
    }
  }

  /** Nobody's parent goes. */
  lemma RmdirChild(ns: Nodes, dp: nat, k: nat, ip: nat, ns': Nodes, c: nat)
    requires Inv(ns) && RmdirStep(ns, dp, k, ip, ns') && k >= 2 && |ns'| == |ns| && ip != ROOTINO
    requires forall d: nat, j: nat, i: nat :: i > 0 ==>
      (Names(ns, d, j, i) <==> Names(ns', d, j, i) || (d == dp && j == k && i == ip) || (d == ip && j == 1 && i == dp))
    requires forall d: nat :: Linked(ns', d) <==> Linked(ns, d) && d != ip
    ensures ChildOk(ns', c)
  {
    assert DirOk(ns, c) && ChildOk(ns, c) && DirOk(ns, dp);
    OldName(ns, dp, k, ip);
    if Linked(ns', c) && c != ROOTINO {
      var l :| l >= 2 && Names(ns, ns[c].entries[1].inum, l, c);
      assert Names(ns', ns[c].entries[1].inum, l, c);
      assert ns'[c].entries[1] == ns[c].entries[1];
    }
  }

  lemma FreeKeeps(ns: Nodes, i: nat, ns': Nodes)
    requires Inv(ns) && FreeStep(ns, i, ns')
    ensures Inv(ns')
  {
    forall d: nat, j: nat, c: nat
      ensures (Names(ns', d, j, c) <==> Names(ns, d, j, c)) && (Linked(ns', d) <==> Linked(ns, d))
    {
    }
    forall d: nat
      ensures DirOk(ns', d) && GoneOk(ns', d)
    {
      assert DirOk(ns, d) && GoneOk(ns, d);
    }
    forall c: nat
      ensures ChildOk(ns', c)
    {
      assert DirOk(ns, c) && ChildOk(ns, c);
      ChildKept(ns, ns', c);
    }
    NamesKept(ns, ns');
    forall c: nat
      ensures CountOk(ns', c)
    {
      assert CountOk(ns, c);
      CountSame(ns, ns', c);
    }
  }

  // Runs

  datatype Event =
    | Link(dp: nat, k: nat, key: string, ip: nat)
    | Create(dp: nat, k: nat, key: string, ip: nat, kind: Kind)
    | Mkdir(dp: nat, k: nat, key: string, ip: nat)
    | Unlink(dp: nat, k: nat, ip: nat)
    | Rmdir(dp: nat, k: nat, ip: nat)
    | Reclaim(i: nat)

  ghost predicate Next(ns: Nodes, e: Event, ns': Nodes) {
    match e
    case Link(dp, k, key, ip) => LinkStep(ns, dp, k, key, ip, ns')
    case Create(dp, k, key, ip, kind) => CreateStep(ns, dp, k, key, ip, kind, ns')
    case Mkdir(dp, k, key, ip) => MkdirStep(ns, dp, k, key, ip, ns')
    case Unlink(dp, k, ip) => UnlinkStep(ns, dp, k, ip, ns')
    case Rmdir(dp, k, ip) => RmdirStep(ns, dp, k, ip, ns')
    case Reclaim(i) => FreeStep(ns, i, ns')
  }

  lemma NextKeeps(ns: Nodes, e: Event, ns': Nodes)
    requires Inv(ns) && Next(ns, e, ns')
    ensures Inv(ns') == true
  {
    match e
    case Link(dp, k, key, ip) => LinkKeeps(ns, dp, k, key, ip, ns');
    case Create(dp, k, key, ip, kind) => CreateKeeps(ns, dp, k, key, ip, kind, ns');
    case Mkdir(dp, k, key, ip) => MkdirKeeps(ns, dp, k, key, ip, ns');
    case Unlink(dp, k, ip) => UnlinkKeeps(ns, dp, k, ip, ns');
    case Rmdir(dp, k, ip) => RmdirKeeps(ns, dp, k, ip, ns');
    case Reclaim(i) => FreeKeeps(ns, i, ns');
  }

  /** The entries of a root directory that lists files 2, 3, ... by these names; the rest of its last block is free. */
  function RootEntries(names: seq<string>, pad: nat): (es: seq<Dirent>)
    ensures |es| == 2 + |names| + pad && es[0] == Dirent(ROOTINO, ".") && es[1] == Dirent(ROOTINO, "..")
    ensures forall k :: 2 <= k < |es| ==> es[k] == if k < 2 + |names| then Dirent(k, names[k - 2]) else Dirent(0, "")
  {
    [Dirent(ROOTINO, "."), Dirent(ROOTINO, "..")] + seq(|names|, j requires 0 <= j < |names| => Dirent(2 + j, names[j]))
    + seq(pad, _ => Dirent(0, ""))
  }

  /** The inode table mkfs makes: the root, a file for each name, and `free` inodes not in use. */
  function Image(names: seq<string>, pad: nat, free: nat): (ns: Nodes)
    ensures |ns| == 2 + |names| + free && ns[ROOTINO] == Node(Dir, 1, RootEntries(names, pad))
    ensures forall i :: 2 <= i < 2 + |names| ==> ns[i] == Node(File, 1, [])
    ensures forall i :: 0 <= i < |ns| && (i == 0 || i >= 2 + |names|) ==> ns[i] == Node(Free, 0, [])
  {
    [Node(Free, 0, []), Node(Dir, 1, RootEntries(names, pad))] + seq(|names|, _ => Node(File, 1, []))
    + seq(free, _ => Node(Free, 0, []))
  }

  ghost predicate GoodNames(names: seq<string>) {
    && (forall j :: 0 <= j < |names| ==> names[j] != "." && names[j] != "..")
    && forall j, k :: 0 <= j < k < |names| ==> names[j] != names[k]
  }

  ghost predicate Initial(ns: Nodes) {
    exists names, pad, free :: GoodNames(names) && ns == Image(names, pad, free)
  }

  /** Every name is the one link of its file. */
  lemma ImageLinks(names: seq<string>, pad: nat, free: nat, i: nat)
    requires GoodNames(names)
    ensures CountOk(Image(names, pad, free), i)
  {
    var ns := Image(names, pad, free);
    if 0 < i < 2 + |names| {
      forall p: Pos
        ensures p in Links(ns, i) <==> p == Pos(ROOTINO, i)
      {
        LinksIn(ns, i, p);
      }
      assert Links(ns, i) == {Pos(ROOTINO, i)};
    } else if 0 < i < |ns| {
      forall p: Pos
        ensures p !in Links(ns, i)
      {
        LinksIn(ns, i, p);
      }
      assert Links(ns, i) == {};
    }
  }

  /** mkfs's table satisfies the invariant if and only if the names are distinct and none is "." or "..". */
  lemma ImageExact(names: seq<string>, pad: nat, free: nat)
    ensures Inv(Image(names, pad, free)) <==> GoodNames(names)
  {
    var ns := Image(names, pad, free);
    var es := ns[ROOTINO].entries;
    if GoodNames(names) {
      forall i: nat
        ensures CountOk(ns, i)
      {
        ImageLinks(names, pad, free, i);
      }
    } else if Inv(ns) {
      assert DirOk(ns, ROOTINO);
      forall j | 0 <= j < |names|
        ensures names[j] != "." && names[j] != ".."
      {
        assert es[j + 2].name == names[j];
      }
      forall j, k | 0 <= j < k < |names|
        ensures names[j] != names[k]
      {
        assert es[j + 2].name == names[j] && es[k + 2].name == names[k];
      }
    }
  }

  lemma InitialInv(ns: Nodes)
    requires Initial(ns)
    ensures Inv(ns)
  {
    var names, pad, free :| GoodNames(names) && ns == Image(names, pad, free);
    ImageExact(names, pad, free);
  }

  ghost predicate Execution(ss: seq<Nodes>, es: seq<Event>) {
    && |ss| == |es| + 1 && Initial(ss[0])
    && forall k :: 0 <= k < |es| ==> Next(ss[k], es[k], ss[k + 1])
  }

  lemma {:induction false} AlwaysInv(ss: seq<Nodes>, es: seq<Event>, k: nat)
    requires Execution(ss, es) && k < |ss|
    ensures Inv(ss[k]) == true
  {
    if k == 0 {
      InitialInv(ss[0]);
    } else {
      AlwaysInv(ss, es, k - 1);
      NextKeeps(ss[k - 1], es[k - 1], ss[k]);
    }
  }

  /** In every run that works in linked directories, nlink counts the entries that name the inode, other than ".". */
  lemma LinkCounts(ss: seq<Nodes>, es: seq<Event>, k: nat, i: nat)
    requires Execution(ss, es) && k < |ss| && 0 < i < |ss[k]|
    ensures ss[k][i].nlink == |Links(ss[k], i)|
  {
    AlwaysInv(ss, es, k);
    assert CountOk(ss[k], i);
  }

  /** So a directory that is removed has no more links, and what an entry names is in use. */
  lemma NoDangling(ss: seq<Nodes>, es: seq<Event>, k: nat, d: nat, j: nat)
    requires Execution(ss, es) && k < |ss| && Linked(ss[k], d) && j < |ss[k][d].entries|
    requires ss[k][d].entries[j].inum != 0
    ensures var i := ss[k][d].entries[j].inum; i < |ss[k]| && ss[k][i].kind != Free && ss[k][i].nlink > 0
  {
    AlwaysInv(ss, es, k);
    var i := ss[k][d].entries[j].inum;
    assert DirOk(ss[k], d) && CountOk(ss[k], i);
    if ss[k][d].entries[j].name == "." {
      OnlyDot(ss[k], d, j);
    } else {
      LinksIn(ss[k], i, Pos(d, j));
    }
  }

  lemma OnlyDot(ns: Nodes, d: nat, j: nat)
    requires DirOk(ns, d) && Linked(ns, d) && j < |ns[d].entries| && ns[d].entries[j].inum != 0
    requires ns[d].entries[j].name == "."
    ensures j == 0 && ns[d].entries[j].inum == d
  {
  }

  // What the calls do in a directory that is no longer linked

  /** A name put in such a directory is not counted, but nlink goes up. */
  lemma UncountedName(ns: Nodes, dp: nat, k: nat, key: string, ip: nat, ns': Nodes)
    requires Inv(ns) && MayName(ns, dp, k, key, ip) && !Linked(ns, dp) && |ns'| == |ns| && ns[ip].kind != Dir
    requires ns'[ip].kind != Dir && ns'[ip].nlink == ns[ip].nlink + 1
    requires ns' == ns[dp := Named(ns, dp, k, key, ip)][ip := ns'[ip]]
    ensures !Inv(ns')
  {
    assert CountOk(ns, ip);
    CountSame(ns, ns', ip);
    assert !CountOk(ns', ip);
  }

  /** link keeps the invariant exactly if the directory is linked. */
  lemma LinkExact(ns: Nodes, dp: nat, k: nat, key: string, ip: nat, ns': Nodes)
    requires Inv(ns) && MayName(ns, dp, k, key, ip) && (ns[ip].kind == File || ns[ip].kind == Dev)
    requires ns' == ns[dp := Named(ns, dp, k, key, ip)][ip := ns[ip].(nlink := ns[ip].nlink + 1)]
    ensures Inv(ns') <==> Linked(ns, dp)
  {
    if Linked(ns, dp) {
      LinkKeeps(ns, dp, k, key, ip, ns');
    } else {
      UncountedName(ns, dp, k, key, ip, ns');
    }
  }

  /** So does create of a file or a device. */
  lemma CreateExact(ns: Nodes, dp: nat, k: nat, key: string, ip: nat, kind: Kind, ns': Nodes)
    requires Inv(ns) && MayName(ns, dp, k, key, ip) && ns[ip].kind == Free && (kind == File || kind == Dev)
    requires ns' == ns[dp := Named(ns, dp, k, key, ip)][ip := Node(kind, 1, [])]
    ensures Inv(ns') <==> Linked(ns, dp)
  {
    assert CountOk(ns, ip);
    if Linked(ns, dp) {
      CreateKeeps(ns, dp, k, key, ip, kind, ns');
    } else {
      UncountedName(ns, dp, k, key, ip, ns');
    }
  }

  /** And create of a directory: otherwise dp, which nothing names, has a link again. */
  lemma MkdirExact(ns: Nodes, dp: nat, k: nat, key: string, ip: nat, ns': Nodes)
    requires Inv(ns) && MayName(ns, dp, k, key, ip) && ns[ip].kind == Free
    requires ns' == ns[dp := Named(ns, dp, k, key, ip).(nlink := ns[dp].nlink + 1)]
                      [ip := Node(Dir, 1, [Dirent(ip, "."), Dirent(dp, "..")])]
    ensures Inv(ns') <==> Linked(ns, dp)
    ensures !Linked(ns, dp) ==> Linked(ns', dp) && !ChildOk(ns', dp)
  {
    if Linked(ns, dp) {
      MkdirKeeps(ns, dp, k, key, ip, ns');
    } else {
      assert CountOk(ns, dp) && GoneOk(ns, dp);
      GoneUnlinked(ns, dp);
      forall d: nat, j: nat | j >= 2
        ensures !Names(ns', d, j, dp)
      {
        FreeUnnamed(ns, dp, d, j);
      }
      assert !ChildOk(ns', dp);
    }
  }

  /** A directory that is not linked has no links and is not the root. */
  lemma GoneUnlinked(ns: Nodes, d: nat)
    requires Inv(ns) && d < |ns| && ns[d].kind == Dir && !Linked(ns, d)
    ensures d != ROOTINO && (d > 0 ==> ns[d].nlink == 0)
  {
    assert CountOk(ns, d);
  }

  /** Such directories are reached: one is made and removed while a process still holds it. */
  lemma RemovedReached() returns (ss: seq<Nodes>, es: seq<Event>, dp: nat, ip: nat)
    ensures Execution(ss, es)
    ensures var s := ss[|es|]; !Linked(s, dp) && MayName(s, dp, 2, "f", ip) && s[ip].kind == Free
  {
    dp, ip := 2, 3;
    var ns := Image([], 0, 2);
    assert Initial(ns) by {
      assert GoodNames([]);
    }
    Dots(ROOTINO, ROOTINO);
    Dots(dp, ROOTINO);
    var root, dots := [Dirent(ROOTINO, "."), Dirent(ROOTINO, "..")], [Dirent(dp, "."), Dirent(ROOTINO, "..")];
    assert ns[ROOTINO].entries == root;
    var s1 := ns[ROOTINO := Node(Dir, 2, root + [Dirent(dp, "d")])][dp := Node(Dir, 1, dots)];
    assert MkdirStep(ns, ROOTINO, 2, "d", dp, s1);
    var s2 := s1[ROOTINO := Node(Dir, 1, root + [Dirent(0, "")])][dp := Node(Dir, 0, dots)];
    assert (root + [Dirent(dp, "d")])[2 := Dirent(0, "")] == root + [Dirent(0, "")];
    assert RmdirStep(s1, ROOTINO, 2, dp, s2);
    ss, es := [ns, s1, s2], [Mkdir(ROOTINO, 2, "d", dp), Rmdir(ROOTINO, 2, dp)];
  }

  lemma Dots(d: nat, parent: nat)
    requires d > 0 && parent > 0
    ensures DirMap([]) == map[] && DirMap([Dirent(d, ".")]) == map["." := d]
    ensures DirMap([Dirent(d, "."), Dirent(parent, "..")]) == map["." := d, ".." := parent]
  {
    var es := [Dirent(d, "."), Dirent(parent, "..")];
    assert es[..1] == [Dirent(d, ".")] && es[..1][..0] == [] && DirMap(es[..1]) == map["." := d];
  }

  // The code

  datatype Outcome = Ok | Refused | Panic

  class Directories {
    var nodes: Nodes

    /** sys_link, with its paths resolved: the count goes up first and down again if the name is taken. */
    method SysLink(dp: nat, name: string, ip: nat) returns (r: Outcome)
      requires Inv(nodes) && Linked(nodes, dp) && 0 < ip < |nodes| && nodes[ip].kind != Free
      modifies this
      ensures r != Panic ==> Inv(nodes) == true
      ensures r == Panic <==>
        && old(nodes)[ip].kind != Dir && Trunc(name) !in DirMap(old(nodes)[dp].entries)
        && |old(nodes)[dp].entries| >= 4480 && forall j :: 0 <= j < 4480 ==> old(nodes)[dp].entries[j].inum != 0
      ensures r == Refused <==> old(nodes)[ip].kind == Dir || Trunc(name) in DirMap(old(nodes)[dp].entries)
      ensures r == Refused ==> nodes == old(nodes)
      ensures r == Ok ==> exists k :: LinkStep(old(nodes), dp, k, Trunc(name), ip, nodes)
      ensures r == Ok ==>
        && |nodes| == |old(nodes)| && DirMap(nodes[dp].entries) == DirMap(old(nodes)[dp].entries)[Trunc(name) := ip]
        && nodes == old(nodes)[ip := old(nodes)[ip].(nlink := old(nodes)[ip].nlink + 1)]
                              [dp := old(nodes)[dp].(entries := nodes[dp].entries)]
    {
      if nodes[ip].kind == Dir {
        return Refused;
      }
      ghost var ns := nodes;
      assert DirOk(ns, dp);
      nodes := nodes[ip := nodes[ip].(nlink := nodes[ip].nlink + 1)];
      var es, k := Dirlink(nodes[dp].entries, name, ip);
      if es.Full? {
        return Panic;
      }
      if es.Taken? {
        nodes := nodes[ip := nodes[ip].(nlink := nodes[ip].nlink - 1)];
        assert nodes == ns;
        return Refused;
      }
      nodes := nodes[dp := nodes[dp].(entries := es.es)];
      assert LinkStep(ns, dp, k, Trunc(name), ip, nodes);
      NextKeeps(ns, Link(dp, k, Trunc(name), ip), nodes);
      return Ok;
    }

    /** sys_unlink: never of "." or "..", nor of a directory in use; the count is never below 1. */
    method SysUnlink(dp: nat, name: string) returns (r: Outcome)
      requires Inv(nodes) && Linked(nodes, dp)
      modifies this
      ensures Inv(nodes) == true && r != Panic
      ensures r == Refused ==> nodes == old(nodes)
      ensures r == Ok ==>
        && Trunc(name) in DirMap(old(nodes)[dp].entries) && dp < |nodes|
        && DirMap(nodes[dp].entries) == DirMap(old(nodes)[dp].entries) - {Trunc(name)}
      ensures r == Ok <==>
        && Trunc(name) != "." && Trunc(name) != ".." && Trunc(name) in DirMap(old(nodes)[dp].entries)
        && var ip := DirMap(old(nodes)[dp].entries)[Trunc(name)];
           && ip < |old(nodes)|
           && (old(nodes)[ip].kind == Dir ==>
                 forall j :: 2 <= j < |old(nodes)[ip].entries| ==> old(nodes)[ip].entries[j].inum == 0)
      ensures r == Ok ==> var ip := DirMap(old(nodes)[dp].entries)[Trunc(name)];
        var isDir := if old(nodes)[ip].kind == Dir then 1 else 0;
        && ip != dp && |nodes| == |old(nodes)|
        && var d := old(nodes)[dp];
           nodes == old(nodes)[ip := old(nodes)[ip].(nlink := old(nodes)[ip].nlink - 1)]
                              [dp := d.(nlink := d.nlink - isDir, entries := nodes[dp].entries)]
      ensures r == Ok ==> exists k ::
        var ip := DirMap(old(nodes)[dp].entries)[Trunc(name)];
        if old(nodes)[ip].kind == Dir then RmdirStep(old(nodes), dp, k, ip, nodes)
            else UnlinkStep(old(nodes), dp, k, ip, nodes)
    {
      ghost var ns := nodes;
      assert DirOk(ns, dp);
      if Trunc(name) == "." || Trunc(name) == ".." {
        return Refused;
      }
      var off := Dirlookup(nodes[dp].entries, name);
      if off.None? {
        return Refused;
      }
      var k := off.value;
      var ip := nodes[dp].entries[k].inum;
      EntryUsed(ns, dp, k);
      hide Links, OneName, ChildOk, CountOk, NoDup, GoneOk, DirMap;
      if nodes[ip].nlink < 1 {
        return Panic;
      }
      if nodes[ip].kind == Dir {
        var empty := Isdirempty(nodes[ip].entries);
        if !empty {
          return Refused;
        }
      }
      Remove(dp, k, ip);
      return Ok;
    }

    /** The end of sys_unlink: the entry is cleared and the counts go down. */
    method Remove(dp: nat, k: nat, ip: nat)
      requires Inv(nodes) && CanUnlink(nodes, dp, k, ip) && dp != ip
      requires nodes[ip].kind == Dir ==> forall j :: 2 <= j < |nodes[ip].entries| ==> nodes[ip].entries[j].inum == 0
      modifies this
      ensures Inv(nodes) == true && dp < |nodes|
      ensures DirMap(nodes[dp].entries) == DirMap(old(nodes)[dp].entries) - {old(nodes)[dp].entries[k].name}
      ensures if old(nodes)[ip].kind == Dir then RmdirStep(old(nodes), dp, k, ip, nodes)
              else UnlinkStep(old(nodes), dp, k, ip, nodes)
      ensures var isDir := if old(nodes)[ip].kind == Dir then 1 else 0;
        && |nodes| == |old(nodes)|
        && var d := old(nodes)[dp];
           nodes == old(nodes)[ip := old(nodes)[ip].(nlink := old(nodes)[ip].nlink - 1)]
                              [dp := d.(nlink := d.nlink - isDir, entries := nodes[dp].entries)]
    {
      hide Links, OneName, ChildOk, CountOk, NoDup, GoneOk;
      ghost var ns := nodes;
      assert DirOk(ns, dp);
      UnlinkMap(nodes[dp].entries, k);
      nodes := nodes[dp := nodes[dp].(entries := nodes[dp].entries[k := Dirent(0, "")])];
      if nodes[ip].kind == Dir {
        nodes := nodes[dp := nodes[dp].(nlink := nodes[dp].nlink - 1)];
      }
      nodes := nodes[ip := nodes[ip].(nlink := nodes[ip].nlink - 1)];
      if ns[ip].kind == Dir {
        assert RmdirStep(ns, dp, k, ip, nodes);
        NextKeeps(ns, Rmdir(dp, k, ip), nodes);
      } else {
        assert UnlinkStep(ns, dp, k, ip, nodes);
        NextKeeps(ns, Unlink(dp, k, ip), nodes);
      }
    }

    /** ialloc: an inode not in use; None is its panic. */
    method Ialloc() returns (r: Option<nat>)
      ensures r.Some? ==>
        0 < r.value < |nodes| && nodes[r.value].kind == Free && forall i :: 0 < i < r.value ==> nodes[i].kind != Free
      ensures r.None? ==> forall i :: 0 < i < |nodes| ==> nodes[i].kind != Free
    {
      var i := 1;
      while i < |nodes|
        invariant 1 <= i && forall j :: 0 < j < i && j < |nodes| ==> nodes[j].kind != Free
      {
        if nodes[i].kind == Free {
          return Some(i);
        }
        i := i + 1;
      }
      return None;
    }

    /** iput by the last of `ref` holders of an inode in use frees it if it has no links. */
    method Iput(i: nat, ref: nat)
      requires Inv(nodes) && 0 < i < |nodes| && nodes[i].kind != Free && ref > 0
      modifies this
      ensures Inv(nodes) == true
      ensures nodes == if ref == 1 && old(nodes)[i].nlink == 0 then old(nodes)[i := Node(Free, 0, [])] else old(nodes)
    {
      if ref == 1 && nodes[i].nlink == 0 {
        nodes := nodes[i := Node(Free, 0, [])];
        NextKeeps(old(nodes), Reclaim(i), nodes);
      }
    }

    /** create, with its path resolved: the inode found or made, or a refusal. */
    method SysCreate(dp: nat, name: string, kind: Kind) returns (r: Outcome, ip: nat)
      requires Inv(nodes) && Linked(nodes, dp) && kind != Free
      modifies this
      ensures r != Panic ==> Inv(nodes) == true
      ensures r == Refused ==> nodes == old(nodes) && Trunc(name) in DirMap(old(nodes)[dp].entries)
      ensures Trunc(name) in DirMap(old(nodes)[dp].entries) ==>
        && nodes == old(nodes) && ip == DirMap(nodes[dp].entries)[Trunc(name)] && ip < |nodes| && r != Panic
        && (r == Ok <==> kind == File && nodes[ip].kind == File)
      ensures r == Ok && Trunc(name) !in DirMap(old(nodes)[dp].entries) ==> exists k ::
        if kind == Dir then MkdirStep(old(nodes), dp, k, Trunc(name), ip, nodes)
            else CreateStep(old(nodes), dp, k, Trunc(name), ip, kind, nodes)
      ensures r == Ok && Trunc(name) !in DirMap(old(nodes)[dp].entries) ==>
        && 0 < ip < |nodes| == |old(nodes)| && old(nodes)[ip].kind == Free
        && (forall i :: 0 < i < ip ==> old(nodes)[i].kind != Free)
        && nodes[ip] == Node(kind, 1, if kind == Dir then [Dirent(ip, "."), Dirent(dp, "..")] else [])
        && DirMap(nodes[dp].entries) == DirMap(old(nodes)[dp].entries)[Trunc(name) := ip]
        && nodes[dp].kind == Dir && nodes[dp].nlink == old(nodes)[dp].nlink + (if kind == Dir then 1 else 0)
        && forall i :: 0 <= i < |nodes| && i != dp && i != ip ==> nodes[i] == old(nodes)[i]
      ensures r == Panic <==>
        && Trunc(name) !in DirMap(old(nodes)[dp].entries)
        && ((|old(nodes)[dp].entries| >= 4480 && forall j :: 0 <= j < 4480 ==> old(nodes)[dp].entries[j].inum != 0)
            || forall i :: 0 < i < |old(nodes)| ==> old(nodes)[i].kind != Free)
    {
      hide Links, OneName, ChildOk, CountOk, NoDup, DirMap, GoneOk;
      ghost var ns := nodes;
      assert DirOk(ns, dp);
      var off := Dirlookup(nodes[dp].entries, name);
      if off.Some? {
        ip := nodes[dp].entries[off.value].inum;
        return if kind == File && nodes[ip].kind == File then Ok else Refused, ip;
      }
      var free := Ialloc();
      if free.None? {
        return Panic, 0;
      }
      ip := free.value;
      var es, k := Dirlink(nodes[dp].entries, name, ip);
      if es.Full? {
        return Panic, 0;
      }
      MakeNode(dp, k, Trunc(name), ip, kind, es.es);
      return Ok, ip;
    }

    /** The end of create: the new inode, and its name in place k of dp. */
    method MakeNode(dp: nat, ghost k: nat, ghost key: string, ip: nat, kind: Kind, es: seq<Dirent>)
      requires Inv(nodes) && CanName(nodes, dp, k, key, ip) && nodes[ip].kind == Free && kind != Free
      requires es == Write(nodes[dp].entries, k, Dirent(ip, key))
      modifies this
      ensures Inv(nodes) == true && |nodes| == |old(nodes)|
      ensures nodes == old(nodes)[ip := Node(kind, 1, if kind == Dir then [Dirent(ip, "."), Dirent(dp, "..")] else [])]
        [dp := old(nodes)[dp].(nlink := old(nodes)[dp].nlink + (if kind == Dir then 1 else 0), entries := es)]
      ensures if kind == Dir then MkdirStep(old(nodes), dp, k, key, ip, nodes)
              else CreateStep(old(nodes), dp, k, key, ip, kind, nodes)
    {
      hide Links, OneName, ChildOk, CountOk, NoDup, DirMap, GoneOk, FirstFree;
      ghost var ns := nodes;
      if kind == Dir {
        nodes := nodes[dp := nodes[dp].(nlink := nodes[dp].nlink + 1)];
        var dots := NewDir(ip, dp);
        nodes := nodes[ip := Node(Dir, 1, dots)];
        nodes := nodes[dp := nodes[dp].(entries := es)];
        assert MkdirStep(ns, dp, k, key, ip, nodes);
        NextKeeps(ns, Mkdir(dp, k, key, ip), nodes);
      } else {
        nodes := nodes[ip := Node(kind, 1, [])];
        nodes := nodes[dp := nodes[dp].(entries := es)];
        assert CreateStep(ns, dp, k, key, ip, kind, nodes);
        NextKeeps(ns, Create(dp, k, key, ip, kind), nodes);
      }
    }
  }

  /** The entries of a new directory, made by two dirlinks; their panic cannot happen. */
  method NewDir(ip: nat, dp: nat) returns (es: seq<Dirent>)
    requires ip != 0 && dp != 0
    ensures es == [Dirent(ip, "."), Dirent(dp, "..")]
  {
    hide NoDup;
    assert NoDup([]) by {
      NoEntries();
    }
    hide DirMap, FirstFree;
    Dots(ip, dp);
    var one, k := Dirlink([], ".", ip);
    assert one.Made? && one.es == [Dirent(ip, ".")];
    var two, j := Dirlink(one.es, "..", dp);
    assert two.Made? && j == 1;
    es := two.es;
  }

  lemma NoEntries()
    ensures NoDup([])
  {
  }

  /** What an entry of a linked directory other than "." and ".." names has a link. */
  lemma EntryUsed(ns: Nodes, dp: nat, k: nat)
    requires Inv(ns) && Linked(ns, dp) && k < |ns[dp].entries| && ns[dp].entries[k].inum != 0
    requires ns[dp].entries[k].name != "." && ns[dp].entries[k].name != ".."
    ensures var ip := ns[dp].entries[k].inum; k >= 2 && ip < |ns| && ns[ip].nlink >= 1
  {
    var ip := ns[dp].entries[k].inum;
    assert DirOk(ns, dp) && CountOk(ns, ip);
    LinksIn(ns, ip, Pos(dp, k));
  }
}
