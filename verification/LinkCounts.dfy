// Link counts: what sys_link, sys_unlink, create and iput do to the inodes' nlink fields
// and to directory entries, each call taken as one step.
module LinkCounts {
  import opened Sets

  const ROOTINO := 1
  const MAXENTRIES := 140 * 512 / 16      // MAXFILE * BSIZE / sizeof(struct dirent)

  datatype Kind = NoType | Dir | File | Dev

  // inum 0 is an empty entry.
  datatype Dirent = Dirent(inum: nat, name: string)

  datatype Inode = Inode(kind: Kind, nlink: int, entries: seq<Dirent>)

  type Nodes = seq<Inode>

  predicate IsDir(n: Nodes, d: int) { 0 <= d < |n| && n[d].kind == Dir }

  // A directory that still has a link.
  predicate Live(n: Nodes, d: int) { IsDir(n, d) && n[d].nlink > 0 }

  // Entry k of directory d names inode i, and is not ".".
  predicate Names(n: Nodes, d: int, k: int, i: int) {
    0 <= d < |n| && 0 <= k < |n[d].entries| && n[d].entries[k].inum == i && n[d].entries[k].name != "."
  }

  // The entries that count as links to inode i.
  ghost function Links(n: Nodes, i: int): set<(int, int)> {
    set d, k | 0 <= d < |n| && 0 <= k < |n[d].entries| && Live(n, d) && Names(n, d, k, i) :: (d, k)
  }

  ghost predicate CountsOk(n: Nodes) {
    forall i :: 1 <= i < |n| ==> n[i].nlink == |Links(n, i)|
  }

  // ---- The shape of directories -------------------------------------------

  predicate Plain(name: string) { name != "." && name != ".." }

  // The entries from the third on.
  ghost predicate Lists(n: Nodes, d: int, k: int) {
    IsDir(n, d) && 2 <= k < |n[d].entries| && n[d].entries[k].inum != 0
  }

  ghost predicate DirOk(n: Nodes, d: int)
    requires IsDir(n, d)
  {
    var es := n[d].entries;
    && |es| >= 2 && es[0] == Dirent(d, ".") && es[1].name == ".." && 1 <= es[1].inum < |n|
    && (forall k :: Lists(n, d, k) ==> Live(n, d) && Plain(es[k].name) && es[k].inum < |n| && n[es[k].inum].kind != NoType)
    && (forall j, k :: Lists(n, d, j) && Lists(n, d, k) && j != k ==> es[j].name != es[k].name)
  }

  // The one entry that names each live directory but the root, as its ".." says.
  type Homes = map<int, (int, int)>

  ghost predicate HomeOk(n: Nodes, home: Homes, c: int) {
    Live(n, c) && c != ROOTINO ==>
      && c in home && Live(n, home[c].0) && Lists(n, home[c].0, home[c].1)
      && n[home[c].0].entries[home[c].1].inum == c && |n[c].entries| >= 2 && n[c].entries[1].inum == home[c].0
  }

  ghost predicate ListedOk(n: Nodes, home: Homes, d: int, k: int)
    requires Lists(n, d, k)
  {
    var c := n[d].entries[k].inum;
    IsDir(n, c) ==> Live(n, c) && c != ROOTINO && c in home && home[c] == (d, k)
  }

  ghost predicate HomesOk(n: Nodes, home: Homes) {
    && (forall c :: HomeOk(n, home, c))
    && (forall d, k :: Lists(n, d, k) ==> ListedOk(n, home, d, k))
  }

  ghost predicate ShapeOk(n: Nodes) {
    && ROOTINO < |n| && Live(n, ROOTINO) && n[0] == Inode(NoType, 0, [])
    && |n[ROOTINO].entries| >= 2 && n[ROOTINO].entries[1].inum == ROOTINO
    && (forall d :: IsDir(n, d) ==> DirOk(n, d))
    && (forall i :: 0 <= i < |n| && n[i].kind != Dir ==> n[i].entries == [])
    && (forall i :: 0 <= i < |n| && n[i].kind == NoType ==> n[i].nlink == 0)
  }

  ghost predicate Inv(n: Nodes, home: Homes) {
    ShapeOk(n) && HomesOk(n, home) && CountsOk(n)
  }

  // ---- dirlookup and dirlink ----------------------------------------------

  predicate Matches(es: seq<Dirent>, k: int, name: string) {
    0 <= k < |es| && es[k].inum != 0 && es[k].name == name
  }

  // The first entry with that name, or -1.
  ghost predicate IsLookup(es: seq<Dirent>, name: string, k: int) {
    && (k == -1 || Matches(es, k, name))
    && forall j :: 0 <= j < (if k == -1 then |es| else k) ==> !Matches(es, j, name)
  }

  // The first empty entry, or the end.
  ghost predicate IsSlot(es: seq<Dirent>, k: int) {
    0 <= k <= |es| && (k < |es| ==> es[k].inum == 0) && forall j :: 0 <= j < k ==> es[j].inum != 0
  }

  function Put(es: seq<Dirent>, k: nat, e: Dirent): seq<Dirent>
    requires k <= |es|
  {
    if k < |es| then es[k := e] else es + [e]
  }

  // dirlink, once the name is known to be new.
  function WithEntry(n: Nodes, d: nat, k: nat, e: Dirent): Nodes
    requires d < |n| && k <= |n[d].entries|
  {
    n[d := n[d].(entries := Put(n[d].entries, k, e))]
  }

  function WithLinks(n: Nodes, i: nat, more: int): Nodes
    requires i < |n|
  {
    n[i := n[i].(nlink := n[i].nlink + more)]
  }

  // ---- Adding an entry ----------------------------------------------------

  // A new entry for an inode that is not a directory adds one link to it, and
  // none to any other, provided the directory is live.
  lemma EntryLinks(n: Nodes, d: nat, k: nat, e: Dirent, i: int)
    requires d < |n| && IsDir(n, d) && k <= |n[d].entries| && (k < |n[d].entries| ==> n[d].entries[k].inum == 0)
    requires e.inum != 0 && e.name != "." && i != 0
    ensures Links(WithEntry(n, d, k, e), i) == Links(n, i) + (if Live(n, d) && e.inum == i then {(d as int, k as int)} else {})
    ensures (d as int, k as int) !in Links(n, i)
  {
    var n' := WithEntry(n, d, k, e);
    forall x, j ensures Live(n', x) && Names(n', x, j, i) <==>
      (Live(n, x) && Names(n, x, j, i)) || (x == d && j == k && Live(n, d) && e.inum == i) {
    }
  }

  // Changing the link count of an inode without making or ending a live directory.
  lemma CountLinks(n: Nodes, i: nat, more: int, j: int)
    requires i < |n| && (n[i].kind == Dir ==> (n[i].nlink + more > 0 <==> n[i].nlink > 0))
    ensures Links(WithLinks(n, i, more), j) == Links(n, j)
  {
    var n' := WithLinks(n, i, more);
    assert forall x :: Live(n', x) == Live(n, x);
    assert forall x, k :: Names(n', x, k, j) == Names(n, x, k, j);
  }

  lemma AddLink<T>(s: set<T>, x: T)
    requires x !in s
    ensures |s + {x}| == |s| + 1
  {
  }

  // The first two entries are never empty, and hold the names a lookup finds first.
  lemma SlotIsLater(n: Nodes, d: nat, k: nat, name: string)
    requires d < |n| && IsDir(n, d) && DirOk(n, d) && IsSlot(n[d].entries, k) && IsLookup(n[d].entries, name, -1)
    requires d != 0
    ensures 2 <= k && Plain(name)
  {
    assert !Matches(n[d].entries, 0, name) && !Matches(n[d].entries, 1, name);
  }

  // The directory that gets a new entry stays in shape,
  lemma EntryDirOk(n: Nodes, d: nat, k: nat, e: Dirent)
    requires 1 <= d < |n| && Live(n, d) && DirOk(n, d) && IsSlot(n[d].entries, k) && IsLookup(n[d].entries, e.name, -1)
    requires 1 <= e.inum < |n| && n[e.inum].kind != NoType
    ensures DirOk(WithEntry(n, d, k, e), d) && 2 <= k
  {
    var n' := WithEntry(n, d, k, e);
    SlotIsLater(n, d, k, e.name);
    var es, es' := n[d].entries, n'[d].entries;
    assert forall j :: Lists(n', d, j) <==> Lists(n, d, j) || j == k;
    forall j | Lists(n, d, j) ensures es[j].name != e.name && es'[j] == es[j] {
      assert !Matches(es, j, e.name);
    }
  }

  // ... and so does the rest.
  lemma EntryShape(n: Nodes, home: Homes, d: nat, k: nat, e: Dirent)
    requires ShapeOk(n) && HomesOk(n, home) && Live(n, d) && IsSlot(n[d].entries, k)
    requires IsLookup(n[d].entries, e.name, -1)
    requires 1 <= e.inum < |n| && n[e.inum].kind != NoType && n[e.inum].kind != Dir
    ensures ShapeOk(WithEntry(n, d, k, e)) && HomesOk(WithEntry(n, d, k, e), home)
  {
    var n' := WithEntry(n, d, k, e);
    EntryDirOk(n, d, k, e);
    forall x | IsDir(n', x) ensures DirOk(n', x) {
      if x != d { OtherDirOk(n, n', x); }
    }
    forall c ensures HomeOk(n', home, c) {
      assert HomeOk(n, home, c);
    }
    forall x, j | Lists(n', x, j) ensures ListedOk(n', home, x, j) {
      if x != d || j != k { assert Lists(n, x, j) && ListedOk(n, home, x, j); }
    }
  }

  lemma OtherDirOk(n: Nodes, n': Nodes, x: int)
    requires IsDir(n, x) && DirOk(n, x) && |n'| == |n| && n'[x] == n[x]
    requires forall i :: 0 <= i < |n| && n[i].kind != NoType ==> n'[i].kind != NoType
    ensures DirOk(n', x)
  {
    assert forall j :: Lists(n', x, j) <==> Lists(n, x, j);
  }

  // ---- sys_link -----------------------------------------------------------

  function Linked(n: Nodes, d: nat, k: nat, name: string, i: nat): Nodes
    requires d < |n| && i < |n| && d != i && k <= |n[d].entries|
  {
    WithEntry(WithLinks(n, i, 1), d, k, Dirent(i, name))
  }

  lemma LinkedLinks(n: Nodes, d: nat, k: nat, name: string, i: nat, j: int)
    requires IsDir(n, d) && 1 <= i < |n| && n[i].kind != Dir && k <= |n[d].entries| && name != "." && j != 0
    requires k < |n[d].entries| ==> n[d].entries[k].inum == 0
    ensures Links(Linked(n, d, k, name, i), j) ==
      Links(n, j) + (if Live(n, d) && i == j then {(d as int, k as int)} else {})
    ensures (d as int, k as int) !in Links(n, j)
  {
    CountLinks(n, i, 1, j);
    EntryLinks(WithLinks(n, i, 1), d, k, Dirent(i, name), j);
  }

  lemma LinkCounts(n: Nodes, d: nat, k: nat, name: string, i: nat)
    requires CountsOk(n) && Live(n, d) && 1 <= i < |n| && n[i].kind != Dir && k <= |n[d].entries| && name != "."
    requires k < |n[d].entries| ==> n[d].entries[k].inum == 0
    ensures CountsOk(Linked(n, d, k, name, i))
  {
    var n2 := Linked(n, d, k, name, i);
    forall j | 1 <= j < |n2| ensures n2[j].nlink == |Links(n2, j)| {
      LinkedLinks(n, d, k, name, i, j);
      AddLink(Links(n, i), (d as int, k as int));
    }
  }

  // Linking keeps every count right exactly when the directory still has a link itself.
  lemma LinkKeeps(n: Nodes, home: Homes, d: nat, k: nat, name: string, i: nat)
    requires Inv(n, home) && IsDir(n, d) && 1 <= i < |n| && n[i].kind != Dir && n[i].kind != NoType
    requires IsSlot(n[d].entries, k) && IsLookup(n[d].entries, name, -1)
    ensures CountsOk(Linked(n, d, k, name, i)) <==> Live(n, d)
    ensures Live(n, d) ==> Inv(Linked(n, d, k, name, i), home)
  {
    var n2 := Linked(n, d, k, name, i);
    assert DirOk(n, d);
    SlotIsLater(n, d, k, name);
    LinkedLinks(n, d, k, name, i, i);
    if Live(n, d) {
      LinkCounts(n, d, k, name, i);
      LinksShape(n, home, i, 1);
      EntryShape(WithLinks(n, i, 1), home, d, k, Dirent(i, name));
    }
  }

  lemma LinksShape(n: Nodes, home: Homes, i: nat, more: int)
    requires ShapeOk(n) && HomesOk(n, home) && i < |n| && n[i].kind != Dir && n[i].kind != NoType
    ensures ShapeOk(WithLinks(n, i, more)) && HomesOk(WithLinks(n, i, more), home)
  {
    var n' := WithLinks(n, i, more);
    forall x | IsDir(n', x) ensures DirOk(n', x) {
      OtherDirOk(n, n', x);
    }
    forall c ensures HomeOk(n', home, c) {
      assert HomeOk(n, home, c);
    }
    forall x, j | Lists(n', x, j) ensures ListedOk(n', home, x, j) {
      assert Lists(n, x, j) && ListedOk(n, home, x, j);
    }
  }

  // ---- create -------------------------------------------------------------

  lemma NoLinks(n: Nodes, c: int)
    requires CountsOk(n) && 1 <= c < |n| && n[c].nlink == 0
    ensures Links(n, c) == {}
  {
  }

  // ialloc and the first iupdate, for an inode that is not a directory.
  lemma NewFile(n: Nodes, home: Homes, c: nat, kind: Kind)
    requires ShapeOk(n) && HomesOk(n, home) && 1 <= c < |n| && n[c].kind == NoType && kind != NoType && kind != Dir
    ensures var n' := n[c := Inode(kind, 1, [])];
      ShapeOk(n') && HomesOk(n', home) && forall j :: Links(n', j) == Links(n, j)
  {
    var n' := n[c := Inode(kind, 1, [])];
    forall x | IsDir(n', x) ensures DirOk(n', x) {
      OtherDirOk(n, n', x);
    }
    forall e ensures HomeOk(n', home, e) {
      assert HomeOk(n, home, e);
    }
    forall x, j | Lists(n', x, j) ensures ListedOk(n', home, x, j) {
      assert Lists(n, x, j) && ListedOk(n, home, x, j);
      assert DirOk(n, x);
    }
    forall j ensures Links(n', j) == Links(n, j) {
      assert forall x :: Live(n', x) == Live(n, x);
      assert forall x, k :: Names(n', x, k, j) == Names(n, x, k, j);
    }
  }

  function CreatedFile(n: Nodes, d: nat, k: nat, name: string, c: nat, kind: Kind): Nodes
    requires d < |n| && c < |n| && d != c && k <= |n[d].entries|
  {
    WithEntry(n[c := Inode(kind, 1, [])], d, k, Dirent(c, name))
  }

  lemma CreateFileLinks(n: Nodes, d: nat, k: nat, name: string, c: nat, kind: Kind)
    requires CountsOk(n) && IsDir(n, d) && 1 <= c < |n| && n[c] == Inode(NoType, 0, []) && kind != NoType && kind != Dir
    requires (k < |n[d].entries| ==> n[d].entries[k].inum == 0) && k <= |n[d].entries| && name != "."
    requires forall j :: Links(n[c := Inode(kind, 1, [])], j) == Links(n, j)
    ensures CountsOk(CreatedFile(n, d, k, name, c, kind)) <==> Live(n, d)
  {
    var n1, n2 := n[c := Inode(kind, 1, [])], CreatedFile(n, d, k, name, c, kind);
    NoLinks(n, c);
    EntryLinks(n1, d, k, Dirent(c, name), c);
    if Live(n, d) {
      forall j | 1 <= j < |n2| ensures n2[j].nlink == |Links(n2, j)| {
        EntryLinks(n1, d, k, Dirent(c, name), j);
      }
    }
  }

  lemma CreateFileKeeps(n: Nodes, home: Homes, d: nat, k: nat, name: string, c: nat, kind: Kind)
    requires Inv(n, home) && IsDir(n, d) && 1 <= c < |n| && n[c].kind == NoType && kind != NoType && kind != Dir
    requires IsSlot(n[d].entries, k) && IsLookup(n[d].entries, name, -1)
    ensures CountsOk(CreatedFile(n, d, k, name, c, kind)) <==> Live(n, d)
    ensures Live(n, d) ==> Inv(CreatedFile(n, d, k, name, c, kind), home)
  {
    assert DirOk(n, d);
    SlotIsLater(n, d, k, name);
    NewFile(n, home, c, kind);
    CreateFileLinks(n, d, k, name, c, kind);
    if Live(n, d) {
      EntryShape(n[c := Inode(kind, 1, [])], home, d, k, Dirent(c, name));
    }
  }

  function Dots(c: nat, d: nat): seq<Dirent> { [Dirent(c, "."), Dirent(d, "..")] }

  // A new directory that nothing names yet, with its ".." counted in its parent.
  function WithDir(n: Nodes, c: nat, d: nat): Nodes
    requires c < |n| && d < |n|
  {
    WithLinks(n[c := Inode(Dir, 1, Dots(c, d))], d, 1)
  }

  lemma NewDirLinks(n: Nodes, c: nat, d: nat, j: int)
    requires 1 <= c < |n| && n[c].kind == NoType && IsDir(n, d) && n[d].nlink >= 0 && j != 0
    ensures c != d
    ensures Live(n, d) ==> Links(WithDir(n, c, d), j) == Links(n, j) + (if j == d then {(c as int, 1)} else {})
    ensures (c as int, 1) !in Links(n, j)
    ensures !Live(n, d) ==> Links(n, j) <= Links(WithDir(n, c, d), j)
    ensures !Live(n, d) && |n[d].entries| >= 2 && n[d].entries[1].inum == j && n[d].entries[1].name == ".." ==>
      (d as int, 1) in Links(WithDir(n, c, d), j) && (d as int, 1) !in Links(n, j)
  {
    var n' := WithDir(n, c, d);
    assert forall x :: x != c && x != d ==> Live(n', x) == Live(n, x);
    assert forall x, k :: x != c ==> Names(n', x, k, j) == Names(n, x, k, j);
    forall k ensures Names(n', c, k, j) <==> k == 1 && j == d {
    }
  }

  function CreatedDir(n: Nodes, d: nat, k: nat, name: string, c: nat): Nodes
    requires d < |n| && c < |n| && d != c && k <= |n[d].entries|
  {
    WithEntry(WithDir(n, c, d), d, k, Dirent(c, name))
  }

  lemma CreateDirLinks(n: Nodes, d: nat, k: nat, name: string, c: nat, j: int)
    requires Live(n, d) && 1 <= c < |n| && n[c].kind == NoType && j != 0 && name != "."
    requires k <= |n[d].entries| && (k < |n[d].entries| ==> n[d].entries[k].inum == 0)
    ensures d != c && Links(CreatedDir(n, d, k, name, c), j) ==
      Links(n, j) + (if j == d then {(c as int, 1)} else {}) + (if j == c then {(d as int, k as int)} else {})
    ensures (c as int, 1) !in Links(n, j) && (d as int, k as int) !in Links(n, j)
  {
    NewDirLinks(n, c, d, j);
    EntryLinks(WithDir(n, c, d), d, k, Dirent(c, name), j);
  }

  lemma CreateDirCounts(n: Nodes, d: nat, k: nat, name: string, c: nat)
    requires CountsOk(n) && Live(n, d) && 1 <= c < |n| && n[c] == Inode(NoType, 0, []) && name != "." && d != 0
    requires k <= |n[d].entries| && (k < |n[d].entries| ==> n[d].entries[k].inum == 0)
    ensures d != c && CountsOk(CreatedDir(n, d, k, name, c))
  {
    var n2 := CreatedDir(n, d, k, name, c);
    NoLinks(n, c);
    forall j | 1 <= j < |n2| ensures n2[j].nlink == |Links(n2, j)| {
      CreateDirLinks(n, d, k, name, c, j);
      if j == d { AddLink(Links(n, d), (c as int, 1)); }
    }
  }

  // In a directory without links, the old ".." counts again.
  lemma DotDotReturns(n: Nodes, d: nat, k: nat, name: string, c: nat, p: int)
    requires IsDir(n, d) && n[d].nlink == 0 && 1 <= c < |n| && n[c].kind == NoType && |n[d].entries| >= 2
    requires 2 <= k <= |n[d].entries| && (k < |n[d].entries| ==> n[d].entries[k].inum == 0) && name != "."
    requires n[d].entries[1].inum == p != 0 && n[d].entries[1].name == ".."
    ensures d != c
    ensures Links(n, p) + {(d as int, 1)} <= Links(CreatedDir(n, d, k, name, c), p) && (d as int, 1) !in Links(n, p)
  {
    NewDirLinks(n, c, d, p);
    EntryLinks(WithDir(n, c, d), d, k, Dirent(c, name), p);
  }

  // ... which makes some count wrong: the parent's, or, if the parent's inode number has been
  // used again, the new directory's.
  lemma CreateDirBreaks(n: Nodes, d: nat, k: nat, name: string, c: nat)
    requires ShapeOk(n) && CountsOk(n) && IsDir(n, d) && n[d].nlink == 0 && 1 <= c < |n| && n[c].kind == NoType
    requires 2 <= k <= |n[d].entries| && (k < |n[d].entries| ==> n[d].entries[k].inum == 0) && name != "."
    ensures d != c && !CountsOk(CreatedDir(n, d, k, name, c))
  {
    assert DirOk(n, d);
    var p, n2 := n[d].entries[1].inum, CreatedDir(n, d, k, name, c);
    DotDotReturns(n, d, k, name, c, p);
    if p == c {
      assert Names(n2, d, k, c) && Live(n2, d);
      AtLeastTwo(Links(n2, c), (d as int, 1), (d as int, k as int));
      assert n2[c].nlink == 1;
    } else if p == d {
      assert Names(n2, c, 1, d) && Live(n2, c);
      AtLeastTwo(Links(n2, d), (d as int, 1), (c as int, 1));
      assert n2[d].nlink == 1;
    } else {
      AddLink(Links(n, p), (d as int, 1));
      SubsetSize(Links(n, p) + {(d as int, 1)}, Links(n2, p));
      assert n2[p].nlink == n[p].nlink;
    }
  }

  lemma CreateDirShape(n: Nodes, d: nat, k: nat, name: string, c: nat)
    requires ShapeOk(n) && Live(n, d) && 1 <= c < |n| && n[c].kind == NoType
    requires IsSlot(n[d].entries, k) && IsLookup(n[d].entries, name, -1)
    ensures d != c && k >= 2 && ShapeOk(CreatedDir(n, d, k, name, c))
  {
    var n1, n2 := WithDir(n, c, d), CreatedDir(n, d, k, name, c);
    assert DirOk(n, d);
    OtherEntries(n, n1, d);
    EntryDirOk(n1, d, k, Dirent(c, name));
    forall x | IsDir(n2, x) ensures DirOk(n2, x) {
      if x != d && x != c { OtherDirOk(n, n2, x); }
    }
  }

  lemma CreateDirHomes(n: Nodes, home: Homes, d: nat, k: nat, name: string, c: nat)
    requires ShapeOk(n) && HomesOk(n, home) && Live(n, d) && 1 <= c < |n| && n[c].kind == NoType && d != c
    requires 2 <= k <= |n[d].entries| && (k < |n[d].entries| ==> n[d].entries[k].inum == 0)
    ensures HomesOk(CreatedDir(n, d, k, name, c), home[c as int := (d as int, k as int)])
  {
    var n2, home' := CreatedDir(n, d, k, name, c), home[c as int := (d as int, k as int)];
    forall e ensures HomeOk(n2, home', e) {
      assert HomeOk(n, home, e);
    }
    forall x, j | Lists(n2, x, j) ensures ListedOk(n2, home', x, j) {
      if x != d || j != k {
        assert Lists(n, x, j) && ListedOk(n, home, x, j);
        assert DirOk(n, x);
      }
    }
  }

  // The same entries in a directory that stays live.
  lemma OtherEntries(n: Nodes, n': Nodes, x: int)
    requires IsDir(n, x) && DirOk(n, x) && |n'| == |n| && IsDir(n', x) && n'[x].entries == n[x].entries
    requires Live(n, x) ==> Live(n', x)
    requires forall i :: 0 <= i < |n| && n[i].kind != NoType ==> n'[i].kind != NoType
    ensures DirOk(n', x)
  {
    assert forall j :: Lists(n', x, j) <==> Lists(n, x, j);
  }

  // Making a directory keeps every count right, again exactly when its parent still has a link.
  lemma CreateDirKeeps(n: Nodes, home: Homes, d: nat, k: nat, name: string, c: nat)
    requires Inv(n, home) && IsDir(n, d) && 1 <= c < |n| && n[c].kind == NoType
    requires IsSlot(n[d].entries, k) && IsLookup(n[d].entries, name, -1)
    ensures d != c && (Live(n, d) ==> Inv(CreatedDir(n, d, k, name, c), home[c as int := (d as int, k as int)]))
    ensures !Live(n, d) ==> !CountsOk(CreatedDir(n, d, k, name, c))
  {
    assert DirOk(n, d);
    SlotIsLater(n, d, k, name);
    if Live(n, d) {
      CreateDirCounts(n, d, k, name, c);
      CreateDirShape(n, d, k, name, c);
      CreateDirHomes(n, home, d, k, name, c);
    } else {
      CreateDirBreaks(n, d, k, name, c);
    }
  }

  // ---- sys_unlink ---------------------------------------------------------

  function Cleared(n: Nodes, d: nat, k: nat): Nodes
    requires d < |n| && k < |n[d].entries|
  {
    n[d := n[d].(entries := n[d].entries[k := Dirent(0, "")])]
  }

  lemma ClearedLinks(n: Nodes, d: nat, k: nat, j: int)
    requires Lists(n, d, k) && Live(n, d) && n[d].entries[k].name != "." && j != 0
    ensures Links(n, j) == Links(Cleared(n, d, k), j) + (if n[d].entries[k].inum == j then {(d as int, k as int)} else {})
    ensures (d as int, k as int) !in Links(Cleared(n, d, k), j)
  {
    var e := n[d].entries[k];
    assert n[d].entries[k := Dirent(0, "")][k := e] == n[d].entries;
    assert WithEntry(Cleared(n, d, k), d, k, e) == n;
    EntryLinks(Cleared(n, d, k), d, k, e, j);
  }

  function UnlinkedFile(n: Nodes, d: nat, k: nat): Nodes
    requires d < |n| && k < |n[d].entries| && n[d].entries[k].inum < |n|
  {
    WithLinks(Cleared(n, d, k), n[d].entries[k].inum, -1)
  }

  lemma UnlinkFileCounts(n: Nodes, d: nat, k: nat)
    requires CountsOk(n) && Lists(n, d, k) && Live(n, d) && n[d].entries[k].name != "."
    requires n[d].entries[k].inum < |n| && n[n[d].entries[k].inum].kind != Dir
    ensures CountsOk(UnlinkedFile(n, d, k)) && n[n[d].entries[k].inum].nlink >= 1
  {
    var i, n2 := n[d].entries[k].inum, UnlinkedFile(n, d, k);
    forall j | 1 <= j < |n2| ensures n2[j].nlink == |Links(n2, j)| && (j == i ==> n[j].nlink >= 1) {
      ClearedLinks(n, d, k, j);
      CountLinks(Cleared(n, d, k), i, -1, j);
      if j == i { AddLink(Links(Cleared(n, d, k), j), (d as int, k as int)); }
    }
  }

  lemma ClearedShape(n: Nodes, home: Homes, d: nat, k: nat)
    requires ShapeOk(n) && HomesOk(n, home) && Lists(n, d, k)
    requires n[d].entries[k].inum < |n| && n[n[d].entries[k].inum].kind != Dir
    ensures ShapeOk(Cleared(n, d, k)) && HomesOk(Cleared(n, d, k), home)
  {
    var n' := Cleared(n, d, k);
    forall x | IsDir(n', x) ensures DirOk(n', x) {
      assert DirOk(n, x);
      assert forall j :: Lists(n', x, j) <==> Lists(n, x, j) && (x != d || j != k);
    }
    forall e ensures HomeOk(n', home, e) {
      assert HomeOk(n, home, e);
    }
    forall x, j | Lists(n', x, j) ensures ListedOk(n', home, x, j) {
      assert Lists(n, x, j) && ListedOk(n, home, x, j);
    }
  }

  // Unlinking something that is not a directory keeps every count right; the count was not 0.
  lemma UnlinkFileKeeps(n: Nodes, home: Homes, d: nat, k: nat)
    requires Inv(n, home) && Lists(n, d, k) && n[d].entries[k].inum < |n| && n[n[d].entries[k].inum].kind != Dir
    ensures Inv(UnlinkedFile(n, d, k), home) && n[n[d].entries[k].inum].nlink >= 1
  {
    assert DirOk(n, d);
    UnlinkFileCounts(n, d, k);
    ClearedShape(n, home, d, k);
    LinksShape(Cleared(n, d, k), home, n[d].entries[k].inum, -1);
  }

  function UnlinkedDir(n: Nodes, d: nat, k: nat): Nodes
    requires d < |n| && k < |n[d].entries| && n[d].entries[k].inum < |n|
  {
    WithLinks(WithLinks(Cleared(n, d, k), d, -1), n[d].entries[k].inum, -1)
  }

  // A directory without entries of its own has one link: the entry that is about to go.
  lemma OnlyLink(n: Nodes, home: Homes, d: int, k: int)
    requires Inv(n, home) && Lists(n, d, k) && IsDir(n, n[d].entries[k].inum)
    requires forall j :: !Lists(n, n[d].entries[k].inum, j)
    ensures Links(n, n[d].entries[k].inum) == {(d, k)} && n[n[d].entries[k].inum].nlink == 1
  {
    var i := n[d].entries[k].inum;
    assert ListedOk(n, home, d, k) && DirOk(n, d);
    forall x, j | Live(n, x) && Names(n, x, j, i) ensures (x, j) == (d, k) {
      assert DirOk(n, x) && HomeOk(n, home, x);
      if j >= 2 { assert Lists(n, x, j) && ListedOk(n, home, x, j); }
    }
    assert (d, k) in Links(n, i);
    assert Links(n, i) == {(d, k)};
  }

  // Its parent has at least two: the one that names it, and the ".." that goes with the directory.
  lemma ParentLinks(n: Nodes, home: Homes, d: int, k: int)
    requires Inv(n, home) && Lists(n, d, k) && IsDir(n, n[d].entries[k].inum)
    ensures n[d].nlink >= 2 && n[n[d].entries[k].inum].entries[1].inum == d
  {
    var i := n[d].entries[k].inum;
    assert ListedOk(n, home, d, k) && DirOk(n, d) && HomeOk(n, home, i) && HomeOk(n, home, d) && DirOk(n, i);
    assert Names(n, i, 1, d) && (i, 1) in Links(n, d);
    if d == ROOTINO {
      assert Names(n, d, 1, d);
      AtLeastTwo(Links(n, d), (i, 1), (d, 1));
    } else {
      var (p, l) := home[d];
      assert DirOk(n, p) && Names(n, p, l, d);
      AtLeastTwo(Links(n, d), (i, 1), (p, l));
    }
  }

  // Without a link of its own, the directory's ".." no longer counts.
  lemma DeadDirLinks(n: Nodes, i: nat, j: int)
    requires IsDir(n, i) && n[i].nlink == 1 && |n[i].entries| >= 2 && n[i].entries[0].name == "."
    requires n[i].entries[1].name == ".." && (forall l :: !Lists(n, i, l)) && j != 0
    ensures Links(n, j) == Links(WithLinks(n, i, -1), j) + (if n[i].entries[1].inum == j then {(i as int, 1)} else {})
    ensures (i as int, 1) !in Links(WithLinks(n, i, -1), j)
  {
    var n' := WithLinks(n, i, -1);
    assert forall x :: Live(n', x) <==> Live(n, x) && x != i;
    assert forall x, l :: Names(n', x, l, j) == Names(n, x, l, j);
    forall l ensures Names(n, i, l, j) <==> l == 1 && n[i].entries[1].inum == j {
      assert !Lists(n, i, l);
    }
  }

  lemma UnlinkDirLinks(n: Nodes, home: Homes, d: nat, k: nat, j: int)
    requires Inv(n, home) && Lists(n, d, k) && IsDir(n, n[d].entries[k].inum) && j != 0
    requires forall l :: !Lists(n, n[d].entries[k].inum, l)
    ensures var i := n[d].entries[k].inum; var n3 := UnlinkedDir(n, d, k);
      && i != d && Links(n3, j) !! {(i as int, 1), (d as int, k as int)}
      && Links(n, j) == Links(n3, j) + (if j == d then {(i as int, 1)} else {}) + (if j == i then {(d as int, k as int)} else {})
  {
    var i := n[d].entries[k].inum;
    var n1, n2 := Cleared(n, d, k), WithLinks(Cleared(n, d, k), d, -1);
    assert DirOk(n, d) && ListedOk(n, home, d, k) && DirOk(n, i);
    ClearedLinks(n, d, k, j);
    ParentLinks(n, home, d, k);
    OnlyLink(n, home, d, k);
    CountLinks(n1, d, -1, j);
    assert forall l :: Lists(n2, i, l) <==> Lists(n, i, l);
    DeadDirLinks(n2, i, j);
  }

  lemma UnlinkDirCounts(n: Nodes, home: Homes, d: nat, k: nat)
    requires Inv(n, home) && Lists(n, d, k) && IsDir(n, n[d].entries[k].inum)
    requires forall l :: !Lists(n, n[d].entries[k].inum, l)
    ensures CountsOk(UnlinkedDir(n, d, k))
  {
    var i, n3 := n[d].entries[k].inum, UnlinkedDir(n, d, k);
    forall j | 1 <= j < |n3| ensures n3[j].nlink == |Links(n3, j)| {
      UnlinkDirLinks(n, home, d, k, j);
      if j == d { AddLink(Links(n3, d), (i as int, 1)); }
      if j == i { AddLink(Links(n3, i), (d as int, k as int)); }
    }
  }

  // What goes: the entry, and the directory's being live.
  lemma UnlinkStep(n: Nodes, d: nat, k: nat)
    requires Lists(n, d, k) && IsDir(n, n[d].entries[k].inum) && n[d].entries[k].inum != d
    requires n[n[d].entries[k].inum].nlink == 1 && n[d].nlink >= 2
    ensures var i := n[d].entries[k].inum; var n3 := UnlinkedDir(n, d, k);
      && (forall x :: Live(n3, x) <==> Live(n, x) && x != i)
      && (forall x, j :: Lists(n3, x, j) <==> Lists(n, x, j) && (x != d || j != k))
      && (forall x :: 0 <= x < |n| ==> n3[x].kind == n[x].kind)
      && (forall x :: 0 <= x < |n| && x != d ==> n3[x].entries == n[x].entries)
      && n3[d].entries == n[d].entries[k := Dirent(0, "")]
  {
  }

  lemma UnlinkReady(n: Nodes, home: Homes, d: nat, k: nat)
    requires Inv(n, home) && Lists(n, d, k) && IsDir(n, n[d].entries[k].inum)
    requires forall l :: !Lists(n, n[d].entries[k].inum, l)
    ensures var i := n[d].entries[k].inum;
      && i != d && i != ROOTINO && n[i].nlink == 1 && n[d].nlink >= 2
      && (forall x, j :: Lists(n, x, j) && (x != d || j != k) ==> n[x].entries[j].inum != i)
  {
    var i := n[d].entries[k].inum;
    ParentLinks(n, home, d, k);
    OnlyLink(n, home, d, k);
    assert ListedOk(n, home, d, k);
    forall x, j | Lists(n, x, j) && (x != d || j != k) ensures n[x].entries[j].inum != i {
      assert ListedOk(n, home, x, j);
    }
  }

  lemma UnlinkDirShape(n: Nodes, home: Homes, d: nat, k: nat)
    requires Inv(n, home) && Lists(n, d, k) && IsDir(n, n[d].entries[k].inum)
    requires forall l :: !Lists(n, n[d].entries[k].inum, l)
    ensures ShapeOk(UnlinkedDir(n, d, k))
  {
    var i, n3 := n[d].entries[k].inum, UnlinkedDir(n, d, k);
    UnlinkReady(n, home, d, k);
    UnlinkStep(n, d, k);
    forall x | IsDir(n3, x) ensures DirOk(n3, x) {
      UnlinkDirOk(n, n3, d, k, x);
    }
    assert DirOk(n, ROOTINO);
  }

  lemma UnlinkDirOk(n: Nodes, n3: Nodes, d: nat, k: nat, x: int)
    requires IsDir(n, x) && IsDir(n3, x) && DirOk(n, x) && |n3| == |n| && Lists(n, d, k)
    requires forall l :: !Lists(n, n[d].entries[k].inum, l)
    requires n3[x].entries == if x == d then n[d].entries[k := Dirent(0, "")] else n[x].entries
    requires forall y :: Live(n3, y) <==> Live(n, y) && y != n[d].entries[k].inum
    requires forall y, j :: Lists(n3, y, j) <==> Lists(n, y, j) && (y != d || j != k)
    requires forall y :: 0 <= y < |n| ==> n3[y].kind == n[y].kind
    ensures DirOk(n3, x)
  {
  }

  lemma UnlinkDirHomes(n: Nodes, home: Homes, d: nat, k: nat)
    requires Inv(n, home) && Lists(n, d, k) && IsDir(n, n[d].entries[k].inum)
    requires forall l :: !Lists(n, n[d].entries[k].inum, l)
    ensures HomesOk(UnlinkedDir(n, d, k), home)
  {
    var n3 := UnlinkedDir(n, d, k);
    UnlinkReady(n, home, d, k);
    UnlinkStep(n, d, k);
    assert ListedOk(n, home, d, k);
    forall e ensures HomeOk(n3, home, e) {
      assert HomeOk(n, home, e);
    }
    forall x, j | Lists(n3, x, j) ensures ListedOk(n3, home, x, j) {
      assert ListedOk(n, home, x, j);
    }
  }

  // Unlinking an empty directory keeps every count right, and leaves it without a link.
  lemma UnlinkDirKeeps(n: Nodes, home: Homes, d: nat, k: nat)
    requires Inv(n, home) && Lists(n, d, k) && IsDir(n, n[d].entries[k].inum)
    requires forall l :: !Lists(n, n[d].entries[k].inum, l)
    ensures Inv(UnlinkedDir(n, d, k), home) && UnlinkedDir(n, d, k)[n[d].entries[k].inum].nlink == 0
  {
    UnlinkDirCounts(n, home, d, k);
    UnlinkDirShape(n, home, d, k);
    UnlinkDirHomes(n, home, d, k);
    OnlyLink(n, home, d, k);
    assert ListedOk(n, home, d, k) && HomeOk(n, home, n[d].entries[k].inum) && DirOk(n, d);
  }

  // ---- iput ---------------------------------------------------------------

  function Freed(n: Nodes, i: nat): Nodes
    requires i < |n|
  {
    n[i := Inode(NoType, 0, [])]
  }

  // An inode without links can be freed: nothing live names it.
  lemma FreeKeeps(n: Nodes, home: Homes, i: nat)
    requires Inv(n, home) && 1 <= i < |n| && n[i].nlink == 0
    ensures Inv(Freed(n, i), home)
  {
    var n' := Freed(n, i);
    NoLinks(n, i);
    assert forall x :: Live(n', x) == Live(n, x);
    forall j ensures Links(n', j) == Links(n, j) {
      assert forall x, k :: Live(n, x) ==> Names(n', x, k, j) == Names(n, x, k, j);
    }
    FreeShape(n, home, i);
  }

  lemma FreeShape(n: Nodes, home: Homes, i: nat)
    requires ShapeOk(n) && HomesOk(n, home) && 1 <= i < |n| && n[i].nlink == 0 && Links(n, i) == {}
    ensures ShapeOk(Freed(n, i)) && HomesOk(Freed(n, i), home)
  {
    var n' := Freed(n, i);
    forall x, j | Lists(n, x, j) ensures n[x].entries[j].inum != i && x != i {
      assert DirOk(n, x);
      assert Names(n, x, j, n[x].entries[j].inum);
      assert (x, j) in Links(n, n[x].entries[j].inum);
    }
    assert forall x, j :: Lists(n', x, j) <==> Lists(n, x, j);
    forall x | IsDir(n', x) ensures DirOk(n', x) {
      assert DirOk(n, x);
    }
    forall e ensures HomeOk(n', home, e) {
      assert HomeOk(n, home, e);
    }
    forall x, j | Lists(n', x, j) ensures ListedOk(n', home, x, j) {
      assert ListedOk(n, home, x, j);
    }
  }

  // ---- A root directory and nothing else ----------------------------------

  function RootOnly(count: nat): (n: Nodes)
    requires count > ROOTINO
    ensures |n| == count
  {
    seq(count, i => if i == ROOTINO then Inode(Dir, 1, Dots(ROOTINO, ROOTINO)) else Inode(NoType, 0, []))
  }

  lemma RootOnlyOk(count: nat)
    requires count > ROOTINO
    ensures Inv(RootOnly(count), map[])
  {
    var n := RootOnly(count);
    forall i | 1 <= i < count ensures Links(n, i) == if i == ROOTINO then {(ROOTINO, 1)} else {} {
      assert forall x :: Live(n, x) <==> x == ROOTINO;
      assert forall k :: Names(n, ROOTINO, k, i) <==> k == 1 && i == ROOTINO;
    }
    assert forall d, k :: !Lists(n, d, k);
  }

  lemma LinkUndone(n: Nodes, i: nat)
    requires i < |n|
    ensures WithLinks(WithLinks(n, i, 1), i, -1) == n
  {
    assert n[i].(nlink := n[i].nlink + 1 - 1) == n[i];
  }

  // Some entry has the name, and it is not for a directory that still lists something.
  ghost predicate Removable(n: Nodes, d: int, name: string) {
    exists k :: Lists(n, d, k) && n[d].entries[k].name == name &&
      (IsDir(n, n[d].entries[k].inum) ==> forall l :: !Lists(n, n[d].entries[k].inum, l))
  }

  // A plain name is looked up among the later entries, and found only once.
  lemma LookupListed(n: Nodes, home: Homes, d: nat, name: string, k: nat)
    requires Inv(n, home) && IsDir(n, d) && IsLookup(n[d].entries, name, k) && Plain(name)
    ensures Lists(n, d, k) && 1 <= n[d].entries[k].inum < |n| && n[n[d].entries[k].inum].kind != NoType
    ensures forall j :: Lists(n, d, j) && n[d].entries[j].name == name ==> j == k
  {
    assert DirOk(n, d) && Matches(n[d].entries, k, name);
  }

  // Entry k can be removed: what it names lists nothing itself.
  ghost predicate IsVictim(n: Nodes, d: int, k: int) {
    && Lists(n, d, k) && n[d].entries[k].inum < |n|
    && (IsDir(n, n[d].entries[k].inum) ==> forall l :: !Lists(n, n[d].entries[k].inum, l))
  }

  ghost function Unlinked(n: Nodes, d: nat, k: nat): Nodes
    requires IsVictim(n, d, k)
  {
    if IsDir(n, n[d].entries[k].inum) then UnlinkedDir(n, d, k) else UnlinkedFile(n, d, k)
  }

  lemma UnlinkKeeps(n: Nodes, home: Homes, d: nat, k: nat)
    requires Inv(n, home) && IsVictim(n, d, k)
    ensures Inv(Unlinked(n, d, k), home) && n[n[d].entries[k].inum].nlink >= 1
    ensures IsDir(n, n[d].entries[k].inum) ==> n[d].entries[k].inum != d
  {
    if IsDir(n, n[d].entries[k].inum) {
      UnlinkDirKeeps(n, home, d, k);
      UnlinkReady(n, home, d, k);
    } else {
      UnlinkFileKeeps(n, home, d, k);
    }
  }

  function Created(n: Nodes, d: nat, k: nat, name: string, c: nat, kind: Kind): Nodes
    requires d < |n| && c < |n| && d != c && k <= |n[d].entries|
  {
    if kind == Dir then CreatedDir(n, d, k, name, c) else CreatedFile(n, d, k, name, c, kind)
  }

  // Creating keeps every count right exactly when the directory still has a link itself.
  lemma CreateKeeps(n: Nodes, home: Homes, d: nat, k: nat, name: string, c: nat, kind: Kind)
    requires Inv(n, home) && IsDir(n, d) && 1 <= c < |n| && n[c].kind == NoType && kind != NoType
    requires IsSlot(n[d].entries, k) && IsLookup(n[d].entries, name, -1)
    ensures d != c
    ensures var home' := if kind == Dir then home[c as int := (d as int, k as int)] else home;
      Live(n, d) ==> Inv(Created(n, d, k, name, c, kind), home')
    ensures CountsOk(Created(n, d, k, name, c, kind)) <==> Live(n, d)
  {
    if kind == Dir {
      CreateDirKeeps(n, home, d, k, name, c);
    } else {
      CreateFileKeeps(n, home, d, k, name, c, kind);
    }
  }

  ghost predicate Exists(n: Nodes, d: int, name: string) {
    IsDir(n, d) && !IsLookup(n[d].entries, name, -1)
  }

  // The first entry with the name names a file.
  ghost predicate FileAt(n: Nodes, d: int, name: string) {
    && IsDir(n, d)
    && (exists k :: IsLookup(n[d].entries, name, k) && Matches(n[d].entries, k, name)
          && n[d].entries[k].inum < |n| && n[n[d].entries[k].inum].kind == File)
  }

  // ---- Whole runs ---------------------------------------------------------

  datatype Call =
    | LinkCall(d: nat, k: nat, name: string, i: nat)
    | CreateCall(d: nat, k: nat, name: string, c: nat, kind: Kind)
    | UnlinkCall(d: nat, k: nat)
    | FreeCall(i: nat)                  // the last reference to an inode without links is dropped

  // A call that succeeds; names are only added to directories that still have a link.
  ghost predicate May(n: Nodes, call: Call) {
    match call
    case LinkCall(d, k, name, i) =>
      && Live(n, d) && 1 <= i < |n| && n[i].kind != Dir && n[i].kind != NoType
      && IsSlot(n[d].entries, k) && IsLookup(n[d].entries, name, -1)
    case CreateCall(d, k, name, c, kind) =>
      && Live(n, d) && 1 <= c < |n| && n[c].kind == NoType && kind != NoType
      && IsSlot(n[d].entries, k) && IsLookup(n[d].entries, name, -1)
    case UnlinkCall(d, k) => IsVictim(n, d, k)
    case FreeCall(i) => 1 <= i < |n| && n[i].nlink == 0
  }

  ghost function After(n: Nodes, call: Call): Nodes
    requires May(n, call)
  {
    match call
    case LinkCall(d, k, name, i) => Linked(n, d, k, name, i)
    case CreateCall(d, k, name, c, kind) => Created(n, d, k, name, c, kind)
    case UnlinkCall(d, k) => Unlinked(n, d, k)
    case FreeCall(i) => Freed(n, i)
  }

  ghost predicate Legal(n: Nodes, calls: seq<Call>)
    decreases |calls|
  {
    calls == [] || (May(n, calls[0]) && Legal(After(n, calls[0]), calls[1..]))
  }

  ghost function Exec(n: Nodes, calls: seq<Call>): Nodes
    requires Legal(n, calls)
    decreases |calls|
  {
    if calls == [] then n else Exec(After(n, calls[0]), calls[1..])
  }

  lemma CallKeeps(n: Nodes, home: Homes, call: Call) returns (home': Homes)
    requires Inv(n, home) && May(n, call)
    ensures Inv(After(n, call), home')
  {
    home' := home;
    match call {
      case LinkCall(d, k, name, i) => LinkKeeps(n, home, d, k, name, i);
      case CreateCall(d, k, name, c, kind) =>
        CreateKeeps(n, home, d, k, name, c, kind);
        if kind == Dir { home' := home[c as int := (d as int, k as int)]; }
      case UnlinkCall(d, k) => UnlinkKeeps(n, home, d, k);
      case FreeCall(i) => FreeKeeps(n, home, i);
    }
  }

  // In every run from an image with the invariant, each inode's nlink is the number of entries
  // other than "." that name it in directories that still have a link.
  lemma {:induction false} CountsAlwaysRight(n: Nodes, home: Homes, calls: seq<Call>)
    requires Inv(n, home) && Legal(n, calls)
    ensures CountsOk(Exec(n, calls))
    decreases |calls|
  {
    if calls != [] {
      var home' := CallKeeps(n, home, calls[0]);
      CountsAlwaysRight(After(n, calls[0]), home', calls[1..]);
    }
  }

  // ---- The image mkfs makes -----------------------------------------------

  const PERBLOCK := 32          // BSIZE / sizeof(struct dirent)

  // mkfs appends each file to the root directory ...
  function WithFiles(count: nat, names: seq<string>): (n: Nodes)
    requires count > |names| + 1
    ensures |n| == count && |n[ROOTINO].entries| == |names| + 2
  {
    if names == [] then RootOnly(count)
    else
      var m := |names| - 1;
      CreatedFile(WithFiles(count, names[..m]), ROOTINO, m + 2, names[m], m + 2, File)
  }

  // ... and then adds empty entries, up to the end of a block or a whole one.
  function Padded(n: Nodes, d: nat, more: nat): Nodes
    requires d < |n|
  {
    n[d := n[d].(entries := n[d].entries + seq(more, _ => Dirent(0, "")))]
  }

  function MkfsImage(count: nat, names: seq<string>): Nodes
    requires count > |names| + 1
  {
    Padded(WithFiles(count, names), ROOTINO, PERBLOCK - (|names| + 2) % PERBLOCK)
  }

  // The files are in inodes and entries 2, 3 and so on; the other inodes are free.
  ghost predicate FilesOk(n: Nodes, names: seq<string>) {
    && |n| > |names| + 1 && |n[ROOTINO].entries| == |names| + 2 && n[ROOTINO].entries[..2] == Dots(ROOTINO, ROOTINO)
    && Live(n, ROOTINO)
    && (forall k :: 2 <= k < |names| + 2 ==> n[ROOTINO].entries[k] == Dirent(k, names[k - 2]))
    && (forall c :: |names| + 2 <= c < |n| ==> n[c] == NO_INODE)
  }

  ghost predicate NamesOk(names: seq<string>) {
    && (forall i :: 0 <= i < |names| ==> Plain(names[i]))
    && (forall i, j :: 0 <= i < j < |names| ==> names[i] != names[j])
  }

  lemma NameIsNew(n: Nodes, names: seq<string>, name: string)
    requires FilesOk(n, names) && NamesOk(names + [name])
    ensures IsSlot(n[ROOTINO].entries, |names| + 2) && IsLookup(n[ROOTINO].entries, name, -1)
  {
    var es, all := n[ROOTINO].entries, names + [name];
    assert all[|names|] == name && Plain(all[|names|]);
    forall j | 0 <= j < |names| + 2 ensures es[j].inum != 0 && es[j].name != name {
      if j < 2 {
        assert es[j] == es[..2][j];
      } else {
        assert all[j - 2] == names[j - 2];
      }
    }
  }

  lemma FileAppended(n: Nodes, names: seq<string>, name: string)
    requires FilesOk(n, names) && |n| > |names| + 2
    ensures FilesOk(CreatedFile(n, ROOTINO, |names| + 2, name, |names| + 2, File), names + [name])
  {
    var k := |names| + 2;
    var es, n' := n[ROOTINO].entries, CreatedFile(n, ROOTINO, k, name, k, File);
    assert n'[ROOTINO].entries == es + [Dirent(k, name)];
    assert n'[ROOTINO].entries[..2] == es[..2];
  }

  lemma AppendFile(n: Nodes, names: seq<string>, name: string)
    requires Inv(n, map[]) && FilesOk(n, names) && NamesOk(names + [name]) && |n| > |names| + 2
    ensures var n' := CreatedFile(n, ROOTINO, |names| + 2, name, |names| + 2, File);
      Inv(n', map[]) && FilesOk(n', names + [name])
  {
    var k := |names| + 2;
    NameIsNew(n, names, name);
    CreateFileKeeps(n, map[], ROOTINO, k, name, k, File);
    FileAppended(n, names, name);
  }

  lemma {:induction false} WithFilesOk(count: nat, names: seq<string>)
    requires count > |names| + 1 && NamesOk(names)
    ensures Inv(WithFiles(count, names), map[]) && FilesOk(WithFiles(count, names), names)
    decreases |names|
  {
    if names == [] {
      RootOnlyOk(count);
    } else {
      var m := |names| - 1;
      assert names[..m] + [names[m]] == names;
      WithFilesOk(count, names[..m]);
      AppendFile(WithFiles(count, names[..m]), names[..m], names[m]);
    }
  }

  // Empty entries change nothing.
  lemma PaddedKeeps(n: Nodes, home: Homes, d: nat, more: nat)
    requires Inv(n, home) && IsDir(n, d)
    ensures Inv(Padded(n, d, more), home)
  {
    PaddedShape(n, d, more);
    PaddedHomes(n, home, d, more);
    forall i | 1 <= i < |n| ensures Links(Padded(n, d, more), i) == Links(n, i) {
      PaddedLinks(n, d, more, i);
    }
  }

  lemma PaddedLinks(n: Nodes, d: nat, more: nat, i: int)
    requires d < |n| && i != 0
    ensures Links(Padded(n, d, more), i) == Links(n, i)
  {
    var n' := Padded(n, d, more);
    assert forall x :: Live(n', x) == Live(n, x);
    assert forall x, k :: Names(n', x, k, i) == Names(n, x, k, i);
  }

  lemma PaddedDir(n: Nodes, d: nat, more: nat, x: int)
    requires IsDir(n, x) && DirOk(n, x) && d < |n|
    ensures DirOk(Padded(n, d, more), x)
  {
    var n' := Padded(n, d, more);
    assert forall k :: Lists(n', x, k) <==> Lists(n, x, k);
    assert n'[x].entries[..|n[x].entries|] == n[x].entries;
  }

  lemma PaddedShape(n: Nodes, d: nat, more: nat)
    requires ShapeOk(n) && IsDir(n, d)
    ensures ShapeOk(Padded(n, d, more))
  {
    var n' := Padded(n, d, more);
    forall x | IsDir(n', x) ensures DirOk(n', x) {
      PaddedDir(n, d, more, x);
    }
  }

  lemma PaddedHomes(n: Nodes, home: Homes, d: nat, more: nat)
    requires HomesOk(n, home) && d < |n|
    ensures HomesOk(Padded(n, d, more), home)
  {
    var n' := Padded(n, d, more);
    forall c ensures HomeOk(n', home, c) {
      assert HomeOk(n, home, c);
    }
    forall x, j | Lists(n', x, j) ensures ListedOk(n', home, x, j) {
      assert Lists(n, x, j) && ListedOk(n, home, x, j);
    }
  }

  // So what mkfs makes of any number of files with different names has the invariant, and the
  // counts are right in every run from it.
  lemma MkfsImageOk(count: nat, names: seq<string>)
    requires count > |names| + 1 && NamesOk(names)
    ensures Inv(MkfsImage(count, names), map[])
    ensures |MkfsImage(count, names)[ROOTINO].entries| == ((|names| + 2) / PERBLOCK + 1) * PERBLOCK
  {
    WithFilesOk(count, names);
    PaddedKeeps(WithFiles(count, names), map[], ROOTINO, PERBLOCK - (|names| + 2) % PERBLOCK);
  }

  lemma MkfsCountsRight(count: nat, names: seq<string>, calls: seq<Call>)
    requires count > |names| + 1 && NamesOk(names) && Legal(MkfsImage(count, names), calls)
    ensures CountsOk(Exec(MkfsImage(count, names), calls))
  {
    MkfsImageOk(count, names);
    CountsAlwaysRight(MkfsImage(count, names), map[], calls);
  }

  const NO_INODE := Inode(NoType, 0, [])

  // The images after making directory 2 as "d", making file 3 as "f", and unlinking "d".
  function WithD(): Nodes {
    [NO_INODE, Inode(Dir, 2, Dots(1, 1) + [Dirent(2, "d")]), Inode(Dir, 1, Dots(2, 1)), NO_INODE]
  }

  function WithDAndF(): Nodes {
    [NO_INODE, Inode(Dir, 2, Dots(1, 1) + [Dirent(2, "d"), Dirent(3, "f")]), Inode(Dir, 1, Dots(2, 1)), Inode(File, 1, [])]
  }

  function WithoutD(): Nodes {
    [NO_INODE, Inode(Dir, 1, Dots(1, 1) + [Dirent(0, ""), Dirent(3, "f")]), Inode(Dir, 0, Dots(2, 1)), Inode(File, 1, [])]
  }

  lemma MakeD()
    ensures May(RootOnly(4), CreateCall(1, 2, "d", 2, Dir))
    ensures After(RootOnly(4), CreateCall(1, 2, "d", 2, Dir)) == WithD()
  {
    var n := RootOnly(4);
    assert n == [NO_INODE, Inode(Dir, 1, Dots(1, 1)), NO_INODE, NO_INODE];
    assert Put(Dots(1, 1), 2, Dirent(2, "d")) == Dots(1, 1) + [Dirent(2, "d")];
  }

  lemma MakeF()
    ensures May(WithD(), CreateCall(1, 3, "f", 3, File))
    ensures After(WithD(), CreateCall(1, 3, "f", 3, File)) == WithDAndF()
  {
    var es := WithD()[1].entries;
    assert es[2] == Dirent(2, "d") && "f"[0] != "d"[0];
    assert Put(es, 3, Dirent(3, "f")) == Dots(1, 1) + [Dirent(2, "d"), Dirent(3, "f")];
  }

  lemma UnlinkD()
    ensures May(WithDAndF(), UnlinkCall(1, 2))
    ensures After(WithDAndF(), UnlinkCall(1, 2)) == WithoutD()
  {
    var n := WithDAndF();
    assert Lists(n, 1, 2) && n[1].entries[2] == Dirent(2, "d");
    assert n[1].entries[2 := Dirent(0, "")] == WithoutD()[1].entries;
    assert Unlinked(n, 1, 2) == UnlinkedDir(n, 1, 2);
  }

  lemma ExecFirst(n: Nodes, call: Call, rest: seq<Call>)
    requires May(n, call) && Legal(After(n, call), rest)
    ensures Legal(n, [call] + rest) && Exec(n, [call] + rest) == Exec(After(n, call), rest)
  {
    assert ([call] + rest)[1..] == rest;
  }

  lemma WithoutDOk() returns (home: Homes)
    ensures Inv(WithoutD(), home)
  {
    RootOnlyOk(4);
    MakeD();
    home := CallKeeps(RootOnly(4), map[], CreateCall(1, 2, "d", 2, Dir));
    MakeF();
    home := CallKeeps(WithD(), home, CreateCall(1, 3, "f", 3, File));
    UnlinkD();
    home := CallKeeps(WithDAndF(), home, UnlinkCall(1, 2));
  }

  lemma LinkIntoDead()
    ensures IsSlot(WithoutD()[2].entries, 2) && IsLookup(WithoutD()[2].entries, "f", -1)
    ensures CountsOk(WithoutD()) && !CountsOk(Linked(WithoutD(), 2, 2, "f", 3))
  {
    var home := WithoutDOk();
    LinkKeeps(WithoutD(), home, 2, 2, "f", 3);
  }

  // A run reaches a directory without links: a process that has changed into it keeps its inode
  // from being freed.  Linking a file into it then makes that file's count wrong.
  lemma DeadDirectoryReached() returns (calls: seq<Call>)
    ensures Legal(RootOnly(4), calls)
    ensures var n := Exec(RootOnly(4), calls);
      && |n| == 4 && IsDir(n, 2) && !Live(n, 2) && n[3].kind == File && n[3].nlink == 1
      && IsSlot(n[2].entries, 2) && IsLookup(n[2].entries, "f", -1)
      && CountsOk(n) && !CountsOk(Linked(n, 2, 2, "f", 3))
  {
    var c1, c2, c3 := CreateCall(1, 2, "d", 2, Dir), CreateCall(1, 3, "f", 3, File), UnlinkCall(1, 2);
    UnlinkD();
    ExecFirst(WithDAndF(), c3, []);
    MakeF();
    ExecFirst(WithD(), c2, [c3] + []);
    MakeD();
    ExecFirst(RootOnly(4), c1, [c2] + ([c3] + []));
    calls := [c1] + ([c2] + ([c3] + []));
    LinkIntoDead();
  }
}
