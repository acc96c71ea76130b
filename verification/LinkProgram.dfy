// dirlookup and dirlink of fs.c, and link, unlink, create and iput, as they change
// inodes in place.  Paths are already resolved: d is the directory nameiparent found.
module LinkProgram {
  import opened LinkCounts

  datatype Result = Panics | Returns(n: int)

  const NDIRECT := 12

  // The blocks that writei allocates for a new entry k at the end of a directory.
  function BlocksFor(k: nat): nat {
    if k % PERBLOCK != 0 then 0 else if k == NDIRECT * PERBLOCK then 2 else 1
  }

  // Entry k of a directory with n entries can be written while `free` blocks of the disk are free.
  predicate Room(n: nat, k: nat, free: nat) {
    k < n || (k < MAXENTRIES && BlocksFor(k) <= free)
  }

  // What a new directory's own entries leave.
  function AfterDots(kind: Kind, free: nat): int {
    if kind == Dir then free - 1 else free
  }

  // create can add its entry as entry k, or finds no block for its own entries or for that one.
  ghost predicate Enters(es: seq<Dirent>, k: int, kind: Kind, free: nat) {
    AfterDots(kind, free) >= 0 && IsSlot(es, k) && Room(|es|, k, AfterDots(kind, free))
  }

  ghost predicate Stuck(es: seq<Dirent>, k: int, kind: Kind, free: nat) {
    AfterDots(kind, free) < 0 || (IsSlot(es, k) && !Room(|es|, k, AfterDots(kind, free)))
  }

  class FileTree {
    var nodes: Nodes
    ghost var home: Homes

    ghost predicate Valid()
      reads this
    {
      Inv(nodes, home)
    }

    // The file system that mkfs makes of files with these names.
    constructor (count: nat, names: seq<string>)
      requires count > |names| + 1 && NamesOk(names)
      ensures Valid() && nodes == MkfsImage(count, names)
    {
      nodes, home := MkfsImage(count, names), map[];
      MkfsImageOk(count, names);
    }

    // The first entry with the name, or -1.
    method Dirlookup(d: nat, name: string) returns (k: int)
      requires d < |nodes| && IsDir(nodes, d)
      ensures IsLookup(nodes[d].entries, name, k)
    {
      var es := nodes[d].entries;
      k := 0;
      while k < |es|
        invariant 0 <= k <= |es| && forall j :: 0 <= j < k ==> !Matches(es, j, name)
      {
        if es[k].inum != 0 {
          if es[k].name == name { return; }
        }
        k := k + 1;
      }
      return -1;
    }

    // Adds the entry in the first empty place, unless the name is there, on a disk with `free` free
    // blocks.  A directory that cannot grow is a panic.
    method Dirlink(d: nat, name: string, inum: nat, free: nat) returns (r: Result, ghost k: nat)
      requires d < |nodes| && IsDir(nodes, d)
      modifies this`nodes
      ensures IsSlot(old(nodes)[d].entries, k) && (r == Panics || r == Returns(0) || r == Returns(-1))
      ensures r == Returns(0) <==> IsLookup(old(nodes)[d].entries, name, -1) && Room(|old(nodes)[d].entries|, k, free)
      ensures r == Returns(-1) <==> !IsLookup(old(nodes)[d].entries, name, -1)
      ensures nodes == if r == Returns(0) then WithEntry(old(nodes), d, k, Dirent(inum, name)) else old(nodes)
    {
      var at := Dirlookup(d, name);
      var es, off := nodes[d].entries, 0;
      while off < |es| && es[off].inum != 0
        invariant 0 <= off <= |es| && forall j :: 0 <= j < off ==> es[j].inum != 0
      {
        off := off + 1;
      }
      k := off;
      if at != -1 {
        assert Matches(es, at, name);
        return Returns(-1), k;
      }
      if off == |es| && (off >= MAXENTRIES || BlocksFor(off) > free) { return Panics, k; }
      nodes := WithEntry(nodes, d, off, Dirent(inum, name));
      return Returns(0), k;
    }

    // The middle of sys_link: the count goes up, and the entry is added if it can be.
    method CountAndEnter(i: nat, d: nat, name: string, free: nat) returns (r: Result, ghost k: nat)
      requires i < |nodes| && nodes[i].kind != Dir && IsDir(nodes, d)
      modifies this`nodes
      ensures r == Panics || r == Returns(0) || r == Returns(-1)
      ensures IsSlot(old(nodes)[d].entries, k) && (r == Returns(-1) <==> !IsLookup(old(nodes)[d].entries, name, -1))
      ensures r == Panics <==>
        IsLookup(old(nodes)[d].entries, name, -1) && !Room(|old(nodes)[d].entries|, k, free)
      ensures nodes == if r == Returns(0) then Linked(old(nodes), d, k, name, i) else WithLinks(old(nodes), i, 1)
    {
      nodes := WithLinks(nodes, i, 1);
      assert nodes[d] == old(nodes)[d];
      r, k := Dirlink(d, name, i, free);
    }

    // sys_link: i is what the old path names, d and name are the new path; either may be missing.
    method Link(i: int, d: int, name: string, free: nat) returns (r: Result, ghost k: nat)
      requires Valid() && (i == -1 || (1 <= i < |nodes| && nodes[i].kind != NoType)) && (d == -1 || IsDir(nodes, d))
      modifies this`nodes
      ensures r == Returns(0) || r == Returns(-1) || r == Panics
      ensures r == Returns(-1) <==>
        (i == -1 || d == -1 || old(nodes[i].kind == Dir) || !IsLookup(old(nodes)[d].entries, name, -1))
      ensures r != Returns(-1) ==> IsSlot(old(nodes)[d].entries, k)
      ensures r != Returns(-1) ==> (r == Panics <==> !Room(|old(nodes)[d].entries|, k, free))
      ensures r == Returns(0) ==> nodes == Linked(old(nodes), d, k, name, i)
      ensures r == Returns(-1) ==> nodes == old(nodes)
      ensures r == Returns(0) ==> (CountsOk(nodes) <==> old(Live(nodes, d))) && (old(Live(nodes, d)) ==> Valid())
    {
      k := 0;
      if i == -1 { return Returns(-1), k; }
      if nodes[i].kind == Dir { return Returns(-1), k; }
      LinkUndone(nodes, i);
      if d != -1 {
        ghost var n := nodes;
        r, k := CountAndEnter(i, d, name, free);
        if r == Returns(0) { LinkKeeps(n, home, d, k, name, i); }
        if r != Returns(-1) { return; }
      } else {
        nodes := WithLinks(nodes, i, 1);
      }
      nodes := WithLinks(nodes, i, -1);
      return Returns(-1), k;
    }

    method IsDirEmpty(i: nat) returns (empty: bool)
      requires IsDir(nodes, i)
      ensures empty <==> forall j :: !Lists(nodes, i, j)
    {
      var es, off := nodes[i].entries, 2;
      while off < |es|
        invariant 2 <= off && forall j :: 2 <= j < off ==> !Lists(nodes, i, j)
      {
        if es[off].inum != 0 {
          assert Lists(nodes, i, off);
          return false;
        }
        off := off + 1;
      }
      return true;
    }

    // The tests of sys_unlink: the entry to remove, or -1.
    method FindVictim(d: int, name: string) returns (off: int)
      requires Valid() && (d == -1 || IsDir(nodes, d))
      ensures off == -1 <==> d == -1 || !Plain(name) || !Removable(nodes, d, name)
      ensures off != -1 ==> IsVictim(nodes, d, off) && nodes[d].entries[off].name == name
    {
      if d == -1 { return -1; }
      if name == "." || name == ".." { return -1; }
      off := Dirlookup(d, name);
      if off == -1 {
        assert forall k :: Lists(nodes, d, k) ==> !Matches(nodes[d].entries, k, name);
        return;
      }
      LookupListed(nodes, home, d, name, off);
      var ip := nodes[d].entries[off].inum;
      if nodes[ip].kind == Dir {
        var empty := IsDirEmpty(ip);
        if !empty { return -1; }
      }
    }

    // sys_unlink: 0 or -1.  The panic on a count below 1 cannot happen.
    method Unlink(d: int, name: string) returns (r: int, ghost k: int)
      requires Valid() && (d == -1 || IsDir(nodes, d))
      modifies this`nodes
      ensures Valid()
      ensures r == if old(d == -1 || !Plain(name) || !Removable(nodes, d, name)) then -1 else 0
      ensures r == -1 ==> nodes == old(nodes)
      ensures r == 0 ==> IsVictim(old(nodes), d, k) && old(nodes)[d].entries[k].name == name
      ensures r == 0 ==> nodes == Unlinked(old(nodes), d, k)
    {
      var off := FindVictim(d, name);
      k := off;
      if off == -1 { return -1, k; }
      UnlinkKeeps(nodes, home, d, off);
      var ip := nodes[d].entries[off].inum;
      nodes := Cleared(nodes, d, off);
      if nodes[ip].kind == Dir {
        nodes := WithLinks(nodes, d, -1);
      }
      nodes := WithLinks(nodes, ip, -1);
      r := 0;
    }

    // ialloc's inode number, or -1.
    method Ialloc() returns (c: int)
      ensures c == -1 || (1 <= c < |nodes| && nodes[c].kind == NoType)
      ensures forall i :: 1 <= i < (if c == -1 then |nodes| else c) ==> nodes[i].kind != NoType
    {
      c := 1;
      while c < |nodes|
        invariant 1 <= c && forall i :: 1 <= i < c && i < |nodes| ==> nodes[i].kind != NoType
      {
        if nodes[c].kind == NoType { return; }
        c := c + 1;
      }
      return -1;
    }

    // create up to its own entry: the inode, and for a directory its "." and "..".
    method InitNode(d: nat, c: nat, kind: Kind)
      requires d < |nodes| && c < |nodes| && c != d
      modifies this`nodes
      ensures nodes == if kind == Dir then WithDir(old(nodes), c, d) else old(nodes)[c := Inode(kind, 1, [])]
    {
      nodes := nodes[c := Inode(kind, 1, [])];
      if kind == Dir {
        nodes := WithLinks(nodes, d, 1);
        nodes := nodes[c := nodes[c].(entries := [Dirent(c, ".")])];
        nodes := nodes[c := nodes[c].(entries := nodes[c].entries + [Dirent(d, "..")])];
        assert nodes[c] == WithDir(old(nodes), c, d)[c];
        assert nodes == WithDir(old(nodes), c, d);
      }
    }

    // create after ialloc.
    method EnterNode(d: nat, c: nat, name: string, kind: Kind, free: nat) returns (r: Result, ghost k: nat)
      requires IsDir(nodes, d) && c < |nodes| && c != d && IsLookup(nodes[d].entries, name, -1)
      modifies this`nodes
      ensures r == Panics || r == Returns(0)
      ensures r == Panics ==> Stuck(old(nodes)[d].entries, k, kind, free)
      ensures r == Returns(0) ==> Enters(old(nodes)[d].entries, k, kind, free)
      ensures r == Returns(0) ==> nodes == Created(old(nodes), d, k, name, c, kind)
    {
      k := 0;
      if kind == Dir && free == 0 { return Panics, k; }
      InitNode(d, c, kind);
      assert nodes[d].entries == old(nodes)[d].entries;
      r, k := Dirlink(d, name, c, AfterDots(kind, free));
    }

    // create once the name is known to be new: the new inode and its entries.
    method MakeNode(d: nat, name: string, kind: Kind, free: nat) returns (r: Result, c: int, ghost k: nat)
      requires Valid() && IsDir(nodes, d) && kind != NoType && IsLookup(nodes[d].entries, name, -1)
      modifies this`nodes, this`home
      ensures r == Returns(1) || r == Panics
      ensures r == Panics ==> c == -1 || Stuck(old(nodes)[d].entries, k, kind, free)
      ensures c == -1 ==> r == Panics && forall i :: 1 <= i < |old(nodes)| ==> old(nodes)[i].kind != NoType
      ensures r == Returns(1) ==> 1 <= c < |old(nodes)| && old(nodes[c].kind == NoType) && c != d
      ensures r == Returns(1) ==> Enters(old(nodes)[d].entries, k, kind, free)
      ensures r == Returns(1) ==> forall i :: 1 <= i < c ==> old(nodes)[i].kind != NoType
      ensures r == Returns(1) ==> nodes == Created(old(nodes), d, k, name, c, kind)
      ensures r == Returns(1) ==> (CountsOk(nodes) <==> old(Live(nodes, d))) && (old(Live(nodes, d)) ==> Valid())
    {
      ghost var n0, home0 := nodes, home;
      k := 0;
      c := Ialloc();
      if c == -1 { return Panics, c, k; }
      var done;
      done, k := EnterNode(d, c, name, kind, free);
      if done == Panics { return Panics, c, k; }
      CreateKeeps(n0, home0, d, k, name, c, kind);
      if kind == Dir {
        home := home[c := (d as int, k as int)];
      }
      return Returns(1), c, k;
    }

    // create: the inode, or 0.  An existing file is returned only to a caller that wants a file.
    method Create(d: int, name: string, kind: Kind, free: nat) returns (r: Result, c: int, ghost k: nat)
      requires Valid() && (d == -1 || IsDir(nodes, d)) && kind != NoType
      modifies this`nodes, this`home
      ensures r == Panics || r == Returns(0) || r == Returns(1)
      ensures r == Returns(0) || (r == Returns(1) && old(Exists(nodes, d, name))) ==> nodes == old(nodes) && Valid()
      ensures r == Returns(0) <==> d == -1 || (old(Exists(nodes, d, name)) && !(kind == File && old(FileAt(nodes, d, name))))
      ensures r == Panics && c != -1 ==> Stuck(old(nodes)[d].entries, k, kind, free)
      ensures r == Panics && c == -1 ==> forall i :: 1 <= i < |old(nodes)| ==> old(nodes)[i].kind != NoType
      ensures r == Returns(1) && !old(Exists(nodes, d, name)) ==>
        && 1 <= c < |old(nodes)| && old(nodes[c].kind == NoType) && c != d
        && (forall i :: 1 <= i < c ==> old(nodes)[i].kind != NoType)
        && Enters(old(nodes)[d].entries, k, kind, free)
        && nodes == Created(old(nodes), d, k, name, c, kind)
        && (CountsOk(nodes) <==> old(Live(nodes, d))) && (old(Live(nodes, d)) ==> Valid())
    {
      c, k := 0, 0;
      if d == -1 { return Returns(0), c, k; }
      var at := Dirlookup(d, name);
      if at != -1 {
        assert Matches(nodes[d].entries, at, name);
        c := nodes[d].entries[at].inum;
        if c < |nodes| && kind == File && nodes[c].kind == File { return Returns(1), c, k; }
        return Returns(0), c, k;
      }
      r, c, k := MakeNode(d, name, kind, free);
    }

    // iput of an inode's last reference: frees it if it has no links.
    method Iput(i: nat)
      requires Valid() && 1 <= i < |nodes|
      modifies this`nodes
      ensures Valid() && nodes == if old(nodes[i].nlink) == 0 then Freed(old(nodes), i) else old(nodes)
    {
      if nodes[i].nlink == 0 {
        FreeKeeps(nodes, home, i);
        nodes := nodes[i := Inode(NoType, 0, [])];
      }
    }
  }
}
