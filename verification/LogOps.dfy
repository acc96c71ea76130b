// How many blocks the other system calls put in the log: create and link, whose dirlink calls
// write one entry each, and unlink and iput, whose itrunc clears bitmap bits.
module LogOps {
  import opened LogBound
  import opened Params
  import opened Sets

  const DIRENT := 16            // sizeof(struct dirent)

  // ---- create and link ----------------------------------------------------

  function NoAddrs(): seq<nat> { seq(NDIRECT + 1, _ => 0) }

  // create, or with dir == false also link, in one operation: the inode's block, for a directory
  // its two entries, and the entry at off in the parent dp.  The result is the parent's.
  function Create(gi: Geometry, gd: Geometry, dp: File, dir: bool, off: nat): Outcome
    requires dp.Shaped()
  {
    if !dir then Write(gd, dp.(logged := {gi.inodeBlock}), off, DIRENT)
    else
      var ip := File(dp.used, NoAddrs(), Zeros(), 0, {gi.inodeBlock, gd.inodeBlock});
      var dot := Write(gi, ip, 0, DIRENT);
      if !dot.Done? then dot
      else
        var dotdot := Write(gi, dot.file, DIRENT, DIRENT);
        if !dotdot.Done? then dotdot
        else Write(gd, dp.(used := dotdot.file.used, logged := dotdot.file.logged), off, DIRENT)
  }

  // An entry lies within one block, which costs two log entries at most, beside those of an
  // indirect block and of the inode.
  lemma EntryCost(g: Geometry, f: File, off: nat)
    requires f.Shaped() && off % DIRENT == 0 && Write(g, f, off, DIRENT).Done?
    ensures var w := Write(g, f, off, DIRENT).file;
      |w.logged| + Pending(w) <= |f.logged| + Pending(f) + 2 + if g.inodeBlock in f.logged then 0 else 1
    ensures f.logged <= Write(g, f, off, DIRENT).file.logged
  {
    SpanFits(off, DIRENT);
    assert Span(off, DIRENT) == 1;
    WriteBlocksCost(g, f, off / BSIZE, 1);
    var m := WriteBlock(g, f, off / BSIZE).file;
    assert WriteBlocks(g, f, off / BSIZE, 1) == WriteBlocks(g, m, off / BSIZE + 1, 0);
    AddOne(m.logged, g.inodeBlock);
  }

  // The two entries of a new directory need no indirect block.
  lemma DotsCost(g: Geometry, f: File)
    requires f.Shaped() && f.addrs == NoAddrs() && f.size == 0 && g.inodeBlock in f.logged
    requires Write(g, f, 0, DIRENT).Done? && Write(g, Write(g, f, 0, DIRENT).file, DIRENT, DIRENT).Done?
    ensures |Write(g, Write(g, f, 0, DIRENT).file, DIRENT, DIRENT).file.logged| <= |f.logged| + 2
  {
    var b := FirstFree(f.used, 0);
    var m := WriteBlock(g, f, 0).file;
    assert m.logged == f.logged + {g.BBlock(b), b};
    AddTwo(f.logged, g.BBlock(b), b);
    var w := Write(g, f, 0, DIRENT).file;
    assert WriteBlocks(g, f, 0, 1) == WriteBlocks(g, m, 1, 0);
    assert w.logged == m.logged && w.Mapped(0) && w.Address(0) == b;
    var m' := WriteBlock(g, w, 0).file;
    assert m' == w.(logged := w.logged + {b}) == w;
    assert WriteBlocks(g, w, 0, 1) == WriteBlocks(g, w, 1, 0);
  }

  // create, mkdir, mknod and link stay within their reservation, for any bitmap.
  lemma CreateFits(gi: Geometry, gd: Geometry, dp: File, dir: bool, off: nat)
    requires dp.Shaped() && off % DIRENT == 0 && Create(gi, gd, dp, dir, off).Done?
    ensures |Create(gi, gd, dp, dir, off).file.logged| <= MAXOPBLOCKS
  {
    if dir {
      var ip := File(dp.used, NoAddrs(), Zeros(), 0, {gi.inodeBlock, gd.inodeBlock});
      var dot := Write(gi, ip, 0, DIRENT).file;
      EntryCost(gi, ip, 0);
      EntryCost(gi, dot, DIRENT);
      DotsCost(gi, ip);
      var dotdot := Write(gi, dot, DIRENT, DIRENT).file;
      EntryCost(gd, dp.(used := dotdot.used, logged := dotdot.logged), off);
    } else {
      EntryCost(gd, dp.(logged := {gi.inodeBlock}), off);
    }
  }

  // ---- itrunc -------------------------------------------------------------

  // The cells of a file in the order in which itrunc frees them.
  function Cells(f: File): seq<nat>
    requires f.Shaped()
  {
    f.addrs[..NDIRECT] + if f.addrs[NDIRECT] == 0 then [] else f.table + [f.addrs[NDIRECT]]
  }

  function Blocks(cells: seq<nat>): set<nat> {
    set b | b in cells && b != 0
  }

  // The bitmap blocks of some blocks.
  function BitmapBlocks(g: Geometry, blocks: set<nat>): set<nat> {
    set b | b in blocks :: g.BBlock(b)
  }

  datatype Freed = DoubleFree | Freed(used: seq<bool>)

  predicate InTable(cells: seq<nat>, used: seq<bool>) {
    forall k :: 0 <= k < |cells| ==> cells[k] < |used|
  }

  // bfree of each cell in turn.
  function FreeAll(used: seq<bool>, cells: seq<nat>): Freed
    requires InTable(cells, used)
    decreases |cells|
  {
    if cells == [] then Freed(used)
    else if cells[0] == 0 then FreeAll(used, cells[1..])
    else if !used[cells[0]] then DoubleFree
    else FreeAll(used[cells[0] := false], cells[1..])
  }

  lemma {:induction false} FreeAllAppend(used: seq<bool>, a: seq<nat>, b: seq<nat>)
    requires InTable(a, used) && InTable(b, used)
    ensures InTable(a + b, used)
    ensures FreeAll(used, a).Freed? ==>
      && |FreeAll(used, a).used| == |used| && FreeAll(used, a + b) == FreeAll(FreeAll(used, a).used, b)
    ensures FreeAll(used, a).DoubleFree? ==> FreeAll(used, a + b).DoubleFree?
    decreases |a|
  {
    if a == [] {
      assert a + b == b;
    } else {
      assert (a + b)[1..] == a[1..] + b;
      if a[0] == 0 || used[a[0]] {
        FreeAllAppend(if a[0] == 0 then used else used[a[0] := false], a[1..], b);
      }
    }
  }

  lemma BitmapAppend(g: Geometry, a: seq<nat>, b: seq<nat>)
    ensures BitmapBlocks(g, Blocks(a + b)) == BitmapBlocks(g, Blocks(a)) + BitmapBlocks(g, Blocks(b))
  {
    assert Blocks(a + b) == Blocks(a) + Blocks(b);
  }

  // The direct cells come first.
  lemma CellsSplit(g: Geometry, f: File)
    requires f.Shaped() && InTable(Cells(f), f.used)
    ensures var direct := f.addrs[..NDIRECT]; var rest := if f.addrs[NDIRECT] == 0 then [] else f.table + [f.addrs[NDIRECT]];
      && InTable(direct, f.used) && InTable(rest, f.used)
      && (FreeAll(f.used, direct).Freed? ==>
            && |FreeAll(f.used, direct).used| == |f.used|
            && FreeAll(f.used, Cells(f)) == FreeAll(FreeAll(f.used, direct).used, rest))
      && (FreeAll(f.used, direct).DoubleFree? ==> FreeAll(f.used, Cells(f)).DoubleFree?)
      && BitmapBlocks(g, Blocks(Cells(f))) == BitmapBlocks(g, Blocks(direct)) + BitmapBlocks(g, Blocks(rest))
  {
    var direct, cells := f.addrs[..NDIRECT], Cells(f);
    var rest := if f.addrs[NDIRECT] == 0 then [] else f.table + [f.addrs[NDIRECT]];
    assert cells == direct + rest;
    assert forall k :: 0 <= k < NDIRECT ==> direct[k] == cells[k];
    assert forall k :: 0 <= k < |rest| ==> rest[k] == cells[NDIRECT + k];
    FreeAllAppend(f.used, direct, rest);
    BitmapAppend(g, direct, rest);
  }

  lemma BlocksFirst(cells: seq<nat>)
    requires cells != []
    ensures Blocks(cells) == Blocks(cells[1..]) + if cells[0] == 0 then {} else {cells[0]}
  {
    assert cells == [cells[0]] + cells[1..];
  }

  // Each block is marked, and named by one cell only.
  ghost predicate Freeable(used: seq<bool>, cells: seq<nat>)
    requires InTable(cells, used)
  {
    && (forall k :: 0 <= k < |cells| && cells[k] != 0 ==> used[cells[k]])
    && (forall j, k :: 0 <= j < k < |cells| && cells[j] != 0 ==> cells[j] != cells[k])
  }

  lemma FreeableFirst(used: seq<bool>, cells: seq<nat>)
    requires cells != [] && InTable(cells, used)
    ensures InTable(cells[1..], used)
    ensures cells[0] == 0 ==> (Freeable(used, cells) <==> Freeable(used, cells[1..]))
    ensures cells[0] != 0 ==>
      (Freeable(used, cells) <==> used[cells[0]] && Freeable(used[cells[0] := false], cells[1..]))
  {
    var rest := cells[1..];
    assert forall k :: 0 <= k < |rest| ==> rest[k] == cells[k + 1];
    assert forall k :: 1 <= k < |cells| ==> cells[k] == rest[k - 1];
  }

  // bfree's panic comes exactly when a cell is not marked or names a block a second time;
  // otherwise just the marks of the blocks go.
  lemma {:induction false} FreeAllExactly(used: seq<bool>, cells: seq<nat>)
    requires InTable(cells, used)
    ensures FreeAll(used, cells).Freed? <==> Freeable(used, cells)
    ensures FreeAll(used, cells).Freed? ==>
      && |FreeAll(used, cells).used| == |used|
      && forall b :: 0 <= b < |used| ==> FreeAll(used, cells).used[b] == (used[b] && b !in Blocks(cells))
    decreases |cells|
  {
    if cells != [] {
      BlocksFirst(cells);
      FreeableFirst(used, cells);
      FreeAllExactly(if cells[0] == 0 then used else used[cells[0] := false], cells[1..]);
    }
  }

  // What itrunc has logged: the bitmap block of every block, and the inode.
  function TruncLogged(g: Geometry, f: File): set<nat>
    requires f.Shaped()
  {
    BitmapBlocks(g, Blocks(Cells(f))) + {g.inodeBlock}
  }

  // ---- unlink and iput ----------------------------------------------------

  // iput; if it drops the last reference to an inode without links, that is itrunc and the iupdate
  // that frees the inode.
  function Put(g: Geometry, f: File, last: bool): Outcome
    requires f.Shaped()
  {
    if !last then Outcome.Done(f)
    else if !InTable(Cells(f), f.used) then Panic
    else
      var freed := FreeAll(f.used, Cells(f));
      if freed.DoubleFree? then Panic
      else Outcome.Done(File(freed.used, NoAddrs(), Zeros(), 0, f.logged + TruncLogged(g, f)))
  }

  // unlink of inode ip, whose entry is at off in the directory dp: the entry is cleared, then come
  // the link count of dp if ip is a directory, that of ip, and iput.
  function Unlink(gd: Geometry, gi: Geometry, dp: File, ip: File, off: nat, dir: bool, last: bool): Outcome
    requires dp.Shaped() && ip.Shaped()
  {
    var w := Write(gd, dp.(logged := {}), off, DIRENT);
    if !w.Done? then Panic
    else
      var logged := w.file.logged + (if dir then {gd.inodeBlock} else {}) + {gi.inodeBlock};
      Put(gi, ip.(used := w.file.used, logged := logged), last)
  }

  // dp has an entry at off.
  ghost predicate EntryAt(dp: File, off: nat) {
    dp.Shaped() && dp.NoHoles() && off % DIRENT == 0 && off + DIRENT <= dp.size
  }

  function EntryBlock(dp: File, off: nat): nat
    requires EntryAt(dp, off)
  {
    assert off / BSIZE * BSIZE < dp.size;
    dp.Address(off / BSIZE)
  }

  // Clearing an entry writes its block and nothing else.
  lemma ClearEntry(g: Geometry, dp: File, off: nat)
    requires EntryAt(dp, off)
    ensures Write(g, dp.(logged := {}), off, DIRENT) == Outcome.Done(dp.(logged := {EntryBlock(dp, off)}))
  {
    var f := dp.(logged := {});
    SpanFits(off, DIRENT);
    assert Span(off, DIRENT) == 1;
    assert dp.Mapped(off / BSIZE) by { assert off / BSIZE * BSIZE < dp.size; }
    assert f.Mapped(off / BSIZE);
    var m := WriteBlock(g, f, off / BSIZE).file;
    assert m == f.(logged := {EntryBlock(dp, off)});
    assert WriteBlocks(g, f, off / BSIZE, 1) == WriteBlocks(g, m, off / BSIZE + 1, 0);
  }

  // What unlink logs before iput: the block of the entry and one or two inodes.
  function Few(entry: nat, parent: nat, g: Geometry, dir: bool): set<nat> {
    {entry, g.inodeBlock} + if dir then {parent} else {}
  }

  lemma UnlinkLogs(gd: Geometry, gi: Geometry, dp: File, ip: File, off: nat, dir: bool, last: bool)
    requires EntryAt(dp, off) && ip.Shaped()
    ensures var u := Unlink(gd, gi, dp, ip, off, dir, last);
      var few := Few(EntryBlock(dp, off), gd.inodeBlock, gi, dir);
      u.Done? ==> u.file.logged == few + if last then BitmapBlocks(gi, Blocks(Cells(ip))) else {}
    ensures Unlink(gd, gi, dp, ip, off, dir, last).Done? <==>
      !last || (InTable(Cells(ip), dp.used) && Freeable(dp.used, Cells(ip)))
  {
    ClearEntry(gd, dp, off);
    var f := ip.(used := dp.used);
    assert Cells(f) == Cells(ip);
    if last && InTable(Cells(ip), dp.used) { FreeAllExactly(dp.used, Cells(ip)); }
  }

  lemma UpToThree(a: nat, b: nat, s: set<nat>, c: nat)
    requires s == {} || s == {c}
    ensures |{a, b} + s| <= 3
  {
    AddTwo({}, a, b);
    AddOne({} + {a, b}, c);
    assert {} + {a, b} == {a, b};
  }

  lemma FewSize(entry: nat, parent: nat, g: Geometry, dir: bool)
    ensures |Few(entry, parent, g, dir)| <= 3
  {
    UpToThree(entry, g.inodeBlock, if dir then {parent} else {}, parent);
  }

  // An unlink stays within its reservation, unless it frees the inode: then exactly if the file's
  // blocks lie under few enough bitmap blocks.  It goes through exactly if the file's blocks are
  // marked and named once.
  lemma UnlinkFitsExactly(gd: Geometry, gi: Geometry, dp: File, ip: File, off: nat, dir: bool)
    requires EntryAt(dp, off) && ip.Shaped() && InTable(Cells(ip), dp.used) && Freeable(dp.used, Cells(ip))
    requires Few(EntryBlock(dp, off), gd.inodeBlock, gi, dir) !! BitmapBlocks(gi, Blocks(Cells(ip)))
    ensures Unlink(gd, gi, dp, ip, off, dir, false).Done? && Unlink(gd, gi, dp, ip, off, dir, true).Done?
    ensures var few := |Few(EntryBlock(dp, off), gd.inodeBlock, gi, dir)|;
      && |Unlink(gd, gi, dp, ip, off, dir, false).file.logged| == few <= 3
      && (|Unlink(gd, gi, dp, ip, off, dir, true).file.logged| <= MAXOPBLOCKS <==>
            |BitmapBlocks(gi, Blocks(Cells(ip)))| <= MAXOPBLOCKS - few)
  {
    var few := Few(EntryBlock(dp, off), gd.inodeBlock, gi, dir);
    FewSize(EntryBlock(dp, off), gd.inodeBlock, gi, dir);
    UnlinkLogs(gd, gi, dp, ip, off, dir, false);
    UnlinkLogs(gd, gi, dp, ip, off, dir, true);
    assert few + {} == few;
    UnionSize(few, BitmapBlocks(gi, Blocks(Cells(ip))));
  }

  function Range(from: nat, n: nat): (r: set<nat>)
    ensures |r| == n && forall b :: b in r <==> from <= b < from + n
  {
    if n == 0 then {} else Range(from, n - 1) + {from + n - 1}
  }

  lemma UnionBound(a: set<nat>, b: set<nat>)
    ensures |a + b| <= |a| + |b|
  {
    assert |a + b| == |a| + |b| - |a * b|;
  }

  // With at most seven bitmap blocks, as on the disk that mkfs makes, it always does.
  lemma SmallDiskFits(gd: Geometry, gi: Geometry, dp: File, ip: File, off: nat, dir: bool, last: bool)
    requires EntryAt(dp, off) && ip.Shaped() && |dp.used| <= 7 * BPB && Unlink(gd, gi, dp, ip, off, dir, last).Done?
    ensures |Unlink(gd, gi, dp, ip, off, dir, last).file.logged| <= MAXOPBLOCKS
  {
    var few, bitmap := Few(EntryBlock(dp, off), gd.inodeBlock, gi, dir), BitmapBlocks(gi, Blocks(Cells(ip)));
    FewSize(EntryBlock(dp, off), gd.inodeBlock, gi, dir);
    UnlinkLogs(gd, gi, dp, ip, off, dir, last);
    if last {
      BitmapWithin(gi, ip.(used := dp.used));
      SubsetSize(bitmap, Range(gi.bmapstart, 7));
      UnionBound(few, bitmap);
    } else {
      assert few + {} == few;
    }
  }

  lemma BitmapWithin(g: Geometry, f: File)
    requires f.Shaped() && InTable(Cells(f), f.used) && |f.used| <= 7 * BPB
    ensures BitmapBlocks(g, Blocks(Cells(f))) <= Range(g.bmapstart, 7)
  {
    forall b | b in Blocks(Cells(f)) ensures g.BBlock(b) in Range(g.bmapstart, 7) {
      assert b < 7 * BPB;
    }
  }

  // A file with a block under each of the first nine bitmap blocks.
  function Spread(used: seq<bool>): File {
    File(used, seq(NDIRECT + 1, k => if k < 9 then k * BPB + 4000 else 0), Zeros(), 9 * BSIZE, {})
  }

  lemma SpreadCells(used: seq<bool>)
    requires |used| > 8 * BPB + 4000 && forall b :: 0 <= b < |used| ==> used[b]
    ensures Spread(used).Shaped() && InTable(Cells(Spread(used)), used) && Freeable(used, Cells(Spread(used)))
    ensures |Cells(Spread(used))| == NDIRECT
    ensures forall k :: 0 <= k < NDIRECT ==> Cells(Spread(used))[k] == if k < 9 then k * BPB + 4000 else 0
  {
  }

  lemma SpreadBitmap(g: Geometry, used: seq<bool>)
    requires |used| > 8 * BPB + 4000 && forall b :: 0 <= b < |used| ==> used[b]
    ensures Spread(used).Shaped() && Range(g.bmapstart, 9) <= BitmapBlocks(g, Blocks(Cells(Spread(used))))
  {
    SpreadCells(used);
    var cells := Cells(Spread(used));
    forall b | b in Range(g.bmapstart, 9) ensures b in BitmapBlocks(g, Blocks(cells)) {
      var k := b - g.bmapstart;
      assert cells[k] == k * BPB + 4000 && cells[k] in cells;
      assert g.BBlock(k * BPB + 4000) == b;
    }
  }

  // On a larger disk the last unlink of a file with blocks all over it does not: the entry and all
  // its blocks lie after the bitmap.
  lemma LargeDiskExceeds(gd: Geometry, gi: Geometry, dp: File, off: nat) returns (ip: File)
    requires EntryAt(dp, off) && |dp.used| > 8 * BPB + 4000 && forall b :: 0 <= b < |dp.used| ==> dp.used[b]
    requires gi.inodeBlock < gi.bmapstart && gi.bmapstart + 9 < EntryBlock(dp, off) < 4000
    ensures ip.Shaped() && ip.used == dp.used && Unlink(gd, gi, dp, ip, off, false, true).Done?
    ensures |Unlink(gd, gi, dp, ip, off, false, true).file.logged| > MAXOPBLOCKS
  {
    ip := Spread(dp.used);
    SpreadCells(dp.used);
    SpreadBitmap(gi, dp.used);
    UnlinkLogs(gd, gi, dp, ip, off, false, true);
    Exceeds(EntryBlock(dp, off), gd.inodeBlock, gi, BitmapBlocks(gi, Blocks(Cells(ip))));
  }

  lemma Exceeds(entry: nat, parent: nat, g: Geometry, bitmap: set<nat>)
    requires Range(g.bmapstart, 9) <= bitmap && g.inodeBlock < g.bmapstart && g.bmapstart + 9 < entry
    ensures |Few(entry, parent, g, false) + bitmap| > MAXOPBLOCKS
  {
    var range, few := Range(g.bmapstart, 9), Few(entry, parent, g, false);
    assert few == {entry, g.inodeBlock} && |{entry, g.inodeBlock}| == 2;
    UnionSize(range, few);
    SubsetSize(range + few, few + bitmap);
  }
}
