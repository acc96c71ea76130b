// How many blocks one chunk of filewrite puts in the log: balloc, bmap and writei
// of fs.c, seen through the blocks they pass to log_write, and filewrite of file.c.
// A file here is an inode with NDIRECT direct addresses and one indirect block.

module LogBound {
  import opened Params

  const BSIZE := 512
  const BPB := 4096
  const NDIRECT := 12
  const NINDIRECT := 128
  const MAXFILE := NDIRECT + NINDIRECT

  // filewrite's chunk size
  const CHUNK := (MAXOPBLOCKS - 1 - 1 - 2) / 2 * 512

  // Where the bitmap starts, and the block that holds the inode.
  datatype Geometry = Geometry(bmapstart: nat, inodeBlock: nat) {
    function BBlock(b: nat): nat { b / BPB + bmapstart }
  }

  // The bitmap, the inode, the words of its indirect block, and the blocks that
  // the current operation has logged.
  datatype File = File(used: seq<bool>, addrs: seq<nat>, table: seq<nat>, size: nat, logged: set<nat>) {
    // Block 0 is the boot block, which mkfs marks as used.
    predicate Shaped() {
      && |used| > 0 && used[0] && |addrs| == NDIRECT + 1 && |table| == NINDIRECT
      && size <= MAXFILE * BSIZE
    }

    // The disk block of file block bn, or 0.
    function Address(bn: nat): nat
      requires |addrs| == NDIRECT + 1 && |table| == NINDIRECT && bn < MAXFILE
    {
      if bn < NDIRECT then addrs[bn] else if addrs[NDIRECT] == 0 then 0 else table[bn - NDIRECT]
    }

    predicate Mapped(bn: nat)
      requires |addrs| == NDIRECT + 1 && |table| == NINDIRECT
    {
      bn < MAXFILE && Address(bn) != 0
    }

    // Every block that holds a byte below the size is mapped.
    ghost predicate NoHoles()
      requires Shaped()
    {
      forall bn: nat :: bn * BSIZE < size ==> Mapped(bn)
    }
  }

  datatype Outcome = Panic | Minus1 | Done(file: File)

  function FirstFree(used: seq<bool>, from: nat): (b: nat)
    requires from <= |used|
    ensures from <= b <= |used| && (b < |used| ==> !used[b])
    ensures forall k :: from <= k < b ==> used[k]
    decreases |used| - from
  {
    if from == |used| || !used[from] then from else FirstFree(used, from + 1)
  }

  // balloc marks the first free block and zeroes it, logging both changes.
  function Taken(g: Geometry, f: File, b: nat): File
    requires b < |f.used|
  {
    f.(used := f.used[b := true], logged := f.logged + {g.BBlock(b), b})
  }

  function Zeros(): seq<nat> { seq(NINDIRECT, _ => 0) }

  function MapDirect(g: Geometry, f: File, slot: nat): (r: Outcome)
    requires f.Shaped() && slot <= NDIRECT
    ensures r != Minus1 && (r.Done? ==> r.file.Shaped())
  {
    var b := FirstFree(f.used, 0);
    if b == |f.used| then Panic
    else if slot == NDIRECT then Done(Taken(g, f, b).(addrs := f.addrs[slot := b], table := Zeros()))
    else Done(Taken(g, f, b).(addrs := f.addrs[slot := b]))
  }

  function MapIndirect(g: Geometry, f: File, slot: nat): (r: Outcome)
    requires f.Shaped() && slot < NINDIRECT
    ensures r != Minus1 && (r.Done? ==> r.file.Shaped())
  {
    var b := FirstFree(f.used, 0);
    if b == |f.used| then Panic
    else
      var f1 := Taken(g, f, b).(table := f.table[slot := b]);
      Done(f1.(logged := f1.logged + {f.addrs[NDIRECT]}))
  }

  function MapBlock(g: Geometry, f: File, bn: nat): (r: Outcome)
    requires f.Shaped() && bn < MAXFILE
    ensures r != Minus1 && (r.Done? ==> r.file.Shaped())
  {
    if f.Mapped(bn) then Done(f)
    else if bn < NDIRECT then MapDirect(g, f, bn)
    else if f.addrs[NDIRECT] != 0 then MapIndirect(g, f, bn - NDIRECT)
    else
      var r := MapDirect(g, f, NDIRECT);
      if r.Done? then MapIndirect(g, r.file, bn - NDIRECT) else r
  }

  // One turn of writei's loop: bmap, and a log_write of the block.
  function WriteBlock(g: Geometry, f: File, bn: nat): (r: Outcome)
    requires f.Shaped() && bn < MAXFILE
    ensures r != Minus1 && (r.Done? ==> r.file.Shaped())
  {
    var r := MapBlock(g, f, bn);
    if r.Done? then Done(r.file.(logged := r.file.logged + {r.file.Address(bn)})) else r
  }

  function WriteBlocks(g: Geometry, f: File, bn: nat, k: nat): (r: Outcome)
    requires f.Shaped() && bn + k <= MAXFILE
    ensures r != Minus1 && (r.Done? ==> r.file.Shaped())
    decreases k
  {
    if k == 0 then Done(f)
    else
      var r := WriteBlock(g, f, bn);
      if r.Done? then WriteBlocks(g, r.file, bn + 1, k - 1) else r
  }

  // The number of blocks that bytes [off, off + n) lie in.
  function Span(off: nat, n: nat): nat {
    if n == 0 then 0 else (off + n - 1) / BSIZE - off / BSIZE + 1
  }

  predicate Rejects(f: File, off: nat, n: nat) { off > f.size || off + n > MAXFILE * BSIZE }

  // iupdate runs only when the file has grown.
  function Resized(g: Geometry, f: File, end: nat): File {
    if end > f.size then f.(size := end, logged := f.logged + {g.inodeBlock}) else f
  }

  lemma SpanFits(off: nat, n: nat)
    requires off + n <= MAXFILE * BSIZE
    ensures off / BSIZE + Span(off, n) <= MAXFILE
  {
  }

  function Write(g: Geometry, f: File, off: nat, n: nat): (r: Outcome)
    requires f.Shaped()
    ensures r == Minus1 <==> Rejects(f, off, n)
    ensures r.Done? ==> r.file.Shaped()
  {
    if Rejects(f, off, n) then Minus1
    else
      SpanFits(off, n);
      var r := WriteBlocks(g, f, off / BSIZE, Span(off, n));
      if r.Done? && n > 0 then Done(Resized(g, r.file, off + n)) else r
  }

  // ---- The bound ----------------------------------------------------------

  // What the indirect block may still add to the log: two blocks while it does not
  // exist, then itself until it has been logged.
  function Pending(f: File): nat
    requires f.Shaped()
  {
    if f.addrs[NDIRECT] == 0 then 2 else if f.addrs[NDIRECT] in f.logged then 0 else 1
  }

  lemma AddOne(s: set<nat>, a: nat)
    ensures |s + {a}| <= |s| + 1 && (a in s ==> s + {a} == s)
  {
  }

  lemma AddTwo(s: set<nat>, a: nat, b: nat)
    ensures |s + {a, b}| <= |s| + 2
  {
    AddOne(s, a);
    AddOne(s + {a}, b);
    assert s + {a, b} == s + {a} + {b};
  }

  // A block costs one log entry if it was mapped and two if it was not, apart from the indirect block.
  lemma WriteBlockCost(g: Geometry, f: File, bn: nat)
    requires f.Shaped() && bn < MAXFILE && WriteBlock(g, f, bn).Done?
    ensures var w := WriteBlock(g, f, bn).file;
      && |w.logged| + Pending(w) <= |f.logged| + Pending(f) + (if f.Mapped(bn) then 1 else 2)
      && w.Mapped(bn) && w.size == f.size
      && (forall k: nat :: f.Mapped(k) ==> w.Mapped(k))
      && (f.Mapped(bn) ==> w.addrs == f.addrs && w.table == f.table)
  {
    var m := MapBlock(g, f, bn).file;
    AddOne(m.logged, m.Address(bn));
    if !f.Mapped(bn) {
      var b := FirstFree(f.used, 0);
      AddTwo(f.logged, g.BBlock(b), b);
      if bn >= NDIRECT {
        var f1 := if f.addrs[NDIRECT] == 0 then MapDirect(g, f, NDIRECT).file else f;
        var b1 := FirstFree(f1.used, 0);
        AddTwo(f1.logged, g.BBlock(b1), b1);
        AddOne(Taken(g, f1, b1).logged, f1.addrs[NDIRECT]);
      }
    }
  }

  lemma {:induction false} WriteBlocksCost(g: Geometry, f: File, bn: nat, k: nat)
    requires f.Shaped() && bn + k <= MAXFILE && WriteBlocks(g, f, bn, k).Done?
    ensures var w := WriteBlocks(g, f, bn, k).file;
      && |w.logged| + Pending(w) <= |f.logged| + Pending(f) + 2 * k - (if k > 0 && f.Mapped(bn) then 1 else 0)
      && w.size == f.size
      && (forall j: nat :: f.Mapped(j) || bn <= j < bn + k ==> w.Mapped(j))
      && ((forall j :: bn <= j < bn + k ==> f.Mapped(j)) ==> w.addrs == f.addrs && w.table == f.table)
    decreases k
  {
    if k > 0 {
      WriteBlockCost(g, f, bn);
      WriteBlocksCost(g, WriteBlock(g, f, bn).file, bn + 1, k - 1);
    }
  }

  lemma {:induction false} FirstBlockMapped(f: File, off: nat)
    requires f.Shaped() && f.NoHoles() && off <= f.size && off % BSIZE != 0
    ensures f.Mapped(off / BSIZE)
  {
    assert off / BSIZE * BSIZE < f.size;
  }

  // One operation that writes one chunk fits in its reservation, for any bitmap.
  lemma ChunkFitsReservation(g: Geometry, f: File, off: nat, n: nat)
    requires f.Shaped() && f.NoHoles() && f.logged == {} && n <= CHUNK && Write(g, f, off, n).Done?
    ensures |Write(g, f, off, n).file.logged| <= MAXOPBLOCKS
  {
    SpanFits(off, n);
    var bn, k := off / BSIZE, Span(off, n);
    WriteBlocksCost(g, f, bn, k);
    var w := WriteBlocks(g, f, bn, k).file;
    AddOne(w.logged, g.inodeBlock);
    if off % BSIZE != 0 { FirstBlockMapped(f, off); }
  }

  // Writing never makes a hole, so the premise above holds of every file that
  // started empty; and if writei maps a block it also saves the inode.
  lemma WriteKeepsNoHoles(g: Geometry, f: File, off: nat, n: nat)
    requires f.Shaped() && f.NoHoles() && Write(g, f, off, n).Done?
    ensures var w := Write(g, f, off, n).file;
      && w.NoHoles() && w.size == (if n > 0 && off + n > f.size then off + n else f.size)
      && (w.addrs != f.addrs || w.table != f.table ==> g.inodeBlock in w.logged)
  {
    SpanFits(off, n);
    var bn, k := off / BSIZE, Span(off, n);
    WriteBlocksCost(g, f, bn, k);
    var w, w0 := Write(g, f, off, n).file, WriteBlocks(g, f, bn, k).file;
    forall j: nat | j * BSIZE < w.size ensures w.Mapped(j) {
      assert f.Mapped(j) || bn <= j < bn + k;
      assert w0.Mapped(j);
    }
    if off + n <= f.size {
      forall j: nat | bn <= j < bn + k ensures f.Mapped(j) {
        assert j * BSIZE < f.size;
      }
    }
  }

  // ---- The bound is tight -------------------------------------------------

  // A bitmap of four blocks, of which the last 4 - k still describe one free block each.
  function Crowded(k: nat): seq<bool> { seq(4 * BPB, i => i < k * BPB || i % BPB != BPB - 1) }

  function Next(k: nat): nat { k * BPB + BPB - 1 }

  lemma NextFree(k: nat)
    requires k < 4
    ensures FirstFree(Crowded(k), 0) == Next(k) && Crowded(k)[Next(k) := true] == Crowded(k + 1)
  {
    assert Next(k) % BPB == BPB - 1 && !Crowded(k)[Next(k)];
    forall i | k * BPB <= i < (k + 1) * BPB && i != Next(k) ensures i % BPB != BPB - 1 {
      assert i % BPB == i - k * BPB;
    }
  }

  // A file of eleven blocks and one byte, and metadata blocks apart from the data.
  ghost predicate IsAwkward(g: Geometry, f: File) {
    && f.Shaped() && f.used == Crowded(0) && f.size == (NDIRECT - 1) * BSIZE + 1 && f.logged == {}
    && (forall k: nat :: k < NDIRECT ==> f.Mapped(k)) && f.addrs[NDIRECT] == 0
    && g.inodeBlock < g.bmapstart && g.bmapstart + 3 < f.addrs[NDIRECT - 1] < Next(0)
  }

  // The file after its indirect block and k blocks below it have been written, with n blocks in
  // the log: bitmap blocks up to the k-th, and data blocks up to the k-th free one.
  ghost predicate Progress(g: Geometry, f: File, k: nat, n: nat) {
    && f.Shaped() && f.used == Crowded(k + 1) && f.addrs[NDIRECT] == Next(0) && Next(0) in f.logged
    && (forall j :: k <= j < NINDIRECT ==> f.table[j] == 0) && |f.logged| == n
    && forall b :: b in f.logged ==> g.inodeBlock < b && (b <= g.bmapstart + k || g.bmapstart + 3 < b <= Next(k))
  }

  lemma TwoMore(s: set<nat>, a: nat, b: nat)
    requires a !in s && b !in s && a != b
    ensures |s + {a, b}| == |s| + 2
  {
    assert s + {a, b} == s + {a} + {b};
  }

  // Writing an unmapped block takes the next free block, under another bitmap block.
  lemma {:induction false} AwkwardBlock(g: Geometry, f: File, k: nat, n: nat)
    requires k < 3 && Progress(g, f, k, n) && g.inodeBlock < g.bmapstart && g.bmapstart + 3 < Next(0)
    ensures var r := WriteBlock(g, f, NDIRECT + k);
      r.Done? && r.file.size == f.size && Progress(g, r.file, k + 1, n + 2)
  {
    NextFree(k + 1);
    assert Next(k + 1) / BPB == k + 1;
    var m, b := g.bmapstart + k + 1, Next(k + 1);
    var w := File(Crowded(k + 2), f.addrs, f.table[k := b], f.size, f.logged + {m, b});
    TwoMore(f.logged, m, b);
    assert w.logged == f.logged + {m, b} + {b} == f.logged + {m, b} + {Next(0)} + {b};
    assert WriteBlock(g, f, NDIRECT + k) == Outcome.Done(w);
  }

  // The first one takes a block for the indirect block before that.
  lemma {:induction false} AwkwardIndirect(g: Geometry, f: File) returns (i: File)
    requires f.Shaped() && f.addrs[NDIRECT] == 0 && f.used == Crowded(0) && |f.logged| == 1
    requires g.inodeBlock < g.bmapstart && g.bmapstart + 3 < Next(0)
    requires forall b :: b in f.logged ==> g.bmapstart + 3 < b < Next(0)
    ensures i.Shaped() && i.size == f.size && Progress(g, i, 0, 3)
    ensures WriteBlock(g, f, NDIRECT) == WriteBlock(g, i, NDIRECT)
  {
    NextFree(0);
    i := MapDirect(g, f, NDIRECT).file;
    TwoMore(f.logged, g.bmapstart, Next(0));
  }

  lemma {:induction false} AwkwardRest(g: Geometry, f: File, bn: nat) returns (w: File)
    requires bn == NDIRECT && Progress(g, f, 0, 3) && g.inodeBlock < g.bmapstart && g.bmapstart + 3 < Next(0)
    ensures WriteBlocks(g, f, bn, 3) == Outcome.Done(w) && w.size == f.size && Progress(g, w, 3, 9)
  {
    AwkwardBlock(g, f, 0, 3);
    var f2 := WriteBlock(g, f, bn).file;
    AwkwardBlock(g, f2, 1, 5);
    var f3 := WriteBlock(g, f2, bn + 1).file;
    AwkwardBlock(g, f3, 2, 7);
    w := WriteBlock(g, f3, bn + 2).file;
    assert WriteBlocks(g, f3, bn + 2, 1) == WriteBlocks(g, w, bn + 3, 0);
    assert WriteBlocks(g, f2, bn + 1, 2) == WriteBlocks(g, f3, bn + 2, 1);
  }

  lemma {:induction false} AwkwardRun(g: Geometry, f: File)
    requires IsAwkward(g, f)
    ensures var r := WriteBlocks(g, f, NDIRECT - 1, 4);
      r.Done? && r.file.size == f.size && |r.file.logged| == MAXOPBLOCKS - 1 && g.inodeBlock !in r.file.logged
  {
    var bn := NDIRECT - 1;
    var f1 := f.(logged := {f.addrs[bn]});
    assert f.Mapped(bn) && WriteBlock(g, f, bn) == Outcome.Done(f1);
    var i := AwkwardIndirect(g, f1);
    var f4 := AwkwardRest(g, i, bn + 1);
    assert WriteBlocks(g, f, bn, 4) == WriteBlocks(g, f1, bn + 1, 3);
  }

  lemma AwkwardSpan(off: nat)
    requires off == (NDIRECT - 1) * BSIZE + 1
    ensures off / BSIZE == NDIRECT - 1 && Span(off, CHUNK) == 4
  {
    assert off + CHUNK - 1 == 14 * BSIZE;
  }

  lemma WriteIs(g: Geometry, f: File, off: nat, n: nat, bn: nat, k: nat)
    requires f.Shaped() && !Rejects(f, off, n) && n > 0 && bn == off / BSIZE && k == Span(off, n) && bn + k <= MAXFILE
    requires WriteBlocks(g, f, bn, k).Done?
    ensures Write(g, f, off, n) == Outcome.Done(Resized(g, WriteBlocks(g, f, bn, k).file, off + n))
  {
  }

  lemma AwkwardHasNoHoles(g: Geometry, f: File)
    requires IsAwkward(g, f)
    ensures f.NoHoles()
  {
  }

  // Appending one chunk to it logs exactly MAXOPBLOCKS blocks.
  lemma {:induction false} BoundIsReached(g: Geometry, f: File)
    requires IsAwkward(g, f)
    ensures f.NoHoles()
    ensures Write(g, f, f.size, CHUNK).Done? && |Write(g, f, f.size, CHUNK).file.logged| == MAXOPBLOCKS
  {
    AwkwardHasNoHoles(g, f);
    AwkwardRun(g, f);
    AwkwardSpan(f.size);
    WriteIs(g, f, f.size, CHUNK, NDIRECT - 1, 4);
  }

  lemma {:induction false} AwkwardExists(addrs: seq<nat>) returns (g: Geometry, f: File)
    requires |addrs| == NDIRECT + 1 && addrs[NDIRECT] == 0
    requires forall k :: 0 <= k < NDIRECT ==> addrs[k] == 100 + k
    ensures IsAwkward(g, f)
  {
    g := Geometry(50, 40);
    f := File(Crowded(0), addrs, Zeros(), (NDIRECT - 1) * BSIZE + 1, {});
  }
}
