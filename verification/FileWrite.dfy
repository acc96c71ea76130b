// balloc, bmap, writei and filewrite as they run, changing the bitmap, the inode
// and its indirect block in place.
module FileWriteProgram {
  import opened Arith
  import opened LogBound
  import LogOps
  import opened Params

  datatype Result = Panics | Returns(n: int)

  lemma OneMoreBlock(g: Geometry, f: File, bn: nat, k: nat)
    requires f.Shaped() && bn + k < MAXFILE && WriteBlocks(g, f, bn, k).Done?
    ensures WriteBlocks(g, f, bn, k + 1) == WriteBlock(g, WriteBlocks(g, f, bn, k).file, bn + k)
    decreases k
  {
    if k == 0 {
      var r := WriteBlock(g, f, bn);
      if r.Done? { assert WriteBlocks(g, r.file, bn + 1, 0) == r; }
    } else {
      OneMoreBlock(g, WriteBlock(g, f, bn).file, bn + 1, k - 1);
    }
  }

  // If a block of the run cannot be mapped, the whole run panics.
  lemma StopsAt(g: Geometry, f: File, bn: nat, k: nat, n: nat)
    requires f.Shaped() && bn + n <= MAXFILE && k < n && WriteBlocks(g, f, bn, k).Done?
    requires WriteBlock(g, WriteBlocks(g, f, bn, k).file, bn + k).Panic?
    ensures WriteBlocks(g, f, bn, n).Panic?
    decreases k
  {
    if k > 0 { StopsAt(g, WriteBlock(g, f, bn).file, bn + 1, k - 1, n - 1); }
  }

  // One turn of writei's loop moves on by one block.
  lemma SpanStep(pos: nat, tot: nat, m: nat, n: nat)
    requires tot < n && (tot == 0 || (pos + tot) % BSIZE == 0)
    requires m == Min(n - tot, BSIZE - (pos + tot) % BSIZE)
    ensures 0 < m <= n - tot && (tot + m < n ==> (pos + tot + m) % BSIZE == 0)
    ensures (pos + tot) / BSIZE == pos / BSIZE + Span(pos, tot)
    ensures Span(pos, tot + m) == Span(pos, tot) + 1 <= Span(pos, n)
  {
  }

  class OpenFile {
    const g: Geometry
    var used: seq<bool>
    var addrs: seq<nat>
    var table: seq<nat>
    var size: nat
    var logged: set<nat>
    var off: nat
    // The blocks each operation of filewrite has logged.
    ghost var chunks: seq<set<nat>>

    ghost function Now(): File
      reads this
    {
      File(used, addrs, table, size, logged)
    }

    // A new file, opened for writing, on a device whose first `meta` blocks are in use.
    constructor (g: Geometry, blocks: nat, meta: nat)
      requires 0 < meta <= blocks
      ensures Ready() && this.g == g && |used| == blocks && off == size == 0 && logged == {} && chunks == []
      ensures forall b :: 0 <= b < blocks ==> used[b] == (b < meta)
      ensures forall bn: nat :: !Now().Mapped(bn)
    {
      this.g := g;
      used := seq(blocks, b => b < meta);
      addrs := seq(NDIRECT + 1, _ => 0);
      table := Zeros();
      size, off, logged, chunks := 0, 0, {}, [];
    }

    // Allocates a zeroed block, or finds the bitmap full.
    method Balloc() returns (ok: bool, addr: nat)
      requires Now().Shaped()
      modifies this`used, this`logged
      ensures ok <==> FirstFree(old(used), 0) < |old(used)|
      ensures ok ==> addr == FirstFree(old(used), 0) && Now() == Taken(g, old(Now()), addr)
      ensures !ok ==> Now() == old(Now()) && forall k :: 0 <= k < |used| ==> used[k]
    {
      var b := 0;
      while b < |used|
        invariant 0 <= b && b % BPB == 0 && Now() == old(Now()) && forall k :: 0 <= k < Min(b, |used|) ==> used[k]
        decreases |used| - b
      {
        var bi := 0;
        while bi < BPB && b + bi < |used|
          invariant 0 <= bi <= BPB && b + bi <= |used| && Now() == old(Now())
          invariant forall k :: 0 <= k < b + bi ==> used[k]
        {
          if !used[b + bi] {
            used := used[b + bi := true];
            logged := logged + {g.BBlock(b)};
            logged := logged + {b + bi};
            return true, b + bi;
          }
          bi := bi + 1;
        }
        b := b + BPB;
      }
      return false, 0;
    }

    // The disk block of file block bn, which is allocated if there is none.
    method Bmap(bn: nat) returns (ok: bool, addr: nat)
      requires Now().Shaped() && bn < MAXFILE
      modifies this`used, this`addrs, this`table, this`logged
      ensures ok <==> MapBlock(g, old(Now()), bn).Done?
      ensures ok ==> Now() == MapBlock(g, old(Now()), bn).file && addr == Now().Address(bn) != 0
      ensures !ok ==> forall k :: 0 <= k < |used| ==> used[k]
    {
      ok, addr := true, 0;
      if bn < NDIRECT {
        addr := addrs[bn];
        if addr == 0 {
          ok, addr := Balloc();
          if ok { addrs := addrs[bn := addr]; }
        }
        return;
      }
      var k := bn - NDIRECT;
      var ind := addrs[NDIRECT];
      if ind == 0 {
        ok, ind := Balloc();
        if !ok { return; }
        addrs := addrs[NDIRECT := ind];
        table := Zeros();
      }
      addr := table[k];
      if addr == 0 {
        ok, addr := Balloc();
        if !ok { return; }
        table := table[k := addr];
        logged := logged + {ind};
      }
    }

    // One turn of writei's loop.
    method WriteOne(bn: nat) returns (ok: bool)
      requires Now().Shaped() && bn < MAXFILE
      modifies this`used, this`addrs, this`table, this`logged
      ensures WriteBlock(g, old(Now()), bn) == if ok then Outcome.Done(Now()) else Outcome.Panic
      ensures !ok ==> forall k :: 0 <= k < |used| ==> used[k]
    {
      var addr;
      ok, addr := Bmap(bn);
      if ok {
        logged := logged + {addr};
      }
    }

    // ... as block `done` of those from bn on.
    method WriteNext(b: nat, ghost f0: File, ghost bn: nat, ghost done: nat) returns (ok: bool)
      requires f0.Shaped() && bn + done < MAXFILE && b == bn + done && WriteBlocks(g, f0, bn, done) == Outcome.Done(Now())
      modifies this`used, this`addrs, this`table, this`logged
      ensures WriteBlocks(g, f0, bn, done + 1) == if ok then Outcome.Done(Now()) else Outcome.Panic
      ensures !ok ==> WriteBlock(g, old(Now()), b).Panic? && forall k :: 0 <= k < |used| ==> used[k]
    {
      OneMoreBlock(g, f0, bn, done);
      ok := WriteOne(b);
    }

    // writei's loop.
    method WriteLoop(pos: nat, n: nat) returns (ok: bool)
      requires Now().Shaped() && pos + n <= MAXFILE * BSIZE && pos / BSIZE + Span(pos, n) <= MAXFILE
      modifies this`used, this`addrs, this`table, this`logged
      ensures ok ==> WriteBlocks(g, old(Now()), pos / BSIZE, Span(pos, n)) == Outcome.Done(Now())
      ensures !ok ==> WriteBlocks(g, old(Now()), pos / BSIZE, Span(pos, n)) == Outcome.Panic
      ensures !ok ==> forall k :: 0 <= k < |used| ==> used[k]
    {
      ghost var f0, bn, done := Now(), pos / BSIZE, 0;
      var tot, at := 0, pos;
      while tot < n
        invariant 0 <= tot <= n && at == pos + tot && done == Span(pos, tot) <= Span(pos, n)
        invariant tot < n ==> tot == 0 || at % BSIZE == 0
        invariant WriteBlocks(g, f0, bn, done) == Outcome.Done(Now())
      {
        var m := Min(n - tot, BSIZE - at % BSIZE);
        SpanStep(pos, tot, m, n);
        ok := WriteNext(at / BSIZE, f0, bn, done);
        if !ok {
          StopsAt(g, f0, bn, done, Span(pos, n));
          return;
        }
        tot, at, done := tot + m, at + m, done + 1;
      }
      ok := true;
    }

    // The number of bytes written, or -1.
    method Writei(pos: nat, n: nat) returns (r: Result)
      requires Now().Shaped() && pos < UINT && n < UINT
      modifies this`used, this`addrs, this`table, this`size, this`logged
      ensures match Write(g, old(Now()), pos, n)
        case Panic => r == Panics
        case Minus1 => r == Returns(-1) && Now() == old(Now())
        case Done(f) => r == Returns(n) && Now() == f
      ensures r == Panics ==> forall k :: 0 <= k < |used| ==> used[k]
    {
      if pos > size || (pos + n) % UINT < pos {
        return Returns(-1);
      }
      if pos + n > MAXFILE * BSIZE {
        return Returns(-1);
      }
      SpanFits(pos, n);
      var ok := WriteLoop(pos, n);
      if !ok {
        return Panics;
      }
      if n > 0 && pos + n > size {
        size := pos + n;
        logged := logged + {g.inodeBlock};
      }
      return Returns(n);
    }

    ghost predicate Ready()
      reads this
    {
      Now().Shaped() && Now().NoHoles() && off < UINT
    }

    // One operation, from begin_op to end_op: a chunk is written whole or not at all, and
    // either way the operation stays within its reservation.
    method WriteChunk(n: nat) returns (r: Result)
      requires Ready() && 0 < n <= CHUNK
      modifies this`used, this`addrs, this`table, this`size, this`logged, this`off, this`chunks
      ensures r == Panics ==> chunks == old(chunks) && forall k :: 0 <= k < |used| ==> used[k]
      ensures r != Panics ==> Ready() && chunks == old(chunks) + [logged] && |logged| <= MAXOPBLOCKS
      ensures r.Returns? ==> r.n == if Rejects(old(Now()), old(off), n) then -1 else n
      ensures r == Returns(-1) ==> off == old(off) && size == old(size)
      ensures r == Returns(n) ==> off == old(off) + n && size == if off > old(size) then off else old(size)
    {
      logged := {};
      ghost var f := Now();
      assert forall k: nat :: k * BSIZE < f.size ==> old(Now()).Mapped(k) && f.Mapped(k);
      assert Rejects(f, off, n) <==> Rejects(old(Now()), off, n);
      r := Writei(off, n);
      if r == Panics { return; }
      chunks := chunks + [logged];
      if r.n > 0 {
        ChunkFitsReservation(g, f, off, n);
        WriteKeepsNoHoles(g, f, off, n);
        off := off + r.n;
      }
    }

    // Writes n bytes at off: the number of bytes, or -1 once a chunk is rejected.
    method FileWrite(n: int) returns (r: Result)
      requires Ready() && n < UINT
      modifies this`used, this`addrs, this`table, this`size, this`logged, this`off, this`chunks
      ensures old(|chunks|) <= |chunks|
      ensures forall c :: old(|chunks|) <= c < |chunks| ==> |chunks[c]| <= MAXOPBLOCKS
      ensures r == Panics ==> forall k :: 0 <= k < |used| ==> used[k]
      ensures r != Panics ==> Ready() && old(off) <= off
      ensures r != Panics ==> size == if off > old(off) && off > old(size) then off else old(size)
      ensures r.Returns? ==> r.n == n || r.n == -1
      ensures r == Returns(-1) && n < 0 ==> off == old(off)
      ensures r == Returns(n) && 0 <= n ==> off == old(off) + n
      ensures r == Returns(-1) && 0 <= n ==>
        off < old(off) + n && Rejects(Now(), off, Min(CHUNK, old(off) + n - off))
    {
      var i := 0;
      while i < n
        invariant 0 <= i && (i <= n || n < 0 == i) && off == old(off) + i && Ready()
        invariant old(|chunks|) <= |chunks|
        invariant forall c :: old(|chunks|) <= c < |chunks| ==> |chunks[c]| <= MAXOPBLOCKS
        invariant size == if off > old(off) && off > old(size) then off else old(size)
      {
        var n1 := Min(n - i, CHUNK);
        r := WriteChunk(n1);
        if r == Panics { return; }
        if r.n < 0 { break; }
        assert r.n == n1;
        i := i + r.n;
      }
      return Returns(if i == n then n else -1);
    }

    // bfree; false is the panic.
    method Bfree(b: nat) returns (ok: bool)
      requires b < |used|
      modifies this`used, this`logged
      ensures ok == old(used)[b]
      ensures ok ==> used == old(used)[b := false] && logged == old(logged) + {g.BBlock(b)}
    {
      ok := used[b];
      if ok {
        used := used[b := false];
        logged := logged + {g.BBlock(b)};
      }
    }

    // One of itrunc's loops: frees the blocks of the first n cells of s, which are all that
    // is left of them after `before`.
    method FreeCells(s: seq<nat>, n: nat) returns (ok: bool)
      requires n <= |s| && LogOps.InTable(s[..n], used)
      modifies this`used, this`logged
      ensures ok <==> LogOps.FreeAll(old(used), s[..n]).Freed?
      ensures ok ==> LogOps.FreeAll(old(used), s[..n]) == LogOps.Freed(used) && |used| == |old(used)|
      ensures ok ==> logged == old(logged) + LogOps.BitmapBlocks(g, LogOps.Blocks(s[..n]))
    {
      ghost var t := s[..n];
      var i := 0;
      ok := true;
      while i < n
        invariant 0 <= i <= n && |used| == |old(used)| && LogOps.InTable(t, old(used))
        invariant LogOps.InTable(t[i..], used) && LogOps.FreeAll(used, t[i..]) == LogOps.FreeAll(old(used), t)
        invariant logged == old(logged) + LogOps.BitmapBlocks(g, LogOps.Blocks(t[..i]))
      {
        assert t[i..][0] == s[i] && t[i..][1..] == t[i + 1..];
        BitmapNext(g, t, i);
        if s[i] != 0 {
          ok := Bfree(s[i]);
          if !ok { return; }
        }
        i := i + 1;
      }
      assert t[..n] == t;
    }

    // The blocks below the indirect address, and its own.
    method FreeIndirect() returns (ok: bool)
      requires |addrs| == NDIRECT + 1 && |table| == NINDIRECT && addrs[NDIRECT] != 0
      requires LogOps.InTable(table + [addrs[NDIRECT]], used)
      modifies this`used, this`logged
      ensures ok <==> LogOps.FreeAll(old(used), table + [addrs[NDIRECT]]).Freed?
      ensures ok ==> LogOps.FreeAll(old(used), table + [addrs[NDIRECT]]) == LogOps.Freed(used)
      ensures ok ==> logged == old(logged) + LogOps.BitmapBlocks(g, LogOps.Blocks(table + [addrs[NDIRECT]]))
    {
      ghost var last := [addrs[NDIRECT]];
      assert table[..NINDIRECT] == table;
      assert LogOps.InTable(table, used) && LogOps.InTable(last, used) by {
        assert forall k :: 0 <= k < NINDIRECT ==> table[k] == (table + last)[k];
        assert (table + last)[NINDIRECT] == last[0];
      }
      LogOps.FreeAllAppend(used, table, last);
      LogOps.BitmapAppend(g, table, last);
      ok := FreeCells(table, NINDIRECT);
      if !ok { return; }
      assert last[1..] == [] && LogOps.Blocks(last) == {addrs[NDIRECT]};
      ok := Bfree(addrs[NDIRECT]);
    }

    // itrunc: what it frees and logs; not ok is bfree's panic.
    method Itrunc() returns (ok: bool)
      requires Now().Shaped() && LogOps.InTable(LogOps.Cells(Now()), used)
      modifies this`used, this`addrs, this`size, this`logged
      ensures ok <==> LogOps.Freeable(old(used), LogOps.Cells(old(Now())))
      ensures ok ==> LogOps.FreeAll(old(used), LogOps.Cells(old(Now()))) == LogOps.Freed(used)
      ensures ok ==> addrs == LogOps.NoAddrs() && size == 0
      ensures ok ==> logged == old(logged) + LogOps.TruncLogged(g, old(Now()))
    {
      LogOps.FreeAllExactly(used, LogOps.Cells(Now()));
      LogOps.CellsSplit(g, Now());
      ok := FreeCells(addrs, NDIRECT);
      if !ok { return; }
      if addrs[NDIRECT] != 0 {
        ok := FreeIndirect();
        if !ok { return; }
      }
      addrs := LogOps.NoAddrs();
      size := 0;
      logged := logged + {g.inodeBlock};
    }
  }

  lemma BitmapNext(g: Geometry, s: seq<nat>, i: nat)
    requires i < |s|
    ensures LogOps.BitmapBlocks(g, LogOps.Blocks(s[..i + 1])) ==
      LogOps.BitmapBlocks(g, LogOps.Blocks(s[..i])) + if s[i] == 0 then {} else {g.BBlock(s[i])}
  {
    assert s[..i + 1] == s[..i] + [s[i]];
  }
}
