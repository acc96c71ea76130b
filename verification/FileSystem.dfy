// fs.c in its own form: the bitmap, the block contents and the inodes of one
// device, changed in place by balloc, bfree, bmap, itrunc, readi and writei.
module FileSystem {
  import opened Arith
  import opened BlockTree

  const BPB := 4096             // bits per bitmap block

  // What readi and writei return: the byte count, -1, or no return at all
  // because balloc found the disk full and panicked.
  datatype Outcome = Count(n: nat) | Minus1 | OutOfBlocks

  type Bitmap = seq<seq<bool>>

  ghost predicate Covers(bm: Bitmap, n: nat) {
    n <= |bm| * BPB && forall c :: 0 <= c < |bm| ==> |bm[c]| == BPB
  }

  function Flags(bm: Bitmap, n: nat): (u: seq<bool>)
    requires Covers(bm, n)
    ensures |u| == n && forall b :: 0 <= b < n ==> u[b] == bm[b / BPB][b % BPB]
  {
    seq(n, b requires 0 <= b < n => bm[b / BPB][b % BPB])
  }

  // What a write of src at offset off makes of a file.
  function Patched(f: seq<Byte>, off: nat, src: seq<Byte>): seq<Byte>
    requires off <= |f|
  {
    f[..off] + src + if off + |src| < |f| then f[off + |src|..] else []
  }

  // A device at one moment.
  datatype Image = Image(bitmap: Bitmap, t: Tree, data: seq<seq<Byte>>) {
    ghost predicate Shaped() {
      t.Shaped() && BlocksFull(data)
    }

    // All that could be read from each file, whatever its size.
    ghost function Contents(): seq<seq<Byte>>
      requires Shaped()
    {
      BlockTree.Contents(t, data)
    }
  }

  // s' is s with cells on the way to p of inode i allocated: every other cell keeps
  // its address, every byte of every file its value, and nothing at all changes
  // when the cell p was there.
  ghost predicate Extends(s: Image, s': Image, i: int, p: Path)
  {
    && s.Shaped() && s'.Shaped() && 0 <= i < |s.t.addrs| && IsPath(p)
    && Grown(s.t, s'.t, i, p) && s'.Contents() == s.Contents()
    && (Lookup(s.t, i, p) != 0 ==> s' == s)
  }

  lemma ExtendsAgain(s: Image, s': Image, s'': Image, i: int, p: Path, k: int)
    requires Extends(s, s', i, p) && Extends(s', s'', i, p + [k])
    ensures Extends(s, s'', i, p + [k])
  {
    GrownAgain(s.t, s'.t, s''.t, i, p, p + [k]);
    assert (p + [k])[..|p|] == p;
  }

  // A second chunk after the first.
  lemma SpliceAgain(f: seq<Byte>, off: nat, src: seq<Byte>, tot: nat, m: nat)
    requires tot + m <= |src| && off + tot + m <= |f|
    ensures Splice(Splice(f, off, src[..tot]), off + tot, src[tot..tot + m]) == Splice(f, off, src[..tot + m])
  {
  }

  lemma SliceAgain(f: seq<Byte>, off: nat, tot: nat, m: nat)
    requires off + tot + m <= |f|
    ensures f[off..off + tot] + f[off + tot..off + tot + m] == f[off..off + tot + m]
  {
  }

  lemma ContentsAgain(c: seq<seq<Byte>>, i: int, off: nat, src: seq<Byte>, tot: nat, m: nat)
    requires 0 <= i < |c| && tot + m <= |src| && off + |src| <= |c[i]|
    ensures var c1 := c[i := Splice(c[i], off, src[..tot])];
      c1[i := Splice(c1[i], off + tot, src[tot..tot + m])] == c[i := Splice(c[i], off, src[..tot + m])]
  {
    SpliceAgain(c[i], off, src, tot, m);
  }

  // The write as the user sees it, once the size is updated.
  lemma SplicedFile(f: seq<Byte>, off: nat, src: seq<Byte>, size: nat)
    requires off <= size <= |f| && off + |src| <= |f|
    ensures Splice(f, off, src)[..if off + |src| > size then off + |src| else size] == Patched(f[..size], off, src)
  {
  }

  class Device {
    const size: nat                 // sb.size, in blocks
    var bitmap: Bitmap              // bit bi of bitmap block c belongs to block c * BPB + bi
    var data: seq<seq<Byte>>        // the bytes of each block
    ghost var ptr: seq<seq<int>>    // ... read as words
    var addrs: seq<seq<int>>        // ip->addrs of each inode
    var sizes: seq<int>             // ip->size of each inode

    ghost predicate Shaped()
      reads this
    {
      && Covers(bitmap, size)
      && |ptr| == |data| == size <= UINT && |sizes| == |addrs| && T().Shaped()
      && Agree(ptr, data)
      && (forall i :: 0 <= i < |sizes| ==> 0 <= sizes[i] <= MAXFILE * BSIZE)
    }

    ghost function T(): Tree
      reads this
    {
      Tree(addrs, ptr)
    }

    // The bitmap as one flag for each block.
    ghost function Used(): (u: seq<bool>)
      requires Shaped()
      reads this
    {
      Flags(bitmap, size)
    }

    // The invariant of the file system: no block belongs to two cells, and every
    // block that belongs to one is marked.  The boot block is never free.
    ghost predicate Valid()
      reads this
    {
      Shaped() && size > 0 && Used()[0] && Owned(T(), Used())
    }

    ghost function Now(): Image
      reads this
    {
      Image(bitmap, T(), data)
    }

    // The file as the user sees it.
    ghost function File(i: int): (s: seq<Byte>)
      requires Shaped() && 0 <= i < |addrs|
      reads this
      ensures |s| == sizes[i]
    {
      Now().Contents()[i][..sizes[i]]
    }

    // A device that has just been formatted: no inode has a block, and the blocks before the
    // first data block are marked.
    constructor (size: nat, inodes: nat, meta: nat)
      requires 0 < meta <= size <= UINT
      ensures Valid() && this.size == size && |addrs| == inodes
      ensures forall b :: 0 <= b < size ==> Used()[b] == (b < meta)
      ensures forall i :: 0 <= i < inodes ==> File(i) == []
      ensures forall i, p :: 0 <= i < inodes && IsPath(p) ==> Lookup(T(), i, p) == 0
    {
      this.size := size;
      bitmap := seq(size / BPB + 1, c => seq(BPB, bi => c * BPB + bi < meta));
      data := seq(size, _ => Zeros(BSIZE));
      ptr := seq(size, _ => Zeros(NINDIRECT));
      addrs := seq(inodes, _ => Zeros(NADDRS));
      sizes := seq(inodes, _ => 0);
      new;
      ZeroWords(Zeros(BSIZE));
      EmptyOwned(T(), Used());
    }

    // Word k of block blk.
    function Entry(blk: int, k: int): (a: int)
      requires Shaped() && 0 <= blk < size && 0 <= k < NINDIRECT
      reads this
      ensures a == ptr[blk][k]
    {
      Word(data[blk], k)
    }

    // ---- Blocks -----------------------------------------------------------

    // The lowest free block, marked and zeroed; or the panic when there is none.
    method Balloc() returns (ok: bool, b: int)
      requires Shaped()
      modifies this`bitmap, this`ptr, this`data
      ensures Shaped()
      ensures ok ==> 0 <= b < size && !old(Used())[b] && (forall c :: 0 <= c < b ==> old(Used())[c])
      ensures ok ==> Used() == old(Used())[b := true]
      ensures ok ==> ptr == old(ptr)[b := Zeros(NINDIRECT)]
      ensures ok ==> |data[b]| == BSIZE && (forall k :: 0 <= k < BSIZE ==> data[b][k] == 0) && data == old(data)[b := data[b]]
      ensures !ok ==> Full() && bitmap == old(bitmap) && ptr == old(ptr) && data == old(data)
    {
      var c := 0;
      while c * BPB < size
        invariant 0 <= c && (c - 1) * BPB < size
        invariant forall x :: 0 <= x < c * BPB && x < size ==> bitmap[x / BPB][x % BPB]
        invariant bitmap == old(bitmap) && ptr == old(ptr) && data == old(data)
      {
        var bi := 0;
        while bi < BPB && c * BPB + bi < size
          invariant 0 <= bi <= BPB
          invariant forall x :: 0 <= x < c * BPB + bi && x < size ==> bitmap[x / BPB][x % BPB]
          invariant bitmap == old(bitmap) && ptr == old(ptr) && data == old(data)
        {
          b := c * BPB + bi;
          assert b / BPB == c && b % BPB == bi;
          if !bitmap[c][bi] {
            bitmap := bitmap[c := bitmap[c][bi := true]];
            assert forall x :: 0 <= x < size && x != b ==> x / BPB != c || x % BPB != bi;
            ZeroWords(Zeros(BSIZE));
            ptr, data := ptr[b := Zeros(NINDIRECT)], data[b := Zeros(BSIZE)];
            ok := true;
            return;
          }
          bi := bi + 1;
        }
        c := c + 1;
      }
      ok, b := false, 0;
    }

    // Clears the mark of block b; false is the panic "freeing free block".
    method Bfree(b: int) returns (ok: bool)
      requires Shaped() && 0 <= b < size
      modifies this`bitmap
      ensures Shaped() && ok == old(Used())[b] && Used() == old(Used())[b := false]
    {
      var bi := b % BPB;
      ok := bitmap[b / BPB][bi];
      if ok {
        bitmap := bitmap[b / BPB := bitmap[b / BPB][bi := false]];
      }
    }

    // ---- bmap -------------------------------------------------------------

    ghost predicate Full()
      requires Shaped()
      reads this
    {
      forall c :: 0 <= c < size ==> Used()[c]
    }

    // The address in slot `slot` of inode i, allocated if necessary.
    method RootCell(i: int, slot: int) returns (ok: bool, addr: int)
      requires Valid() && 0 <= i < |addrs| && 0 <= slot < NADDRS
      modifies this`bitmap, this`ptr, this`data, this`addrs
      ensures Shaped() && |addrs| == old(|addrs|)
      ensures ok ==> Valid() && addr == Lookup(T(), i, [slot]) != 0 && Extends(old(Now()), Now(), i, [slot])
      ensures !ok ==> Full() && Absent(old(T()), i, [slot])
    {
      ok, addr := true, addrs[i][slot];
      if addr == 0 {
        ok, addr := Balloc();
        if !ok {
          EmptyCellIsAbsent(old(T()), i, [slot]);
          return;
        }
        AttachEffect(old(T()), old(Used()), i, [slot], addr, old(data), data[addr]);
        addrs := SetEntry(addrs, i, slot, addr);
        assert T() == Attach(old(T()), i, [slot], addr);
      }
    }

    // Entry k of an index block, in both views: no byte of a file changes.
    method StoreEntry(blk: int, k: int, addr: int, ghost i: int, ghost p: Path, ghost t: Tree)
      requires Shaped() && 0 <= blk < size && 0 <= k < NINDIRECT && 0 <= addr < size
      requires Owned(t, Used()) && t == Tree(addrs, SetEntry(ptr, blk, k, addr)) && 0 <= i < |addrs|
      requires IsPath(p) && |p| < Depth(p[0]) && Lookup(t, i, p) == blk != 0
      modifies this`ptr, this`data
      ensures Shaped() && T() == t && Contents(t, data) == Contents(t, old(data))
    {
      IndexBytes(t, Used(), data, i, p, PutWord(data[blk], k, addr));
      PutWordWords(data[blk], k, addr);
      data := data[blk := PutWord(data[blk], k, addr)];
      ptr := SetEntry(ptr, blk, k, addr);
    }

    // A block for the empty entry k of the index block blk, which is in cell p of inode i.
    method NewEntry(blk: int, k: int, ghost i: int, ghost p: Path) returns (ok: bool, addr: int)
      requires Valid() && 0 <= i < |addrs| && IsPath(p) && 0 <= k < NINDIRECT && IsPath(p + [k])
      requires Lookup(T(), i, p) == blk != 0 && Lookup(T(), i, p + [k]) == 0
      modifies this`bitmap, this`ptr, this`data
      ensures Shaped()
      ensures ok ==> Valid() && addr == Lookup(T(), i, p + [k]) != 0 && Extends(old(Now()), Now(), i, p + [k])
      ensures !ok ==> Full()
    {
      assert (p + [k])[..|p|] == p;
      ok, addr := Balloc();
      if !ok { return; }
      AttachEffect(old(T()), old(Used()), i, p + [k], addr, old(data), data[addr]);
      StoreEntry(blk, k, addr, i, p, Attach(old(T()), i, p + [k], addr));
    }

    // The address in entry k of the index block blk, which is in cell p of inode i,
    // allocated if necessary.  s0 is the device before bmap.
    method EntryCell(blk: int, k: int, ghost i: int, ghost p: Path, ghost s0: Image) returns (ok: bool, addr: int)
      requires Valid() && 0 <= i < |addrs| && IsPath(p) && 0 <= k < NINDIRECT
      requires IsPath(p + [k]) && Lookup(T(), i, p) == blk != 0 && Extends(s0, Now(), i, p)
      modifies this`bitmap, this`ptr, this`data
      ensures Shaped()
      ensures ok ==> Valid() && addr == Lookup(T(), i, p + [k]) != 0 && Extends(s0, Now(), i, p + [k])
      ensures !ok ==> Full() && Absent(s0.t, i, p + [k])
    {
      assert (p + [k])[..|p|] == p;
      ok, addr := true, Entry(blk, k);
      if addr == 0 {
        ok, addr := NewEntry(blk, k, i, p);
        if !ok {
          EmptyCellIsAbsent(s0.t, i, p + [k]);
          return;
        }
      }
      ExtendsAgain(s0, old(Now()), Now(), i, p, k);
    }

    // The disk block of block bn of file i, allocated with its index blocks if
    // necessary.  Not ok is one of the two panics.
    method Bmap(i: int, bn: int) returns (ok: bool, addr: int)
      requires Valid() && 0 <= i < |addrs| && 0 <= bn
      modifies this`bitmap, this`ptr, this`data, this`addrs
      ensures Shaped() && |addrs| == old(|addrs|)
      ensures ok ==> bn < MAXFILE && Valid() && addr == Lookup(T(), i, PathOf(bn)) != 0
      ensures ok ==> Extends(old(Now()), Now(), i, PathOf(bn))
      ensures !ok && bn < MAXFILE ==> Full() && old(Lookup(T(), i, PathOf(bn))) == 0
    {
      ghost var s0 := Now();
      if bn < NDIRECT {
        ok, addr := RootCell(i, bn);
        return;
      }
      var n := bn - NDIRECT;
      if n < NINDIRECT {
        assert PathOf(bn) == [NDIRECT] + [n];
        ok, addr := RootCell(i, NDIRECT);
        if ok {
          ok, addr := EntryCell(addr, n, i, [NDIRECT], s0);
        }
        return;
      }
      n := n - NINDIRECT;
      if n < NDINDIRECT {
        assert PathOf(bn) == [NDIRECT + 1] + [n / NINDIRECT] + [n % NINDIRECT];
        ok, addr := BmapDouble(i, n / NINDIRECT, n % NINDIRECT);
        return;
      }
      n := n - NDINDIRECT;
      if n < NTINDIRECT {
        var m := n % NDINDIRECT;
        assert PathOf(bn) == [NDIRECT + 2] + [n / NDINDIRECT] + [m / NINDIRECT] + [m % NINDIRECT];
        ok, addr := BmapTriple(i, n / NDINDIRECT, m / NINDIRECT, m % NINDIRECT);
        return;
      }
      ok, addr := false, 0;
    }

    // The last two levels of the double and the triple indirect branch.
    method TwoEntries(blk: int, k: int, l: int, ghost i: int, ghost p: Path, ghost s0: Image) returns (ok: bool, addr: int)
      requires Valid() && 0 <= i < |addrs| && IsPath(p) && |p| + 2 == Depth(p[0])
      requires 0 <= k < NINDIRECT && 0 <= l < NINDIRECT
      requires Lookup(T(), i, p) == blk != 0 && Extends(s0, Now(), i, p)
      modifies this`bitmap, this`ptr, this`data
      ensures Shaped()
      ensures if ok then Valid() && addr == Lookup(T(), i, p + [k] + [l]) != 0 && Extends(s0, Now(), i, p + [k] + [l])
              else Full() && Lookup(s0.t, i, p + [k] + [l]) == 0
    {
      assert p + [k] <= p + [k] + [l];
      ok, addr := EntryCell(blk, k, i, p, s0);
      if ok {
        ok, addr := EntryCell(addr, l, i, p + [k], s0);
      }
    }

    // The double indirect branch of bmap.
    method BmapDouble(i: int, inodeNum: int, blockNum: int) returns (ok: bool, addr: int)
      requires Valid() && 0 <= i < |addrs| && 0 <= inodeNum < NINDIRECT && 0 <= blockNum < NINDIRECT
      modifies this`bitmap, this`ptr, this`data, this`addrs
      ensures Shaped() && |addrs| == old(|addrs|)
      ensures var p := [NDIRECT + 1] + [inodeNum] + [blockNum];
        if ok then Valid() && addr == Lookup(T(), i, p) != 0 && Extends(old(Now()), Now(), i, p)
        else Full() && old(Lookup(T(), i, p)) == 0
    {
      ghost var s0 := Now();
      ok, addr := RootCell(i, NDIRECT + 1);
      if ok {
        ok, addr := TwoEntries(addr, inodeNum, blockNum, i, [NDIRECT + 1], s0);
      }
    }

    // The first two levels of the triple indirect branch.
    method TripleTop(i: int, first: int) returns (ok: bool, addr: int)
      requires Valid() && 0 <= i < |addrs| && 0 <= first < NINDIRECT
      modifies this`bitmap, this`ptr, this`data, this`addrs
      ensures Shaped() && |addrs| == old(|addrs|)
      ensures var q := [NDIRECT + 2] + [first];
        if ok then Valid() && addr == Lookup(T(), i, q) != 0 && Extends(old(Now()), Now(), i, q)
        else Full() && Absent(old(T()), i, q)
    {
      ghost var s0 := Now();
      assert [NDIRECT + 2] <= [NDIRECT + 2] + [first];
      ok, addr := RootCell(i, NDIRECT + 2);
      if ok {
        ok, addr := EntryCell(addr, first, i, [NDIRECT + 2], s0);
      }
    }

    // The triple indirect branch of bmap.
    method BmapTriple(i: int, first: int, second: int, blockNum: int) returns (ok: bool, addr: int)
      requires Valid() && 0 <= i < |addrs|
      requires 0 <= first < NINDIRECT && 0 <= second < NINDIRECT && 0 <= blockNum < NINDIRECT
      modifies this`bitmap, this`ptr, this`data, this`addrs
      ensures Shaped() && |addrs| == old(|addrs|)
      ensures var p := [NDIRECT + 2] + [first] + [second] + [blockNum];
        if ok then Valid() && addr == Lookup(T(), i, p) != 0 && Extends(old(Now()), Now(), i, p)
        else Full() && old(Lookup(T(), i, p)) == 0
    {
      ghost var s0 := Now();
      ghost var q := [NDIRECT + 2] + [first];
      assert q <= q + [second] + [blockNum];
      ok, addr := TripleTop(i, first);
      if ok {
        ok, addr := TwoEntries(addr, second, blockNum, i, q, s0);
      }
    }

    // ---- itrunc -----------------------------------------------------------
    // The nested loops of itrunc, one method for each depth.  t is the tree as it
    // was when itrunc was called, and p the cell that holds blk.

    ghost predicate ToFree(t: Tree, i: int, p: Path, blk: int, depth: int)
      reads this
    {
      && Shaped() && t.Shaped() && t.ptr == ptr && Distinct(t) && 0 <= i < |t.addrs|
      && IsPath(p) && |p| + depth == Depth(p[0]) && Lookup(t, i, p) == blk != 0
      && Marked(t, i, p, Used())
    }

    // bfree of a data block.
    method FreeBlock(blk: int, ghost t: Tree, ghost i: int, ghost p: Path) returns (ok: bool)
      requires ToFree(t, i, p, blk, 0)
      modifies this`bitmap
      ensures ok && Shaped() && Removed(t, i, p, old(Used()), Used())
    {
      assert p <= p && Under(t, i, p, blk);
      RemoveData(t, i, p, Used());
      ok := Bfree(blk);
    }

    // Frees the data blocks of the index block blk, and blk itself.
    method FreeSingle(blk: int, ghost t: Tree, ghost i: int, ghost p: Path) returns (ok: bool)
      requires ToFree(t, i, p, blk, 1)
      modifies this`bitmap
      ensures ok && Shaped() && Removed(t, i, p, old(Used()), Used())
    {
      ghost var u0 := Used();
      assert p <= p && Under(t, i, p, blk);
      var j := 0;
      while j < NINDIRECT
        invariant 0 <= j <= NINDIRECT && Shaped() && RemovedBelow(t, i, p, j, u0, Used())
      {
        ghost var u, q := Used(), p + [j];
        assert q[..|p|] == p && Lookup(t, i, q) == ptr[blk][j];
        NextMarked(t, i, p, j, u0, u);
        if Entry(blk, j) != 0 {
          ok := FreeBlock(Entry(blk, j), t, i, q);
          if !ok { return; }
        } else {
          RemoveNothing(t, i, q, u);
        }
        RemoveNext(t, i, p, j, u0, u, Used());
        j := j + 1;
      }
      IndexMarked(t, i, p, u0, Used());
      RemoveIndex(t, i, p, u0, Used());
      ok := Bfree(blk);
    }

    // Frees what is under the entries of the double indirect block blk, and blk itself.
    method FreeDouble(blk: int, ghost t: Tree, ghost i: int, ghost p: Path) returns (ok: bool)
      requires ToFree(t, i, p, blk, 2)
      modifies this`bitmap
      ensures ok && Shaped() && Removed(t, i, p, old(Used()), Used())
    {
      ghost var u0 := Used();
      assert p <= p && Under(t, i, p, blk);
      var j := 0;
      while j < NINDIRECT
        invariant 0 <= j <= NINDIRECT && Shaped() && RemovedBelow(t, i, p, j, u0, Used())
      {
        ghost var u, q := Used(), p + [j];
        assert q[..|p|] == p && Lookup(t, i, q) == ptr[blk][j];
        NextMarked(t, i, p, j, u0, u);
        if Entry(blk, j) != 0 {
          ok := FreeSingle(Entry(blk, j), t, i, q);
          if !ok { return; }
        } else {
          RemoveNothing(t, i, q, u);
        }
        RemoveNext(t, i, p, j, u0, u, Used());
        j := j + 1;
      }
      IndexMarked(t, i, p, u0, Used());
      RemoveIndex(t, i, p, u0, Used());
      ok := Bfree(blk);
    }

    // Frees what is under the entries of the triple indirect block blk, and blk itself.
    method FreeTriple(blk: int, ghost t: Tree, ghost i: int, ghost p: Path) returns (ok: bool)
      requires ToFree(t, i, p, blk, 3)
      modifies this`bitmap
      ensures ok && Shaped() && Removed(t, i, p, old(Used()), Used())
    {
      ghost var u0 := Used();
      assert p <= p && Under(t, i, p, blk);
      var j := 0;
      while j < NINDIRECT
        invariant 0 <= j <= NINDIRECT && Shaped() && RemovedBelow(t, i, p, j, u0, Used())
      {
        ghost var u, q := Used(), p + [j];
        assert q[..|p|] == p && Lookup(t, i, q) == ptr[blk][j];
        NextMarked(t, i, p, j, u0, u);
        if Entry(blk, j) != 0 {
          ok := FreeDouble(Entry(blk, j), t, i, q);
          if !ok { return; }
        } else {
          RemoveNothing(t, i, q, u);
        }
        RemoveNext(t, i, p, j, u0, u, Used());
        j := j + 1;
      }
      IndexMarked(t, i, p, u0, Used());
      RemoveIndex(t, i, p, u0, Used());
      ok := Bfree(blk);
    }

    // The first s addresses of inode i are 0, and what was below them is freed.
    ghost predicate Truncated(t: Tree, i: int, s: int, u0: seq<bool>)
      reads this
    {
      && Shaped() && t.Shaped() && t.ptr == ptr && Distinct(t) && 0 <= i < |addrs| == |t.addrs|
      && Marked(t, i, [], u0) && RemovedBelow(t, i, [], s, u0, Used())
      && (forall j :: 0 <= j < |addrs| && j != i ==> addrs[j] == t.addrs[j])
      && (forall k :: 0 <= k < NADDRS ==> addrs[i][k] == if k < s then 0 else t.addrs[i][k])
    }

    // The direct blocks.
    method FreeDirect(i: int, ghost t: Tree, ghost u0: seq<bool>) returns (ok: bool)
      requires Truncated(t, i, 0, u0)
      modifies this`bitmap, this`addrs
      ensures ok && Truncated(t, i, NDIRECT, u0)
    {
      var s := 0;
      ok := true;
      while s < NDIRECT
        invariant 0 <= s <= NDIRECT && ok && Truncated(t, i, s, u0)
      {
        ghost var u, q := Used(), [] + [s];
        assert q == [s] && Lookup(t, i, q) == addrs[i][s];
        NextMarked(t, i, [], s, u0, u);
        if addrs[i][s] != 0 {
          assert q <= q && Under(t, i, q, addrs[i][s]);
          ok := Bfree(addrs[i][s]);
          if !ok { return; }
          RemoveData(t, i, q, u);
          addrs := SetEntry(addrs, i, s, 0);
        } else {
          RemoveNothing(t, i, q, u);
        }
        RemoveNext(t, i, [], s, u0, u, Used());
        s := s + 1;
      }
    }

    // One of the three indirect addresses.
    method FreeIndirect(i: int, depth: int, ghost t: Tree, ghost u0: seq<bool>) returns (ok: bool)
      requires 1 <= depth <= 3 && Truncated(t, i, NDIRECT + depth - 1, u0)
      modifies this`bitmap, this`addrs
      ensures ok && Truncated(t, i, NDIRECT + depth, u0)
    {
      var s := NDIRECT + depth - 1;
      ok := true;
      ghost var u, q := Used(), [] + [s];
      assert q == [s] && Lookup(t, i, q) == addrs[i][s];
      NextMarked(t, i, [], s, u0, u);
      if addrs[i][s] != 0 {
        if depth == 1 {
          ok := FreeSingle(addrs[i][s], t, i, q);
        } else if depth == 2 {
          ok := FreeDouble(addrs[i][s], t, i, q);
        } else {
          ok := FreeTriple(addrs[i][s], t, i, q);
        }
        if !ok { return; }
        addrs := SetEntry(addrs, i, s, 0);
      } else {
        RemoveNothing(t, i, q, u);
      }
      RemoveNext(t, i, [], s, u0, u, Used());
    }

    // Frees every block of inode i and nothing else; no block is freed twice, so
    // bfree does not panic (ok).
    method Itrunc(i: int) returns (ok: bool)
      requires Valid() && 0 <= i < |addrs|
      modifies this`bitmap, this`addrs, this`sizes
      ensures ok && Valid() && |addrs| == old(|addrs|)
      ensures forall b :: 0 <= b < size ==> Used()[b] == (old(Used())[b] && !Under(old(T()), i, [], b))
      ensures forall p :: IsPath(p) ==> Lookup(T(), i, p) == 0
      ensures sizes == old(sizes)[i := 0]
      // Every other inode keeps its tree and its contents.
      ensures forall j, p :: 0 <= j < |addrs| && j != i && IsPath(p) ==> Lookup(T(), j, p) == old(Lookup(T(), j, p))
      ensures forall j :: 0 <= j < |addrs| ==> File(j) == if j == i then [] else old(File(j))
    {
      ghost var t, u0 := T(), Used();
      assert Marked(t, i, [], u0);
      ok := FreeDirect(i, t, u0);
      ok := FreeIndirect(i, 1, t, u0);
      ok := FreeIndirect(i, 2, t, u0);
      ok := FreeIndirect(i, 3, t, u0);
      sizes := sizes[i := 0];
      assert addrs[i] == Zeros(NADDRS);
      assert addrs == t.addrs[i := Zeros(NADDRS)];
      RemovedAll(t, i, u0, Used());
      ClearedOwned(t, i, u0, Used());
      forall j, p | 0 <= j < |addrs| && IsPath(p)
        ensures Lookup(T(), j, p) == if j == i then 0 else Lookup(t, j, p)
      {
        ClearedLookup(t, i, j, p);
      }
      assert Used()[0];
      forall j | 0 <= j < |addrs| && j != i ensures File(j) == old(File(j)) {
        assert Whole(T(), data, j) == Whole(t, data, j);
      }
    }

    // ---- readi and writei -------------------------------------------------

    // One turn of readi's loop: m bytes at pos, within one block.
    method ReadChunk(i: int, pos: nat, m: nat) returns (ok: bool, chunk: seq<Byte>)
      requires Valid() && 0 <= i < |addrs| && pos % BSIZE + m <= BSIZE && pos + m <= MAXFILE * BSIZE && m > 0
      modifies this`bitmap, this`ptr, this`data, this`addrs
      ensures Shaped() && |addrs| == old(|addrs|)
      ensures if ok then Valid() && Now().Contents() == old(Now().Contents()) else Full()
      ensures ok ==> chunk == Now().Contents()[i][pos..pos + m]
    {
      var addr;
      ok, addr := Bmap(i, pos / BSIZE);
      if ok {
        ReadBytes(T(), data, i, pos, m);
        chunk := data[addr][pos % BSIZE..pos % BSIZE + m];
      } else {
        chunk := [];
      }
    }

    // readi's loop.
    method ReadLoop(i: int, off: nat, len: nat) returns (ok: bool, dst: seq<Byte>)
      requires Valid() && 0 <= i < |addrs| && off + len <= MAXFILE * BSIZE
      modifies this`bitmap, this`ptr, this`data, this`addrs
      ensures Shaped() && |addrs| == old(|addrs|)
      ensures if ok then Valid() && Now().Contents() == old(Now().Contents()) else Full()
      ensures ok ==> dst == Now().Contents()[i][off..off + len]
    {
      ghost var c := Now().Contents();
      var tot := 0;
      ok, dst := true, [];
      while tot < len
        invariant 0 <= tot <= len && Valid() && |addrs| == old(|addrs|)
        invariant Now().Contents() == c && dst == c[i][off..off + tot]
      {
        var pos := off + tot;
        var m := Min(len - tot, BSIZE - pos % BSIZE);
        var chunk;
        ok, chunk := ReadChunk(i, pos, m);
        if !ok { return; }
        SliceAgain(c[i], off, tot, m);
        dst := dst + chunk;
        tot := tot + m;
      }
    }

    // Reads n bytes at off, as many as there are, from a file that is not a
    // device or a symbolic link.
    method Readi(i: int, off: nat, n: nat) returns (r: Outcome, dst: seq<Byte>)
      requires Valid() && 0 <= i < |addrs| && off < UINT && n < UINT
      modifies this`bitmap, this`ptr, this`data, this`addrs
      ensures Shaped() && |addrs| == old(|addrs|)
      ensures r == Minus1 <==> off > sizes[i] || off + n >= UINT
      ensures r.Count? ==> Valid() && dst == old(File(i))[off..Min(off + n, sizes[i])] && r.n == |dst|
      ensures !r.OutOfBlocks? ==> forall j :: 0 <= j < |addrs| ==> File(j) == old(File(j))
      ensures r.OutOfBlocks? ==> Full()
    {
      dst := [];
      if off > sizes[i] || (off + n) % UINT < off {
        r := Minus1;
        return;
      }
      var len := if off + n > sizes[i] then sizes[i] - off else n;
      var ok;
      ok, dst := ReadLoop(i, off, len);
      r := if ok then Count(len) else OutOfBlocks;
    }

    // The bytes of a data block, in both views: no cell of any tree changes.
    method StoreData(addr: int, block: seq<Byte>, ghost i: int, ghost p: Path)
      requires Valid() && 0 <= i < |addrs| && IsPath(p) && |p| == Depth(p[0])
      requires Lookup(T(), i, p) == addr != 0 && |block| == BSIZE
      modifies this`ptr, this`data
      ensures Valid() && data == old(data)[addr := block] && ptr == old(ptr)[addr := Words(block)]
      ensures forall j, q :: 0 <= j < |addrs| && IsPath(q) ==> Lookup(T(), j, q) == old(Lookup(T(), j, q))
      ensures Now().Contents() == Contents(old(T()), data)
    {
      DataOwned(T(), Used(), i, p, Words(block));
      data := data[addr := block];
      ptr := ptr[addr := Words(block)];
      SameContents(old(T()), T(), data);
    }

    // One turn of writei's loop: a chunk at pos, within one block.
    method WriteChunk(i: int, pos: nat, chunk: seq<Byte>) returns (ok: bool)
      requires Valid() && 0 <= i < |addrs| && |chunk| > 0
      requires pos % BSIZE + |chunk| <= BSIZE && pos + |chunk| <= MAXFILE * BSIZE
      modifies this`bitmap, this`ptr, this`data, this`addrs
      ensures Shaped() && |addrs| == old(|addrs|)
      ensures if ok then Valid() else Full()
      ensures ok ==> Now().Contents() == old(Now().Contents())[i := Splice(old(Now().Contents())[i], pos, chunk)]
      ensures ok ==> Kept(old(T()), T(), i)
    {
      var addr;
      ok, addr := Bmap(i, pos / BSIZE);
      if ok {
        WriteBytes(T(), Used(), data, i, pos, chunk, addr);
        StoreData(addr, Splice(data[addr], pos % BSIZE, chunk), i, PathOf(pos / BSIZE));
      }
    }

    // writei's loop.
    method WriteLoop(i: int, src: seq<Byte>, off: nat) returns (ok: bool)
      requires Valid() && 0 <= i < |addrs| && off + |src| <= MAXFILE * BSIZE
      modifies this`bitmap, this`ptr, this`data, this`addrs
      ensures Shaped() && |addrs| == old(|addrs|)
      ensures if ok then Valid() else Full()
      ensures ok ==> Now().Contents() == old(Now().Contents())[i := Splice(old(Now().Contents())[i], off, src)]
      ensures ok ==> Kept(old(T()), T(), i)
    {
      ghost var c := Now().Contents();
      var n, tot := |src|, 0;
      ok := true;
      assert Splice(c[i], off, src[..0]) == c[i];
      ghost var t0 := T();
      while tot < n
        invariant 0 <= tot <= n && Valid() && |addrs| == old(|addrs|)
        invariant Now().Contents() == c[i := Splice(c[i], off, src[..tot])] && Kept(t0, T(), i)
      {
        ghost var t := T();
        var pos := off + tot;
        var m := Min(n - tot, BSIZE - pos % BSIZE);
        assert 0 < m <= n - tot && pos % BSIZE + m <= BSIZE;
        ok := WriteChunk(i, pos, src[tot..tot + m]);
        if !ok { return; }
        KeptAgain(t0, t, T(), i);
        ContentsAgain(c, i, off, src, tot, m);
        tot := tot + m;
      }
      assert src[..n] == src;
    }

    // Writes src at off into a file that is not a device or a symbolic link.
    method Writei(i: int, src: seq<Byte>, off: nat) returns (r: Outcome)
      requires Valid() && 0 <= i < |addrs| && off < UINT && |src| < UINT
      modifies this`bitmap, this`ptr, this`data, this`addrs, this`sizes
      ensures Shaped() && |addrs| == old(|addrs|)
      ensures r == Minus1 <==> off > old(sizes[i]) || off + |src| > MAXFILE * BSIZE
      ensures r == Minus1 ==> Now() == old(Now()) && sizes == old(sizes)
      ensures r.Count? ==> Valid() && r.n == |src|
      // Every inode keeps its blocks, data and index blocks alike; only i may get new ones.
      ensures r.Count? ==> Kept(old(T()), T(), i)
      ensures r.Count? ==> forall j :: 0 <= j < |addrs| ==>
        File(j) == if j == i then Patched(old(File(i)), off, src) else old(File(j))
      ensures r.OutOfBlocks? ==> Full()
    {
      var n := |src|;
      if off > sizes[i] || (off + n) % UINT < off {
        r := Minus1;
        return;
      }
      if off + n > MAXFILE * BSIZE {
        r := Minus1;
        return;
      }
      ghost var c := Now().Contents();
      var ok := WriteLoop(i, src, off);
      if !ok {
        r := OutOfBlocks;
        return;
      }
      SplicedFile(c[i], off, src, sizes[i]);
      if n > 0 && off + n > sizes[i] {
        sizes := sizes[i := off + n];
      }
      r := Count(n);
    }
  }
}
