// The block trees of fs.c as values: an inode has ten direct, one single, one
// double and one triple indirect address, and index blocks hold 128 addresses.
module BlockTree {
  import opened Arith

  const BSIZE := 512
  const NDIRECT := 10
  const NINDIRECT := 128
  const NDINDIRECT := 16384      // NINDIRECT^2
  const NTINDIRECT := 2097152    // NINDIRECT^3
  const NADDRS := 13             // NDIRECT + 1 + 1 + 1
  const MAXFILE := 2113674       // NDIRECT + NINDIRECT + NDINDIRECT + NTINDIRECT

  // addrs[i] is ip->addrs of inode i; ptr[b] is block b read as 128 addresses (Words).
  datatype Tree = Tree(addrs: seq<seq<int>>, ptr: seq<seq<int>>) {
    ghost predicate Shaped() {
      && (forall i :: 0 <= i < |addrs| ==> |addrs[i]| == NADDRS)
      && (forall b :: 0 <= b < |ptr| ==> |ptr[b]| == NINDIRECT)
    }
  }

  // A cell of a tree: an address slot of the inode, then an entry of each index block below it.
  type Path = seq<int>

  function Depth(slot: int): int {
    if slot < NDIRECT then 1 else slot - NDIRECT + 2
  }

  predicate IsPath(p: Path) {
    && 1 <= |p| && 0 <= p[0] < NADDRS && |p| <= Depth(p[0])
    && forall k :: 1 <= k < |p| ==> 0 <= p[k] < NINDIRECT
  }

  // The address in a cell; 0 when there is none.
  function Lookup(t: Tree, i: int, p: Path): int
    requires t.Shaped() && 0 <= i < |t.addrs| && IsPath(p)
    decreases |p|
  {
    if |p| == 1 then t.addrs[i][p[0]]
    else
      var a := Lookup(t, i, p[..|p| - 1]);
      if 0 < a < |t.ptr| then t.ptr[a][p[|p| - 1]] else 0
  }

  // ---- The two views of a block -------------------------------------------

  type Byte = b: int | 0 <= b < 256

  ghost predicate BlocksFull(data: seq<seq<Byte>>) {
    forall b :: 0 <= b < |data| ==> |data[b]| == BSIZE
  }

  function Join(a: int, b: int, c: int, d: int): int {
    a + 0x100 * b + 0x1_0000 * c + 0x100_0000 * d
  }

  lemma SplitJoin(x: int)
    requires 0 <= x < UINT
    ensures Join(x % 0x100, x / 0x100 % 0x100, x / 0x1_0000 % 0x100, x / 0x100_0000) == x
  {
    assert x / 0x1_0000 == x / 0x100 / 0x100 && x / 0x100_0000 == x / 0x1_0000 / 0x100;
  }

  // Word k of a block, as a little-endian machine reads it.
  function Word(d: seq<Byte>, k: int): (w: int)
    requires |d| == BSIZE && 0 <= k < NINDIRECT
    ensures 0 <= w < UINT
  {
    Join(d[4 * k], d[4 * k + 1], d[4 * k + 2], d[4 * k + 3])
  }

  function Words(d: seq<Byte>): (ws: seq<int>)
    requires |d| == BSIZE
    ensures |ws| == NINDIRECT
  {
    seq(NINDIRECT, k requires 0 <= k < NINDIRECT => Word(d, k))
  }

  function PutWord(d: seq<Byte>, k: int, x: int): (r: seq<Byte>)
    requires |d| == BSIZE && 0 <= k < NINDIRECT && 0 <= x < UINT
    ensures |r| == BSIZE
  {
    d[4 * k := x % 0x100][4 * k + 1 := x / 0x100 % 0x100][4 * k + 2 := x / 0x1_0000 % 0x100][4 * k + 3 := x / 0x100_0000]
  }

  // Storing a word changes that word alone.
  lemma PutWordWords(d: seq<Byte>, k: int, x: int)
    requires |d| == BSIZE && 0 <= k < NINDIRECT && 0 <= x < UINT
    ensures Words(PutWord(d, k, x)) == Words(d)[k := x]
  {
    SplitJoin(x);
    var r := PutWord(d, k, x);
    assert forall j :: 0 <= j < BSIZE && !(4 * k <= j < 4 * k + 4) ==> r[j] == d[j];
    assert Word(r, k) == x;
    assert forall j :: 0 <= j < NINDIRECT && j != k ==> Word(r, j) == Word(d, j);
  }

  lemma ZeroWords(d: seq<Byte>)
    requires |d| == BSIZE && forall k :: 0 <= k < BSIZE ==> d[k] == 0
    ensures Words(d) == Zeros(NINDIRECT)
  {
    assert forall k :: 0 <= k < NINDIRECT ==> Word(d, k) == 0;
  }

  // The addresses are what the bytes say.
  ghost predicate Agree(ptr: seq<seq<int>>, data: seq<seq<Byte>>) {
    |ptr| == |data| && BlocksFull(data) && forall b :: 0 <= b < |data| ==> ptr[b] == Words(data[b])
  }

  function Zeros(n: nat): (z: seq<int>)
    ensures |z| == n && forall k :: 0 <= k < n ==> z[k] == 0
  {
    seq(n, k => 0)
  }

  // ---- Ownership ----------------------------------------------------------

  // Every allocated cell names a block in use, and no two cells name the same block.
  ghost predicate InUse(t: Tree, used: seq<bool>)
    requires t.Shaped()
  {
    && |used| == |t.ptr|
    && forall i, p :: 0 <= i < |t.addrs| && IsPath(p) && Lookup(t, i, p) != 0 ==>
         0 < Lookup(t, i, p) < |used| && used[Lookup(t, i, p)]
  }

  ghost predicate Distinct(t: Tree)
    requires t.Shaped()
  {
    forall i, p, j, q ::
      0 <= i < |t.addrs| && IsPath(p) && 0 <= j < |t.addrs| && IsPath(q) && Lookup(t, i, p) == Lookup(t, j, q) != 0
      ==> i == j && p == q
  }

  ghost predicate Owned(t: Tree, used: seq<bool>) {
    t.Shaped() && InUse(t, used) && Distinct(t)
  }

  // ---- File block numbers -------------------------------------------------

  // bmap's arithmetic.
  function PathOf(bn: int): (p: Path)
    requires 0 <= bn < MAXFILE
    ensures IsPath(p) && |p| == Depth(p[0])
  {
    if bn < NDIRECT then [bn]
    else if bn - NDIRECT < NINDIRECT then [NDIRECT, bn - NDIRECT]
    else if bn - NDIRECT - NINDIRECT < NDINDIRECT then
      var d := bn - NDIRECT - NINDIRECT;
      [NDIRECT + 1, d / NINDIRECT, d % NINDIRECT]
    else
      var d := bn - NDIRECT - NINDIRECT - NDINDIRECT;
      [NDIRECT + 2, d / NDINDIRECT, d % NDINDIRECT / NINDIRECT, d % NDINDIRECT % NINDIRECT]
  }

  // The file block whose data cell p is.
  function BlockOf(p: Path): int
    requires IsPath(p) && |p| == Depth(p[0])
  {
    if |p| == 1 then p[0]
    else if |p| == 2 then NDIRECT + p[1]
    else if |p| == 3 then NDIRECT + NINDIRECT + p[1] * NINDIRECT + p[2]
    else NDIRECT + NINDIRECT + NDINDIRECT + p[1] * NDINDIRECT + p[2] * NINDIRECT + p[3]
  }

  // Every data cell belongs to exactly one file block.
  lemma PathRoundTrip(bn: int)
    requires 0 <= bn < MAXFILE
    ensures BlockOf(PathOf(bn)) == bn
  {
  }

  lemma BlockRoundTrip(p: Path)
    requires IsPath(p) && |p| == Depth(p[0])
    ensures 0 <= BlockOf(p) < MAXFILE && PathOf(BlockOf(p)) == p
  {
    if |p| == 3 {
      Digits(p[1], p[2]);
    } else if |p| == 4 {
      Digits(p[2], p[3]);
      var m := p[2] * NINDIRECT + p[3];
      assert 0 <= m < NDINDIRECT;
      assert (p[1] * NDINDIRECT + m) / NDINDIRECT == p[1] && (p[1] * NDINDIRECT + m) % NDINDIRECT == m;
    }
  }

  lemma Digits(a: int, b: int)
    requires 0 <= a && 0 <= b < NINDIRECT
    ensures (a * NINDIRECT + b) / NINDIRECT == a && (a * NINDIRECT + b) % NINDIRECT == b
  {
  }

  // No two file blocks share a disk block.
  lemma FileBlocksAreDistinct(t: Tree, used: seq<bool>, i: int, m: int, j: int, n: int)
    requires Owned(t, used) && 0 <= i < |t.addrs| && 0 <= j < |t.addrs|
    requires 0 <= m < MAXFILE && 0 <= n < MAXFILE
    requires Lookup(t, i, PathOf(m)) == Lookup(t, j, PathOf(n)) != 0
    ensures i == j && m == n
  {
    PathRoundTrip(m);
    PathRoundTrip(n);
  }

  // ---- Allocating a cell --------------------------------------------------

  function SetEntry(s: seq<seq<int>>, b: int, k: int, x: int): seq<seq<int>>
    requires 0 <= b < |s| && 0 <= k < |s[b]|
  {
    s[b := s[b][k := x]]
  }

  // Stores address x in cell q of inode i, after block x has been zeroed.
  function Attach(t: Tree, i: int, q: Path, x: int): Tree
    requires t.Shaped() && 0 <= i < |t.addrs| && IsPath(q) && 0 < x < |t.ptr|
    requires |q| == 1 || 0 < Lookup(t, i, q[..|q| - 1]) < |t.ptr|
  {
    if |q| == 1 then Tree(SetEntry(t.addrs, i, q[0], x), t.ptr[x := Zeros(NINDIRECT)])
    else Tree(t.addrs, SetEntry(t.ptr[x := Zeros(NINDIRECT)], Lookup(t, i, q[..|q| - 1]), q[|q| - 1], x))
  }

  ghost predicate CanAttach(t: Tree, used: seq<bool>, i: int, q: Path, x: int) {
    && Owned(t, used) && 0 <= i < |t.addrs| && IsPath(q)
    && 0 < x < |t.ptr| && !used[x] && Lookup(t, i, q) == 0
    && (|q| == 1 || Lookup(t, i, q[..|q| - 1]) != 0)
  }

  // Only the cell itself changes, in any tree.
  lemma {:induction false} AttachLookup(t: Tree, used: seq<bool>, i: int, q: Path, x: int, j: int, p: Path)
    requires CanAttach(t, used, i, q, x) && 0 <= j < |t.addrs| && IsPath(p)
    ensures Lookup(Attach(t, i, q, x), j, p) == if j == i && p == q then x else Lookup(t, j, p)
    decreases |p|
  {
    var t' := Attach(t, i, q, x);
    if |p| > 1 {
      var p', q' := p[..|p| - 1], q[..|q| - 1];
      AttachLookup(t, used, i, q, x, j, p');
      if j == i && p' == q {
        assert t'.ptr[x] == Zeros(NINDIRECT);
      } else {
        var a := Lookup(t, j, p');
        if a != 0 && |q| > 1 && a == Lookup(t, i, q') {
          assert j == i && p' == q';
          assert p == p' + [p[|p| - 1]] && q == q' + [q[|q| - 1]];
        }
      }
    }
  }

  // Allocation keeps ownership.
  lemma AttachOwned(t: Tree, used: seq<bool>, i: int, q: Path, x: int)
    requires CanAttach(t, used, i, q, x)
    ensures Owned(Attach(t, i, q, x), used[x := true])
  {
    var t' := Attach(t, i, q, x);
    forall j, p | 0 <= j < |t.addrs| && IsPath(p)
      ensures Lookup(t', j, p) == if j == i && p == q then x else Lookup(t, j, p)
    {
      AttachLookup(t, used, i, q, x, j, p);
    }
  }

  // Whatever is written into the block of a data cell, no cell of any tree changes: a data block
  // is never an index block.
  lemma {:induction false} DataLookup(t: Tree, i: int, p: Path, ws: seq<int>, j: int, q: Path)
    requires t.Shaped() && Distinct(t) && 0 <= i < |t.addrs| && 0 <= j < |t.addrs| && IsPath(p) && IsPath(q)
    requires |p| == Depth(p[0]) && 0 < Lookup(t, i, p) < |t.ptr| && |ws| == NINDIRECT
    ensures var t' := Tree(t.addrs, t.ptr[Lookup(t, i, p) := ws]);
      t'.Shaped() && Lookup(t', j, q) == Lookup(t, j, q)
    decreases |q|
  {
    if |q| > 1 {
      var q' := q[..|q| - 1];
      DataLookup(t, i, p, ws, j, q');
      assert Lookup(t, j, q') == Lookup(t, i, p) ==> q' == p;
    }
  }

  lemma DataOwned(t: Tree, used: seq<bool>, i: int, p: Path, ws: seq<int>)
    requires Owned(t, used) && 0 <= i < |t.addrs| && IsPath(p) && |p| == Depth(p[0])
    requires Lookup(t, i, p) != 0 && |ws| == NINDIRECT
    ensures var t' := Tree(t.addrs, t.ptr[Lookup(t, i, p) := ws]);
      && Owned(t', used)
      && forall j, q :: 0 <= j < |t.addrs| && IsPath(q) ==> Lookup(t', j, q) == Lookup(t, j, q)
  {
    var t' := Tree(t.addrs, t.ptr[Lookup(t, i, p) := ws]);
    forall j, q | 0 <= j < |t.addrs| && IsPath(q) ensures Lookup(t', j, q) == Lookup(t, j, q) {
      DataLookup(t, i, p, ws, j, q);
    }
  }

  // A device on which no inode has an address.
  lemma EmptyOwned(t: Tree, used: seq<bool>)
    requires t.Shaped() && |used| == |t.ptr|
    requires forall i, k :: 0 <= i < |t.addrs| && 0 <= k < NADDRS ==> t.addrs[i][k] == 0
    ensures Owned(t, used)
    ensures forall i, p :: 0 <= i < |t.addrs| && IsPath(p) ==> Lookup(t, i, p) == 0
  {
    forall i, p | 0 <= i < |t.addrs| && IsPath(p) ensures Lookup(t, i, p) == 0 {
      assert Lookup(t, i, [p[0]]) == 0;
      NothingUnder(t, i, [p[0]], p);
    }
  }

  // ---- Freeing ------------------------------------------------------------

  // b is the address of cell p of inode i or of a cell below it; with p == [], of
  // any cell of the inode.
  ghost predicate Under(t: Tree, i: int, p: Path, b: int)
    requires t.Shaped() && 0 <= i < |t.addrs|
  {
    b != 0 && exists q :: IsPath(q) && p <= q && Lookup(t, i, q) == b
  }

  // A cell without an address has nothing below it.
  lemma {:induction false} NothingUnder(t: Tree, i: int, p: Path, q: Path)
    requires t.Shaped() && 0 <= i < |t.addrs| && IsPath(p) && IsPath(q) && p <= q
    requires Lookup(t, i, p) == 0
    ensures Lookup(t, i, q) == 0
    decreases |q|
  {
    if |q| > |p| {
      NothingUnder(t, i, p, q[..|q| - 1]);
    } else {
      assert p == q;
    }
  }

  ghost predicate Absent(t: Tree, i: int, p: Path)
    requires t.Shaped() && 0 <= i < |t.addrs|
  {
    forall q :: IsPath(q) && p <= q ==> Lookup(t, i, q) == 0
  }

  lemma EmptyCellIsAbsent(t: Tree, i: int, p: Path)
    requires t.Shaped() && 0 <= i < |t.addrs| && IsPath(p) && Lookup(t, i, p) == 0
    ensures Absent(t, i, p)
  {
    forall q | IsPath(q) && p <= q ensures Lookup(t, i, q) == 0 {
      NothingUnder(t, i, p, q);
    }
  }

  // What lies under an index cell: its own block, and what lies under its entries.
  lemma UnderIndex(t: Tree, i: int, p: Path, b: int)
    requires t.Shaped() && 0 <= i < |t.addrs| && IsPath(p) && |p| < Depth(p[0])
    ensures Under(t, i, p, b) <==>
      b != 0 && (b == Lookup(t, i, p) || exists k :: 0 <= k < NINDIRECT && Under(t, i, p + [k], b))
  {
    if Under(t, i, p, b) {
      var q :| IsPath(q) && p <= q && Lookup(t, i, q) == b;
      if q != p {
        assert p + [q[|p|]] <= q;
        assert Under(t, i, p + [q[|p|]], b);
      }
    }
    if k :| 0 <= k < NINDIRECT && Under(t, i, p + [k], b) {
      var q :| IsPath(q) && p + [k] <= q && Lookup(t, i, q) == b;
      assert p <= q;
    }
  }

  // Under a data cell there is only its own block.
  lemma UnderData(t: Tree, i: int, p: Path, b: int)
    requires t.Shaped() && 0 <= i < |t.addrs| && IsPath(p) && |p| == Depth(p[0])
    ensures Under(t, i, p, b) <==> b != 0 && b == Lookup(t, i, p)
  {
    if Under(t, i, p, b) {
      var q :| IsPath(q) && p <= q && Lookup(t, i, q) == b;
      assert q == p;
    }
  }

  // Different entries of an index block have no block in common below them.
  lemma SiblingsDisjoint(t: Tree, i: int, p: Path, k: int, n: int, b: int)
    requires t.Shaped() && Distinct(t) && 0 <= i < |t.addrs| && k != n
    requires Under(t, i, p + [k], b)
    ensures !Under(t, i, p + [n], b)
  {
    var q :| IsPath(q) && p + [k] <= q && Lookup(t, i, q) == b;
    assert q[|p|] == k;
    forall r | IsPath(r) && p + [n] <= r ensures Lookup(t, i, r) != b {
      assert r[|p|] == n;
    }
  }

  // An index block is not below its own entries.
  lemma IndexNotBelow(t: Tree, i: int, p: Path, k: int)
    requires t.Shaped() && Distinct(t) && 0 <= i < |t.addrs| && IsPath(p) && Lookup(t, i, p) != 0
    ensures !Under(t, i, p + [k], Lookup(t, i, p))
  {
    forall q | IsPath(q) && p + [k] <= q ensures Lookup(t, i, q) != Lookup(t, i, p) {
      assert |q| > |p|;
    }
  }

  // From u0 to u exactly the blocks under p have lost their mark.
  ghost predicate Removed(t: Tree, i: int, p: Path, u0: seq<bool>, u: seq<bool>)
    requires t.Shaped() && 0 <= i < |t.addrs|
  {
    |u| == |u0| && forall b :: 0 <= b < |u| ==> u[b] == (u0[b] && !Under(t, i, p, b))
  }

  // ... exactly the blocks under the first n cells below p.
  ghost predicate RemovedBelow(t: Tree, i: int, p: Path, n: int, u0: seq<bool>, u: seq<bool>)
    requires t.Shaped() && 0 <= i < |t.addrs|
  {
    && |u| == |u0|
    && forall b :: 0 <= b < |u| ==> u[b] == (u0[b] && !exists k :: 0 <= k < n && Under(t, i, p + [k], b))
  }

  ghost predicate Marked(t: Tree, i: int, p: Path, u: seq<bool>)
    requires t.Shaped() && 0 <= i < |t.addrs|
  {
    forall b :: Under(t, i, p, b) ==> 0 < b < |u| && u[b]
  }

  lemma RemoveNothing(t: Tree, i: int, p: Path, u: seq<bool>)
    requires t.Shaped() && 0 <= i < |t.addrs| && IsPath(p) && Lookup(t, i, p) == 0
    ensures Removed(t, i, p, u, u)
  {
    EmptyCellIsAbsent(t, i, p);
  }

  lemma RemoveData(t: Tree, i: int, p: Path, u: seq<bool>)
    requires t.Shaped() && 0 <= i < |t.addrs| && IsPath(p) && |p| == Depth(p[0])
    requires 0 < Lookup(t, i, p) < |u|
    ensures Removed(t, i, p, u, u[Lookup(t, i, p) := false])
  {
    forall b ensures Under(t, i, p, b) <==> b != 0 && b == Lookup(t, i, p) {
      UnderData(t, i, p, b);
    }
  }

  lemma RemoveIndex(t: Tree, i: int, p: Path, u0: seq<bool>, u: seq<bool>)
    requires t.Shaped() && 0 <= i < |t.addrs| && IsPath(p) && |p| < Depth(p[0])
    requires 0 < Lookup(t, i, p) < |u| && RemovedBelow(t, i, p, NINDIRECT, u0, u)
    ensures Removed(t, i, p, u0, u[Lookup(t, i, p) := false])
  {
    forall b | 0 <= b < |u|
      ensures u[Lookup(t, i, p) := false][b] == (u0[b] && !Under(t, i, p, b))
    {
      UnderIndex(t, i, p, b);
    }
  }

  lemma RemoveNext(t: Tree, i: int, p: Path, n: int, u0: seq<bool>, u: seq<bool>, u': seq<bool>)
    requires t.Shaped() && 0 <= i < |t.addrs| && 0 <= n
    requires RemovedBelow(t, i, p, n, u0, u) && Removed(t, i, p + [n], u, u')
    ensures RemovedBelow(t, i, p, n + 1, u0, u')
  {
  }

  // What is still to be freed still has its mark, since no block is shared.
  lemma NextMarked(t: Tree, i: int, p: Path, n: int, u0: seq<bool>, u: seq<bool>)
    requires t.Shaped() && Distinct(t) && 0 <= i < |t.addrs| && 0 <= n
    requires Marked(t, i, p, u0) && RemovedBelow(t, i, p, n, u0, u)
    ensures Marked(t, i, p + [n], u)
  {
    forall b | Under(t, i, p + [n], b) ensures 0 < b < |u| && u[b] {
      var q :| IsPath(q) && p + [n] <= q && Lookup(t, i, q) == b;
      assert p <= q;
      assert Under(t, i, p, b);
      forall k | 0 <= k < n ensures !Under(t, i, p + [k], b) {
        SiblingsDisjoint(t, i, p, n, k, b);
      }
    }
  }

  lemma IndexMarked(t: Tree, i: int, p: Path, u0: seq<bool>, u: seq<bool>)
    requires t.Shaped() && Distinct(t) && 0 <= i < |t.addrs| && IsPath(p) && Lookup(t, i, p) != 0
    requires Marked(t, i, p, u0) && RemovedBelow(t, i, p, NINDIRECT, u0, u)
    ensures 0 < Lookup(t, i, p) < |u| && u[Lookup(t, i, p)]
  {
    var b := Lookup(t, i, p);
    assert p <= p && Under(t, i, p, b);
    forall k | 0 <= k < NINDIRECT ensures !Under(t, i, p + [k], b) {
      IndexNotBelow(t, i, p, k);
    }
  }

  // An inode has no blocks but those below its addresses.
  lemma RemovedAll(t: Tree, i: int, u0: seq<bool>, u: seq<bool>)
    requires t.Shaped() && 0 <= i < |t.addrs| && RemovedBelow(t, i, [], NADDRS, u0, u)
    ensures Removed(t, i, [], u0, u)
  {
    forall b ensures Under(t, i, [], b) <==> exists k :: 0 <= k < NADDRS && Under(t, i, [] + [k], b) {
      if Under(t, i, [], b) {
        var q :| IsPath(q) && [] <= q && Lookup(t, i, q) == b;
        assert [] + [q[0]] <= q;
        assert Under(t, i, [] + [q[0]], b);
      }
    }
  }

  // Once all addresses of an inode are 0 it has no cells, and no other inode has changed.
  lemma {:induction false} ClearedLookup(t: Tree, i: int, j: int, p: Path)
    requires t.Shaped() && 0 <= i < |t.addrs| && 0 <= j < |t.addrs| && IsPath(p)
    ensures var t' := Tree(t.addrs[i := Zeros(NADDRS)], t.ptr);
      t'.Shaped() && Lookup(t', j, p) == if j == i then 0 else Lookup(t, j, p)
    decreases |p|
  {
    if |p| > 1 {
      ClearedLookup(t, i, j, p[..|p| - 1]);
    }
  }

  lemma ClearedOwned(t: Tree, i: int, u0: seq<bool>, u: seq<bool>)
    requires Owned(t, u0) && 0 <= i < |t.addrs| && Removed(t, i, [], u0, u)
    ensures Owned(Tree(t.addrs[i := Zeros(NADDRS)], t.ptr), u)
  {
    var t' := Tree(t.addrs[i := Zeros(NADDRS)], t.ptr);
    forall j, p | 0 <= j < |t.addrs| && IsPath(p)
      ensures Lookup(t', j, p) == if j == i then 0 else Lookup(t, j, p)
    {
      ClearedLookup(t, i, j, p);
    }
  }

  // ---- Contents -----------------------------------------------------------

  // Byte o of file i; a hole reads as zero.
  function ByteAt(t: Tree, data: seq<seq<Byte>>, i: int, o: int): Byte
    requires t.Shaped() && 0 <= i < |t.addrs| && 0 <= o < MAXFILE * BSIZE
    requires BlocksFull(data)
  {
    var a := Lookup(t, i, PathOf(o / BSIZE));
    if 0 < a < |data| then data[a][o % BSIZE] else 0
  }

  // Everything that could be read from file i, whatever its size.
  ghost function Whole(t: Tree, data: seq<seq<Byte>>, i: int): (s: seq<Byte>)
    requires t.Shaped() && 0 <= i < |t.addrs| && BlocksFull(data)
    ensures |s| == MAXFILE * BSIZE && forall o :: 0 <= o < |s| ==> s[o] == ByteAt(t, data, i, o)
  {
    seq(MAXFILE * BSIZE, o requires 0 <= o < MAXFILE * BSIZE => ByteAt(t, data, i, o))
  }

  ghost function Contents(t: Tree, data: seq<seq<Byte>>): (s: seq<seq<Byte>>)
    requires t.Shaped() && BlocksFull(data)
    ensures |s| == |t.addrs| && forall i :: 0 <= i < |s| ==> s[i] == Whole(t, data, i)
  {
    seq(|t.addrs|, i requires 0 <= i < |t.addrs| => Whole(t, data, i))
  }

  function Splice(block: seq<Byte>, at: int, chunk: seq<Byte>): (s: seq<Byte>)
    requires 0 <= at && at + |chunk| <= |block|
    ensures |s| == |block|
  {
    block[..at] + chunk + block[at + |chunk|..]
  }

  // A chunk that ends in the block it begins in, by offsets in the file and in the block.
  lemma InChunk(pos: int, n: nat, o: int)
    requires 0 <= pos && 0 <= o && pos % BSIZE + n <= BSIZE
    ensures pos <= o < pos + n <==> o / BSIZE == pos / BSIZE && pos % BSIZE <= o % BSIZE < pos % BSIZE + n
    ensures o / BSIZE == pos / BSIZE ==> o - pos == o % BSIZE - pos % BSIZE
  {
  }

  // Storing a chunk in the block of one file changes those bytes of that file, and
  // no other byte of any file.
  lemma WriteByte(t: Tree, used: seq<bool>, data: seq<seq<Byte>>, i: int, pos: int, chunk: seq<Byte>, a: int, j: int, o: int)
    requires Owned(t, used) && |data| == |t.ptr| && BlocksFull(data) && 0 <= i < |t.addrs| && 0 <= j < |t.addrs|
    requires 0 <= pos < MAXFILE * BSIZE && pos + |chunk| <= MAXFILE * BSIZE && pos % BSIZE + |chunk| <= BSIZE
    requires a == Lookup(t, i, PathOf(pos / BSIZE)) != 0
    requires 0 <= o < MAXFILE * BSIZE
    ensures var data' := data[a := Splice(data[a], pos % BSIZE, chunk)];
      ByteAt(t, data', j, o) == if j == i && pos <= o < pos + |chunk| then chunk[o - pos] else ByteAt(t, data, j, o)
  {
    InChunk(pos, |chunk|, o);
    if Lookup(t, j, PathOf(o / BSIZE)) == a {
      FileBlocksAreDistinct(t, used, i, pos / BSIZE, j, o / BSIZE);
    } else {
      assert j != i || o / BSIZE != pos / BSIZE;
    }
  }

  lemma WriteWhole(t: Tree, used: seq<bool>, data: seq<seq<Byte>>, i: int, pos: int, chunk: seq<Byte>, a: int, j: int)
    requires Owned(t, used) && |data| == |t.ptr| && BlocksFull(data) && 0 <= i < |t.addrs| && 0 <= j < |t.addrs|
    requires 0 <= pos < MAXFILE * BSIZE && pos + |chunk| <= MAXFILE * BSIZE && pos % BSIZE + |chunk| <= BSIZE
    requires a == Lookup(t, i, PathOf(pos / BSIZE)) != 0
    ensures var data' := data[a := Splice(data[a], pos % BSIZE, chunk)];
      Whole(t, data', j) == if j == i then Splice(Whole(t, data, i), pos, chunk) else Whole(t, data, j)
  {
    var data' := data[a := Splice(data[a], pos % BSIZE, chunk)];
    var w := if j == i then Splice(Whole(t, data, i), pos, chunk) else Whole(t, data, j);
    forall o | 0 <= o < MAXFILE * BSIZE ensures Whole(t, data', j)[o] == w[o] {
      WriteByte(t, used, data, i, pos, chunk, a, j, o);
    }
  }

  lemma WriteBytes(t: Tree, used: seq<bool>, data: seq<seq<Byte>>, i: int, pos: int, chunk: seq<Byte>, a: int)
    requires Owned(t, used) && |data| == |t.ptr| && BlocksFull(data) && 0 <= i < |t.addrs|
    requires 0 <= pos < MAXFILE * BSIZE && pos + |chunk| <= MAXFILE * BSIZE && pos % BSIZE + |chunk| <= BSIZE
    requires a == Lookup(t, i, PathOf(pos / BSIZE)) != 0
    ensures var data' := data[a := Splice(data[a], pos % BSIZE, chunk)];
      Contents(t, data') == Contents(t, data)[i := Splice(Contents(t, data)[i], pos, chunk)]
  {
    var data' := data[a := Splice(data[a], pos % BSIZE, chunk)];
    forall j | 0 <= j < |t.addrs|
      ensures Contents(t, data')[j] == if j == i then Splice(Whole(t, data, i), pos, chunk) else Whole(t, data, j)
    {
      WriteWhole(t, used, data, i, pos, chunk, a, j);
    }
  }

  // Storing an address in an index block changes no byte of any file.
  lemma IndexBytes(t: Tree, used: seq<bool>, data: seq<seq<Byte>>, i: int, p: Path, d: seq<Byte>)
    requires Owned(t, used) && |data| == |t.ptr| && BlocksFull(data) && 0 <= i < |t.addrs|
    requires IsPath(p) && |p| < Depth(p[0]) && Lookup(t, i, p) != 0 && |d| == BSIZE
    ensures Contents(t, data[Lookup(t, i, p) := d]) == Contents(t, data)
  {
    var data' := data[Lookup(t, i, p) := d];
    forall j, o | 0 <= j < |t.addrs| && 0 <= o < MAXFILE * BSIZE ensures ByteAt(t, data', j, o) == ByteAt(t, data, j, o) {
      assert PathOf(o / BSIZE) != p;
    }
    assert forall j :: 0 <= j < |t.addrs| ==> Whole(t, data', j) == Whole(t, data, j);
  }

  // The files depend on the trees only through their data cells.
  lemma SameContents(t: Tree, t': Tree, data: seq<seq<Byte>>)
    requires t.Shaped() && t'.Shaped() && BlocksFull(data) && |t'.addrs| == |t.addrs|
    requires forall j, q :: 0 <= j < |t.addrs| && IsPath(q) ==> Lookup(t', j, q) == Lookup(t, j, q)
    ensures Contents(t', data) == Contents(t, data)
  {
    forall j, o | 0 <= j < |t.addrs| && 0 <= o < MAXFILE * BSIZE ensures ByteAt(t', data, j, o) == ByteAt(t, data, j, o) {
    }
    assert forall j :: 0 <= j < |t.addrs| ==> Whole(t', data, j) == Whole(t, data, j);
  }

  // What lies within one block of a file can be read from that block.
  lemma ReadBytes(t: Tree, data: seq<seq<Byte>>, i: int, pos: int, m: int)
    requires t.Shaped() && 0 <= i < |t.addrs| && BlocksFull(data) && 0 <= pos && 0 < m && pos % BSIZE + m <= BSIZE
    requires pos + m <= MAXFILE * BSIZE && 0 < Lookup(t, i, PathOf(pos / BSIZE)) < |data|
    ensures data[Lookup(t, i, PathOf(pos / BSIZE))][pos % BSIZE..pos % BSIZE + m] == Contents(t, data)[i][pos..pos + m]
  {
    var a := Lookup(t, i, PathOf(pos / BSIZE));
    var x, y := data[a][pos % BSIZE..pos % BSIZE + m], Whole(t, data, i)[pos..pos + m];
    forall k | 0 <= k < m ensures x[k] == y[k] {
      assert (pos + k) / BSIZE == pos / BSIZE && (pos + k) % BSIZE == pos % BSIZE + k;
    }
  }

  // Allocating a zeroed block anywhere leaves the contents of every file alone.
  lemma AttachBytes(t: Tree, used: seq<bool>, i: int, q: Path, x: int, data: seq<seq<Byte>>, zero: seq<Byte>, j: int, o: int)
    requires CanAttach(t, used, i, q, x) && |data| == |t.ptr| && 0 <= j < |t.addrs|
    requires 0 <= o < MAXFILE * BSIZE
    requires |zero| == BSIZE && (forall k :: 0 <= k < BSIZE ==> zero[k] == 0)
    requires BlocksFull(data)
    ensures Attach(t, i, q, x).Shaped()
    ensures ByteAt(Attach(t, i, q, x), data[x := zero], j, o) == ByteAt(t, data, j, o)
  {
    AttachOwned(t, used, i, q, x);
    AttachLookup(t, used, i, q, x, j, PathOf(o / BSIZE));
  }

  // t' is t with cells on the way to p allocated.
  ghost predicate Grown(t: Tree, t': Tree, i: int, p: Path) {
    && t.Shaped() && t'.Shaped() && |t'.addrs| == |t.addrs| && |t'.ptr| == |t.ptr|
    && forall j, q :: 0 <= j < |t.addrs| && IsPath(q) ==>
         Lookup(t', j, q) == Lookup(t, j, q) || (Lookup(t, j, q) == 0 && j == i && q <= p)
  }

  // No cell loses or changes its address, and only inode i may have got new ones.
  ghost predicate Kept(t: Tree, t': Tree, i: int) {
    && t.Shaped() && t'.Shaped() && |t'.addrs| == |t.addrs|
    && forall j, q :: 0 <= j < |t.addrs| && IsPath(q) ==>
         Lookup(t', j, q) == Lookup(t, j, q) || (Lookup(t, j, q) == 0 && j == i)
  }

  lemma KeptAgain(t: Tree, t': Tree, t'': Tree, i: int)
    requires Kept(t, t', i) && Kept(t', t'', i)
    ensures Kept(t, t'', i)
  {
  }

  // The allocation of one cell, as seen by every file.
  lemma AttachEffect(t: Tree, used: seq<bool>, i: int, q: Path, x: int, data: seq<seq<Byte>>, zero: seq<Byte>)
    requires CanAttach(t, used, i, q, x) && |data| == |t.ptr|
    requires |zero| == BSIZE && (forall k :: 0 <= k < BSIZE ==> zero[k] == 0)
    requires BlocksFull(data)
    ensures var t' := Attach(t, i, q, x);
      && Owned(t', used[x := true]) && Lookup(t', i, q) == x
      && Grown(t, t', i, q) && BlocksFull(data[x := zero])
      && Contents(t', data[x := zero]) == Contents(t, data)
  {
    var t' := Attach(t, i, q, x);
    AttachOwned(t, used, i, q, x);
    forall j, p | 0 <= j < |t.addrs| && IsPath(p)
      ensures Lookup(t', j, p) == if j == i && p == q then x else Lookup(t, j, p)
    {
      AttachLookup(t, used, i, q, x, j, p);
    }
    forall j, o | 0 <= j < |t.addrs| && 0 <= o < MAXFILE * BSIZE
      ensures ByteAt(t', data[x := zero], j, o) == ByteAt(t, data, j, o)
    {
      AttachBytes(t, used, i, q, x, data, zero, j, o);
    }
    assert forall j :: 0 <= j < |t.addrs| ==> Whole(t', data[x := zero], j) == Whole(t, data, j);
  }

  lemma GrownAgain(t: Tree, t': Tree, t'': Tree, i: int, p: Path, q: Path)
    requires Grown(t, t', i, p) && Grown(t', t'', i, q) && p <= q
    ensures Grown(t, t'', i, q)
  {
    forall j, r | 0 <= j < |t.addrs| && IsPath(r)
      ensures Lookup(t'', j, r) == Lookup(t, j, r) || (Lookup(t, j, r) == 0 && j == i && r <= q)
    {
      assert Lookup(t', j, r) == Lookup(t, j, r) || r <= p;
    }
  }
}
