// The circular free list of umalloc.c as a value: its blocks in address order,
// starting with the static, empty `base`.  Addresses and sizes are in units of
// sizeof(Header).
module FreeList {
  const BASE := 1               // the address of `base`, below the heap

  datatype Block = Block(addr: int, size: int) {
    function End(): int { addr + size }
  }

  // Address-ordered and fully coalesced: no block touches the next one.
  ghost predicate Ordered(s: seq<Block>) {
    && 0 < |s| && s[0] == Block(BASE, 0)
    && (forall k :: 1 <= k < |s| ==> 0 < s[k].size)
    && (forall k :: 0 <= k < |s| - 1 ==> s[k].End() < s[k + 1].addr)
  }

  ghost predicate Covers(s: seq<Block>, u: int) {
    exists k :: 0 <= k < |s| && s[k].addr <= u < s[k].End()
  }

  lemma {:induction false} Increasing(s: seq<Block>, i: int, j: int)
    requires Ordered(s) && 0 <= i < j < |s|
    ensures s[i].End() < s[j].addr && s[i].addr <= s[i].End()
    decreases j - i
  {
    if i + 1 < j {
      Increasing(s, i, j - 1);
    }
  }

  lemma AllIncreasing(s: seq<Block>)
    requires Ordered(s)
    ensures forall i, j :: 0 <= i < j < |s| ==> s[i].End() < s[j].addr
    ensures forall i, j :: 0 <= i < j < |s| ==> s[i].addr < s[j].addr
    ensures forall i :: 0 <= i < |s| ==> s[i].addr <= s[i].End()
  {
    forall i, j | 0 <= i < j < |s| ensures s[i].End() < s[j].addr && s[i].addr < s[j].addr {
      Increasing(s, i, j);
    }
  }

  // The last block below address a.
  ghost predicate IsGap(s: seq<Block>, a: int, g: int) {
    0 <= g < |s| && s[g].addr < a && (g + 1 < |s| ==> a < s[g + 1].addr)
  }

  lemma {:induction false} GapExists(s: seq<Block>, a: int) returns (g: int)
    requires Ordered(s) && BASE < a && forall k :: 0 <= k < |s| ==> s[k].addr != a
    ensures IsGap(s, a, g)
  {
    g := 0;
    while g + 1 < |s| && s[g + 1].addr < a
      invariant 0 <= g < |s| && s[g].addr < a
    {
      g := g + 1;
    }
  }

  lemma GapIsUnique(s: seq<Block>, a: int, g: int, h: int)
    requires Ordered(s) && IsGap(s, a, g) && IsGap(s, a, h)
    ensures g == h
  {
    AllIncreasing(s);
  }

  // Block b has nothing in common with the list.
  ghost predicate Apart(s: seq<Block>, b: Block) {
    0 < b.size && BASE < b.addr && forall k :: 0 <= k < |s| ==> s[k].End() <= b.addr || b.End() <= s[k].addr
  }

  // ... that is, no unit in common.
  lemma ApartByUnits(s: seq<Block>, b: Block)
    requires Ordered(s) && 0 < b.size && BASE < b.addr
    ensures Apart(s, b) <==> forall u :: b.addr <= u < b.End() ==> !Covers(s, u)
  {
    if forall u :: b.addr <= u < b.End() ==> !Covers(s, u) {
      forall k | 0 <= k < |s| ensures s[k].End() <= b.addr || b.End() <= s[k].addr {
        var u := if s[k].addr < b.addr then b.addr else s[k].addr;
        assert s[k].addr <= u < s[k].End() ==> Covers(s, u);
      }
    }
  }

  // ---- Freeing ------------------------------------------------------------

  // b goes between block g and the next one.
  function Place(s: seq<Block>, g: int, b: Block): seq<Block>
    requires 0 <= g < |s|
  {
    s[..g + 1] + [b] + s[g + 1..]
  }

  // Blocks k and k + 1 become one if they touch.
  function Join(s: seq<Block>, k: int): seq<Block>
    requires 0 <= k < |s|
  {
    if k + 1 < |s| && s[k].End() == s[k + 1].addr
    then s[..k] + [Block(s[k].addr, s[k].size + s[k + 1].size)] + s[k + 2..]
    else s
  }

  // free: b joins the list after block g, merged with the blocks it touches.
  function Insert(s: seq<Block>, g: int, b: Block): seq<Block>
    requires 0 <= g < |s|
  {
    Join(Join(Place(s, g, b), g + 1), g)
  }

  // Address-ordered, and coalesced but for blocks lo to hi, which may touch their successors.
  ghost predicate OrderedBut(s: seq<Block>, lo: int, hi: int) {
    && 0 < |s| && s[0] == Block(BASE, 0) && (|s| > 1 ==> BASE < s[1].addr)
    && (forall k :: 1 <= k < |s| ==> 0 < s[k].size)
    && (forall k :: 0 <= k < |s| - 1 ==> s[k].End() <= s[k + 1].addr && (s[k].End() < s[k + 1].addr || lo <= k <= hi))
  }

  lemma {:induction false} ButIncreasingAt(s: seq<Block>, lo: int, hi: int, i: int, j: int)
    requires OrderedBut(s, lo, hi) && 0 <= i < j < |s|
    ensures s[i].End() <= s[j].addr && s[i].addr < s[j].addr
    decreases j - i
  {
    if i + 1 < j {
      ButIncreasingAt(s, lo, hi, i, j - 1);
    }
  }

  lemma ButIncreasing(s: seq<Block>, lo: int, hi: int)
    requires OrderedBut(s, lo, hi)
    ensures forall i, j :: 0 <= i < j < |s| ==> s[i].addr < s[j].addr
  {
    forall i, j | 0 <= i < j < |s| ensures s[i].addr < s[j].addr {
      ButIncreasingAt(s, lo, hi, i, j);
    }
  }

  lemma PlaceOrdered(s: seq<Block>, g: int, b: Block)
    requires Ordered(s) && Apart(s, b) && IsGap(s, b.addr, g)
    ensures OrderedBut(Place(s, g, b), g, g + 1)
  {
    assert s[g].End() <= b.addr;
    assert g + 1 < |s| ==> b.End() <= s[g + 1].addr;
  }

  lemma JoinAt(s: seq<Block>, h: int, k: int)
    requires 0 <= h < |s| && Join(s, h) != s && 0 <= k < |s| - 1
    ensures h + 1 < |s| && s[h].End() == s[h + 1].addr && |Join(s, h)| == |s| - 1
    ensures Join(s, h)[k] ==
      if k < h then s[k] else if k == h then Block(s[h].addr, s[h].size + s[h + 1].size) else s[k + 1]
  {
  }

  lemma JoinOrdered(s: seq<Block>, lo: int, hi: int)
    requires OrderedBut(s, lo, hi) && 0 <= lo <= hi < |s|
    ensures OrderedBut(Join(s, hi), lo, hi - 1)
  {
    var r := Join(s, hi);
    if r != s {
      JoinAt(s, hi, 0);
      forall k | 1 <= k < |r| ensures 0 < r[k].size {
        JoinAt(s, hi, k);
      }
      forall k | 0 <= k < |r| - 1
        ensures r[k].End() <= r[k + 1].addr && (r[k].End() < r[k + 1].addr || lo <= k <= hi - 1)
      {
        JoinAt(s, hi, k);
        JoinAt(s, hi, k + 1);
      }
    }
  }

  lemma InsertOrdered(s: seq<Block>, g: int, b: Block)
    requires Ordered(s) && Apart(s, b) && IsGap(s, b.addr, g)
    ensures Ordered(Insert(s, g, b))
  {
    PlaceOrdered(s, g, b);
    JoinOrdered(Place(s, g, b), g, g + 1);
    JoinOrdered(Join(Place(s, g, b), g + 1), g, g);
  }

  lemma PlaceCovers(s: seq<Block>, g: int, b: Block, u: int)
    requires 0 <= g < |s|
    ensures Covers(Place(s, g, b), u) <==> Covers(s, u) || b.addr <= u < b.End()
  {
    var r := Place(s, g, b);
    assert r[g + 1] == b;
    if k :| 0 <= k < |s| && s[k].addr <= u < s[k].End() {
      assert r[if k <= g then k else k + 1] == s[k];
    }
  }

  lemma JoinCovers(s: seq<Block>, k: int, u: int)
    requires 0 <= k < |s| && forall j :: 0 <= j < |s| ==> 0 <= s[j].size
    ensures Covers(Join(s, k), u) <==> Covers(s, u)
  {
    var r := Join(s, k);
    if r != s {
      assert r[k] == Block(s[k].addr, s[k].size + s[k + 1].size);
      if j :| 0 <= j < |s| && s[j].addr <= u < s[j].End() {
        assert j < k ==> r[j] == s[j];
        assert j > k + 1 ==> r[j - 1] == s[j];
      }
      if j :| 0 <= j < |r| && r[j].addr <= u < r[j].End() {
        assert j != k ==> r[j] == s[if j < k then j else j + 1];
      }
    }
  }

  // Nothing is lost and nothing is gained.
  lemma InsertCovers(s: seq<Block>, g: int, b: Block, u: int)
    requires Ordered(s) && Apart(s, b) && IsGap(s, b.addr, g)
    ensures Covers(Insert(s, g, b), u) <==> Covers(s, u) || b.addr <= u < b.End()
  {
    PlaceOrdered(s, g, b);
    PlaceCovers(s, g, b, u);
    JoinCovers(Place(s, g, b), g + 1, u);
    JoinOrdered(Place(s, g, b), g, g + 1);
    JoinCovers(Join(Place(s, g, b), g + 1), g, u);
  }

  // The block before b keeps its place, and some block is at least as large as b.
  lemma InsertHolds(s: seq<Block>, g: int, b: Block) returns (j: int)
    requires Ordered(s) && Apart(s, b) && IsGap(s, b.addr, g)
    ensures var r := Insert(s, g, b);
      g < |r| && r[g].addr == s[g].addr && 0 <= j < |r| && r[j].size >= b.size
  {
    PlaceOrdered(s, g, b);
    var s1 := Place(s, g, b);
    var s2 := Join(s1, g + 1);
    assert s2[g] == s1[g] == s[g] && s2[g + 1].size >= b.size && s2[g + 1].addr == b.addr;
    j := if s2[g].End() == b.addr then g else g + 1;
  }

  // ---- Allocating ---------------------------------------------------------

  // malloc: n units from the tail of block k, or the whole block.
  function Take(s: seq<Block>, k: int, n: int): seq<Block>
    requires 0 <= k < |s|
  {
    if s[k].size == n then s[..k] + s[k + 1..] else s[k := Block(s[k].addr, s[k].size - n)]
  }

  function Taken(s: seq<Block>, k: int, n: int): Block
    requires 0 <= k < |s|
  {
    Block(s[k].End() - n, n)
  }

  lemma TakeOrdered(s: seq<Block>, k: int, n: int)
    requires Ordered(s) && 0 <= k < |s| && 0 < n <= s[k].size
    ensures Ordered(Take(s, k, n))
  {
    var r := Take(s, k, n);
    if s[k].size == n {
      assert forall j :: 0 <= j < |r| ==> r[j] == if j < k then s[j] else s[j + 1];
    }
  }

  lemma TakenApart(s: seq<Block>, k: int, n: int)
    requires Ordered(s) && 0 <= k < |s| && 0 < n <= s[k].size
    ensures Apart(Take(s, k, n), Taken(s, k, n))
  {
    var r, b := Take(s, k, n), Taken(s, k, n);
    AllIncreasing(s);
    forall j | 0 <= j < |r| ensures r[j].End() <= b.addr || b.End() <= r[j].addr {
      assert r[j] == if j < k then s[j] else if s[k].size == n then s[j + 1]
                     else if j == k then Block(s[k].addr, s[k].size - n) else s[j];
    }
  }

  // The list loses the units of the new allocation and no others.
  lemma TakeCovers(s: seq<Block>, k: int, n: int, u: int)
    requires Ordered(s) && 0 <= k < |s| && 0 < n <= s[k].size
    ensures Covers(s, u) <==> Covers(Take(s, k, n), u) || Taken(s, k, n).addr <= u < Taken(s, k, n).End()
  {
    var r := Take(s, k, n);
    if Covers(s, u) {
      var j :| 0 <= j < |s| && s[j].addr <= u < s[j].End();
      assert j < k ==> r[j] == s[j];
      assert j > k && s[k].size == n ==> r[j - 1] == s[j];
      assert j >= k && s[k].size != n ==> r[j] == if j == k then Block(s[k].addr, s[k].size - n) else s[j];
    }
    if Covers(r, u) {
      var j :| 0 <= j < |r| && r[j].addr <= u < r[j].End();
      assert r[j] == if j < k then s[j] else if s[k].size == n then s[j + 1]
                     else if j == k then Block(s[k].addr, s[k].size - n) else s[j];
    }
  }
}
