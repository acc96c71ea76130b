// malloc and free of umalloc.c on raw memory: headers at unit addresses, linked
// in a circle through their ptr fields.
module Umalloc {
  import opened Arith
  import opened FreeList

  const UNIT := 8                   // sizeof(Header)
  const NULL := 0

  datatype Header = Header(ptr: int, size: int)

  type Memory = map<int, Header>

  function NextAddr(s: seq<Block>, k: int): int
    requires 0 <= k < |s|
  {
    if k + 1 < |s| then s[k + 1].addr else s[0].addr
  }

  // The headers in memory form the circular list s.
  ghost predicate LinkedAt(mem: Memory, s: seq<Block>, k: int)
    requires 0 <= k < |s|
  {
    s[k].addr in mem && mem[s[k].addr] == Header(NextAddr(s, k), s[k].size)
  }

  ghost predicate Linked(mem: Memory, s: seq<Block>) {
    forall k :: 0 <= k < |s| ==> LinkedAt(mem, s, k)
  }

  // ---- What free's assignments do to the list -----------------------------

  // The two if statements at the end of free.
  function FreeUp(mem: Memory, p: int, bp: int): Memory
    requires p in mem && bp in mem && mem[p].ptr in mem
  {
    var q := mem[p].ptr;
    mem[bp := if bp + mem[bp].size == q then Header(mem[q].ptr, mem[bp].size + mem[q].size)
              else Header(q, mem[bp].size)]
  }

  function FreeDown(mem: Memory, p: int, bp: int): Memory
    requires p in mem && bp in mem
  {
    mem[p := if p + mem[p].size == bp then Header(mem[bp].ptr, mem[p].size + mem[bp].size)
             else Header(bp, mem[p].size)]
  }

  // Linking bp in after p, without merging.
  function LinkIn(mem: Memory, p: int, bp: int): Memory
    requires p in mem && bp in mem
  {
    mem[bp := Header(mem[p].ptr, mem[bp].size)][p := Header(bp, mem[p].size)]
  }

  // Merging a with the block its ptr names, if they touch.
  function MergeNext(mem: Memory, a: int): Memory
    requires a in mem && mem[a].ptr in mem
  {
    var q := mem[a].ptr;
    if a + mem[a].size == q then mem[a := Header(mem[q].ptr, mem[a].size + mem[q].size)] else mem
  }

  lemma PlaceLinked(mem: Memory, s: seq<Block>, g: int, b: Block)
    requires Ordered(s) && Apart(s, b) && IsGap(s, b.addr, g) && Linked(mem, s)
    requires b.addr in mem && mem[b.addr].size == b.size
    ensures s[g].addr in mem && Linked(LinkIn(mem, s[g].addr, b.addr), Place(s, g, b))
  {
    AllIncreasing(s);
    assert LinkedAt(mem, s, g);
    var r, mem' := Place(s, g, b), LinkIn(mem, s[g].addr, b.addr);
    assert r[g] == s[g] && r[g + 1] == b && (g + 1 < |s| ==> r[g + 2] == s[g + 1]);
    assert LinkedAt(mem', r, g) && LinkedAt(mem', r, g + 1);
    forall k | 0 <= k < |r| && k != g && k != g + 1 ensures LinkedAt(mem', r, k) {
      var j := if k < g then k else k - 1;
      assert r[k] == s[j] && NextAddr(r, k) == NextAddr(s, j);
      assert LinkedAt(mem, s, j);
    }
  }

  lemma JoinLinked(mem: Memory, s: seq<Block>, k: int, lo: int, hi: int)
    requires OrderedBut(s, lo, hi) && 0 <= k < |s| && Linked(mem, s)
    ensures s[k].addr in mem && mem[s[k].addr].ptr in mem
    ensures Linked(MergeNext(mem, s[k].addr), Join(s, k))
  {
    ButIncreasing(s, lo, hi);
    assert LinkedAt(mem, s, k) && LinkedAt(mem, s, 0) && (k + 1 < |s| ==> LinkedAt(mem, s, k + 1));
    var r, mem' := Join(s, k), MergeNext(mem, s[k].addr);
    if r != s {
      forall j | 0 <= j < |r| ensures LinkedAt(mem', r, j) {
        assert r[j] == if j < k then s[j] else if j == k then Block(s[k].addr, s[k].size + s[k + 1].size) else s[j + 1];
        assert LinkedAt(mem, s, if j <= k then j else j + 1);
      }
    } else {
      assert mem' == mem;
    }
  }

  // free's assignments link the block in and merge it upwards and downwards.
  lemma FreeIsLinkAndMerge(mem: Memory, p: int, bp: int)
    requires p in mem && bp in mem && mem[p].ptr in mem && p != bp && mem[p].ptr != bp
    requires mem[p].ptr == p ==> bp + mem[bp].size != p
    ensures bp in LinkIn(mem, p, bp) && LinkIn(mem, p, bp)[bp].ptr in LinkIn(mem, p, bp)
    ensures var m := MergeNext(LinkIn(mem, p, bp), bp);
      m[p].ptr in m && FreeDown(FreeUp(mem, p, bp), p, bp) == MergeNext(m, p)
  {
  }

  lemma FreeLinked(mem: Memory, s: seq<Block>, g: int, b: Block)
    requires Ordered(s) && Apart(s, b) && IsGap(s, b.addr, g) && Linked(mem, s)
    requires b.addr in mem && mem[b.addr].size == b.size
    ensures s[g].addr in mem && mem[s[g].addr].ptr in mem
    ensures Linked(FreeDown(FreeUp(mem, s[g].addr, b.addr), s[g].addr, b.addr), Insert(s, g, b))
  {
    var p := s[g].addr;
    assert LinkedAt(mem, s, g) && LinkedAt(mem, s, 0) && (g + 1 < |s| ==> LinkedAt(mem, s, g + 1));
    PlaceOrdered(s, g, b);
    PlaceLinked(mem, s, g, b);
    var s1, m1 := Place(s, g, b), LinkIn(mem, p, b.addr);
    assert s1[g] == s[g] && s1[g + 1] == b;
    JoinLinked(m1, s1, g + 1, g, g + 1);
    JoinOrdered(s1, g, g + 1);
    var s2, m2 := Join(s1, g + 1), MergeNext(m1, b.addr);
    assert s2[g] == s[g];
    JoinLinked(m2, s2, g, g, g);
    FreeIsLinkAndMerge(mem, p, b.addr);
  }

  // ---- What malloc's assignments do to the list ---------------------------

  function SetSize(mem: Memory, a: int, n: int): Memory {
    mem[a := Header(if a in mem then mem[a].ptr else NULL, n)]
  }

  // Unlinking p, which prev points to.
  function Unlink(mem: Memory, prev: int, p: int): Memory
    requires prev in mem && p in mem
  {
    mem[prev := Header(mem[p].ptr, mem[prev].size)]
  }

  // Cutting n units off the tail of p, and giving them a header.
  function CutTail(mem: Memory, p: int, n: int): Memory
    requires p in mem
  {
    SetSize(SetSize(mem, p, mem[p].size - n), p + mem[p].size - n, n)
  }

  lemma UnlinkLinked(mem: Memory, s: seq<Block>, k: int)
    requires Ordered(s) && 1 <= k < |s| && Linked(mem, s)
    ensures s[k - 1].addr in mem && s[k].addr in mem
    ensures Linked(Unlink(mem, s[k - 1].addr, s[k].addr), Take(s, k, s[k].size))
  {
    AllIncreasing(s);
    assert LinkedAt(mem, s, k - 1) && LinkedAt(mem, s, k);
    var r, mem' := Take(s, k, s[k].size), Unlink(mem, s[k - 1].addr, s[k].addr);
    forall j | 0 <= j < |r| ensures LinkedAt(mem', r, j) {
      assert r[j] == s[if j < k then j else j + 1];
      assert LinkedAt(mem, s, if j < k then j else j + 1);
    }
  }

  lemma CutTailLinked(mem: Memory, s: seq<Block>, k: int, n: int)
    requires Ordered(s) && 1 <= k < |s| && Linked(mem, s) && 0 < n < s[k].size
    ensures s[k].addr in mem && Linked(CutTail(mem, s[k].addr, n), Take(s, k, n))
  {
    AllIncreasing(s);
    assert LinkedAt(mem, s, k);
    var r, mem' := Take(s, k, n), CutTail(mem, s[k].addr, n);
    forall j | 0 <= j < |r| ensures LinkedAt(mem', r, j) {
      assert LinkedAt(mem, s, j);
      assert r[j].addr != s[k].addr + s[k].size - n;
    }
  }

  // ---- The heap -----------------------------------------------------------

  ghost predicate InLive(live: map<int, int>, u: int) {
    exists m :: m in live && m <= u < m + live[m]
  }

  // Raw memory, the free list, the allocations (header address and units), the
  // units that sbrk gave so far, and the program break.
  datatype Arena = Arena(mem: Memory, list: seq<Block>, live: map<int, int>, heap: set<int>, top: int) {
    // An allocation is apart from the free list and has its size in its header.
    ghost predicate LiveAt(m: int)
      requires m in live
    {
      m in mem && mem[m].size == live[m] && Apart(list, Block(m, live[m]))
    }

    ghost predicate LiveOk() {
      && (forall m :: m in live ==> LiveAt(m))
      && (forall m, n :: m in live && n in live && m != n ==> m + live[m] <= n || n + live[n] <= m)
    }

    // Every unit that sbrk gave is in a free block or an allocation, and no other unit is.
    ghost predicate Accounted() {
      && (forall u :: u in heap ==> BASE < u < top)
      && (forall u :: u in heap <==> Covers(list, u) || InLive(live, u))
    }

    ghost predicate Valid() {
      BASE < top && Ordered(list) && Linked(mem, list) && LiveOk() && Accounted()
    }
  }

  // An allocation stays apart from a list that covers no unit of it.
  lemma StaysApart(s: seq<Block>, s': seq<Block>, b: Block)
    requires Ordered(s) && Ordered(s') && Apart(s, b)
    requires forall u :: b.addr <= u < b.End() && Covers(s', u) ==> Covers(s, u)
    ensures Apart(s', b)
  {
    ApartByUnits(s, b);
    ApartByUnits(s', b);
  }

  // The addresses of free blocks are not those of allocations.
  lemma NotLive(a: Arena, k: int)
    requires a.Valid() && 0 <= k < |a.list|
    ensures a.list[k].addr !in a.live
    ensures forall m :: m in a.live && 1 <= k ==> !(a.list[k].addr <= m < a.list[k].End())
  {
    forall m | m in a.live
      ensures a.list[k].addr != m && (1 <= k ==> !(a.list[k].addr <= m < a.list[k].End()))
    {
      assert a.LiveAt(m);
    }
  }

  // The words inside the allocations of live, headers included, are in m1 what they were in m0.
  ghost predicate SameWord(m0: Memory, m1: Memory, u: int) {
    (u in m1 <==> u in m0) && (u in m0 ==> m1[u] == m0[u])
  }

  ghost predicate Untouched(m0: Memory, m1: Memory, live: map<int, int>) {
    forall u :: InLive(live, u) ==> SameWord(m0, m1, u)
  }

  lemma UntouchedAgain(m0: Memory, m1: Memory, m2: Memory, live: map<int, int>)
    requires Untouched(m0, m1, live) && Untouched(m1, m2, live)
    ensures Untouched(m0, m2, live)
  {
    forall u | InLive(live, u) ensures SameWord(m0, m2, u) {
      assert SameWord(m0, m1, u) && SameWord(m1, m2, u);
    }
  }

  // No allocation holds the header of a free block, nor any unit of one.
  lemma FreeNotLive(a: Arena, k: int, u: int)
    requires a.Valid() && 0 <= k < |a.list|
    requires u == a.list[k].addr || (1 <= k && a.list[k].addr <= u < a.list[k].End())
    ensures !InLive(a.live, u)
  {
    AllIncreasing(a.list);
    forall m | m in a.live ensures !(m <= u < m + a.live[m]) {
      assert a.LiveAt(m);
    }
  }

  lemma FreeUntouched(a: Arena, m: int, g: int)
    requires a.Valid() && m in a.live && IsGap(a.list, m, g)
    requires m in a.mem && a.list[g].addr in a.mem && a.mem[a.list[g].addr].ptr in a.mem
    ensures Untouched(a.mem, AfterFree(a, m, g).mem, a.live - {m})
  {
    FreeNotLive(a, g, a.list[g].addr);
    forall u | InLive(a.live - {m}, u) ensures u != m && u != a.list[g].addr {
      var n :| n in a.live - {m} && n <= u < n + (a.live - {m})[n];
      assert a.LiveAt(n) && a.LiveAt(m) && InLive(a.live, u);
    }
  }

  lemma GrowUntouched(a: Arena, p: int, nu: int)
    requires a.Valid() && a.top <= p
    ensures Untouched(a.mem, SetSize(a.mem, p, nu), a.live)
  {
    AllBelow(a);
  }

  lemma TakeUntouched(a: Arena, k: int, n: int)
    requires a.Valid() && 1 <= k < |a.list| && 0 < n <= a.list[k].size
    requires a.list[k].addr in a.mem && a.list[k - 1].addr in a.mem && a.mem[a.list[k].addr].size == a.list[k].size
    ensures Untouched(a.mem, AfterTake(a, k, n).mem, a.live)
  {
    FreeNotLive(a, k - 1, a.list[k - 1].addr);
    FreeNotLive(a, k, a.list[k].addr);
    FreeNotLive(a, k, a.list[k].End() - n);
  }

  function AfterFree(a: Arena, m: int, g: int): Arena
    requires m in a.live && 0 <= g < |a.list|
    requires m in a.mem && a.list[g].addr in a.mem && a.mem[a.list[g].addr].ptr in a.mem
  {
    var p := a.list[g].addr;
    a.(mem := FreeDown(FreeUp(a.mem, p, m), p, m), list := Insert(a.list, g, Block(m, a.live[m])), live := a.live - {m})
  }

  lemma FreeKeeps(a: Arena, m: int, g: int)
    requires a.Valid() && m in a.live && IsGap(a.list, m, g)
    ensures m in a.mem && a.list[g].addr in a.mem && a.mem[a.list[g].addr].ptr in a.mem
    ensures AfterFree(a, m, g).Valid()
  {
    var b := Block(m, a.live[m]);
    assert a.LiveAt(m);
    FreeLinked(a.mem, a.list, g, b);
    InsertOrdered(a.list, g, b);
    var a' := AfterFree(a, m, g);
    assert Linked(a'.mem, a'.list);
    forall u ensures Covers(a'.list, u) <==> Covers(a.list, u) || m <= u < m + a.live[m] {
      InsertCovers(a.list, g, b, u);
    }
    forall n | n in a'.live ensures a'.LiveAt(n) {
      assert a.LiveAt(n);
      NotLive(a, g);
      StaysApart(a.list, a'.list, Block(n, a.live[n]));
    }
    FreeAccounts(a, m, a');
  }

  lemma FreeAccounts(a: Arena, m: int, a': Arena)
    requires a.Accounted() && m in a.live && a'.live == a.live - {m} && a'.heap == a.heap && a'.top == a.top
    requires forall u :: Covers(a'.list, u) <==> Covers(a.list, u) || m <= u < m + a.live[m]
    ensures a'.Accounted()
  {
    forall u ensures InLive(a.live, u) <==> InLive(a'.live, u) || m <= u < m + a.live[m] {
      if n :| n in a.live && n <= u < n + a.live[n] {
        assert n == m || n in a'.live;
      }
      if n :| n in a'.live && n <= u < n + a'.live[n] {
        assert n in a.live;
      }
    }
  }

  function Units(from: int, n: int): (r: set<int>)
    ensures forall u :: u in r <==> from <= u < from + n
    decreases if n > 0 then n else 0
  {
    if n <= 0 then {} else Units(from, n - 1) + {from + n - 1}
  }

  // morecore, before it calls free: a region from sbrk, at or above the old break.
  function AfterGrow(a: Arena, p: int, nu: int): Arena {
    a.(mem := SetSize(a.mem, p, nu), live := a.live[p := nu], heap := a.heap + Units(p, nu), top := p + nu)
  }

  lemma GrowKeeps(a: Arena, p: int, nu: int)
    requires a.Valid() && a.top <= p && 0 < nu
    ensures p !in a.live && AfterGrow(a, p, nu).Valid()
  {
    var a' := AfterGrow(a, p, nu);
    AllBelow(a);
    forall k | 0 <= k < |a.list| ensures LinkedAt(a'.mem, a.list, k) {
      assert LinkedAt(a.mem, a.list, k);
      assert a.list[k].addr <= a.list[k].End() <= a.top;
    }
    forall m | m in a'.live ensures a'.LiveAt(m) {
      if m != p { assert a.LiveAt(m); }
    }
    forall u ensures InLive(a'.live, u) <==> InLive(a.live, u) || p <= u < p + nu {
      InLiveAlso(a.live, p, nu, u);
    }
  }

  lemma InLiveAlso(live: map<int, int>, p: int, nu: int, u: int)
    requires p !in live
    ensures InLive(live[p := nu], u) <==> InLive(live, u) || p <= u < p + nu
  {
    var live' := live[p := nu];
    if m :| m in live' && m <= u < m + live'[m] {
      assert m == p || m in live;
    }
    if m :| m in live && m <= u < m + live[m] {
      assert m in live' && m != p;
    }
    assert p in live';
  }

  lemma PutAndDrop(live: map<int, int>, p: int, nu: int)
    requires p !in live
    ensures live[p := nu] - {p} == live
  {
  }

  // Everything is below the break.
  lemma AllBelow(a: Arena)
    requires a.Valid()
    ensures forall k :: 0 <= k < |a.list| ==> a.list[k].addr <= a.list[k].End() <= a.top
    ensures forall m :: m in a.live ==> BASE < m && m + a.live[m] <= a.top
  {
    AllIncreasing(a.list);
    forall k | 0 <= k < |a.list| ensures a.list[k].End() <= a.top {
      if k > 0 { assert Covers(a.list, a.list[k].End() - 1); }
    }
    forall m | m in a.live ensures BASE < m && m + a.live[m] <= a.top {
      assert a.LiveAt(m);
      assert InLive(a.live, m + a.live[m] - 1);
    }
  }

  // malloc's assignments: n units from block k of the list.
  function AfterTake(a: Arena, k: int, n: int): Arena
    requires 1 <= k < |a.list| && a.list[k].addr in a.mem && a.list[k - 1].addr in a.mem
  {
    a.(mem := if a.list[k].size == n then Unlink(a.mem, a.list[k - 1].addr, a.list[k].addr)
              else CutTail(a.mem, a.list[k].addr, n),
       list := Take(a.list, k, n), live := a.live[Taken(a.list, k, n).addr := n])
  }

  lemma TakeKeeps(a: Arena, k: int, n: int)
    requires a.Valid() && 1 <= k < |a.list| && 0 < n <= a.list[k].size
    ensures a.list[k].addr in a.mem && a.list[k - 1].addr in a.mem
    ensures AfterTake(a, k, n).Valid() && Taken(a.list, k, n).addr !in a.live
  {
    assert LinkedAt(a.mem, a.list, k) && LinkedAt(a.mem, a.list, k - 1);
    AllIncreasing(a.list);
    var a', t := AfterTake(a, k, n), Taken(a.list, k, n);
    TakeOrdered(a.list, k, n);
    TakenApart(a.list, k, n);
    if a.list[k].size == n { UnlinkLinked(a.mem, a.list, k); } else { CutTailLinked(a.mem, a.list, k, n); }
    forall u ensures Covers(a.list, u) <==> Covers(a'.list, u) || t.addr <= u < t.End() {
      TakeCovers(a.list, k, n, u);
    }
    NotLive(a, k);
    NotLive(a, k - 1);
    forall m | m in a'.live ensures a'.LiveAt(m) {
      if m != t.addr {
        assert a.LiveAt(m);
        StaysApart(a.list, a'.list, Block(m, a.live[m]));
      }
    }
    forall m | m in a.live ensures m + a.live[m] <= t.addr || t.End() <= m {
      assert a.LiveAt(m);
    }
    TakeAccounts(a, t, a');
  }

  lemma TakeAccounts(a: Arena, t: Block, a': Arena)
    requires a.Accounted() && t.addr !in a.live && a'.live == a.live[t.addr := t.size] && a'.heap == a.heap && a'.top == a.top
    requires forall u :: Covers(a.list, u) <==> Covers(a'.list, u) || t.addr <= u < t.End()
    ensures a'.Accounted()
  {
    forall u ensures InLive(a'.live, u) <==> InLive(a.live, u) || t.addr <= u < t.End() {
      if m :| m in a'.live && m <= u < m + a'.live[m] {
        assert m == t.addr || m in a.live;
      }
      if m :| m in a.live && m <= u < m + a.live[m] {
        assert m in a'.live;
      }
      assert t.addr in a'.live;
    }
  }

  // Whatever a program writes into its own allocation, behind the header, the heap stays as it is.
  lemma UserWriteKeeps(a: Arena, m: int, u: int, h: Header)
    requires a.Valid() && m in a.live && m < u < m + a.live[m]
    ensures a.(mem := a.mem[u := h]).Valid()
  {
    var a' := a.(mem := a.mem[u := h]);
    assert a.LiveAt(m);
    forall k | 0 <= k < |a.list| ensures LinkedAt(a'.mem, a.list, k) {
      assert LinkedAt(a.mem, a.list, k);
    }
    forall n | n in a.live ensures a'.LiveAt(n) {
      assert a.LiveAt(n);
    }
  }

  // ---- Sizes --------------------------------------------------------------

  // malloc's computation in 32-bit arithmetic: the header and the rounded-up payload.
  function UnitsFor(nbytes: int): (n: int)
    requires 0 <= nbytes < UINT
    ensures 0 < n
  {
    (nbytes + UNIT - 1) % UINT / UNIT + 1
  }

  // The payload holds nbytes unless the addition wraps around.
  lemma PayloadFits(nbytes: int)
    requires 0 <= nbytes < UINT
    ensures (UnitsFor(nbytes) - 1) * UNIT >= nbytes <==> nbytes + UNIT - 1 < UINT
  {
  }

  // What sbrk, whose argument is an int, is asked for by morecore.
  function SbrkArgument(nu: int): int {
    var n := nu * UNIT % UINT;
    if n < UINT / 2 then n else n - UINT
  }

  // It is the memory that morecore then takes for granted, unless the request is close to 2^31
  // bytes or larger; then sbrk is asked for nothing or, with a negative number, to give memory back.
  lemma SbrkExactly(nbytes: int)
    requires 0 <= nbytes < UINT
    ensures var nu := AtLeast4096(UnitsFor(nbytes));
      if nbytes <= UINT / 2 - 2 * UNIT || nbytes + UNIT - 1 >= UINT
      then SbrkArgument(nu) == nu * UNIT > 0
      else SbrkArgument(nu) <= 0
  {
    if nbytes + UNIT - 1 >= UINT {
      assert (nbytes + UNIT - 1) % UINT == nbytes + UNIT - 1 - UINT < UNIT;
    }
  }

  // ---- The program --------------------------------------------------------

  // Steps along the circle of n blocks from block `from` to block k.
  function Turn(n: int, from: int, k: int): int {
    if k > from then k - from else k - from + n
  }

  // The blocks seen before the next one are those seen before this one, and this one.
  lemma TurnNext(n: int, from: int, k: int, j: int)
    requires 0 <= from < n && 0 <= k < n && 0 <= j < n && k != from
    ensures Turn(n, from, j) < Turn(n, from, Succ(n, k)) <==> Turn(n, from, j) < Turn(n, from, k) || j == k
  {
  }

  // Block k is the first one after block `from` that has n units.
  ghost predicate FirstFit(s: seq<Block>, from: int, k: int, n: int) {
    0 <= k < |s| && s[k].size >= n && NoneBefore(s, from, k, n)
  }

  // Nothing fitted in a, so morecore added one region to it, which gave b.
  ghost predicate Grew(a: Arena, b: Arena, from: int, grant: int, n: int) {
    && grant != -1 && (forall j :: 0 <= j < |a.list| ==> a.list[j].size < n)
    && IsGap(a.list, grant, from) && b.list == Insert(a.list, from, Block(grant, AtLeast4096(n)))
    && b.heap == a.heap + Units(grant, AtLeast4096(n)) && b.top == grant + AtLeast4096(n) && b.live == a.live
  }

  // No block of the list before block k, going round from block `from`, has n units.
  ghost predicate NoneBefore(s: seq<Block>, from: int, k: int, n: int) {
    forall j :: 0 <= j < |s| && Turn(|s|, from, j) < Turn(|s|, from, k) ==> s[j].size < n
  }

  lemma NoneBeforeNext(s: seq<Block>, from: int, k: int, n: int)
    requires 0 <= from < |s| && 0 <= k < |s| && k != from && NoneBefore(s, from, k, n) && s[k].size < n
    ensures NoneBefore(s, from, Succ(|s|, k), n)
  {
    forall j | 0 <= j < |s| && Turn(|s|, from, j) < Turn(|s|, from, Succ(|s|, k)) ensures s[j].size < n {
      TurnNext(|s|, from, k, j);
    }
  }

  function AtLeast4096(nu: int): int {
    if nu < 4096 then 4096 else nu
  }

  class Allocator {
    var mem: Memory
    var freep: int

    ghost var list: seq<Block>
    ghost var live: map<int, int>
    ghost var heap: set<int>
    ghost var top: int
    ghost var at: int               // freep is the address of block `at`

    ghost function A(): Arena
      reads this
    {
      Arena(mem, list, live, heap, top)
    }

    ghost predicate Valid()
      reads this
    {
      if freep == NULL then list == [] && live == map[] && heap == {} && BASE < top
      else A().Valid() && 0 <= at < |list| && list[at].addr == freep
    }

    constructor (brk: int)
      requires BASE < brk
      ensures Valid() && freep == NULL && top == brk
    {
      mem, freep, list, live, heap, top := map[], NULL, [], map[], {}, brk;
    }

    // The for loop of free: the block after which bp belongs.
    method FindPlace(bp: int) returns (p: int, ghost g: int)
      requires Valid() && freep != NULL && bp in live
      ensures IsGap(list, bp, g) && BASE <= p == list[g].addr
    {
      assert A().LiveAt(bp);
      AllIncreasing(list);
      g := GapExists(list, bp);
      ghost var k := at;
      p := freep;
      assert LinkedAt(mem, list, k);
      while !(bp > p && bp < mem[p].ptr)
        invariant 0 <= k < |list| && p == list[k].addr && LinkedAt(mem, list, k)
        decreases if k <= g then g - k else |list| - k + g
      {
        if p >= mem[p].ptr && (bp > p || bp < mem[p].ptr) {
          break;
        }
        p := mem[p].ptr;
        k := if k + 1 < |list| then k + 1 else 0;
        assert LinkedAt(mem, list, k);
      }
      assert k == g;
    }

    method Free(ap: int)
      requires Valid() && freep != NULL && ap - 1 in live
      modifies this
      ensures Valid() && freep != NULL
      ensures live == old(live) - {ap - 1} && heap == old(heap) && top == old(top)
      ensures IsGap(old(list), ap - 1, at) && freep == old(list)[at].addr
      ensures list == Insert(old(list), at, Block(ap - 1, old(live)[ap - 1]))
      ensures Untouched(old(mem), mem, live)
    {
      var bp := ap - 1;
      var p, g := FindPlace(bp);
      FreeKeeps(A(), bp, g);
      FreeUntouched(A(), bp, g);
      assert A().LiveAt(bp);
      ghost var j := InsertHolds(list, g, Block(bp, live[bp]));
      ghost var after := AfterFree(A(), bp, g);
      ghost var up := FreeUp(mem, p, bp);
      if bp + mem[bp].size == mem[p].ptr {
        mem := mem[bp := Header(mem[mem[p].ptr].ptr, mem[bp].size + mem[mem[p].ptr].size)];
      } else {
        mem := mem[bp := Header(mem[p].ptr, mem[bp].size)];
      }
      assert mem == up;
      if p + mem[p].size == bp {
        mem := mem[p := Header(mem[bp].ptr, mem[p].size + mem[bp].size)];
      } else {
        mem := mem[p := Header(bp, mem[p].size)];
      }
      freep := p;
      list, live, at := after.list, after.live, g;
      assert A() == after;
    }

    // Gets at least nu units from sbrk, whose answer is grant (-1 when it
    // refuses), and frees them into the list.
    method MoreCore(nu: int, grant: int) returns (p: int)
      requires Valid() && freep != NULL && 0 < nu && (grant == -1 || grant >= top)
      modifies this
      ensures Valid() && freep != NULL && live == old(live)
      ensures if grant == -1 then
          p == NULL && A() == old(A()) && at == old(at) && freep == old(freep)
        else
          && p == freep && heap == old(heap) + Units(grant, AtLeast4096(nu)) && top == grant + AtLeast4096(nu)
          && IsGap(old(list), grant, at) && freep == old(list)[at].addr
          && list == Insert(old(list), at, Block(grant, AtLeast4096(nu)))
      ensures grant != -1 ==> exists j :: 0 <= j < |list| && list[j].size >= nu
      ensures Untouched(old(mem), mem, live)
    {
      var nu := AtLeast4096(nu);
      if grant == -1 {
        p := NULL;
        return;
      }
      var hp := grant;
      GrowKeeps(A(), hp, nu);
      GrowUntouched(A(), hp, nu);
      ghost var a := AfterGrow(A(), hp, nu);
      mem := SetSize(mem, hp, nu);
      live, heap, top := a.live, a.heap, a.top;
      assert A() == a;
      ghost var s := list;
      Free(hp + 1);
      assert hp + 1 - 1 == hp;
      PutAndDrop(old(live), hp, nu);
      UntouchedAgain(old(mem), a.mem, mem, live);
      assert a.LiveAt(hp);
      ghost var j := InsertHolds(s, at, Block(hp, nu));
      p := freep;
    }

    // The tail of malloc for a block that is large enough.
    method TakeBlock(prevp: int, p: int, nunits: int, ghost k: int) returns (ap: int)
      requires Valid() && freep != NULL && 0 < nunits
      requires 1 <= k < |list| && p == list[k].addr && prevp == list[k - 1].addr && list[k].size >= nunits
      modifies this
      ensures ap != NULL && Valid() && freep == prevp != NULL && heap == old(heap) && top == old(top)
      ensures list == Take(old(list), k, nunits) && at == k - 1
      ensures ap - 1 == Taken(old(list), k, nunits).addr && ap - 1 !in old(live) && live == old(live)[ap - 1 := nunits]
      ensures Untouched(old(mem), mem, old(live))
    {
      TakeKeeps(A(), k, nunits);
      AllIncreasing(list);
      assert LinkedAt(mem, list, k);
      TakeUntouched(A(), k, nunits);
      ghost var a := AfterTake(A(), k, nunits);
      var q := p;
      if mem[p].size == nunits {
        mem := mem[prevp := Header(mem[p].ptr, mem[prevp].size)];
      } else {
        mem := SetSize(mem, p, mem[p].size - nunits);
        q := p + mem[p].size;
        mem := SetSize(mem, q, nunits);
      }
      freep := prevp;
      list, live, at := a.list, a.live, k - 1;
      assert A() == a;
      ap := q + 1;
    }

    // One round of malloc's for loop: from the block after freep to the first one
    // with nunits units, or, when there is none, back to freep.
    method Scan(nunits: int) returns (found: bool, prevp: int, p: int, ghost k: int)
      requires Valid() && freep != NULL && 0 < nunits
      ensures if found then FirstFit(list, at, k, nunits) && 1 <= k && p == list[k].addr && prevp == list[k - 1].addr
              else p == freep && forall j :: 0 <= j < |list| ==> list[j].size < nunits
    {
      prevp := freep;
      ghost var prev := at;
      k := Succ(|list|, at);
      assert LinkedAt(mem, list, at);
      p := mem[prevp].ptr;
      while true
        invariant 0 <= prev < |list| && k == Succ(|list|, prev) && p == list[k].addr && prevp == list[prev].addr
        invariant NoneBefore(list, at, k, nunits)
        decreases |list| - Turn(|list|, at, k)
      {
        assert LinkedAt(mem, list, k);
        if mem[p].size >= nunits {
          found := true;
          return;
        }
        if p == freep {
          assert k == at by { AllIncreasing(list); }
          found := false;
          return;
        }
        NoneBeforeNext(list, at, k, nunits);
        prevp, prev := p, k;
        p, k := mem[p].ptr, Succ(|list|, k);
      }
    }

    // malloc's for loop.  It goes round the list, and if nothing fits asks sbrk
    // (whose answer would be grant) and goes on from the new freep, where it is
    // sure to find a block: sbrk is asked at most once.
    method Search(nunits: int, grant: int) returns (found: bool, prevp: int, p: int, ghost k: int)
      requires Valid() && freep != NULL && 0 < nunits && (grant == -1 || grant >= top)
      modifies this
      ensures Valid() && freep != NULL && live == old(live)
      ensures (A() == old(A()) && at == old(at)) || Grew(old(A()), A(), at, grant, nunits)
      ensures if found then FirstFit(list, at, k, nunits) && 1 <= k && p == list[k].addr && prevp == list[k - 1].addr
              else grant == -1 && A() == old(A()) && forall j :: 0 <= j < |list| ==> list[j].size < nunits
      ensures Untouched(old(mem), mem, live)
    {
      found, prevp, p, k := Scan(nunits);
      if !found {
        p := MoreCore(nunits, grant);
        if p == NULL { return; }
        found, prevp, p, k := Scan(nunits);
        assert found;
      }
    }

    // Allocates nunits units from the first block that fits, block k of heap b,
    // found from block `from` on.
    method Allocate(nunits: int, grant: int) returns (ap: int, ghost b: Arena, ghost from: int, ghost k: int)
      requires Valid() && freep != NULL && 0 < nunits && (grant == -1 || grant >= top)
      modifies this
      ensures Valid() && freep != NULL && heap == b.heap && top == b.top && b.live == old(live)
      ensures (b == old(A()) && from == old(at)) || Grew(old(A()), b, from, grant, nunits)
      ensures ap == NULL ==> grant == -1 && A() == b && forall j :: 0 <= j < |list| ==> list[j].size < nunits
      ensures ap != NULL ==> FirstFit(b.list, from, k, nunits) && list == Take(b.list, k, nunits)
      ensures ap != NULL ==> ap - 1 == Taken(b.list, k, nunits).addr && ap - 1 !in b.live && live == b.live[ap - 1 := nunits]
      ensures Untouched(old(mem), mem, old(live))
    {
      var found, prevp, p;
      found, prevp, p, k := Search(nunits, grant);
      b, from := A(), at;
      if found {
        ap := TakeBlock(prevp, p, nunits, k);
        UntouchedAgain(old(mem), b.mem, mem, old(live));
      } else {
        ap := NULL;
      }
    }

    // The first call of malloc makes a list of `base` alone.
    method StartList()
      requires Valid() && freep == NULL
      modifies this
      ensures Valid() && freep == BASE && list == [Block(BASE, 0)]
      ensures live == old(live) && heap == old(heap) && top == old(top)
    {
      mem, freep := mem[BASE := Header(BASE, 0)], BASE;
      list, at := [Block(BASE, 0)], 0;
      assert LinkedAt(mem, list, 0);
    }

    // Allocates nbytes.
    method Malloc(nbytes: int, grant: int) returns (ap: int)
      requires Valid() && 0 <= nbytes < UINT && (grant == -1 || grant >= top)
      modifies this
      ensures Valid() && freep != NULL
      ensures ap == NULL <==> grant == -1 && (forall j :: 0 <= j < |old(list)| ==> old(list)[j].size < UnitsFor(nbytes))
      ensures if ap == NULL then live == old(live)
              else ap - 1 !in old(live) && live == old(live)[ap - 1 := UnitsFor(nbytes)]
      ensures heap == old(heap) || heap == old(heap) + Units(grant, AtLeast4096(UnitsFor(nbytes)))
      // sbrk is asked only when no free block is large enough.
      ensures heap != old(heap) ==> (forall j :: 0 <= j < |old(list)| ==> old(list)[j].size < UnitsFor(nbytes))
      // The words inside the other allocations are left alone.
      ensures Untouched(old(mem), mem, old(live))
    {
      var nunits := UnitsFor(nbytes);
      if freep == NULL {
        StartList();
      }
      ghost var b, from, k;
      ap, b, from, k := Allocate(nunits, grant);
    }
  }
}
