// Two-level page tables as vm.c keeps them in physical memory.  Addresses are
// page numbers: a virtual page v has directory index v / 1024 and table index
// v % 1024, and a physical page is its frame number.  A frame is only ever read as
// what it was last written as, so a dangling reference would be an error here.
module PageTables {
  import opened Sets

  const ENTRIES := 1024                 // NPDENTRIES and NPTENTRIES
  const VPAGES := ENTRIES * ENTRIES
  const KERNPAGE := 0x80000             // KERNBASE / PGSIZE

  datatype Pte = Absent | Present(frame: nat, flags: nat)

  datatype Page =
    | FreePage(next: nat)               // a frame on kalloc's list
    | Dir(pdes: seq<nat>)               // the frame of each page table, or 0
    | Table(ptes: seq<Pte>)
    | Data(bytes: seq<int>)

  type Memory = map<nat, Page>

  predicate IsDir(m: Memory, d: nat) { d in m && m[d].Dir? && |m[d].pdes| == ENTRIES }

  predicate IsTable(m: Memory, t: nat) { t in m && m[t].Table? && |m[t].ptes| == ENTRIES }

  ghost predicate TablesOk(m: Memory, d: nat) {
    && IsDir(m, d) && 0 !in m
    && (forall i :: 0 <= i < ENTRIES && m[d].pdes[i] != 0 ==> IsTable(m, m[d].pdes[i]))
    && (forall i, j :: 0 <= i < j < ENTRIES && m[d].pdes[i] != 0 ==> m[d].pdes[i] != m[d].pdes[j])
  }

  // What the hardware finds for page v.
  ghost function PteAt(m: Memory, d: nat, v: nat): Pte
    requires TablesOk(m, d) && v < VPAGES
  {
    var t := m[d].pdes[v / ENTRIES];
    if t == 0 then Absent else m[t].ptes[v % ENTRIES]
  }

  ghost predicate UserPage(m: Memory, d: nat, v: nat)
    requires TablesOk(m, d)
  {
    v < KERNPAGE && PteAt(m, d, v).Present?
  }

  // User pages are mapped to data frames of their own.
  ghost predicate SpaceOk(m: Memory, d: nat) {
    && TablesOk(m, d)
    && (forall v :: UserPage(m, d, v) ==> PteAt(m, d, v).frame in m && m[PteAt(m, d, v).frame].Data?)
    && (forall v, w :: UserPage(m, d, v) && UserPage(m, d, w) && v != w ==>
          PteAt(m, d, v).frame != PteAt(m, d, w).frame)
  }

  ghost function TableFrames(m: Memory, d: nat): set<nat>
    requires IsDir(m, d)
  {
    set i | 0 <= i < ENTRIES && m[d].pdes[i] != 0 :: m[d].pdes[i]
  }

  ghost function UserFrames(m: Memory, d: nat): set<nat>
    requires TablesOk(m, d)
  {
    set v: nat | v < KERNPAGE && UserPage(m, d, v) :: PteAt(m, d, v).frame
  }

  // The frames that freevm has to give back.
  ghost function Owned(m: Memory, d: nat): set<nat>
    requires TablesOk(m, d)
  {
    {d} + TableFrames(m, d) + UserFrames(m, d)
  }

  // ---- Changes to one entry -----------------------------------------------

  function EmptyTable(): Page { Table(seq(ENTRIES, _ => Absent)) }

  function EmptyDir(): Page { Dir(seq(ENTRIES, _ => 0)) }

  // A new page table t for index i changes no translation.
  lemma AddTable(m: Memory, d: nat, i: nat, t: nat)
    requires SpaceOk(m, d) && i < ENTRIES && m[d].pdes[i] == 0
    requires t in m && m[t].FreePage?
    ensures var m' := m[t := EmptyTable()][d := Dir(m[d].pdes[i := t])];
      && SpaceOk(m', d) && (forall v :: 0 <= v < VPAGES ==> PteAt(m', d, v) == PteAt(m, d, v))
      && Owned(m', d) == Owned(m, d) + {t}
  {
    var m' := m[t := EmptyTable()][d := Dir(m[d].pdes[i := t])];
    assert m'[d].pdes[i] == t;
    assert TablesOk(m', d);
    forall v | 0 <= v < VPAGES ensures PteAt(m', d, v) == PteAt(m, d, v) {
    }
    assert TableFrames(m', d) == TableFrames(m, d) + {t} by {
      forall f | f in TableFrames(m, d) ensures f in TableFrames(m', d) {
        var j :| 0 <= j < ENTRIES && m[d].pdes[j] == f != 0;
        assert m'[d].pdes[j] == f;
      }
    }
    assert UserFrames(m', d) == UserFrames(m, d);
  }

  function WithPte(m: Memory, d: nat, v: nat, p: Pte): Memory
    requires IsDir(m, d) && v < VPAGES && IsTable(m, m[d].pdes[v / ENTRIES])
  {
    var t := m[d].pdes[v / ENTRIES];
    m[t := Table(m[t].ptes[v % ENTRIES := p])]
  }

  // Storing an entry changes the translation of one page.
  lemma StorePte(m: Memory, d: nat, v: nat, p: Pte)
    requires TablesOk(m, d) && v < VPAGES && m[d].pdes[v / ENTRIES] != 0
    ensures var m' := WithPte(m, d, v, p);
      && TablesOk(m', d) && TableFrames(m', d) == TableFrames(m, d)
      && forall w :: 0 <= w < VPAGES ==> PteAt(m', d, w) == if w == v then p else PteAt(m, d, w)
  {
    var m' := WithPte(m, d, v, p);
    assert TablesOk(m', d);
    forall w | 0 <= w < VPAGES ensures PteAt(m', d, w) == if w == v then p else PteAt(m, d, w) {
      if w / ENTRIES == v / ENTRIES && w % ENTRIES == v % ENTRIES {
        assert w == v;
      }
    }
  }

  lemma MapUser(m: Memory, d: nat, v: nat, f: nat, flags: nat)
    requires SpaceOk(m, d) && v < KERNPAGE && m[d].pdes[v / ENTRIES] != 0 && PteAt(m, d, v).Absent?
    requires f in m && m[f].Data? && f !in Owned(m, d)
    ensures var m' := WithPte(m, d, v, Present(f, flags));
      SpaceOk(m', d) && Owned(m', d) == Owned(m, d) + {f}
  {
    var m' := WithPte(m, d, v, Present(f, flags));
    StorePte(m, d, v, Present(f, flags));
    forall w | UserPage(m', d, w) ensures w == v || (UserPage(m, d, w) && PteAt(m, d, w).frame != f) {
      if w != v { assert PteAt(m, d, w).frame in UserFrames(m, d); }
    }
    assert UserFrames(m', d) == UserFrames(m, d) + {f} by {
      assert UserPage(m', d, v);
      forall g | g in UserFrames(m, d) ensures g in UserFrames(m', d) {
        var w: nat :| w < KERNPAGE && UserPage(m, d, w) && PteAt(m, d, w).frame == g;
        assert UserPage(m', d, w);
      }
    }
  }

  lemma MapKernel(m: Memory, d: nat, v: nat, p: Pte)
    requires SpaceOk(m, d) && KERNPAGE <= v < VPAGES && m[d].pdes[v / ENTRIES] != 0
    ensures SpaceOk(WithPte(m, d, v, p), d) && Owned(WithPte(m, d, v, p), d) == Owned(m, d)
  {
    var m' := WithPte(m, d, v, p);
    StorePte(m, d, v, p);
    assert forall w :: UserPage(m', d, w) <==> UserPage(m, d, w);
    assert UserFrames(m', d) == UserFrames(m, d);
  }

  // Clearing a user page's entry and freeing its frame.
  lemma UnmapUser(m: Memory, d: nat, v: nat, page: Page)
    requires SpaceOk(m, d) && UserPage(m, d, v) && page.FreePage?
    ensures var f := PteAt(m, d, v).frame; var m' := WithPte(m[f := page], d, v, Absent);
      SpaceOk(m', d) && f in Owned(m, d) && Owned(m', d) == Owned(m, d) - {f}
  {
    var f := PteAt(m, d, v).frame;
    var m' := WithPte(m[f := page], d, v, Absent);
    StorePte(m, d, v, Absent);
    var m1 := WithPte(m, d, v, Absent);
    assert m' == m1[f := page];
    assert TablesOk(m', d);
    forall w | 0 <= w < VPAGES ensures PteAt(m', d, w) == PteAt(m1, d, w) {
    }
    assert UserFrames(m', d) == UserFrames(m, d) - {f} by {
      forall g | g in UserFrames(m, d) && g != f ensures g in UserFrames(m', d) {
        var w: nat :| w < KERNPAGE && UserPage(m, d, w) && PteAt(m, d, w).frame == g;
        assert UserPage(m', d, w);
      }
    }
    assert TableFrames(m', d) == TableFrames(m, d);
  }

  lemma ClearedPte(m: Memory, d: nat, v: nat, page: Page)
    requires SpaceOk(m, d) && UserPage(m, d, v) && page.FreePage?
    ensures var m' := WithPte(m[PteAt(m, d, v).frame := page], d, v, Absent);
      && TablesOk(m', d)
      && forall w :: 0 <= w < VPAGES ==> PteAt(m', d, w) == if w == v then Absent else PteAt(m, d, w)
  {
    var f := PteAt(m, d, v).frame;
    StorePte(m, d, v, Absent);
    assert WithPte(m[f := page], d, v, Absent) == WithPte(m, d, v, Absent)[f := page];
  }

  // ---- Other address spaces -----------------------------------------------

  ghost predicate Agree(m: Memory, m': Memory, s: set<nat>) {
    forall f :: f in s ==> f in m && f in m' && m'[f] == m[f]
  }

  // An address space depends on the frames it owns and no others.
  lemma SpaceFrame(m: Memory, m': Memory, d: nat)
    requires SpaceOk(m, d) && Agree(m, m', Owned(m, d)) && 0 !in m'
    ensures SpaceOk(m', d) && Owned(m', d) == Owned(m, d)
    ensures forall v :: 0 <= v < VPAGES ==> PteAt(m', d, v) == PteAt(m, d, v)
  {
    assert d in Owned(m, d);
    forall i | 0 <= i < ENTRIES && m[d].pdes[i] != 0 ensures IsTable(m', m'[d].pdes[i]) {
      assert m[d].pdes[i] in TableFrames(m, d);
      assert m[d].pdes[i] in Owned(m, d);
    }
    assert TablesOk(m', d);
    forall v | 0 <= v < VPAGES ensures PteAt(m', d, v) == PteAt(m, d, v) {
      var t := m[d].pdes[v / ENTRIES];
      if t != 0 { assert t in TableFrames(m, d) && t in Owned(m, d); }
    }
    forall v | UserPage(m', d, v) ensures PteAt(m', d, v).frame in Owned(m, d) {
      assert UserPage(m, d, v);
      assert PteAt(m, d, v).frame in UserFrames(m, d);
    }
    assert TableFrames(m', d) == TableFrames(m, d) && UserFrames(m', d) == UserFrames(m, d);
  }

  lemma OwnedAreInUse(m: Memory, d: nat)
    requires SpaceOk(m, d)
    ensures forall f :: f in Owned(m, d) ==> f in m && !m[f].FreePage?
  {
  }

  lemma UserOf(m: Memory, d: nat, f: nat) returns (v: nat)
    requires SpaceOk(m, d) && f in Owned(m, d) && m[f].Data?
    ensures UserPage(m, d, v) && PteAt(m, d, v).frame == f
  {
    v :| v < KERNPAGE && UserPage(m, d, v) && PteAt(m, d, v).frame == f;
  }

  // Only frames of s have changed.
  ghost predicate Elsewhere(m: Memory, m': Memory, s: set<nat>) {
    m'.Keys == m.Keys && forall f :: f in m && f !in s ==> m'[f] == m[f]
  }

  ghost predicate DataKept(m: Memory, m': Memory) {
    m'.Keys == m.Keys && forall f :: f in m && m[f].Data? ==> m'[f] == m[f]
  }

  ghost predicate SameSpace(m: Memory, m': Memory, d: nat)
    requires TablesOk(m, d) && TablesOk(m', d)
  {
    forall v :: 0 <= v < VPAGES ==> PteAt(m', d, v) == PteAt(m, d, v)
  }

  // Page v of space nd has the flags and the contents of page v of space d, in another frame.
  ghost predicate CopyOf(m: Memory, m': Memory, d: nat, nd: nat, v: nat)
    requires SpaceOk(m, d) && SpaceOk(m', nd) && v < KERNPAGE && UserPage(m, d, v)
  {
    var p, q := PteAt(m, d, v), PteAt(m', nd, v);
    q.Present? && q.flags == p.flags && q.frame != p.frame && q.frame in m' && m'[q.frame] == m[p.frame]
  }

  // Pages [v, v + n) are mapped to the frames from pa on, and the others as they were in m0.
  ghost predicate MapsRun(m0: Memory, m: Memory, d: nat, v: nat, n: nat, pa: nat, perm: nat)
    requires TablesOk(m0, d) && TablesOk(m, d)
  {
    forall w :: 0 <= w < VPAGES ==>
      (PteAt(m, d, w) == if v <= w < v + n then Present(pa + (w - v), perm) else PteAt(m0, d, w))
  }

  // None of the pages [v, v + n) is mapped.
  ghost predicate AbsentRun(m: Memory, d: nat, v: nat, n: nat)
    requires TablesOk(m, d) && v + n <= VPAGES
  {
    forall w :: v <= w < v + n ==> PteAt(m, d, w).Absent?
  }

  lemma AbsentGrows(m0: Memory, d: nat, v: nat, n: nat)
    requires TablesOk(m0, d) && v + n < VPAGES && AbsentRun(m0, d, v, n) && PteAt(m0, d, v + n).Absent?
    ensures AbsentRun(m0, d, v, n + 1)
  {
  }

  // Page v has got p, and the other pages have what they had.
  ghost predicate Stored(m: Memory, m': Memory, d: nat, v: nat, p: Pte)
    requires TablesOk(m, d) && TablesOk(m', d)
  {
    forall w :: 0 <= w < VPAGES ==> PteAt(m', d, w) == if w == v then p else PteAt(m, d, w)
  }

  lemma RunGrows(m0: Memory, m: Memory, m': Memory, d: nat, v: nat, n: nat, pa: nat, perm: nat)
    requires TablesOk(m0, d) && TablesOk(m, d) && TablesOk(m', d) && MapsRun(m0, m, d, v, n, pa, perm)
    requires Stored(m, m', d, v + n, Present(pa + n, perm))
    ensures MapsRun(m0, m', d, v, n + 1, pa, perm)
  {
  }

  // ---- kalloc's list ------------------------------------------------------

  function Follower(s: seq<nat>, k: int): nat
    requires 0 <= k < |s|
  {
    if k + 1 < |s| then s[k + 1] else 0
  }

  ghost predicate LinkAt(m: Memory, s: seq<nat>, k: int)
    requires 0 <= k < |s|
  {
    s[k] in m && m[s[k]] == FreePage(Follower(s, k))
  }

  ghost predicate FreeListOk(m: Memory, head: nat, s: seq<nat>) {
    && head == (if s == [] then 0 else s[0])
    && (forall k :: 0 <= k < |s| ==> LinkAt(m, s, k))
    && (forall j, k :: 0 <= j < k < |s| ==> s[j] != s[k])
  }

  lemma PopFree(m: Memory, head: nat, s: seq<nat>)
    requires FreeListOk(m, head, s) && s != [] && 0 !in m
    ensures head in m && m[head].FreePage? && FreeListOk(m, m[head].next, s[1..])
    ensures head !in s[1..] && Members(s) == Members(s[1..]) + {head}
  {
    assert LinkAt(m, s, 0);
    forall k | 0 <= k < |s[1..]| ensures LinkAt(m, s[1..], k) {
      assert LinkAt(m, s, k + 1);
    }
    assert s == [s[0]] + s[1..];
  }

  lemma PushFree(m: Memory, head: nat, s: seq<nat>, f: nat)
    requires FreeListOk(m, head, s) && f in m && f !in s
    ensures FreeListOk(m[f := FreePage(head)], f, [f] + s) && Members([f] + s) == Members(s) + {f}
  {
    var m', s' := m[f := FreePage(head)], [f] + s;
    forall k | 0 <= k < |s'| ensures LinkAt(m', s', k) {
      if k > 0 { assert LinkAt(m, s, k - 1); }
    }
  }

  // The list does not depend on frames that are in use.
  lemma FreeListFrame(m: Memory, m': Memory, head: nat, s: seq<nat>)
    requires FreeListOk(m, head, s) && forall f :: f in s ==> f in m && f in m' && m'[f] == m[f]
    ensures FreeListOk(m', head, s)
  {
    forall k | 0 <= k < |s| ensures LinkAt(m', s, k) {
      assert LinkAt(m, s, k);
    }
  }

  lemma FreeAreFree(m: Memory, head: nat, s: seq<nat>)
    requires FreeListOk(m, head, s)
    ensures forall f :: f in Members(s) ==> f in m && m[f].FreePage?
  {
    forall f | f in s ensures f in m && m[f].FreePage? {
      var k :| 0 <= k < |s| && s[k] == f;
      assert LinkAt(m, s, k);
    }
  }
}
