// kalloc.c and vm.c as they run.
module VmProgram {
  import opened PageTables
  import opened Paging
  import opened Sets

  const PTE_W := 2
  const PTE_U := 4
  const EXTPAGE := 0x100        // EXTMEM / PGSIZE
  const STOPPAGE := 0xE000      // PHYSTOP / PGSIZE
  const DEVPAGE := 0xFE000      // DEVSPACE / PGSIZE
  const KERNBASE := KERNPAGE * PGSIZE

  // What every page table maps page v to before it has user pages; data is the page of the
  // kernel's writable data.
  function Kmap(data: nat, v: nat): Pte {
    if v < KERNPAGE then Absent
    else if v < KERNPAGE + EXTPAGE then Present(v - KERNPAGE, PTE_W)
    else if v < data then Present(v - KERNPAGE, 0)
    else if v < KERNPAGE + STOPPAGE then Present(v - KERNPAGE, PTE_W)
    else if v < DEVPAGE then Absent
    else Present(v, PTE_W)
  }

  // The rows of kmap: count pages from v on, mapped to the frames from pa on.
  datatype Row = Row(v: nat, count: nat, pa: nat, perm: nat)

  function KmapRow(data: nat, k: nat): Row
    requires k < 4 && KERNPAGE + EXTPAGE < data < KERNPAGE + STOPPAGE
  {
    if k == 0 then Row(KERNPAGE, EXTPAGE, 0, PTE_W)
    else if k == 1 then Row(KERNPAGE + EXTPAGE, data - KERNPAGE - EXTPAGE, EXTPAGE, 0)
    else if k == 2 then Row(data, KERNPAGE + STOPPAGE - data, data - KERNPAGE, PTE_W)
    else Row(DEVPAGE, VPAGES - DEVPAGE, DEVPAGE, PTE_W)
  }

  // Where row k starts.
  function Edge(data: nat, k: nat): nat
    requires k <= 4 && KERNPAGE + EXTPAGE < data < KERNPAGE + STOPPAGE
  {
    if k == 4 then VPAGES else KmapRow(data, k).v
  }

  // The rows do not overlap, and between them they say what Kmap says.
  lemma RowMaps(data: nat, k: nat)
    requires k < 4 && KERNPAGE + EXTPAGE < data < KERNPAGE + STOPPAGE
    ensures var r := KmapRow(data, k);
      && KERNPAGE <= r.v && 1 <= r.count && r.v + r.count <= Edge(data, k + 1) <= VPAGES
      && forall w: nat :: r.v <= w < Edge(data, k + 1) ==>
           Kmap(data, w) == if w < r.v + r.count then Present(r.pa + (w - r.v), r.perm) else Absent
  {
  }

  function ZeroPage(): Page { Data(seq(PGSIZE, _ => 0)) }

  datatype Turn = Copied | NoMemory | Hole

  datatype MapResult = Mapped | NoTable | Remap

  class Kernel {
    const dataPage: nat         // the page of `data`
    var head: nat               // kmem.freelist
    var mem: Memory             // the frames that kalloc manages
    ghost var free: seq<nat>    // the list from head on

    ghost predicate Valid()
      reads this
    {
      0 !in mem && FreeListOk(mem, head, free)
    }

    ghost predicate Has(d: nat)
      reads this
    {
      Valid() && SpaceOk(mem, d)
    }

    ghost function Free(): set<nat>
      reads this
    {
      Members(free)
    }

    // ---- kalloc.c ---------------------------------------------------------

    // freerange: every frame from first up to stop is put on the list.
    constructor (data: nat, first: nat, stop: nat, memory: Memory)
      requires 0 < first <= stop && forall f :: f in memory <==> first <= f < stop
      ensures Valid() && dataPage == data && mem.Keys == memory.Keys
      ensures forall f :: f in Free() <==> first <= f < stop
    {
      dataPage, head, mem, free := data, 0, memory, [];
      new;
      var f := first;
      while f < stop
        invariant first <= f <= stop && Valid() && mem.Keys == memory.Keys
        invariant forall g :: g in Free() <==> first <= g < f
      {
        Kfree(f);
        f := f + 1;
      }
    }

    // A frame off the list, or 0.
    method Kalloc() returns (f: nat)
      requires Valid()
      modifies this`head, this`free
      ensures Valid() && (f == 0 <==> old(Free()) == {})
      ensures f == 0 ==> free == old(free)
      ensures f != 0 ==> f in mem && mem[f].FreePage? && f !in Free() && old(Free()) == Free() + {f}
    {
      f := head;
      if head != 0 {
        PopFree(mem, head, free);
        head := mem[f].next;
        free := free[1..];
      } else {
        assert free == [] by {
          if free != [] { PopFree(mem, head, free); }
        }
      }
    }

    // f is a frame that kalloc manages, so kfree's own checks pass; it is not free already.
    method Kfree(f: nat)
      requires Valid() && f in mem && f !in Free()
      modifies this
      ensures Valid() && Free() == old(Free()) + {f}
      ensures mem == old(mem)[f := FreePage(old(head))]
    {
      PushFree(mem, head, free, f);
      mem := mem[f := FreePage(head)];
      head := f;
      free := [f] + free;
    }

    // Writing a frame that is not on the list.
    method Fill(f: nat, page: Page)
      requires Valid() && f in mem && f !in Free()
      modifies this`mem
      ensures Valid() && mem == old(mem)[f := page]
    {
      FreeAreFree(mem, head, free);
      FreeListFrame(mem, mem[f := page], head, free);
      mem := mem[f := page];
    }

    // A frame that was allocated and that d does not have.
    ghost predicate Fresh(f: nat, d: nat)
      requires Has(d)
      reads this
    {
      f in mem && mem[f].Data? && f !in Owned(mem, d)
    }

    // ---- walkpgdir and mappages -------------------------------------------

    // The frame of the page table that holds the entry of page v, or 0.
    method Walkpgdir(d: nat, v: nat, alloc: bool) returns (t: nat)
      requires Has(d) && v < VPAGES
      modifies this
      ensures Has(d) && t == mem[d].pdes[v / ENTRIES] && SameSpace(old(mem), mem, d)
      ensures Free() + Owned(mem, d) == old(Free() + Owned(mem, d))
      ensures DataKept(old(mem), mem) && Elsewhere(old(mem), mem, old(Free() + Owned(mem, d)))
      ensures t == 0 ==> mem == old(mem) && free == old(free) && (alloc ==> Free() == {})
      ensures !alloc ==> mem == old(mem) && free == old(free) && head == old(head)
    {
      var i := v / ENTRIES;
      t := mem[d].pdes[i];
      if t != 0 || !alloc { return; }
      OwnedAreInUse(mem, d);
      FreeAreFree(mem, head, free);
      t := Kalloc();
      if t == 0 { return; }
      AddTable(mem, d, i, t);
      Fill(t, EmptyTable());
      Fill(d, Dir(mem[d].pdes[i := t]));
    }

    // Stores an absent entry's new value.
    method SetPte(d: nat, v: nat, p: Pte)
      requires Has(d) && v < VPAGES && mem[d].pdes[v / ENTRIES] != 0
      requires PteAt(mem, d, v).Absent? && p.Present?
      requires v < KERNPAGE ==> p.frame in mem && mem[p.frame].Data? && p.frame !in Owned(mem, d)
      modifies this`mem
      ensures Has(d) && Owned(mem, d) == old(Owned(mem, d)) + (if v < KERNPAGE then {p.frame} else {})
      ensures forall w :: 0 <= w < VPAGES ==> PteAt(mem, d, w) == if w == v then p else old(PteAt(mem, d, w))
      ensures DataKept(old(mem), mem) && Elsewhere(old(mem), mem, old(Owned(mem, d)))
    {
      var t := mem[d].pdes[v / ENTRIES];
      StorePte(mem, d, v, p);
      if v < KERNPAGE {
        MapUser(mem, d, v, p.frame, p.flags);
      } else {
        MapKernel(mem, d, v, p);
      }
      OwnedAreInUse(mem, d);
      FreeAreFree(mem, head, free);
      assert t in TableFrames(mem, d);
      Fill(t, Table(mem[t].ptes[v % ENTRIES := p]));
    }

    // One turn of mappages: the table is allocated if there is none.
    method MapOne(d: nat, v: nat, f: nat, perm: nat) returns (r: MapResult)
      requires Has(d) && v < VPAGES
      requires v < KERNPAGE ==> Fresh(f, d)
      modifies this
      ensures Has(d) && DataKept(old(mem), mem) && Elsewhere(old(mem), mem, old(Free() + Owned(mem, d)))
      ensures r == Mapped && v < KERNPAGE ==> Free() + Owned(mem, d) == old(Free() + Owned(mem, d)) + {f}
      ensures r != Mapped || v >= KERNPAGE ==> Free() + Owned(mem, d) == old(Free() + Owned(mem, d))
      ensures if r == Mapped then Stored(old(mem), mem, d, v, Present(f, perm)) else SameSpace(old(mem), mem, d)
      ensures if r == Remap then old(PteAt(mem, d, v)).Present? else old(PteAt(mem, d, v)).Absent?
      ensures r == NoTable ==> Free() == {}
    {
      FreeAreFree(mem, head, free);
      var t := Walkpgdir(d, v, true);
      if t == 0 { return NoTable; }
      if mem[t].ptes[v % ENTRIES].Present? { return Remap; }
      SetPte(d, v, Present(f, perm));
      return Mapped;
    }

    // Maps count pages from v on to the frames from pa on, unless a page table cannot be
    // allocated, or a page is mapped already, which is a panic.  A user page gets a frame that
    // the caller has allocated.
    method Mappages(d: nat, v: nat, count: nat, pa: nat, perm: nat) returns (r: MapResult)
      requires Has(d) && 1 <= count && v + count <= VPAGES
      requires v < KERNPAGE ==> count == 1 && Fresh(pa, d)
      modifies this
      ensures Has(d) && DataKept(old(mem), mem) && Elsewhere(old(mem), mem, old(Free() + Owned(mem, d)))
      ensures Free() + Owned(mem, d) == old(Free() + Owned(mem, d)) + (if r == Mapped && v < KERNPAGE then {pa} else {})
      ensures forall w :: 0 <= w < VPAGES && !(v <= w < v + count) ==> PteAt(mem, d, w) == old(PteAt(mem, d, w))
      ensures r == Mapped ==> MapsRun(old(mem), mem, d, v, count, pa, perm)
      ensures r == Mapped ==> AbsentRun(old(mem), d, v, count)
      ensures r == Remap ==> !AbsentRun(old(mem), d, v, count)
      ensures r == NoTable ==> Free() == {} && (v < KERNPAGE ==> PteAt(mem, d, v).Absent?)
    {
      ghost var all := Free() + Owned(mem, d);
      var i := 0;
      r := Mapped;
      while i < count
        invariant 0 <= i <= count && Has(d) && r == Mapped
        invariant DataKept(old(mem), mem) && Elsewhere(old(mem), mem, all)
        invariant Free() + Owned(mem, d) == all + (if i > 0 && v < KERNPAGE then {pa} else {})
        invariant MapsRun(old(mem), mem, d, v, i, pa, perm)
        invariant AbsentRun(old(mem), d, v, i)
      {
        ghost var m := mem;
        assert PteAt(mem, d, v + i) == PteAt(old(mem), d, v + i);
        if PteAt(mem, d, v + i).Absent? { AbsentGrows(old(mem), d, v, i); }
        r := MapOne(d, v + i, pa + i, perm);
        if r != Mapped { break; }
        RunGrows(old(mem), m, mem, d, v, i, pa, perm);
        i := i + 1;
      }
    }

    // ---- deallocuvm and freevm --------------------------------------------

    // Frees the frame of user page v and clears its entry.
    method ClearPage(d: nat, v: nat)
      requires Has(d) && v < VPAGES && UserPage(mem, d, v)
      modifies this
      ensures Has(d) && mem.Keys == old(mem.Keys)
      ensures Free() + Owned(mem, d) == old(Free() + Owned(mem, d)) && Elsewhere(old(mem), mem, old(Owned(mem, d)))
      ensures forall w :: 0 <= w < VPAGES ==> PteAt(mem, d, w) == if w == v then Absent else old(PteAt(mem, d, w))
      ensures forall g :: g in mem && old(mem[g].Data?) && g != old(PteAt(mem, d, v).frame) ==> mem[g] == old(mem[g])
    {
      var t := mem[d].pdes[v / ENTRIES];
      var f := mem[t].ptes[v % ENTRIES].frame;
      OwnedAreInUse(mem, d);
      FreeAreFree(mem, head, free);
      UnmapUser(mem, d, v, FreePage(head));
      ClearedPte(mem, d, v, FreePage(head));
      assert t in TableFrames(mem, d);
      ghost var m' := WithPte(mem[f := FreePage(head)], d, v, Absent);
      Kfree(f);
      Fill(t, Table(mem[t].ptes[v % ENTRIES := Absent]));
      assert mem == m';
    }

    // One turn of deallocuvm's loop at page v: the next page to look at.
    method DeallocTurn(d: nat, v: nat) returns (next: nat)
      requires Has(d) && v < KERNPAGE
      modifies this
      ensures Has(d) && v < next && Free() + Owned(mem, d) == old(Free() + Owned(mem, d))
      ensures Elsewhere(old(mem), mem, old(Owned(mem, d)))
      ensures forall w :: 0 <= w < VPAGES ==> PteAt(mem, d, w) == if w == v then Absent else old(PteAt(mem, d, w))
      ensures forall w :: v < w < next && w < VPAGES ==> old(PteAt(mem, d, w)).Absent?
      ensures forall w: nat :: UserPage(mem, d, w) ==>
        PteAt(mem, d, w).frame in old(mem) && mem[PteAt(mem, d, w).frame] == old(mem[PteAt(mem, d, w).frame])
    {
      var t := Walkpgdir(d, v, false);
      next := v;
      if t == 0 {
        next := (v / ENTRIES + 1) * ENTRIES - 1;
      } else if mem[t].ptes[v % ENTRIES].Present? {
        ClearPage(d, v);
      }
      next := next + 1;
    }

    // Unmaps and frees the user pages between the two sizes.
    method Deallocuvm(d: nat, oldsz: nat, newsz: nat) returns (r: nat)
      requires Has(d) && oldsz <= KERNBASE
      modifies this
      ensures Has(d) && r == if newsz < oldsz then newsz else oldsz
      ensures Free() + Owned(mem, d) == old(Free() + Owned(mem, d))
      ensures Elsewhere(old(mem), mem, old(Free() + Owned(mem, d)))
      ensures forall w :: 0 <= w < VPAGES ==>
        (PteAt(mem, d, w) == if PagesOf(newsz) <= w < PagesOf(oldsz) then Absent else old(PteAt(mem, d, w)))
      ensures forall w: nat :: UserPage(mem, d, w) ==>
        PteAt(mem, d, w).frame in old(mem) && mem[PteAt(mem, d, w).frame] == old(mem[PteAt(mem, d, w).frame])
    {
      if newsz >= oldsz { return oldsz; }
      ghost var all, m0, hi := Free() + Owned(mem, d), mem, PagesOf(oldsz);
      var lo := PagesOf(newsz);
      var v := lo;
      while v * PGSIZE < oldsz
        invariant lo <= v && Has(d) && Free() + Owned(mem, d) == all && Elsewhere(m0, mem, all)
        invariant forall w :: 0 <= w < VPAGES ==> (PteAt(mem, d, w) == if lo <= w < v then Absent else PteAt(m0, d, w))
        invariant forall w :: hi <= w < v && w < VPAGES ==> PteAt(m0, d, w).Absent?
        invariant forall w: nat :: UserPage(mem, d, w) ==>
          PteAt(mem, d, w).frame in m0 && mem[PteAt(mem, d, w).frame] == m0[PteAt(mem, d, w).frame]
        decreases oldsz - v * PGSIZE
      {
        v := DeallocTurn(d, v);
      }
      return newsz;
    }

    // The second loop of freevm: the page tables, whose user pages are gone.
    method FreeTables(d: nat)
      requires Has(d)
      modifies this
      ensures Valid() && d in mem && d !in Free() && Free() == old(Free() + TableFrames(mem, d))
      ensures Elsewhere(old(mem), mem, old(TableFrames(mem, d)))
    {
      ghost var m0, f0 := mem, Free();
      OwnedAreInUse(mem, d);
      FreeAreFree(mem, head, free);
      var i := 0;
      while i < ENTRIES
        invariant 0 <= i <= ENTRIES && Valid() && IsDir(mem, d) && mem[d] == m0[d] && d !in Free()
        invariant Elsewhere(m0, mem, TableFrames(m0, d))
        invariant forall j :: i <= j < ENTRIES && m0[d].pdes[j] != 0 ==> m0[d].pdes[j] !in Free()
        invariant Free() == f0 + set j | 0 <= j < i && m0[d].pdes[j] != 0 :: m0[d].pdes[j]
      {
        var t := mem[d].pdes[i];
        if t != 0 {
          assert t in TableFrames(m0, d);
          Kfree(t);
        }
        i := i + 1;
      }
    }

    // Gives back every frame of the address space.
    method Freevm(d: nat)
      requires Has(d)
      modifies this
      ensures Valid() && Free() == old(Free() + Owned(mem, d))
      ensures Elsewhere(old(mem), mem, old(Free() + Owned(mem, d)))
    {
      ghost var all := Free() + Owned(mem, d);
      var _ := Deallocuvm(d, KERNBASE, 0);
      assert UserFrames(mem, d) == {};
      FreeTables(d);
      Kfree(d);
    }

    // ---- allocuvm ---------------------------------------------------------

    // A zeroed frame for user page v.  On failure f is the frame that could not be mapped, if any.
    method AllocPage(d: nat, v: nat, page: Page, flags: nat) returns (ok: bool, f: nat)
      requires Has(d) && v < KERNPAGE && PteAt(mem, d, v).Absent? && page.Data?
      modifies this
      ensures Has(d) && DataKept(old(mem), mem) && Elsewhere(old(mem), mem, old(Free() + Owned(mem, d)))
      ensures forall w :: 0 <= w < VPAGES ==>
        (PteAt(mem, d, w) == if ok && w == v then Present(f, flags) else old(PteAt(mem, d, w)))
      ensures ok ==> f in mem && mem[f] == page && old(f in mem && mem[f].FreePage?)
      ensures ok ==> Free() + Owned(mem, d) == old(Free() + Owned(mem, d))
      ensures !ok ==> Free() == {}
      ensures !ok && f == 0 ==> mem == old(mem) && Free() + Owned(mem, d) == old(Free() + Owned(mem, d))
      ensures !ok && f != 0 ==> f in mem && mem[f].Data? && f !in Owned(mem, d)
      ensures !ok && f != 0 ==> Free() + Owned(mem, d) + {f} == old(Free() + Owned(mem, d))
    {
      OwnedAreInUse(mem, d);
      FreeAreFree(mem, head, free);
      f := Kalloc();
      if f == 0 { return false, 0; }
      SpaceFrame(mem, mem[f := page], d);
      Fill(f, page);
      var r := Mappages(d, v, 1, f, flags);
      ok := r == Mapped;
    }

    // m0 is the memory before allocuvm, all the frames it could use, and f the frame that it
    // could not map.  Only new pages have been mapped since.
    ghost predicate Growing(m0: Memory, all: set<nat>, d: nat, oldsz: nat, newsz: nat, f: nat)
      reads this
    {
      && Has(d) && SpaceOk(m0, d) && DataKept(m0, mem) && Elsewhere(m0, mem, all)
      && Free() + Owned(mem, d) + (if f == 0 then {} else {f}) == all
      && (f != 0 ==> f in mem && mem[f].Data? && f !in Free() && f !in Owned(mem, d))
      && (forall w :: 0 <= w < VPAGES && !(PagesOf(oldsz) <= w < PagesOf(newsz)) ==> PteAt(mem, d, w) == PteAt(m0, d, w))
      && (forall w :: PagesOf(oldsz) <= w < KERNPAGE ==> PteAt(m0, d, w).Absent?)
      && (forall g :: g in all ==> g in m0 && (m0[g].Data? ==> g in Owned(m0, d)))
    }

    // What allocuvm does when it runs out of memory.
    method GiveUp(d: nat, oldsz: nat, newsz: nat, f: nat, ghost m0: Memory, ghost all: set<nat>)
      requires oldsz <= newsz < KERNBASE && Growing(m0, all, d, oldsz, newsz, f)
      modifies this
      ensures Has(d) && SameSpace(m0, mem, d) && Free() + Owned(mem, d) == all
      ensures DataKept(m0, mem) && Elsewhere(m0, mem, all)
    {
      ghost var m1 := mem;
      var _ := Deallocuvm(d, newsz, oldsz);
      ghost var m2 := mem;
      forall g | g in m0 && m0[g].Data? ensures m2[g] == m0[g] && g != f {
        if g in all {
          var w := UserOf(m0, d, g);
          assert UserPage(m2, d, w) && PteAt(m2, d, w).frame == g;
        }
      }
      if f != 0 {
        OwnedAreInUse(mem, d);
        SpaceFrame(mem, mem[f := FreePage(head)], d);
        Kfree(f);
      }
    }

    // Grows the user part from oldsz to newsz bytes: newsz, or 0 with the mappings as they were.
    method Allocuvm(d: nat, oldsz: nat, newsz: nat) returns (r: nat)
      requires Has(d) && forall w :: PagesOf(oldsz) <= w < KERNPAGE ==> PteAt(mem, d, w).Absent?
      modifies this
      ensures Has(d) && Free() + Owned(mem, d) == old(Free() + Owned(mem, d))
      ensures DataKept(old(mem), mem) && Elsewhere(old(mem), mem, old(Free() + Owned(mem, d)))
      ensures newsz >= KERNBASE ==> r == 0
      ensures newsz < KERNBASE && newsz < oldsz ==> r == oldsz
      ensures oldsz <= newsz < KERNBASE ==> r == 0 || r == newsz
      ensures !(r == newsz && oldsz <= newsz) ==> SameSpace(old(mem), mem, d)
      ensures r == newsz && oldsz <= newsz ==> forall w :: 0 <= w < VPAGES ==>
        if PagesOf(oldsz) <= w < PagesOf(newsz)
        then && PteAt(mem, d, w).Present? && PteAt(mem, d, w).flags == PTE_W + PTE_U
             && PteAt(mem, d, w).frame in mem && mem[PteAt(mem, d, w).frame] == ZeroPage()
        else PteAt(mem, d, w) == old(PteAt(mem, d, w))
    {
      if newsz >= KERNBASE { return 0; }
      if newsz < oldsz { return oldsz; }
      ghost var all, m0 := Free() + Owned(mem, d), mem;
      OwnedAreInUse(mem, d);
      FreeAreFree(mem, head, free);
      var lo := PagesOf(oldsz);
      var v := lo;
      while v * PGSIZE < newsz
        invariant lo <= v <= PagesOf(newsz) && Growing(m0, all, d, oldsz, v * PGSIZE, 0)
        invariant forall w :: lo <= w < v ==>
          && PteAt(mem, d, w).Present? && PteAt(mem, d, w).flags == PTE_W + PTE_U
          && PteAt(mem, d, w).frame in mem && mem[PteAt(mem, d, w).frame] == ZeroPage()
        decreases newsz - v * PGSIZE
      {
        var ok, f := AllocPage(d, v, ZeroPage(), PTE_W + PTE_U);
        if !ok {
          GiveUp(d, oldsz, newsz, f, m0, all);
          return 0;
        }
        v := v + 1;
      }
      return newsz;
    }

    // ---- setupkvm and copyuvm ---------------------------------------------

    // One row of kmap.
    method MapRow(d: nat, k: nat, ghost m0: Memory, ghost f0: set<nat>) returns (ok: bool)
      requires k < 4 && KERNPAGE + EXTPAGE < dataPage < KERNPAGE + STOPPAGE
      requires NewSpace(m0, f0, d) && MapsBelow(d, Edge(dataPage, k))
      modifies this
      ensures NewSpace(m0, f0, d) && (ok ==> MapsBelow(d, Edge(dataPage, k + 1)))
    {
      var row := KmapRow(dataPage, k);
      RowMaps(dataPage, k);
      var r := Mappages(d, row.v, row.count, row.pa, row.perm);
      ok := r == Mapped;
    }

    ghost predicate MapsBelow(d: nat, v: nat)
      requires Has(d)
      reads this
    {
      forall w :: 0 <= w < VPAGES ==> PteAt(mem, d, w) == if w < v then Kmap(dataPage, w) else Absent
    }

    // d is being built from the frames that were free in memory m0.
    ghost predicate NewSpace(m0: Memory, f0: set<nat>, d: nat)
      reads this
    {
      && Has(d) && Free() + Owned(mem, d) == f0 && Elsewhere(m0, mem, f0)
    }

    // An empty directory, or 0.
    method NewDir() returns (d: nat)
      requires Valid() && KERNPAGE + EXTPAGE < dataPage < KERNPAGE + STOPPAGE
      modifies this
      ensures Valid() && mem.Keys == old(mem.Keys)
      ensures d == 0 ==> mem == old(mem) && Free() == old(Free())
      ensures d != 0 ==> NewSpace(old(mem), old(Free()), d) && MapsBelow(d, KERNPAGE)
    {
      d := Kalloc();
      if d != 0 {
        Fill(d, EmptyDir());
        assert TablesOk(mem, d) && TableFrames(mem, d) == {} && UserFrames(mem, d) == {};
      }
    }

    // A page directory with the kernel's mappings and no others, or 0 with every frame given back.
    method Setupkvm() returns (d: nat)
      requires Valid() && KERNPAGE + EXTPAGE < dataPage < KERNPAGE + STOPPAGE
      modifies this
      ensures Valid() && Elsewhere(old(mem), mem, old(Free()))
      ensures d == 0 ==> Free() == old(Free())
      ensures d != 0 ==> NewSpace(old(mem), old(Free()), d)
      ensures d != 0 ==> MapsBelow(d, VPAGES)
    {
      ghost var m0, f0 := mem, Free();
      d := NewDir();
      if d == 0 { return; }
      var k := 0;
      while k < 4
        invariant 0 <= k <= 4 && NewSpace(m0, f0, d) && MapsBelow(d, Edge(dataPage, k))
      {
        var ok := MapRow(d, k, m0, f0);
        if !ok {
          Freevm(d);
          return 0;
        }
        k := k + 1;
      }
    }

    // The source and the copy while copyuvm runs: the source as it was, and its first n pages copied.
    ghost predicate Copying(m0: Memory, f0: set<nat>, d: nat, nd: nat, n: nat)
      reads this
    {
      && NewSpace(m0, f0, nd) && SpaceOk(m0, d) && Owned(m0, d) !! f0 && n <= KERNPAGE
      && (forall v :: 0 <= v < n ==> UserPage(m0, d, v) && CopyOf(m0, mem, d, nd, v))
      && (forall v :: n <= v < VPAGES ==> PteAt(mem, nd, v) == Kmap(dataPage, v))
    }

    // copyuvm's exit when memory has run out; f is the frame that could not be mapped.
    method Abandon(nd: nat, f: nat, ghost m0: Memory, ghost f0: set<nat>)
      requires Has(nd) && Elsewhere(m0, mem, f0) && Free() + Owned(mem, nd) + (if f == 0 then {} else {f}) == f0
      requires f != 0 ==> f in mem && mem[f].Data? && f !in Free() && f !in Owned(mem, nd)
      modifies this
      ensures Valid() && Free() == f0 && Elsewhere(m0, mem, f0)
    {
      if f != 0 {
        SpaceFrame(mem, mem[f := FreePage(head)], nd);
        Kfree(f);
      }
      Freevm(nd);
    }

    // The source's entry for page v, which the copy has not changed.
    method SourcePage(d: nat, nd: nat, v: nat, ghost m0: Memory, ghost f0: set<nat>) returns (p: Pte)
      requires v < KERNPAGE && Copying(m0, f0, d, nd, v)
      modifies this
      ensures mem == old(mem) && free == old(free) && head == old(head)
      ensures p == PteAt(m0, d, v)
      ensures p.Present? ==> UserPage(m0, d, v) && p.frame in mem && p.frame !in f0 && p.frame in m0
      ensures p.Present? ==> mem[p.frame] == m0[p.frame] && mem[p.frame].Data?
    {
      SpaceFrame(m0, mem, d);
      var t := Walkpgdir(d, v, false);
      if t == 0 { return Absent; }
      p := mem[t].ptes[v % ENTRIES];
      if p.Present? {
        assert UserPage(m0, d, v);
        assert p.frame in UserFrames(m0, d);
      }
    }

    // One turn of copyuvm's loop, and its exit when memory runs out.
    method CopyPage(d: nat, nd: nat, v: nat, ghost m0: Memory, ghost f0: set<nat>) returns (r: Turn)
      requires v < KERNPAGE && Copying(m0, f0, d, nd, v)
      modifies this
      ensures Valid() && Elsewhere(m0, mem, f0)
      ensures r == Copied ==> Copying(m0, f0, d, nd, v + 1)
      ensures r == NoMemory ==> Free() == f0
      ensures r == Hole ==> !UserPage(m0, d, v)
    {
      var p := SourcePage(d, nd, v, m0, f0);
      if p == Absent { return Hole; }
      var ok, f := AllocPage(nd, v, mem[p.frame], p.flags);
      if ok {
        return Copied;
      }
      Abandon(nd, f, m0, f0);
      return NoMemory;
    }

    // Copies the first sz bytes of the user part: a new directory, or 0 with every frame given
    // back.  A page below sz that is not mapped is a panic.
    method Copyuvm(d: nat, sz: nat) returns (nd: nat, panic: bool)
      requires Has(d) && sz <= KERNBASE && KERNPAGE + EXTPAGE < dataPage < KERNPAGE + STOPPAGE
      modifies this
      ensures Valid() && Elsewhere(old(mem), mem, old(Free()))
      ensures panic ==> exists v :: 0 <= v < PagesOf(sz) && !old(UserPage(mem, d, v))
      ensures !panic ==> SpaceOk(mem, d) && Owned(mem, d) == old(Owned(mem, d)) && SameSpace(old(mem), mem, d)
      ensures !panic && nd == 0 ==> Free() == old(Free())
      ensures !panic && nd != 0 ==> Copying(old(mem), old(Free()), d, nd, PagesOf(sz))
    {
      ghost var m0, f0 := mem, Free();
      OwnedAreInUse(mem, d);
      FreeAreFree(mem, head, free);
      nd := Setupkvm();
      if nd == 0 {
        SpaceFrame(m0, mem, d);
        return 0, false;
      }
      var v := 0;
      while v * PGSIZE < sz
        invariant 0 <= v <= PagesOf(sz) && Copying(m0, f0, d, nd, v)
        decreases sz - v * PGSIZE
      {
        var r := CopyPage(d, nd, v, m0, f0);
        if r == Hole { return nd, true; }
        if r == NoMemory {
          SpaceFrame(m0, mem, d);
          return 0, false;
        }
        v := v + 1;
      }
      SpaceFrame(m0, mem, d);
      return nd, false;
    }
  }
}
