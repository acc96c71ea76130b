// The address spaces of all processes together: growproc, fork, exec and wait of
// proc.c and exec.c, as far as they allocate and free frames.
module Processes {
  import opened Arith
  import opened PageTables
  import opened Paging
  import opened Sets
  import opened VmProgram

  // ---- Many address spaces over one memory --------------------------------

  ghost predicate SystemOk(m: Memory, free: set<nat>, dirs: set<nat>) {
    && (forall d :: d in dirs ==> SpaceOk(m, d) && Owned(m, d) !! free)
    && (forall d, e :: d in dirs && e in dirs && d != e ==> Owned(m, d) !! Owned(m, e))
  }

  // The frames that are free or owned by a process.
  ghost function AllFrames(m: Memory, free: set<nat>, dirs: set<nat>): set<nat>
    requires forall d :: d in dirs ==> TablesOk(m, d)
  {
    free + set d, f | d in dirs && f in Owned(m, d) :: f
  }

  // What an operation on address space d may use.
  ghost function Share(m: Memory, free: set<nat>, dirs: set<nat>, d: nat): set<nat>
    requires d in dirs ==> TablesOk(m, d)
  {
    free + if d in dirs then Owned(m, d) else {}
  }

  ghost function OwnedBy(m: Memory, dirs: set<nat>): set<nat>
    requires forall d :: d in dirs ==> TablesOk(m, d)
  {
    set d, f | d in dirs && f in Owned(m, d) :: f
  }

  lemma SplitFrames(m: Memory, free: set<nat>, dirs: set<nat>, d: nat)
    requires forall e :: e in dirs ==> TablesOk(m, e)
    ensures AllFrames(m, free, dirs) == Share(m, free, dirs, d) + OwnedBy(m, dirs - {d})
  {
    forall g | g in AllFrames(m, free, dirs) ensures g in Share(m, free, dirs, d) + OwnedBy(m, dirs - {d}) {
      if g !in free {
        var e :| e in dirs && g in Owned(m, e);
        if e != d { assert e in dirs - {d}; }
      }
    }
  }

  lemma OtherKept(m: Memory, f: set<nat>, dirs: set<nat>, m': Memory, d: nat, e: nat)
    requires SystemOk(m, f, dirs) && e in dirs && e != d && 0 !in m'
    requires Elsewhere(m, m', Share(m, f, dirs, d))
    ensures Owned(m, e) !! Share(m, f, dirs, d) && Agree(m, m', Owned(m, e))
    ensures SpaceOk(m', e) && Owned(m', e) == Owned(m, e) && SameSpace(m, m', e)
  {
    OwnedAreInUse(m, e);
    SpaceFrame(m, m', e);
  }

  ghost predicate Unchanged(m: Memory, m': Memory, dirs: set<nat>) {
    forall e :: e in dirs ==>
      SpaceOk(m, e) && SpaceOk(m', e) && SameSpace(m, m', e) && Agree(m, m', Owned(m, e))
  }

  lemma UnchangedSelf(m: Memory, free: set<nat>, dirs: set<nat>, some: set<nat>)
    requires SystemOk(m, free, dirs) && some <= dirs
    ensures Unchanged(m, m, some)
  {
    forall e | e in some ensures SpaceOk(m, e) && SameSpace(m, m, e) && Agree(m, m, Owned(m, e)) {
      OwnedAreInUse(m, e);
    }
  }

  lemma UnchangedTwice(m0: Memory, m1: Memory, m2: Memory, all: set<nat>, some: set<nat>)
    requires Unchanged(m0, m1, all) && Unchanged(m1, m2, some) && some <= all && 0 !in m1
    ensures Unchanged(m0, m2, some)
  {
    forall e | e in some ensures SpaceOk(m0, e) && SpaceOk(m2, e) && SameSpace(m0, m2, e) && Agree(m0, m2, Owned(m0, e)) {
      SpaceFrame(m0, m1, e);
    }
  }

  // An operation on address space d that keeps its share of the frames and touches no others;
  // it may end the space or start it.
  ghost predicate IsOwnStep(m: Memory, f: set<nat>, dirs: set<nat>, m': Memory, f': set<nat>, dirs': set<nat>, d: nat) {
    && SystemOk(m, f, dirs) && dirs - {d} == dirs' - {d} && 0 !in m'
    && (d in dirs' ==> SpaceOk(m', d) && Owned(m', d) !! f')
    && Share(m', f', dirs', d) == Share(m, f, dirs, d) && Elsewhere(m, m', Share(m, f, dirs, d))
  }

  // ... leaves every other address space as it was, contents and all,
  lemma OthersKept(m: Memory, f: set<nat>, dirs: set<nat>, m': Memory, f': set<nat>, dirs': set<nat>, d: nat)
    requires IsOwnStep(m, f, dirs, m', f', dirs', d)
    ensures SystemOk(m', f', dirs') && Unchanged(m, m', dirs - {d})
  {
    var rest := dirs - {d};
    forall e | e in rest
      ensures Owned(m, e) !! Share(m, f, dirs, d) && Agree(m, m', Owned(m, e))
      ensures SpaceOk(m', e) && Owned(m', e) == Owned(m, e) && SameSpace(m, m', e)
    {
      OtherKept(m, f, dirs, m', d, e);
    }
    assert forall e :: e in dirs' ==> e == d || e in rest;
  }

  // ... and conserves every frame.
  lemma FramesConserved(m: Memory, f: set<nat>, dirs: set<nat>, m': Memory, f': set<nat>, dirs': set<nat>, d: nat)
    requires IsOwnStep(m, f, dirs, m', f', dirs', d) && SystemOk(m', f', dirs')
    ensures AllFrames(m', f', dirs') == AllFrames(m, f, dirs)
  {
    var rest := dirs - {d};
    forall e | e in rest ensures Owned(m', e) == Owned(m, e) {
      OtherKept(m, f, dirs, m', d, e);
    }
    assert OwnedBy(m', rest) == OwnedBy(m, rest);
    SplitFrames(m, f, dirs, d);
    SplitFrames(m', f', dirs', d);
  }

  lemma StepKeeps(m: Memory, f: set<nat>, dirs: set<nat>, m': Memory, f': set<nat>, dirs': set<nat>, d: nat)
    requires IsOwnStep(m, f, dirs, m', f', dirs', d)
    ensures SystemOk(m', f', dirs') && Unchanged(m, m', dirs - {d})
    ensures AllFrames(m', f', dirs') == AllFrames(m, f, dirs)
  {
    OthersKept(m, f, dirs, m', f', dirs', d);
    FramesConserved(m, f, dirs, m', f', dirs', d);
  }

  // ---- The processes ------------------------------------------------------

  // A process's pages are present exactly below its size.
  ghost predicate Filled(m: Memory, d: nat, size: nat) {
    SpaceOk(m, d) && size < KERNBASE && forall v: nat :: v < KERNPAGE ==> (UserPage(m, d, v) <==> v < PagesOf(size))
  }

  lemma NothingAbove(m: Memory, d: nat, size: nat)
    requires Filled(m, d, size)
    ensures forall w :: PagesOf(size) <= w < KERNPAGE ==> PteAt(m, d, w).Absent?
  {
    forall w | PagesOf(size) <= w < KERNPAGE ensures PteAt(m, d, w).Absent? {
      assert !UserPage(m, d, w);
    }
  }

  // Mapping or unmapping the pages between two sizes.
  lemma Resized(m: Memory, m': Memory, d: nat, lo: nat, hi: nat, grown: bool)
    requires lo <= hi && SpaceOk(m', d) && Filled(m, d, if grown then lo else hi) && hi < KERNBASE
    requires forall w :: 0 <= w < KERNPAGE ==>
      if PagesOf(lo) <= w < PagesOf(hi) then PteAt(m', d, w).Present? == grown else PteAt(m', d, w) == PteAt(m, d, w)
    ensures Filled(m', d, if grown then hi else lo)
  {
    forall v: nat | v < KERNPAGE ensures UserPage(m', d, v) <==> v < PagesOf(if grown then hi else lo) {
      assert UserPage(m, d, v) <==> PteAt(m, d, v).Present?;
      if PagesOf(lo) <= v < PagesOf(hi) {
        assert PteAt(m', d, v).Present? == grown;
      } else {
        assert PteAt(m', d, v) == PteAt(m, d, v);
      }
    }
  }

  // ---- The images that exec loads -----------------------------------------

  // A program header, and whether it and the bytes it describes can be read from the file.
  datatype Segment = Segment(load: bool, vaddr: nat, memsz: nat, filesz: nat, headerRead: bool, contentsRead: bool) {
    predicate Words() { vaddr < UINT && memsz < UINT && filesz < UINT }

    // It passes exec's checks; a header of another type is skipped.
    predicate Ok() {
      headerRead && (load ==> filesz <= memsz && vaddr + memsz < UINT && vaddr % PGSIZE == 0 && contentsRead)
    }
  }

  predicate Loadable(segs: seq<Segment>) {
    forall k :: 0 <= k < |segs| ==> segs[k].Ok()
  }

  function Extended(sz: nat, s: Segment): nat {
    if s.load && sz <= s.vaddr + s.memsz then s.vaddr + s.memsz else sz
  }

  // Where the last segment ends.
  function Extent(segs: seq<Segment>): nat {
    if segs == [] then 0 else Extended(Extent(segs[..|segs| - 1]), segs[|segs| - 1])
  }

  lemma ExtentNext(segs: seq<Segment>, i: nat)
    requires i < |segs|
    ensures Extent(segs[..i + 1]) == Extended(Extent(segs[..i]), segs[i])
  {
    assert segs[..i + 1][..i] == segs[..i];
  }

  lemma LoadableNext(segs: seq<Segment>, i: nat)
    requires i < |segs| && Loadable(segs[..i]) && segs[i].Ok()
    ensures Loadable(segs[..i + 1])
  {
  }

  // The segments in whole pages, a guard page and a page of stack.
  function ImageSize(segs: seq<Segment>): nat {
    PagesOf(Extent(segs)) * PGSIZE + 2 * PGSIZE
  }

  lemma CopyFilled(m: Memory, m': Memory, d: nat, nd: nat, size: nat)
    requires SpaceOk(m, d) && SpaceOk(m', nd) && size < KERNBASE
    requires forall v: nat :: v < PagesOf(size) ==> UserPage(m, d, v) && CopyOf(m, m', d, nd, v)
    requires forall v: nat :: PagesOf(size) <= v < KERNPAGE ==> PteAt(m', nd, v).Absent?
    ensures Filled(m', nd, size)
  {
    forall v: nat | v < KERNPAGE ensures UserPage(m', nd, v) <==> v < PagesOf(size) {
      if v < PagesOf(size) {
        assert CopyOf(m, m', d, nd, v);
      } else {
        assert PteAt(m', nd, v).Absent?;
      }
    }
  }

  ghost predicate AllFilled(m: Memory, sizes: map<nat, nat>) {
    forall d :: d in sizes ==> Filled(m, d, sizes[d])
  }

  lemma FilledKept(m: Memory, m': Memory, d: nat, size: nat)
    requires Filled(m, d, size) && SpaceOk(m', d) && SameSpace(m, m', d)
    ensures Filled(m', d, size)
  {
    forall v: nat | v < KERNPAGE ensures UserPage(m', d, v) <==> v < PagesOf(size) {
      assert UserPage(m, d, v) <==> PteAt(m, d, v).Present?;
    }
  }

  lemma AllFilledKept(m: Memory, m': Memory, sizes: map<nat, nat>, sizes': map<nat, nat>, d: nat)
    requires AllFilled(m, sizes) && Unchanged(m, m', sizes.Keys - {d})
    requires forall e :: e in sizes' && e != d ==> e in sizes && sizes'[e] == sizes[e]
    requires d in sizes' ==> Filled(m', d, sizes'[d])
    ensures AllFilled(m', sizes')
  {
    forall e | e in sizes' && e != d ensures Filled(m', e, sizes'[e]) {
      assert e in sizes.Keys - {d};
      FilledKept(m, m', e, sizes[e]);
    }
  }

  lemma SameSizes(m: Memory, sizes: map<nat, nat>, d: nat)
    requires d in sizes && AllFilled(m, sizes[d := sizes[d]])
    ensures AllFilled(m, sizes)
  {
    assert sizes[d := sizes[d]] == sizes;
  }

  lemma ShrunkToNothing(m: Memory, sizes: map<nat, nat>, d: nat)
    requires d in sizes && AllFilled(m, sizes[d := 0])
    ensures Filled(m, d, 0) && (AllFilled(m, sizes) <==> sizes[d] == 0)
  {
    assert sizes[d := 0][d] == 0;
    if sizes[d] == 0 {
      assert sizes == sizes[d := 0];
    } else {
      assert !UserPage(m, d, 0);
    }
  }

  // Both, for the processes' sizes and the free list as they are kept.
  lemma OwnStep(m: Memory, f: set<nat>, sizes: map<nat, nat>, m': Memory, head: nat, free: seq<nat>, sizes': map<nat, nat>, d: nat)
    requires SystemOk(m, f, sizes.Keys) && AllFilled(m, sizes) && 0 !in m' && FreeListOk(m', head, free)
    requires forall e :: e != d ==> (e in sizes' <==> e in sizes) && (e in sizes ==> sizes'[e] == sizes[e])
    requires d in sizes' ==> Filled(m', d, sizes'[d])
    requires Share(m', Members(free), sizes'.Keys, d) == Share(m, f, sizes.Keys, d)
    requires Elsewhere(m, m', Share(m, f, sizes.Keys, d))
    ensures SystemOk(m', Members(free), sizes'.Keys) && AllFilled(m', sizes')
    ensures Unchanged(m, m', sizes.Keys - {d})
    ensures AllFrames(m', Members(free), sizes'.Keys) == AllFrames(m, f, sizes.Keys)
  {
    FreeAreFree(m', head, free);
    if d in sizes' { OwnedAreInUse(m', d); }
    assert sizes.Keys - {d} == sizes'.Keys - {d};
    StepKeeps(m, f, sizes.Keys, m', Members(free), sizes'.Keys, d);
    AllFilledKept(m, m', sizes, sizes', d);
  }

  // What is left of size after giving back n bytes: more than there is cannot be given back,
  // because the unsigned difference wraps around.
  function Left(size: nat, n: nat): nat { if n <= size then size - n else size }

  class Machine {
    const kernel: Kernel
    var sizes: map<nat, nat>    // p->pgdir and p->sz of every process that has them

    constructor (k: Kernel)
      requires k.Valid() && KERNPAGE + EXTPAGE < k.dataPage < KERNPAGE + STOPPAGE
      ensures kernel == k && Valid() && sizes == map[]
    {
      kernel, sizes := k, map[];
    }

    ghost predicate System()
      reads this, kernel
    {
      && kernel.Valid() && KERNPAGE + EXTPAGE < kernel.dataPage < KERNPAGE + STOPPAGE
      && SystemOk(kernel.mem, kernel.Free(), sizes.Keys)
    }

    ghost predicate Valid()
      reads this, kernel
    {
      System() && AllFilled(kernel.mem, sizes)
    }

    ghost function Frames(): set<nat>
      requires System()
      reads this, kernel
    {
      AllFrames(kernel.mem, kernel.Free(), sizes.Keys)
    }

    // The memory of process d has changed from m0, and nothing else; its size is now sz.
    ghost predicate Changed(m0: Memory, f0: set<nat>, d: nat, sz: nat)
      reads this, kernel
    {
      && kernel.Valid() && d in sizes && SpaceOk(m0, d) && Filled(kernel.mem, d, sz)
      && Share(kernel.mem, kernel.Free(), sizes.Keys, d) == Share(m0, f0, sizes.Keys, d)
      && Elsewhere(m0, kernel.mem, Share(m0, f0, sizes.Keys, d))
    }

    method GrowPages(d: nat, newsz: nat) returns (sz: nat)
      requires Valid() && d in sizes && sizes[d] < newsz
      modifies kernel
      ensures sz == 0 || sz == newsz
      ensures Changed(old(kernel.mem), old(kernel.Free()), d, if sz == 0 then sizes[d] else sz)
    {
      ghost var m0 := kernel.mem;
      NothingAbove(m0, d, sizes[d]);
      sz := kernel.Allocuvm(d, sizes[d], newsz);
      Resized(m0, kernel.mem, d, sizes[d], if sz == 0 then sizes[d] else sz, true);
    }

    method ShrinkPages(d: nat, newsz: nat) returns (sz: nat)
      requires Valid() && d in sizes
      modifies kernel
      ensures sz == if newsz < sizes[d] then newsz else sizes[d]
      ensures Changed(old(kernel.mem), old(kernel.Free()), d, sz)
    {
      ghost var m0 := kernel.mem;
      sz := kernel.Deallocuvm(d, sizes[d], newsz);
      Resized(m0, kernel.mem, d, sz, sizes[d], false);
    }

    ghost predicate Kept(m0: Memory, all: set<nat>, others: set<nat>)
      requires System()
      reads this, kernel
    {
      Frames() == all && Unchanged(m0, kernel.mem, others)
    }

    lemma Settle(m0: Memory, f0: set<nat>, d: nat, size: nat)
      requires KERNPAGE + EXTPAGE < kernel.dataPage < KERNPAGE + STOPPAGE
      requires SystemOk(m0, f0, sizes.Keys) && AllFilled(m0, sizes) && Changed(m0, f0, d, size)
      ensures System() && Kept(m0, AllFrames(m0, f0, sizes.Keys), sizes.Keys - {d})
      ensures AllFilled(kernel.mem, sizes[d := size]) && sizes[d := size].Keys == sizes.Keys
    {
      assert sizes[d := size].Keys == sizes.Keys;
      OwnStep(m0, f0, sizes, kernel.mem, kernel.head, kernel.free, sizes[d := size], d);
    }

    ghost predicate OnlySize(s0: map<nat, nat>, d: nat)
      reads this
    {
      d in s0 && forall e :: (e in sizes <==> e in s0) && (e in s0 && e != d ==> sizes[e] == s0[e])
    }

    // growproc with n > 0: allocuvm, and p->sz is updated unless it failed.
    method Grow(d: nat, n: nat) returns (r: int)
      requires Valid() && d in sizes && n > 0
      modifies this, kernel
      ensures Valid() && Kept(old(kernel.mem), old(Frames()), old(sizes.Keys) - {d})
      ensures r == 0 || r == -1
      ensures OnlySize(old(sizes), d)
      ensures sizes[d] == old(sizes[d]) + if r == 0 then n else 0
    {
      ghost var m0, f0 := kernel.mem, kernel.Free();
      var sz := GrowPages(d, sizes[d] + n);
      ghost var size := if sz == 0 then sizes[d] else sz;
      Settle(m0, f0, d, size);
      if sz == 0 {
        SameSizes(kernel.mem, sizes, d);
        return -1;
      }
      sizes := sizes[d := sz];
      return 0;
    }

    method SettledShrink(d: nat, n: nat) returns (sz: nat)
      requires Valid() && d in sizes && 0 < n <= 0x8000_0000
      modifies kernel
      ensures sz == Left(sizes[d], n)
      ensures System() && Kept(old(kernel.mem), old(Frames()), sizes.Keys - {d})
      ensures AllFilled(kernel.mem, sizes[d := sz]) && sizes[d := sz].Keys == sizes.Keys
    {
      ghost var m0, f0 := kernel.mem, kernel.Free();
      sz := ShrinkPages(d, if n <= sizes[d] then sizes[d] - n else sizes[d] + 0x1_0000_0000 - n);
      assert sz == Left(sizes[d], n);
      Settle(m0, f0, d, sz);
    }

    // growproc with n < 0.  If nothing would be left, deallocuvm's 0 is taken for a failure:
    // the pages are gone, but p->sz stays.
    method Shrink(d: nat, n: nat) returns (r: int)
      requires Valid() && d in sizes && 0 < n <= 0x8000_0000
      modifies this, kernel
      ensures System() && Kept(old(kernel.mem), old(Frames()), old(sizes.Keys) - {d})
      ensures r == if Left(old(sizes[d]), n) == 0 then -1 else 0
      ensures OnlySize(old(sizes), d)
      ensures sizes[d] == if r == 0 then Left(old(sizes[d]), n) else old(sizes[d])
      ensures r == 0 ==> Valid()
      ensures r == -1 ==> AllFilled(kernel.mem, sizes[d := 0])
    {
      var sz := SettledShrink(d, n);
      if sz == 0 { return -1; }
      sizes := sizes[d := sz];
      return 0;
    }

    // The frames are conserved in every case; sizes and pages stay in step except when n == -sz.
    method GrowProc(d: nat, n: int) returns (r: int)
      requires Valid() && d in sizes && -0x8000_0000 <= n < 0x8000_0000
      modifies this, kernel
      ensures System() && Kept(old(kernel.mem), old(Frames()), old(sizes.Keys) - {d})
      ensures Valid() <==> !(n < 0 && old(sizes[d]) + n == 0)
      ensures OnlySize(old(sizes), d)
      ensures sizes[d] == old(sizes[d]) + if r == 0 && old(sizes[d]) + n > 0 then n else 0
      // Giving back the whole image frees its pages, but is reported as a failure.
      ensures n < 0 && old(sizes[d]) + n == 0 ==> r == -1 && AllFilled(kernel.mem, sizes[d := 0])
    {
      if n > 0 {
        r := Grow(d, n);
      } else if n < 0 {
        r := Shrink(d, -n);
        if r != 0 { ShrunkToNothing(kernel.mem, sizes, d); }
      } else {
        UnchangedSelf(kernel.mem, kernel.Free(), sizes.Keys, sizes.Keys - {d});
        r := 0;
      }
    }

    // What fork does to memory.  copyuvm's panics cannot happen.
    method Fork(d: nat) returns (nd: nat)
      requires Valid() && d in sizes
      modifies this, kernel
      ensures Valid() && Frames() == old(Frames())
      ensures Unchanged(old(kernel.mem), kernel.mem, old(sizes.Keys))
      ensures nd == 0 ==> sizes == old(sizes) && kernel.Free() == old(kernel.Free())
      ensures nd != 0 ==> nd !in old(sizes) && nd in sizes && sizes[nd] == old(sizes[d])
      ensures forall e :: e != nd ==> (e in sizes <==> e in old(sizes)) && (e in sizes ==> sizes[e] == old(sizes[e]))
      ensures nd != 0 ==> kernel.Copying(old(kernel.mem), old(kernel.Free()), d, nd, PagesOf(old(sizes[d])))
    {
      ghost var m0, f0, s0 := kernel.mem, kernel.Free(), sizes;
      var panic;
      nd, panic := kernel.Copyuvm(d, sizes[d]);
      assert !panic;
      if nd != 0 {
        assert nd in Owned(kernel.mem, nd);
        CopyFilled(m0, kernel.mem, d, nd, sizes[d]);
        sizes := sizes[nd := sizes[d]];
      }
      assert nd !in s0 && s0.Keys - {nd} == s0.Keys;
      OwnStep(m0, f0, s0, kernel.mem, kernel.head, kernel.free, sizes, nd);
    }

    // What wait does to the memory of a zombie.
    method Reap(d: nat)
      requires Valid() && d in sizes
      modifies this, kernel
      ensures Valid() && Kept(old(kernel.mem), old(Frames()), old(sizes.Keys) - {d})
      ensures kernel.Free() == old(kernel.Free() + Owned(kernel.mem, d)) && d !in sizes
      ensures forall e :: e != d ==> (e in sizes <==> e in old(sizes)) && (e in sizes ==> sizes[e] == old(sizes[e]))
    {
      ghost var m0, f0, s0 := kernel.mem, kernel.Free(), sizes;
      kernel.Freevm(d);
      OwnStep(m0, f0, s0, kernel.mem, kernel.head, kernel.free, s0 - {d}, d);
      sizes := sizes - {d};
    }

    // exec's new image, complete, or 0 with every frame given back.
    method NewImage(segs: seq<Segment>, argsFit: bool) returns (nd: nat)
      requires Valid() && forall k :: 0 <= k < |segs| ==> segs[k].Words()
      modifies this, kernel
      ensures Valid() && Kept(old(kernel.mem), old(Frames()), old(sizes.Keys))
      ensures nd == 0 ==> kernel.Free() == old(kernel.Free())
      ensures nd != 0 ==> Loadable(segs) && argsFit && nd !in old(sizes) && nd in sizes && sizes[nd] == ImageSize(segs)
      ensures forall e :: e != nd ==> (e in sizes <==> e in old(sizes)) && (e in sizes ==> sizes[e] == old(sizes[e]))
    {
      ghost var m0, f0, s0 := kernel.mem, kernel.Free(), sizes;
      var size;
      nd, size := BuildImage(segs, argsFit);
      if nd != 0 {
        assert nd in Owned(kernel.mem, nd);
        sizes := sizes[nd := size];
      }
      assert nd !in s0 && s0.Keys - {nd} == s0.Keys;
      OwnStep(m0, f0, s0, kernel.mem, kernel.head, kernel.free, sizes, nd);
    }

    // nd is being built from the frames f0 that were free in memory m0, and has sz bytes.
    ghost predicate Building(m0: Memory, f0: set<nat>, nd: nat, sz: nat)
      reads this, kernel
    {
      && kernel.Has(nd) && kernel.Free() + Owned(kernel.mem, nd) == f0
      && Elsewhere(m0, kernel.mem, f0) && Filled(kernel.mem, nd, sz)
    }

    // allocuvm in exec, from the size sz or the end `from` of its last page: no less than that, or 0.
    method GrowImage(nd: nat, ghost sz: nat, from: nat, newsz: nat, ghost m0: Memory, ghost f0: set<nat>) returns (r: nat)
      requires Building(m0, f0, nd, sz) && sz <= from && PagesOf(sz) == PagesOf(from)
      modifies kernel
      ensures r == 0 || r == if newsz < from then from else newsz
      ensures r >= newsz >= from || r == 0 ==> Building(m0, f0, nd, if r == 0 then sz else r)
      ensures newsz < from ==> Building(m0, f0, nd, sz)
    {
      ghost var m := kernel.mem;
      NothingAbove(m, nd, sz);
      r := kernel.Allocuvm(nd, from, newsz);
      if r == newsz && from <= newsz {
        Resized(m, kernel.mem, nd, sz, newsz, true);
      } else {
        FilledKept(m, kernel.mem, nd, sz);
      }
    }

    // One turn of the loop over the program headers.
    method LoadSegment(nd: nat, sz: nat, s: Segment, ghost m0: Memory, ghost f0: set<nat>) returns (ok: bool, size: nat)
      requires Building(m0, f0, nd, sz) && s.Words()
      modifies kernel
      ensures Building(m0, f0, nd, size)
      ensures ok ==> s.Ok() && size == Extended(sz, s)
    {
      ok, size := s.headerRead, sz;
      if !ok || !s.load { return; }
      if s.memsz < s.filesz || (s.vaddr + s.memsz) % UINT < s.vaddr {
        ok := false;
        return;
      }
      var r := GrowImage(nd, sz, sz, s.vaddr + s.memsz, m0, f0);
      if r == 0 {
        ok := false;
        return;
      }
      size := r;
      ok := s.vaddr % PGSIZE == 0 && s.contentsRead;
    }

    // All segments, and the two pages of the stack.
    method LoadImage(nd: nat, segs: seq<Segment>, argsFit: bool, ghost m0: Memory, ghost f0: set<nat>)
      returns (ok: bool, size: nat)
      requires Building(m0, f0, nd, 0) && forall k :: 0 <= k < |segs| ==> segs[k].Words()
      modifies kernel
      ensures Building(m0, f0, nd, size)
      ensures ok ==> Loadable(segs) && argsFit && size == ImageSize(segs)
    {
      var i := 0;
      size := 0;
      while i < |segs|
        invariant 0 <= i <= |segs| && Building(m0, f0, nd, size) && size == Extent(segs[..i])
        invariant Loadable(segs[..i])
      {
        ExtentNext(segs, i);
        ok, size := LoadSegment(nd, size, segs[i], m0, f0);
        if !ok { return; }
        LoadableNext(segs, i);
        i := i + 1;
      }
      assert segs[..i] == segs;
      var top := PagesOf(size) * PGSIZE;
      var r := GrowImage(nd, size, top, top + 2 * PGSIZE, m0, f0);
      ok := r != 0 && argsFit;
      if r != 0 { size := r; }
    }

    method BuildImage(segs: seq<Segment>, argsFit: bool) returns (nd: nat, size: nat)
      requires System() && forall k :: 0 <= k < |segs| ==> segs[k].Words()
      modifies kernel
      ensures kernel.Valid() && Elsewhere(old(kernel.mem), kernel.mem, old(kernel.Free()))
      ensures nd == 0 ==> kernel.Free() == old(kernel.Free())
      ensures nd != 0 ==> Loadable(segs) && argsFit && size == ImageSize(segs) && Filled(kernel.mem, nd, size)
      ensures nd != 0 ==> kernel.Free() + Owned(kernel.mem, nd) == old(kernel.Free())
    {
      ghost var m0, f0 := kernel.mem, kernel.Free();
      nd := kernel.Setupkvm();
      size := 0;
      if nd == 0 { return; }
      assert forall v: nat :: v < KERNPAGE ==> !UserPage(kernel.mem, nd, v) by {
        assert forall v: nat :: v < KERNPAGE ==> PteAt(kernel.mem, nd, v).Absent?;
      }
      var ok;
      ok, size := LoadImage(nd, segs, argsFit, m0, f0);
      if !ok {
        kernel.Freevm(nd);
        nd := 0;
      }
    }

    // What exec does to memory: the old image is freed once the new one is complete.
    method Exec(d: nat, segs: seq<Segment>, argsFit: bool) returns (nd: nat)
      requires Valid() && d in sizes && forall k :: 0 <= k < |segs| ==> segs[k].Words()
      modifies this, kernel
      ensures Valid() && Kept(old(kernel.mem), old(Frames()), old(sizes.Keys) - {d})
      ensures nd == 0 ==> kernel.Free() == old(kernel.Free()) && d in sizes && sizes[d] == old(sizes[d])
      ensures nd != 0 ==> Loadable(segs) && argsFit
      ensures nd != 0 ==> d !in sizes && nd !in old(sizes) && nd in sizes && sizes[nd] == ImageSize(segs)
      ensures forall e :: e != d && e != nd ==>
        (e in sizes <==> e in old(sizes)) && (e in sizes ==> sizes[e] == old(sizes[e]))
    {
      ghost var m0, s0 := kernel.mem, sizes;
      nd := NewImage(segs, argsFit);
      if nd != 0 {
        ghost var m1 := kernel.mem;
        Reap(d);
        assert forall e :: e in s0 ==> e in sizes || e == d;
        UnchangedTwice(m0, m1, kernel.mem, s0.Keys, s0.Keys - {d});
      }
    }
  }
}
