// The stacks of a process's threads (proc.c of Project02): thread_create takes the
// stack slot that was freed first, or carves a new one at the end of the process's
// memory, and thread_join puts the slot of the joined thread in a ring.  A slot is
// stacksz + 1 pages, the lowest of them a guard.  Slots are named by their first page.
module ThreadStacks {
  import opened Arith
  import opened Paging
  import opened Sets

  const NTHRD := 256
  const MAINTH := 1

  predicate In(p: nat, b: nat, k: nat) { b <= p < b + k }

  // The pages of all slots in s.
  ghost function StackPages(s: set<nat>, k: nat): set<nat> {
    set b, p | b in s && p in Slot(b, k) :: p
  }

  ghost function Slot(b: nat, k: nat): set<nat> {
    set p: nat | b <= p < b + k && In(p, b, k)
  }

  // Slots of k pages below page `top` that do not overlap each other or the heap.
  ghost predicate Apart(k: nat, top: nat, heap: set<nat>, slots: set<nat>) {
    && (forall p :: p in heap ==> p < top)
    && (forall b :: b in slots ==> b + k <= top && Slot(b, k) !! heap)
    && (forall a, b :: a in slots && b in slots && a != b ==> a + k <= b || b + k <= a)
  }

  // live is the slots in use, q the freed ones, oldest first.
  ghost predicate SlotsOk(k: nat, top: nat, heap: set<nat>, live: set<nat>, q: seq<nat>, mapped: set<nat>) {
    && k > 0 && Apart(k, top, heap, live + Members(q)) && live !! Members(q)
    && (forall i, j :: 0 <= i < j < |q| ==> q[i] != q[j])
    && mapped == heap + StackPages(live, k)
  }

  lemma SlotsDisjoint(a: nat, b: nat, k: nat)
    ensures (a + k <= b || b + k <= a) ==> Slot(a, k) !! Slot(b, k)
  {
  }

  // The next slot to use is not mapped, so allocuvm finds nothing in its way.
  lemma NextSlotIsFree(k: nat, top: nat, heap: set<nat>, live: set<nat>, q: seq<nat>, mapped: set<nat>)
    requires SlotsOk(k, top, heap, live, q, mapped)
    ensures Slot(if q == [] then top else q[0], k) !! mapped
  {
    var b := if q == [] then top else q[0];
    forall a | a in live ensures Slot(a, k) !! Slot(b, k) {
      SlotsDisjoint(a, b, k);
    }
    if q != [] { assert b in live + Members(q); }
  }

  // thread_create with a freed slot,
  lemma Reuse(k: nat, top: nat, heap: set<nat>, live: set<nat>, q: seq<nat>, mapped: set<nat>)
    requires SlotsOk(k, top, heap, live, q, mapped) && q != []
    ensures SlotsOk(k, top, heap, live + {q[0]}, q[1..], mapped + Slot(q[0], k))
    ensures live + {q[0]} + Members(q[1..]) == live + Members(q)
  {
    assert q == [q[0]] + q[1..];
    assert live + {q[0]} + Members(q[1..]) == live + Members(q);
    assert StackPages(live + {q[0]}, k) == StackPages(live, k) + Slot(q[0], k);
  }

  // ... and without one.
  lemma Carve(k: nat, top: nat, heap: set<nat>, live: set<nat>, mapped: set<nat>)
    requires SlotsOk(k, top, heap, live, [], mapped)
    ensures SlotsOk(k, top + k, heap, live + {top}, [], mapped + Slot(top, k)) && top !in live
  {
    assert live + Members([]) == live;
    assert live + {top} + Members([]) == live + {top};
    assert StackPages(live + {top}, k) == StackPages(live, k) + Slot(top, k);
  }

  // thread_join
  lemma GiveBack(k: nat, top: nat, heap: set<nat>, live: set<nat>, q: seq<nat>, mapped: set<nat>, b: nat)
    requires SlotsOk(k, top, heap, live, q, mapped) && b in live
    ensures SlotsOk(k, top, heap, live - {b}, q + [b], mapped - Slot(b, k))
    ensures live - {b} + Members(q + [b]) == live + Members(q)
  {
    assert live - {b} + Members(q + [b]) == live + Members(q);
    forall a | a in live - {b} ensures Slot(a, k) !! Slot(b, k) {
      SlotsDisjoint(a, b, k);
    }
    assert StackPages(live, k) == StackPages(live - {b}, k) + Slot(b, k);
  }

  // sbrk
  lemma GrowHeap(k: nat, top: nat, top': nat, heap: set<nat>, live: set<nat>, q: seq<nat>, mapped: set<nat>)
    requires SlotsOk(k, top, heap, live, q, mapped) && top <= top'
    ensures SlotsOk(k, top', heap + Slot(top, top' - top), live, q, mapped + Slot(top, top' - top))
    ensures Slot(top, top' - top) !! mapped
  {
  }

  // ---- The thread table ---------------------------------------------------

  // An entry of pthread_table: a thread that thread_create made for this process, or anything
  // else, such as its main thread and the threads of other processes.  thSz is the end of its
  // slot, and joiner the entry of the thread that created it, or -1.  A thread_create that fails
  // leaves an unused entry with the process's pid, that is, mine, and a thread_id.
  datatype Thread =
    | Unused(mine: bool, id: nat, joiner: int)
    | Foreign(id: nat)
    | Live(zombie: bool, thSz: nat, id: nat, joiner: int)

  // What thread_join leaves.
  const EMPTY := Unused(false, 0, -1)

  ghost predicate JoinersOk(threads: seq<Thread>) {
    forall i :: 0 <= i < |threads| && !threads[i].Foreign? ==> -1 <= threads[i].joiner < |threads|
  }

  // What thread_join compares of an entry: the pid and the id, and then the id that its creator's
  // entry has now; atNull is what a read through a null pointer finds.
  predicate Matches(threads: seq<Thread>, i: int, self: nat, id: nat, atNull: nat) {
    && 0 <= i < |threads| && threads[i].id == id && (threads[i].Live? || (threads[i].Unused? && threads[i].mine))
    && -1 <= threads[i].joiner < |threads|
    && self == if threads[i].joiner == -1 then atNull else threads[threads[i].joiner].id
  }

  predicate ZombieAt(threads: seq<Thread>, i: int, self: nat, id: nat, atNull: nat) {
    Matches(threads, i, self, id, atNull) && threads[i].Live? && threads[i].zombie
  }

  predicate HasUnused(threads: seq<Thread>) {
    exists i :: 0 <= i < |threads| && threads[i].Unused?
  }

  function Base(t: Thread, k: nat): int
    requires t.Live?
  {
    t.thSz / PGSIZE - k
  }

  ghost predicate TableOk(threads: seq<Thread>, main: nat, k: nat) {
    && |threads| == NTHRD && main < NTHRD && threads[main].Foreign?
    && (forall i :: 0 <= i < NTHRD && threads[i].Live? ==> threads[i].thSz % PGSIZE == 0 && Base(threads[i], k) >= 0)
    && (forall i, j :: 0 <= i < j < NTHRD && threads[i].Live? && threads[j].Live? ==>
          Base(threads[i], k) != Base(threads[j], k))
  }

  ghost function LiveSlots(threads: seq<Thread>, k: nat): set<nat> {
    set i | 0 <= i < |threads| && threads[i].Live? && Base(threads[i], k) >= 0 :: Base(threads[i], k)
  }

  lemma {:induction false} LiveCount(threads: seq<Thread>, k: nat)
    ensures |LiveSlots(threads, k)| <= |threads|
    ensures (exists i :: 0 <= i < |threads| && threads[i].Foreign?) ==> |LiveSlots(threads, k)| < |threads|
  {
    if threads != [] {
      var n := |threads| - 1;
      LiveCount(threads[..n], k);
      var rest := LiveSlots(threads[..n], k);
      assert threads == threads[..n] + [threads[n]];
      if threads[n].Live? && Base(threads[n], k) >= 0 {
        assert LiveSlots(threads, k) == rest + {Base(threads[n], k) as nat};
        if i :| 0 <= i < |threads| && threads[i].Foreign? { assert threads[..n][i].Foreign?; }
      } else {
        assert LiveSlots(threads, k) == rest;
      }
    }
  }

  // Changing one entry from or to one that is not live.
  lemma EnterThread(threads: seq<Thread>, main: nat, k: nat, i: nat, t: Thread)
    requires TableOk(threads, main, k) && i < NTHRD && i != main && !threads[i].Live?
    requires t.Live? && t.thSz % PGSIZE == 0 && Base(t, k) >= 0 && Base(t, k) !in LiveSlots(threads, k)
    ensures TableOk(threads[i := t], main, k)
    ensures LiveSlots(threads[i := t], k) == LiveSlots(threads, k) + {Base(t, k) as nat}
  {
    var r := threads[i := t];
    assert forall j :: 0 <= j < NTHRD && threads[j].Live? ==> Base(threads[j], k) in LiveSlots(threads, k);
    assert forall j :: 0 <= j < NTHRD && j != i ==> r[j] == threads[j];
    assert r[i] == t && Base(r[i], k) in LiveSlots(r, k);
    forall b | b in LiveSlots(threads, k) ensures b in LiveSlots(r, k) {
      var j :| 0 <= j < |threads| && threads[j].Live? && Base(threads[j], k) == b;
      assert r[j] == threads[j];
    }
  }

  lemma RemoveThread(threads: seq<Thread>, main: nat, k: nat, i: nat)
    requires TableOk(threads, main, k) && i < NTHRD && threads[i].Live?
    ensures TableOk(threads[i := EMPTY], main, k) && Base(threads[i], k) in LiveSlots(threads, k)
    ensures LiveSlots(threads[i := EMPTY], k) == LiveSlots(threads, k) - {Base(threads[i], k) as nat}
  {
    var r := threads[i := EMPTY];
    assert forall j :: 0 <= j < NTHRD && j != i ==> r[j] == threads[j];
  }

  lemma CountLive(threads: seq<Thread>, main: nat, k: nat, q: seq<nat>)
    requires TableOk(threads, main, k)
    ensures |LiveSlots(threads, k)| < NTHRD && |LiveSlots(threads, k)| <= |LiveSlots(threads, k) + Members(q)|
  {
    LiveCount(threads, k);
    SubsetSize(LiveSlots(threads, k), LiveSlots(threads, k) + Members(q));
  }

  // The ring holds the freed slots; between them, live and freed slots are as many as there have
  // ever been live threads at once, so the ring cannot overflow.
  lemma RingHasRoom(k: nat, top: nat, heap: set<nat>, live: set<nat>, q: seq<nat>, mapped: set<nat>, peak: nat)
    requires SlotsOk(k, top, heap, live, q, mapped) && |live + Members(q)| == peak
    ensures |live| + |q| == peak
  {
    DistinctMembers(q);
    UnionSize(live, Members(q));
  }

  // ---- The ring -----------------------------------------------------------

  // The j-th entry of freed_sz from front on, as a page.
  function RingAt(s: seq<nat>, front: nat, j: int): nat
    requires |s| == NTHRD && 0 <= j
  {
    s[(front + j) % NTHRD] / PGSIZE
  }

  ghost predicate RingOk(s: seq<nat>, front: nat, back: nat, n: nat) {
    && |s| == NTHRD && front < NTHRD && n <= NTHRD && back == (front + n) % NTHRD
    && forall j :: 0 <= j < n ==> RingAt(s, front, j) * PGSIZE == s[(front + j) % NTHRD]
  }

  // The freed slots, oldest first.
  ghost function RingQueue(s: seq<nat>, front: nat, n: nat): (q: seq<nat>)
    requires |s| == NTHRD
    ensures |q| == n
  {
    seq(n, j requires 0 <= j < n => RingAt(s, front, j))
  }

  lemma SlotsOfRing(front: nat, j: int, n: nat)
    requires front < NTHRD && 0 <= j < n < NTHRD
    ensures (front + j) % NTHRD != (front + n) % NTHRD
  {
    var a, b := front + j, front + n;
    assert a % NTHRD == if a < NTHRD then a else a - NTHRD;
    assert b % NTHRD == if b < NTHRD then b else b - NTHRD;
  }

  lemma PushRing(s: seq<nat>, front: nat, back: nat, n: nat, base: nat)
    requires RingOk(s, front, back, n) && n < NTHRD && base % PGSIZE == 0
    ensures RingOk(s[back := base], front, (back + 1) % NTHRD, n + 1)
    ensures RingQueue(s[back := base], front, n + 1) == RingQueue(s, front, n) + [base / PGSIZE]
  {
    var s' := s[back := base];
    forall j | 0 <= j <= n
      ensures RingAt(s', front, j) == if j < n then RingAt(s, front, j) else base / PGSIZE
      ensures RingAt(s', front, j) * PGSIZE == s'[(front + j) % NTHRD]
    {
      if j < n {
        SlotsOfRing(front, j, n);
        assert s'[(front + j) % NTHRD] == s[(front + j) % NTHRD];
        assert RingAt(s, front, j) * PGSIZE == s[(front + j) % NTHRD];
      }
    }
  }

  lemma PopRing(s: seq<nat>, front: nat, back: nat, n: nat)
    requires RingOk(s, front, back, n) && n > 0
    ensures RingOk(s[front := 0], (front + 1) % NTHRD, back, n - 1)
    ensures RingQueue(s, front, n)[0] == s[front] / PGSIZE
    ensures RingQueue(s[front := 0], (front + 1) % NTHRD, n - 1) == RingQueue(s, front, n)[1..]
  {
    var s', front' := s[front := 0], (front + 1) % NTHRD;
    forall j | 0 <= j < n - 1
      ensures RingAt(s', front', j) == RingAt(s, front, j + 1)
      ensures RingAt(s', front', j) * PGSIZE == s'[(front' + j) % NTHRD]
    {
      assert (front' + j) % NTHRD == (front + (j + 1)) % NTHRD != front;
    }
  }

  // ---- The process's memory and what the calls do to it -------------------

  // k pages to a slot; mapped is the user pages of pgdir, heap those of the image and of sbrk;
  // q is the freed slots, oldest first; peak is the most threads that were ever live at once.
  datatype Stacks = Stacks(k: nat, main: nat, sz: nat, threads: seq<Thread>, q: seq<nat>,
                           heap: set<nat>, mapped: set<nat>, peak: nat) {
    ghost function Live(): set<nat> { LiveSlots(threads, k) }

    ghost predicate Ok() {
      && TableOk(threads, main, k) && SlotsOk(k, PagesOf(sz), heap, Live(), q, mapped)
      && |Live() + Members(q)| == peak < NTHRD
      && forall b :: b in Live() + Members(q) ==> (b + k) * PGSIZE <= sz
    }

    // The slot that the next thread gets.
    function Next(): nat { if q == [] then PagesOf(sz) else q[0] }

    function End(): nat { (Next() + k) * PGSIZE }

    ghost function Reused(i: nat, t: Thread): Stacks
      requires i < |threads| && q != []
    {
      Stacks(k, main, sz, threads[i := t], q[1..], heap, mapped + Slot(q[0], k), peak)
    }

    ghost function Carved(i: nat, t: Thread): Stacks
      requires i < |threads|
    {
      Stacks(k, main, (PagesOf(sz) + k) * PGSIZE, threads[i := t], [], heap, mapped + Slot(PagesOf(sz), k), peak + 1)
    }

    ghost function Create(i: nat, t: Thread): Stacks
      requires i < |threads|
    {
      if q == [] then Carved(i, t) else Reused(i, t)
    }

    ghost function Join(i: nat): Stacks
      requires i < |threads| && threads[i].Live? && Base(threads[i], k) >= 0
    {
      var b := Base(threads[i], k);
      Stacks(k, main, sz, threads[i := EMPTY], q + [b], heap, mapped - Slot(b, k), peak)
    }

    ghost function Grow(n: nat): Stacks {
      var more := Slot(PagesOf(sz), PagesOf(sz + n) - PagesOf(sz));
      Stacks(k, main, sz + n, threads, q, heap + more, mapped + more, peak)
    }
  }

  lemma WholePages(p: nat)
    ensures PagesOf(p * PGSIZE) == p && p * PGSIZE % PGSIZE == 0 && p * PGSIZE / PGSIZE == p
  {
  }

  lemma NextIsNew(s: Stacks)
    requires s.Ok()
    ensures s.Next() !in s.Live() && Slot(s.Next(), s.k) !! s.mapped
  {
    NextSlotIsFree(s.k, PagesOf(s.sz), s.heap, s.Live(), s.q, s.mapped);
    if s.q == [] {
      assert forall b :: b in s.Live() ==> b in s.Live() + Members(s.q);
    } else {
      assert s.q[0] in Members(s.q);
    }
  }

  // The table's part, for a thread in slot b.
  lemma Seated(threads: seq<Thread>, main: nat, k: nat, i: nat, t: Thread, b: nat)
    requires TableOk(threads, main, k) && i < NTHRD && threads[i].Unused?
    requires t.Live? && t.thSz == (b + k) * PGSIZE && b !in LiveSlots(threads, k)
    ensures TableOk(threads[i := t], main, k) && LiveSlots(threads[i := t], k) == LiveSlots(threads, k) + {b}
    ensures |LiveSlots(threads[i := t], k)| < NTHRD
  {
    WholePages(b + k);
    assert Base(t, k) == b;
    EnterThread(threads, main, k, i, t);
    LiveCount(threads[i := t], k);
  }

  lemma ReusedKeeps(s: Stacks, i: nat, t: Thread)
    requires s.Ok() && s.q != [] && i < NTHRD && s.threads[i].Unused? && t.Live? && t.thSz == s.End()
    ensures s.Reused(i, t).Ok() && s.Reused(i, t).Live() == s.Live() + {s.q[0]}
  {
    var s' := s.Reused(i, t);
    NextIsNew(s);
    Seated(s.threads, s.main, s.k, i, t, s.q[0]);
    Reuse(s.k, PagesOf(s.sz), s.heap, s.Live(), s.q, s.mapped);
    assert s'.Live() == s.Live() + {s.q[0]};
    assert SlotsOk(s'.k, PagesOf(s'.sz), s'.heap, s'.Live(), s'.q, s'.mapped);
    assert s'.Live() + Members(s'.q) == s.Live() + Members(s.q);
  }

  lemma CarvedKeeps(s: Stacks, i: nat, t: Thread)
    requires s.Ok() && s.q == [] && i < NTHRD && s.threads[i].Unused? && t.Live? && t.thSz == s.End()
    ensures s.Carved(i, t).Ok() && s.Carved(i, t).Live() == s.Live() + {PagesOf(s.sz)}
    ensures |s.Carved(i, t).Live()| == s.peak + 1
  {
    var b, s' := PagesOf(s.sz), s.Carved(i, t);
    WholePages(b + s.k);
    NextIsNew(s);
    Seated(s.threads, s.main, s.k, i, t, b);
    Carve(s.k, b, s.heap, s.Live(), s.mapped);
    assert s'.Live() == s.Live() + {b};
    assert SlotsOk(s'.k, PagesOf(s'.sz), s'.heap, s'.Live(), s'.q, s'.mapped);
    NoneFreed(s.Live(), s.q);
    NoneFreed(s'.Live(), s'.q);
  }

  lemma NoneFreed(live: set<nat>, q: seq<nat>)
    requires q == []
    ensures live + Members(q) == live
  {
  }

  // The new thread's slot is no one else's, and there are never more slots than there have been
  // threads at once: peak goes up exactly when there is a new maximum.
  lemma CreateKeeps(s: Stacks, i: nat, t: Thread)
    requires s.Ok() && i < NTHRD && s.threads[i].Unused? && t.Live? && t.thSz == s.End()
    ensures s.Create(i, t).Ok() && s.Create(i, t).Live() == s.Live() + {s.Next()} && s.Next() !in s.Live()
    ensures s.Create(i, t).peak == Max(s.peak, |s.Create(i, t).Live()|)
  {
    NextIsNew(s);
    if s.q == [] {
      CarvedKeeps(s, i, t);
    } else {
      ReusedKeeps(s, i, t);
      CountLive(s.threads[i := t], s.main, s.k, s.q[1..]);
    }
  }

  lemma JoinKeeps(s: Stacks, i: nat)
    requires s.Ok() && i < NTHRD && s.threads[i].Live?
    ensures s.Join(i).Ok() && |s.q| + 1 < NTHRD
    ensures Base(s.threads[i], s.k) in s.Live() && s.Join(i).Live() == s.Live() - {Base(s.threads[i], s.k) as nat}
  {
    var b := Base(s.threads[i], s.k);
    RemoveThread(s.threads, s.main, s.k, i);
    GiveBack(s.k, PagesOf(s.sz), s.heap, s.Live(), s.q, s.mapped, b);
    RingHasRoom(s.k, PagesOf(s.sz), s.heap, s.Live(), s.q, s.mapped, s.peak);
    assert {b as nat} <= s.Live();
    SubsetSize({b as nat}, s.Live());
  }

  lemma GrowKeeps(s: Stacks, n: nat)
    requires s.Ok()
    ensures s.Grow(n).Ok() && s.Grow(n).mapped - s.mapped == s.Grow(n).heap - s.heap
    ensures Slot(PagesOf(s.sz), PagesOf(s.sz + n) - PagesOf(s.sz)) !! s.mapped
  {
    var s' := s.Grow(n);
    GrowHeap(s.k, PagesOf(s.sz), PagesOf(s.sz + n), s.heap, s.Live(), s.q, s.mapped);
    assert SlotsOk(s'.k, PagesOf(s'.sz), s'.heap, s'.Live(), s'.q, s'.mapped);
  }

  // Changes to the table that take no slot and give none back.
  lemma SameSlots(s: Stacks, i: nat, t: Thread)
    requires s.Ok() && i < NTHRD && i != s.main && s.threads[i].Live? == t.Live?
    requires t.Live? ==> t.thSz == s.threads[i].thSz
    ensures s.(threads := s.threads[i := t]).Ok() && s.(threads := s.threads[i := t]).Live() == s.Live()
  {
    SameTable(s.threads, s.main, s.k, i, t);
    var s' := s.(threads := s.threads[i := t]);
    assert s'.Live() == s.Live();
    assert SlotsOk(s'.k, PagesOf(s'.sz), s'.heap, s'.Live(), s'.q, s'.mapped);
  }

  lemma SameTable(threads: seq<Thread>, main: nat, k: nat, i: nat, t: Thread)
    requires TableOk(threads, main, k) && i < NTHRD && i != main && threads[i].Live? == t.Live?
    requires t.Live? ==> t.thSz == threads[i].thSz
    ensures TableOk(threads[i := t], main, k) && LiveSlots(threads[i := t], k) == LiveSlots(threads, k)
  {
    var r := threads[i := t];
    assert forall j :: 0 <= j < NTHRD ==> r[j].Live? == threads[j].Live? && (r[j].Live? ==> r[j].thSz == threads[j].thSz);
    forall b | b in LiveSlots(threads, k) ensures b in LiveSlots(r, k) {
      var j :| 0 <= j < NTHRD && threads[j].Live? && Base(threads[j], k) == b;
      assert r[j].Live?;
    }
  }

  // ---- Runs ---------------------------------------------------------------

  // A process after exec: no threads but its main one, and the image is its heap.
  ghost predicate IsFresh(s: Stacks) {
    && s.k > 0 && |s.threads| == NTHRD && s.main < NTHRD && s.threads[s.main].Foreign? && s.q == []
    && (forall i :: 0 <= i < NTHRD ==> !s.threads[i].Live?)
    && s.heap == s.mapped == Slot(0, PagesOf(s.sz)) && s.peak == 0
  }

  lemma FreshOk(s: Stacks)
    requires IsFresh(s)
    ensures s.Ok()
  {
    assert s.Live() == {} && s.Live() + Members(s.q) == {} && StackPages(s.Live(), s.k) == {};
  }

  // What can happen: a thread gets a slot, a thread is joined, sbrk with n >= 0, and changes to
  // the thread table that have nothing to do with slots.
  datatype Call =
    | CreateCall(i: nat, t: Thread)
    | JoinCall(i: nat)
    | GrowCall(n: nat)
    | ChangeCall(i: nat, t: Thread)

  ghost predicate May(s: Stacks, c: Call) {
    |s.threads| == NTHRD &&
    match c
    case CreateCall(i, t) => i < NTHRD && s.threads[i].Unused? && t.Live? && t.thSz == s.End()
    case JoinCall(i) => i < NTHRD && s.threads[i].Live? && Base(s.threads[i], s.k) >= 0
    case GrowCall(_) => true
    case ChangeCall(i, t) =>
      i < NTHRD && i != s.main && s.threads[i].Live? == t.Live? && (t.Live? ==> t.thSz == s.threads[i].thSz)
  }

  ghost function After(s: Stacks, c: Call): Stacks
    requires May(s, c)
  {
    match c
    case CreateCall(i, t) => s.Create(i, t)
    case JoinCall(i) => s.Join(i)
    case GrowCall(n) => s.Grow(n)
    case ChangeCall(i, t) => s.(threads := s.threads[i := t])
  }

  ghost predicate Legal(s: Stacks, cs: seq<Call>)
    decreases |cs|, 0
  {
    cs == [] || (Legal(s, cs[..|cs| - 1]) && May(Exec(s, cs[..|cs| - 1]), cs[|cs| - 1]))
  }

  ghost function Exec(s: Stacks, cs: seq<Call>): Stacks
    requires Legal(s, cs)
    decreases |cs|, 1
  {
    if cs == [] then s else After(Exec(s, cs[..|cs| - 1]), cs[|cs| - 1])
  }

  datatype RunData = RunData(start: Stacks, calls: seq<Call>, st: Stacks)

  ghost predicate IsRun(r: RunData) {
    IsFresh(r.start) && Legal(r.start, r.calls) && Exec(r.start, r.calls) == r.st
  }

  ghost function Started(s: Stacks): (r: RunData)
    requires IsFresh(s)
    ensures IsRun(r)
  {
    RunData(s, [], s)
  }

  type Run = r: RunData | IsRun(r)
    ghost witness Started(Stacks(1, 0, 0, seq(NTHRD, _ => Foreign(MAINTH)), [], Slot(0, 0), Slot(0, 0), 0))

  ghost function Take(r: Run, c: Call): (r': Run)
    requires May(r.st, c)
    ensures r'.start == r.start && r'.calls == r.calls + [c] && r'.st == After(r.st, c)
  {
    assert (r.calls + [c])[..|r.calls|] == r.calls;
    RunData(r.start, r.calls + [c], After(r.st, c))
  }

  lemma CallKeeps(s: Stacks, c: Call)
    requires s.Ok() && May(s, c)
    ensures After(s, c).Ok()
  {
    match c {
      case CreateCall(i, t) => CreateKeeps(s, i, t);
      case JoinCall(i) => JoinKeeps(s, i);
      case GrowCall(n) => GrowKeeps(s, n);
      case ChangeCall(i, t) => SameSlots(s, i, t);
    }
  }

  lemma {:induction false} ExecKeeps(s: Stacks, cs: seq<Call>)
    requires s.Ok() && Legal(s, cs)
    ensures Exec(s, cs).Ok()
  {
    if cs != [] {
      ExecKeeps(s, cs[..|cs| - 1]);
      CallKeeps(Exec(s, cs[..|cs| - 1]), cs[|cs| - 1]);
    }
  }

  // In every run: live stacks, freed slots and the heap are pairwise disjoint, and exactly the
  // heap and the live stacks are mapped.
  lemma StacksAreSafe(r: Run)
    ensures r.st.Ok()
  {
    FreshOk(r.start);
    ExecKeeps(r.start, r.calls);
  }

  // ... so the next slot is not mapped,
  lemma NextSlotIsUnmapped(r: Run)
    ensures Slot(r.st.Next(), r.st.k) !! r.st.mapped
  {
    StacksAreSafe(r);
    NextIsNew(r.st);
  }

  // ... and there are as many slots as there have ever been live threads at once, which the ring
  // has room for.
  lemma RingNeverOverflows(r: Run)
    ensures |r.st.Live()| + |r.st.q| == r.st.peak < NTHRD
  {
    StacksAreSafe(r);
    RingHasRoom(r.st.k, PagesOf(r.st.sz), r.st.heap, r.st.Live(), r.st.q, r.st.mapped, r.st.peak);
  }

  // What thread_join relies on.
  lemma JoinReady(r: Run, i: nat)
    requires i < |r.st.threads| && r.st.threads[i].Live?
    ensures May(r.st, JoinCall(i)) && |r.st.q| + 1 < NTHRD && r.st.threads[i].thSz % PGSIZE == 0
  {
    StacksAreSafe(r);
    JoinKeeps(r.st, i);
  }

  lemma MainIsTaken(r: Run)
    ensures r.st.main < |r.st.threads| && r.st.threads[r.st.main].Foreign?
  {
    StacksAreSafe(r);
  }

  // What ReuseIsWithinLimit and the table's users rely on.
  lemma ReuseFits(r: Run)
    requires r.st.q != []
    ensures r.st.End() <= r.st.sz
  {
    StacksAreSafe(r);
    assert r.st.q[0] in r.st.Live() + Members(r.st.q);
  }

  // ---- As the calls run ---------------------------------------------------

  datatype Outcome = Joined | Fails | Sleeps

  class Process {
    const stacksz: nat                // at least 1: exec2 refuses 0
    const main: nat                   // main_thread_idx
    var sz: nat
    var memlimit: nat
    var freedSz: seq<nat>             // the ring
    var front: nat
    var back: nat
    var freed: nat
    var threadAssign: nat
    var threads: seq<Thread>          // pthread_table
    ghost var run: Run                // the calls so far; its state is what the fields stand for

    ghost function Now(): Stacks
      reads this`run
    {
      run.st
    }

    ghost predicate Valid()
      reads this
    {
      && stacksz >= 1 && RingOk(freedSz, front, back, freed) && (memlimit == 0 || sz <= memlimit)
      && Now().k == stacksz + 1 && Now().main == main && Now().sz == sz
      && Now().threads == threads && |threads| == NTHRD && JoinersOk(threads) && Now().q == RingQueue(freedSz, front, freed)
    }

    constructor (size: nat, stacks: nat, limit: nat, table: seq<Thread>, mainIdx: nat)
      requires |table| == NTHRD && mainIdx < NTHRD && table[mainIdx] == Foreign(MAINTH) && 1 <= stacks && (limit == 0 || size <= limit)
      requires JoinersOk(table) && forall i :: 0 <= i < NTHRD ==> !table[i].Live?
      ensures Valid() && run.calls == [] && sz == size && stacksz == stacks
    {
      stacksz, main, sz, memlimit, threads := stacks, mainIdx, size, limit, table;
      freedSz, front, back, freed, threadAssign := seq(NTHRD, _ => 0), 0, 0, 0, 1;
      var image := Slot(0, PagesOf(size));
      run := Started(Stacks(stacks + 1, mainIdx, size, table, [], image, image, 0));
    }

    // allocthread's entry, or -1.
    method AllocThread() returns (i: int)
      requires |threads| == NTHRD
      ensures if i == -1 then !HasUnused(threads) else 0 <= i < NTHRD && threads[i].Unused?
    {
      i := 0;
      while i < NTHRD
        invariant 0 <= i <= NTHRD && forall j :: 0 <= j < i ==> !threads[j].Unused?
      {
        if threads[i].Unused? { return; }
        i := i + 1;
      }
      return -1;
    }

    // The start of the next slot, in bytes.
    method SlotBase() returns (base: nat)
      requires Valid()
      ensures base == Now().Next() * PGSIZE
    {
      base := sz;
      if freed > 0 {
        PopRing(freedSz, front, back, freed);
        assert RingAt(freedSz, front, 0) * PGSIZE == freedSz[front];
        base := freedSz[front];
      }
      base := PagesOf(base) * PGSIZE;
    }

    ghost predicate WithinLimit()
      reads this
    {
      memlimit == 0 || Now().End() <= memlimit
    }

    // Taking a freed slot again never runs into the memory limit.
    lemma ReuseIsWithinLimit()
      requires Valid() && freed > 0
      ensures WithinLimit()
    {
      ReuseFits(run);
    }

    // The end of the next slot, or 0 if the limit or allocuvm forbids it.
    method SlotEnd(granted: bool) returns (top: nat)
      requires Valid()
      ensures top == if granted && WithinLimit() then Now().End() else 0
    {
      var base := SlotBase();
      top := base + (stacksz + 1) * PGSIZE;
      if (memlimit != 0 && top > memlimit) || !granted {
        top := 0;
      }
    }

    // pthread_exec's last part: the new thread's slot leaves the ring, or is carved.
    method Seat(k: nat, top: nat, id: nat, joiner: nat)
      requires Valid() && k < NTHRD && threads[k].Unused? && top == Now().End() && joiner < NTHRD
      requires memlimit == 0 || top <= memlimit
      modifies this`sz, this`freedSz, this`front, this`freed, this`threads, this`run
      ensures Valid() && run == Take(old(run), CreateCall(k, Live(false, top, id, joiner)))
    {
      run := Take(run, CreateCall(k, Live(false, top, id, joiner)));
      threads := threads[k := Live(false, top, id, joiner)];
      if freed > 0 {
        PopRing(freedSz, front, back, freed);
        freedSz := freedSz[front := 0];
        freed := freed - 1;
        front := front + 1;
        front := front % NTHRD;
      } else {
        sz := top;
      }
    }

    // thread_create by the thread in entry `joiner`: 0, or -1.  kstack says whether kalloc finds a
    // kernel stack, and granted whether allocuvm finds memory.  The last page of the slot is not
    // the guard, since stacksz is not 0, so the copyout does not fail.  A failure after allocthread
    // leaves the process's pid and the id in the entry, and changes nothing else.
    method ThreadCreate(kstack: bool, granted: bool, joiner: nat) returns (r: int, id: nat, ghost i: int)
      requires Valid() && joiner < NTHRD
      modifies this
      ensures Valid() && memlimit == old(memlimit)
      ensures r == if old(HasUnused(threads) && kstack && granted && WithinLimit()) then 0 else -1
      ensures old(HasUnused(threads)) && kstack ==> 0 <= i < NTHRD && i != main && old(threads[i]).Unused?
      ensures run ==
        if !old(HasUnused(threads)) || !kstack then old(run)
        else Take(old(run), if r == 0 then CreateCall(i, Live(false, old(Now().End()), id, joiner))
                            else ChangeCall(i, Unused(true, id, old(threads[i]).joiner)))
    {
      id := 0;
      var k := AllocThread();
      i := k;
      if k == -1 || !kstack { return -1, id, i; }
      MainIsTaken(run);
      threadAssign := threadAssign + 1;
      id := threadAssign;
      var top := SlotEnd(granted);
      if top == 0 {
        Change(k, Unused(true, id, threads[k].joiner));
        return -1, id, i;
      }
      Seat(k, top, id, joiner);
      r := 0;
    }

    // An entry changes that has no slot before or after.
    method Change(i: nat, t: Thread)
      requires Valid() && i < NTHRD && i != main && !threads[i].Live? && !t.Live?
      requires t.Unused? ==> -1 <= t.joiner < NTHRD
      modifies this`threads, this`run
      ensures Valid() && run == Take(old(run), ChangeCall(i, t)) && threads == old(threads)[i := t]
    {
      run := Take(run, ChangeCall(i, t));
      threads := threads[i := t];
    }

    // thread_exit by the thread in entry i, which is not the main thread.
    method ThreadExit(i: nat)
      requires Valid() && i < NTHRD && i != main && threads[i].Live?
      modifies this`threads, this`run
      ensures Valid() && run == Take(old(run), ChangeCall(i, old(threads)[i].(zombie := true)))
    {
      run := Take(run, ChangeCall(i, threads[i].(zombie := true)));
      threads := threads[i := threads[i].(zombie := true)];
    }

    // Entry i is taken or given up by a thread of another process.
    method Elsewhere(i: nat, t: Thread)
      requires Valid() && i < NTHRD && i != main
      requires if t.Unused? then threads[i].Foreign? && !t.mine && -1 <= t.joiner < NTHRD else threads[i].Unused? && t.Foreign?
      modifies this`threads, this`run
      ensures Valid() && run == Take(old(run), ChangeCall(i, t))
    {
      Change(i, t);
    }

    // thread_join's scan: the first zombie that matches, or -1, and whether anything matches.
    method FindZombie(self: nat, id: nat, atNull: nat) returns (k: int, havekids: bool)
      requires |threads| == NTHRD && JoinersOk(threads)
      ensures k == -1 || ZombieAt(threads, k, self, id, atNull)
      ensures forall j :: 0 <= j < (if k == -1 then NTHRD else k) ==> !ZombieAt(threads, j, self, id, atNull)
      ensures havekids <==> exists j :: Matches(threads, j, self, id, atNull)
    {
      havekids, k := false, 0;
      while k < NTHRD
        invariant 0 <= k <= NTHRD
        invariant forall j :: 0 <= j < k ==> !ZombieAt(threads, j, self, id, atNull)
        invariant havekids <==> exists j :: 0 <= j < k && Matches(threads, j, self, id, atNull)
      {
        if Matches(threads, k, self, id, atNull) {
          havekids := true;
          if threads[k].Live? && threads[k].zombie { return; }
        }
        k := k + 1;
      }
      k := -1;
    }

    // thread_join by a thread with id `self`, up to the point where it sleeps: the slot of the first
    // zombie that matches goes to the end of the ring.  What a failed thread_create has left can
    // match too, and then thread_join sleeps.
    method ThreadJoin(self: nat, id: nat, killed: bool, atNull: nat) returns (r: Outcome, ghost i: int)
      requires Valid()
      modifies this
      ensures Valid() && memlimit == old(memlimit)
      ensures r == Joined <==> id != MAINTH && exists j :: ZombieAt(old(threads), j, self, id, atNull)
      ensures r == Joined ==> ZombieAt(old(threads), i, self, id, atNull) && May(old(Now()), JoinCall(i))
      ensures r == Joined ==> forall j :: 0 <= j < i ==> !ZombieAt(old(threads), j, self, id, atNull)
      ensures run == if r == Joined then Take(old(run), JoinCall(i)) else old(run)
      ensures r == Sleeps <==> id != MAINTH && !killed && r != Joined && exists j :: Matches(old(threads), j, self, id, atNull)
    {
      i := -1;
      if id == MAINTH { return Fails, i; }
      var k, havekids := FindZombie(self, id, atNull);
      i := k;
      if k == -1 {
        r := if !havekids || killed then Fails else Sleeps;
        return;
      }
      Release(k);
      r := Joined;
    }

    // The joined thread's entry becomes unused, and its slot goes to the end of the ring.
    method Release(k: nat)
      requires Valid() && k < NTHRD && threads[k].Live?
      modifies this`threads, this`freedSz, this`back, this`freed, this`run
      ensures Valid() && May(old(Now()), JoinCall(k)) && run == Take(old(run), JoinCall(k))
    {
      JoinReady(run, k);
      var base := threads[k].thSz - (stacksz + 1) * PGSIZE;
      PushRing(freedSz, front, back, freed, base);
      freedSz := freedSz[back := base];
      back := back + 1;
      back := back % NTHRD;
      freed := freed + 1;
      threads := threads[k := EMPTY];
      run := Take(run, JoinCall(k));
    }

    // growproc with n >= 0: the old size, or -1.
    method GrowProc(n: nat, granted: bool) returns (r: int)
      requires Valid()
      modifies this`sz, this`run
      ensures Valid() && r == (if (memlimit != 0 && old(sz) + n > memlimit) || (n > 0 && !granted) then -1 else old(sz))
      ensures run == if r == -1 then old(run) else Take(old(run), GrowCall(n))
    {
      if memlimit != 0 && sz + n > memlimit { return -1; }
      if n > 0 && !granted { return -1; }
      r := sz;
      run := Take(run, GrowCall(n));
      sz := sz + n;
    }

    // setmemorylimit: "no limit" cannot be asked for again once the process has memory.
    method SetMemoryLimit(limit: int) returns (r: int)
      requires Valid()
      modifies this`memlimit
      ensures Valid() && r == if 0 <= limit && sz <= limit then 0 else -1
      ensures memlimit == if r == 0 then limit else old(memlimit)
      ensures r == 0 && limit == 0 ==> sz == 0
    {
      if limit < 0 { return -1; }
      if sz > limit { return -1; }
      memlimit := limit;
      return 0;
    }
  }
}
