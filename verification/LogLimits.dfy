// How full the log can get: which tests panic, and which log areas are too small.  log_write tests
// the size before it takes the lock, so two operations can pass the test for the last block and
// then both append.
module LogLimits {
  import opened LogMachine
  import opened LogSafety
  import opened Params
  import opened Sets

  // ---- Runs within budget, step by step -----------------------------------

  ghost predicate Runs(L: Layout, s0: State, es: seq<Event>, s: State) {
    Start(L, s0) && Legal(L, s0, es) && Thrifty(L, s0, es) && Exec(L, s0, es) == s
  }

  lemma Extend(L: Layout, s0: State, es: seq<Event>, s: State, e: Event)
    requires Runs(L, s0, es, s) && Enabled(L, s, e) && WithinBudget(s, e)
    ensures Sane(L, s) && Runs(L, s0, es + [e], Next(L, s, e))
  {
    SteadyRun(L, s0, es);
    ExecAppend(L, s0, es, e);
    ThriftyAppend(L, s0, es, e);
  }

  // ---- Filling the log ----------------------------------------------------

  // The k-th block outside the log.
  function HomeBlock(L: Layout, k: nat): int {
    if k < L.start then k else k + L.size
  }

  // What operation i has logged when three operations take turns to log k blocks.
  function Share(k: nat, i: nat): nat
    requires i < 3
  {
    (k + 2 - i) / 3
  }

  // Three operations outside log_write, nothing committed, and lh is what is pinned.
  ghost predicate Pending(L: Layout, s: State) {
    && s.phase.Running? && !s.committing && s.done == [] && s.cache.Keys == Members(s.lh)
    && |s.ops| == 3 && (forall i :: 0 <= i < 3 ==> !s.ops[i].passed)
    && |s.disk| == L.blocks && L.Valid() && HeaderCount(s.disk[L.start]) == 0
  }

  ghost predicate Filled(L: Layout, s: State, k: nat) {
    && Pending(L, s) && (forall i :: 0 <= i < 3 ==> s.ops[i].added == Share(k, i))
    && |s.lh| == k && forall j :: 0 <= j < k ==> s.lh[j] == HomeBlock(L, j)
  }

  // Recovery with nothing to install.
  lemma PowerUp(L: Layout, s0: State) returns (es: seq<Event>, s: State)
    requires Start(L, s0) && OnDisk(L, s0.disk) == []
    ensures Runs(L, s0, es, s)
    ensures |s.disk| == L.blocks && L.Valid() && HeaderCount(s.disk[L.start]) == 0
    ensures s == State(s.disk, map[], [], [], false, Running, 0, [], [])
  {
    Extend(L, s0, [], s0, Boot);
    s := s0.(phase := RecClearing);
    assert Next(L, s0, Boot) == s;
    es := [] + [Boot];
    Extend(L, s0, es, s, Io);
    es, s := es + [Io], Next(L, s, Io);
    assert s.cache == map[];
  }

  lemma ThreeOps(L: Layout, s0: State) returns (es: seq<Event>, s: State)
    requires Start(L, s0) && OnDisk(L, s0.disk) == []
    ensures Runs(L, s0, es, s) && Filled(L, s, 0)
  {
    es, s := PowerUp(L, s0);
    ghost var up := s;
    for i := 0 to 3
      invariant Runs(L, s0, es, s) && s == up.(ops := s.ops, nextOp := i)
      invariant |s.ops| == i && forall j :: 0 <= j < i ==> s.ops[j].added == 0 && !s.ops[j].passed
    {
      Extend(L, s0, es, s, Begin);
      es, s := es + [Begin], Next(L, s, Begin);
    }
  }

  // Operation i tests the size, and has room.
  lemma Pass(L: Layout, s0: State, es: seq<Event>, s: State, i: nat) returns (es': seq<Event>, s': State)
    requires Runs(L, s0, es, s) && s.phase.Running? && i < |s.ops| && !s.ops[i].passed && |s.lh| < L.Capacity()
    ensures Runs(L, s0, es', s') && s' == s.(ops := s.ops[i := s.ops[i].(passed := true)])
  {
    Extend(L, s0, es, s, Test(i));
    es', s' := es + [Test(i)], Next(L, s, Test(i));
  }

  // ... and appends block b, whatever has happened since.
  lemma Log(L: Layout, s0: State, es: seq<Event>, s: State, i: nat, b: int, data: Block)
    returns (es': seq<Event>, s': State)
    requires Runs(L, s0, es, s) && s.phase.Running? && i < |s.ops| && s.ops[i].passed && L.IsHome(b)
    requires b !in s.lh && s.cache.Keys == Members(s.lh) && |s.lh| < NBUF && s.ops[i].added < MAXOPBLOCKS
    ensures Runs(L, s0, es', s')
    ensures s' == s.(cache := s.cache[b := data], lh := s.lh + [b],
                     ops := s.ops[i := Op(s.ops[i].id, s.ops[i].added + 1, false)],
                     txn := s.txn + [OpWrite(s.ops[i].id, b, data)])
    ensures s'.cache.Keys == Members(s'.lh)
  {
    var e := Write(i, b, data);
    SteadyRun(L, s0, es);
    DistinctMembers(s.lh);
    Extend(L, s0, es, s, e);
    es', s' := es + [e], Next(L, s, e);
    assert Members(s.lh + [b]) == Members(s.lh) + {b};
  }

  lemma ShareNext(k: nat, i: nat)
    requires i < 3
    ensures Share(k + 1, i) == if i == k % 3 then Share(k, i) + 1 else Share(k, i)
  {
  }

  lemma FillOne(L: Layout, s0: State, es: seq<Event>, s: State, k: nat) returns (es': seq<Event>, s': State)
    requires Runs(L, s0, es, s) && Filled(L, s, k) && k < L.Capacity() && k < L.blocks - L.size
    ensures Runs(L, s0, es', s') && Filled(L, s', k + 1)
  {
    var i := k % 3;
    es', s' := Pass(L, s0, es, s, i);
    es', s' := Log(L, s0, es', s', i, HomeBlock(L, k), seq(WORDS, _ => 0));
    forall j | 0 <= j < 3 ensures s'.ops[j].added == Share(k + 1, j) { ShareNext(k, j); }
  }

  lemma {:induction false} FillTo(L: Layout, s0: State, k: nat) returns (es: seq<Event>, s: State)
    requires Start(L, s0) && OnDisk(L, s0.disk) == []
    requires k <= L.Capacity() && k <= L.blocks - L.size
    ensures Runs(L, s0, es, s) && Filled(L, s, k)
  {
    if k == 0 {
      es, s := ThreeOps(L, s0);
    } else {
      es, s := FillTo(L, s0, k - 1);
      es, s := FillOne(L, s0, es, s, k - 1);
    }
  }

  // ---- When a new block finds the log full --------------------------------

  // With a log area of at most LOGSIZE blocks, an operation that has not used up its budget can
  // find the log full although it asked for room in begin_op.  mkfs makes exactly such an area
  // (nlog = LOGSIZE), so the test of the log's own size does fire.
  lemma SmallLogPanics(L: Layout, s0: State) returns (es: seq<Event>, s: State, i: nat)
    requires Start(L, s0) && OnDisk(L, s0.disk) == []
    requires L.size <= LOGSIZE && L.size <= L.blocks - L.size
    ensures Runs(L, s0, es, s) && Enabled(L, s, Test(i)) && s.ops[i].added < MAXOPBLOCKS
    ensures Sane(L, s) && Next(L, s, Test(i)).phase.Panicked?
  {
    es, s := FillTo(L, s0, L.size - 1);
    SteadyRun(L, s0, es);
    i := (L.size - 1) % 3;
  }

  // Even in a larger area, logging a block again when the log is full panics, although nothing
  // would be added.
  lemma AbsorbingWritePanics(L: Layout, s0: State) returns (es: seq<Event>, s: State, i: nat, b: int)
    requires Start(L, s0) && OnDisk(L, s0.disk) == []
    requires L.size > LOGSIZE && LOGSIZE <= L.blocks - L.size
    ensures Runs(L, s0, es, s) && Enabled(L, s, Test(i)) && b in s.lh
    ensures Sane(L, s) && Next(L, s, Test(i)).phase.Panicked?
  {
    es, s := FillTo(L, s0, LOGSIZE);
    SteadyRun(L, s0, es);
    i, b := 0, s.lh[0];
  }

  // ---- When two operations pass the test for the last block ---------------

  // The log holds one block more than its area has room for, within budget and without a panic.
  lemma TwoPass(L: Layout, s0: State, b: int, data: Block) returns (es: seq<Event>, s: State)
    requires Start(L, s0) && OnDisk(L, s0.disk) == []
    requires 2 <= L.size <= LOGSIZE && L.size <= L.blocks - L.size
    requires L.IsHome(b) && forall j :: 0 <= j < L.size - 1 ==> b != HomeBlock(L, j)
    ensures Runs(L, s0, es, s) && Pending(L, s) && |s.lh| == L.size
    ensures s.lh[L.size - 1] == b && b in s.cache && s.cache[b] == data
  {
    var k := L.size - 2;
    var i, j := k % 3, (k + 1) % 3;
    es, s := FillTo(L, s0, k);
    es, s := Pass(L, s0, es, s, i);
    es, s := Pass(L, s0, es, s, j);
    es, s := Log(L, s0, es, s, i, HomeBlock(L, k), seq(WORDS, _ => 0));
    es, s := Log(L, s0, es, s, j, b, data);
  }

  // The operations end, the last of them with a commit.
  lemma EndAll(L: Layout, s0: State, es: seq<Event>, s: State) returns (es': seq<Event>, s': State)
    requires Runs(L, s0, es, s) && Pending(L, s) && s.lh != []
    ensures Runs(L, s0, es', s')
    ensures s' == s.(ops := [], committing := true, phase := WritingLog(0))
  {
    es', s' := es, s;
    for i := 0 to 3
      invariant Runs(L, s0, es', s') && |s'.ops| == 3 - i && forall o :: o in s'.ops ==> !o.passed
      invariant s' == s.(ops := s'.ops, committing := i == 3, phase := if i < 3 then Running else WritingLog(0))
    {
      Extend(L, s0, es', s', End(0));
      es', s' := es' + [End(0)], Next(L, s', End(0));
    }
  }

  // With LOGSIZE blocks or more in the log area, the operations can fill the buffer cache.
  lemma FullCache(L: Layout, s0: State) returns (es: seq<Event>, s: State)
    requires Start(L, s0) && OnDisk(L, s0.disk) == [] && LOGSIZE <= L.size <= L.blocks - L.size
    ensures Runs(L, s0, es, s) && s.phase == WritingLog(0) && s.cache.Keys == Members(s.lh) && |s.lh| == NBUF
  {
    if L.size > LOGSIZE {
      es, s := FillTo(L, s0, LOGSIZE);
    } else {
      es, s := TwoPass(L, s0, HomeBlock(L, L.size - 1), seq(WORDS, _ => 0));
    }
    es, s := EndAll(L, s0, es, s);
  }

  // A commit of L.size blocks is about to copy the last of them, b, past the end of the log area.
  ghost predicate Copying(L: Layout, s: State, t: nat, b: int) {
    && s.phase == WritingLog(t) && |s.lh| == L.size < NBUF && t < L.size
    && s.lh[L.size - 1] == b && b in s.cache && s.cache.Keys == Members(s.lh)
    && L.start + L.size < L.blocks && b != L.start + L.size
  }

  lemma CopyEnabled(L: Layout, s: State, t: nat, b: int)
    requires Steady(L, s) && Copying(L, s, t, b)
    ensures Enabled(L, s, Io)
  {
    DistinctMembers(s.lh);
    assert L.IsHome(s.lh[t]);
  }

  // A turn but the last.
  lemma CopyTurn(L: Layout, s: State, t: nat, b: int)
    requires Steady(L, s) && Copying(L, s, t, b) && t < L.size - 1
    ensures LogBlock(L, s) < L.blocks
    ensures var s' := IoStep(L, s);
      Copying(L, s', t + 1, b) && |s'.disk| == |s.disk| && s'.disk[L.start] == s.disk[L.start]
    ensures IoStep(L, s).done == s.done && IoStep(L, s).cache == s.cache
  {
    assert L.start + t + 1 !in s.cache by {
      assert forall c :: c in s.lh ==> L.IsHome(c);
    }
    WritingLogIo(L, s);
  }

  lemma LastTurn(L: Layout, s: State, b: int)
    requires Steady(L, s) && Copying(L, s, L.size - 1, b)
    ensures LogBlock(L, s) < L.blocks
    ensures var s' := IoStep(L, s); s'.done == s.done && s'.disk == s.disk[L.start + L.size := s.cache[b]]
  {
  }

  lemma CopyExtend(L: Layout, s0: State, es: seq<Event>, s: State, t: nat, b: int)
    requires Runs(L, s0, es, s) && Copying(L, s, t, b)
    ensures Steady(L, s) && LogBlock(L, s) < L.blocks && Runs(L, s0, es + [Io], IoStep(L, s))
  {
    SteadyRun(L, s0, es);
    CopyEnabled(L, s, t, b);
    Extend(L, s0, es, s, Io);
  }

  lemma {:induction false} CopyPast(L: Layout, s0: State, es: seq<Event>, s: State, t: nat, b: int)
    returns (es': seq<Event>, s': State)
    requires Runs(L, s0, es, s) && Copying(L, s, t, b)
    ensures Runs(L, s0, es', s') && s'.done == s.done && |s'.disk| == |s.disk| == L.blocks
    ensures s'.disk[L.start + L.size] == s.cache[b] && s'.disk[L.start] == s.disk[L.start]
    decreases L.size - t
  {
    CopyExtend(L, s0, es, s, t, b);
    es', s' := es + [Io], IoStep(L, s);
    if t < L.size - 1 {
      CopyTurn(L, s, t, b);
      es', s' := CopyPast(L, s0, es', s', t + 1, b);
    } else {
      LastTurn(L, s, b);
    }
  }

  // ---- Which log areas are safe -------------------------------------------

  const ZEROS: Block := seq(WORDS, _ => 0)
  const ONES: Block := seq(WORDS, _ => 1)

  // From any disk with an empty header: an area of 2 to LOGSIZE - 1 blocks lets a run that keeps to
  // its budget overwrite the block behind the log area before the commit point.
  lemma SmallLogFails(L: Layout, s0: State) returns (es: seq<Event>)
    requires Start(L, s0) && OnDisk(L, s0.disk) == []
    requires 2 <= L.size < LOGSIZE && L.start + L.size < L.blocks && 2 * L.size < L.blocks
    ensures Legal(L, s0, es) && Thrifty(L, s0, es) && !Safe(L, s0, es)
  {
    var c := L.start + L.size;
    var b := HomeBlock(L, if HomeBlock(L, L.size - 1) != c then L.size - 1 else L.size);
    var data := if s0.disk[c] == ZEROS then ONES else ZEROS;
    assert ZEROS[0] != ONES[0];
    var s;
    es, s := TwoPass(L, s0, b, data);
    es, s := EndAll(L, s0, es, s);
    es, s := CopyPast(L, s0, es, s, 0, b);
    assert s.done == [] && OnDisk(L, s.disk) == [] && s.disk[c] == data;
    NotDurable(L, s0.disk, s.disk, c);
  }

  lemma NotDurable(L: Layout, d0: Disk, d: Disk, c: int)
    requires DiskOk(L, d0) && DiskOk(L, d) && OnDisk(L, d0) == OnDisk(L, d) == [] && L.IsHome(c) && d[c] != d0[c]
    ensures Durable(L, d) != Durable(L, d0)
  {
    assert Durable(L, d)[c] == d[c] && Durable(L, d0)[c] == d0[c];
  }

  // An area of one block passes no test.
  ghost predicate NonePassed(s: State) {
    forall o :: o in s.ops ==> !o.passed
  }

  lemma {:induction false} TinyLogIsTame(L: Layout, s: State, es: seq<Event>)
    requires Steady(L, s) && NonePassed(s) && Legal(L, s, es) && L.size < 2
    ensures Tame(L, s, es)
    decreases |es|
  {
    if es != [] {
      var e, s' := es[0], Next(L, s, es[0]);
      SteadyStep(L, s, e);
      forall o | o in s'.ops ensures !o.passed {
        if o !in s.ops { assert o == Op(s.nextOp, 0, false); }
      }
      TinyLogIsTame(L, s', es[1..]);
    }
  }

  ghost predicate AlwaysSafe(L: Layout) {
    forall s0, es :: Start(L, s0) && Legal(L, s0, es) ==> Safe(L, s0, es)
  }

  ghost predicate ThriftilySafe(L: Layout) {
    forall s0, es :: Start(L, s0) && Legal(L, s0, es) && Thrifty(L, s0, es) ==> Safe(L, s0, es)
  }

  // On a device with more blocks outside the log than in it and one behind it, crash safety holds
  // of every run exactly when the area is too small for any write or has LOGSIZE blocks; operations
  // that keep to their budgets make no difference.
  lemma SafeLayouts(L: Layout)
    requires L.Valid() && L.start + L.size < L.blocks && 2 * L.size < L.blocks
    ensures AlwaysSafe(L) <==> L.size < 2 || L.size >= LOGSIZE
    ensures ThriftilySafe(L) <==> L.size < 2 || L.size >= LOGSIZE
  {
    if L.size < 2 || L.size >= LOGSIZE {
      forall s0, es | Start(L, s0) && Legal(L, s0, es) ensures Safe(L, s0, es) {
        if L.size < 2 { TinyLogIsTame(L, s0, es); } else { LargeLogIsTame(L, s0, es); }
        CrashSafety(L, s0, es);
      }
    } else {
      var s0 := State(seq(L.blocks, _ => ZEROS), map[], [], [], false, Down, 0, [], []);
      var es := SmallLogFails(L, s0);
    }
  }
}
