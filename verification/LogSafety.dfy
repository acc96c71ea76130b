// The log refines a disk that commits whole transactions atomically, in every run whose
// transactions stay contained, with crashes at any point.  With a log area of LOGSIZE blocks or
// more every run is one.
module LogSafety {
  import opened LogMachine
  import opened Params
  import opened Sets

  // ---- The specification the log implements -------------------------------

  datatype Spec = Spec(durable: Contents, volatile: Contents)

  ghost function Abstract(L: Layout, s: State): Spec
    requires DiskOk(L, s.disk)
  {
    Spec(Durable(L, s.disk), Volatile(L, s))
  }

  // Writes go to the volatile contents, the header write makes them durable, a
  // crash or panic throws them away, and nothing else is visible.
  function SpecNext(L: Layout, s: State, e: Event, a: Spec): Spec {
    match e
    case Test(_) => if WritePanics(L, s.lh) then a.(volatile := a.durable) else a
    case Write(_, b, data) => a.(volatile := a.volatile[b := data])
    case End(_) => if s.committing then a.(volatile := a.durable) else a
    case Crash | Halt => a.(volatile := a.durable)
    case Io => if s.phase.WritingHead? then a.(durable := a.volatile) else a
    case _ => a
  }

  // ---- Single disk writes --------------------------------------------------

  // While the header is empty the log blocks mean nothing.
  lemma CopyToLog(L: Layout, d: Disk, cache: Contents, lh: seq<int>, t: nat)
    requires DiskOk(L, d) && OnDisk(L, d) == [] && EntriesOk(L, lh) && t < |lh|
    requires LogCopied(L, d, cache, lh, t) && forall b :: b in cache ==> b in lh
    ensures 0 <= lh[t] < L.blocks
    ensures var d' := d[L.start + t + 1 := View(d, cache, lh[t])];
      && DiskOk(L, d') && OnDisk(L, d') == [] && LogCopied(L, d', cache, lh, t + 1)
      && Durable(L, d') == Durable(L, d)
      && HomeViews(L, d', cache) == HomeViews(L, d, cache)
  {
    assert forall j :: 0 <= j < |lh| ==> L.IsHome(lh[j]);
    var d' := d[L.start + t + 1 := View(d, cache, lh[t])];
    assert d'[L.start] == d[L.start];
  }

  // Once every log block is written, the overlay and the cache agree.
  lemma CopiedOverlay(L: Layout, d: Disk, cache: Contents, lh: seq<int>)
    requires L.Valid() && |d| == L.blocks && EntriesOk(L, lh)
    requires LogCopied(L, d, cache, lh, |lh|) && forall b :: b in cache ==> b in lh
    ensures forall b :: 0 <= b < L.blocks ==> Overlaid(L, d, lh, b) == View(d, cache, b)
  {
    forall b | 0 <= b < L.blocks ensures Overlaid(L, d, lh, b) == View(d, cache, b) {
      if b in lh {
        var j := IndexOf(lh, b);
        assert d[L.start + 1 + j] == View(d, cache, lh[j]);
      }
    }
  }

  lemma HeaderViews(L: Layout, d: Disk, cache: Contents, h: Block)
    requires L.Valid() && |d| == L.blocks
    ensures HomeViews(L, d[L.start := h], cache) == HomeViews(L, d, cache)
  {
  }

  // Writing the header puts the logged blocks on top of the disk.
  lemma WriteHeader(L: Layout, d: Disk, cache: Contents, lh: seq<int>, h: Block)
    requires DiskOk(L, d) && EntriesOk(L, lh) && HeaderFits(h) && HeaderEntries(h) == lh
    requires LogCopied(L, d, cache, lh, |lh|) && forall b :: b in cache ==> b in lh
    ensures var d' := d[L.start := h];
      && DiskOk(L, d') && OnDisk(L, d') == lh && LogCopied(L, d', cache, lh, |lh|)
      && Durable(L, d') == HomeViews(L, d', cache) == HomeViews(L, d, cache)
  {
    var d' := d[L.start := h];
    assert LogCopied(L, d', cache, lh, |lh|) by {
      assert forall j :: 0 <= j < |lh| ==> L.IsHome(lh[j]);
    }
    CopiedOverlay(L, d', cache, lh);
    HeaderViews(L, d, cache, h);
  }

  // Installing a block that the log holds changes nothing.
  lemma InstallBlock(L: Layout, d: Disk, lh: seq<int>, t: nat)
    requires DiskOk(L, d) && OnDisk(L, d) == lh && t < |lh| && HomeInstalled(L, d, lh, t)
    ensures 0 <= lh[t] < L.blocks
    ensures var d' := d[lh[t] := d[L.start + t + 1]];
      && DiskOk(L, d') && OnDisk(L, d') == lh && HomeInstalled(L, d', lh, t + 1)
      && Durable(L, d') == Durable(L, d)
  {
    assert forall j :: 0 <= j < |lh| ==> L.IsHome(lh[j]);
    var d' := d[lh[t] := d[L.start + t + 1]];
    assert d'[L.start] == d[L.start];
  }

  // ... nor does it change what bread returns.
  lemma InstallCached(L: Layout, d: Disk, cache: Contents, lh: seq<int>, t: nat)
    requires |d| == L.blocks && L.Valid() && EntriesOk(L, lh) && t < |lh|
    requires LogCopied(L, d, cache, lh, |lh|) && Unpinned(cache, lh, t)
    ensures 0 <= lh[t] < L.blocks
    ensures var d' := d[lh[t] := d[L.start + t + 1]];
      var cache' := cache - {lh[t]};
      && LogCopied(L, d', cache', lh, |lh|) && Unpinned(cache', lh, t + 1)
      && (Pinned(cache, lh, t) ==> Pinned(cache', lh, t + 1))
      && HomeViews(L, d', cache') == HomeViews(L, d, cache)
  {
    assert forall j :: 0 <= j < |lh| ==> L.IsHome(lh[j]);
  }

  // Clearing the header changes nothing once every home is installed.
  lemma ClearHeader(L: Layout, d: Disk, lh: seq<int>)
    requires DiskOk(L, d) && OnDisk(L, d) == lh && HomeInstalled(L, d, lh, |lh|)
    ensures var d' := d[L.start := PutHeader(d[L.start], [])];
      && DiskOk(L, d') && OnDisk(L, d') == []
      && Durable(L, d') == Durable(L, d) == HomeViews(L, d', map[]) == HomeViews(L, d, map[])
  {
    HeaderRoundTrip(d[L.start], []);
    var d' := d[L.start := PutHeader(d[L.start], [])];
    forall b | 0 <= b < L.blocks && L.IsHome(b)
      ensures Overlaid(L, d, lh, b) == d[b]
    {
      if b in lh {
        var j := IndexOf(lh, b);
        assert d[lh[j]] == d[L.start + 1 + j];
      }
    }
  }

  // ---- What every run keeps -----------------------------------------------

  // Pinned blocks are in buffers of their own.
  lemma PinnedSize(L: Layout, cache: Contents, lh: seq<int>)
    requires Pinned(cache, lh, 0) && forall i, j :: 0 <= i < j < |lh| ==> lh[i] != lh[j]
    ensures |lh| <= |cache.Keys|
  {
    DistinctMembers(lh);
    SubsetSize(Members(lh), cache.Keys);
  }

  lemma KeysShrink(cache: Contents, b: int)
    ensures |(cache - {b}).Keys| <= |cache.Keys|
  {
    SubsetSize((cache - {b}).Keys, cache.Keys);
  }

  lemma KeysGrow(cache: Contents, b: int, data: Block)
    requires |cache.Keys| <= NBUF && (b in cache || |cache.Keys| < NBUF)
    ensures |cache[b := data].Keys| <= NBUF
  {
    assert cache[b := data].Keys == cache.Keys + {b};
  }

  // A disk write leaves the header alone or puts a readable one in its place.
  lemma IoShaped(L: Layout, s: State)
    requires Sane(L, s) && LogBlock(L, s) < L.blocks
    ensures var w := IoWrite(L, s); DiskShaped(L, s.disk[w.0 := w.1])
  {
    HeaderRoundTrip(s.disk[L.start], s.lh);
    HeaderRoundTrip(s.disk[L.start], []);
  }

  lemma SteadyIo(L: Layout, s: State)
    requires Steady(L, s) && Enabled(L, s, Io)
    ensures Steady(L, Next(L, s, Io))
  {
    var (b, data) := IoWrite(L, s);
    IoShaped(L, s);
    KeysShrink(s.cache, b);
  }

  lemma SteadyWrite(L: Layout, s: State, i: nat, b: int, data: Block)
    requires Steady(L, s) && Enabled(L, s, Write(i, b, data))
    ensures Steady(L, Next(L, s, Write(i, b, data)))
  {
    var s' := Next(L, s, Write(i, b, data));
    KeysGrow(s.cache, b, data);
    PinnedSize(L, s'.cache, s'.lh);
  }

  // Whatever the operations do and however large the log area is.
  lemma SteadyStep(L: Layout, s: State, e: Event)
    requires Steady(L, s) && Enabled(L, s, e)
    ensures Steady(L, Next(L, s, e))
  {
    match e {
      case Io => SteadyIo(L, s);
      case Write(i, b, data) => SteadyWrite(L, s, i, b, data);
      case _ =>
    }
  }

  lemma {:induction false} SteadyRun(L: Layout, s: State, es: seq<Event>)
    requires Steady(L, s) && Legal(L, s, es)
    ensures Steady(L, Exec(L, s, es))
    decreases |es|
  {
    if es != [] {
      SteadyStep(L, s, es[0]);
      SteadyRun(L, Next(L, s, es[0]), es[1..]);
    }
  }

  lemma ReachableSteady(L: Layout, s: State)
    requires Reachable(L, s)
    ensures Steady(L, s)
  {
    var s0, es :| Start(L, s0) && Legal(L, s0, es) && Exec(L, s0, es) == s;
    SteadyRun(L, s0, es);
  }

  // ---- Memory steps -------------------------------------------------------

  lemma WriteStep(L: Layout, s: State, i: nat, b: int, data: Block)
    requires Inv(L, s) && Enabled(L, s, Write(i, b, data)) && Contains(L, s, Write(i, b, data))
    ensures Inv(L, Next(L, s, Write(i, b, data)))
    ensures Abstract(L, Next(L, s, Write(i, b, data))) == SpecNext(L, s, Write(i, b, data), Abstract(L, s))
  {
    SteadyWrite(L, s, i, b, data);
    var s' := Next(L, s, Write(i, b, data));
    assert s.phase.Running? && s'.disk == s.disk;
    assert Volatile(L, s') == Volatile(L, s)[b := data];
  }

  // The steps that touch neither the disk nor what is pinned.
  lemma BeginStep(L: Layout, s: State)
    requires Inv(L, s) && Enabled(L, s, Begin)
    ensures Inv(L, Next(L, s, Begin))
    ensures Abstract(L, Next(L, s, Begin)) == Abstract(L, s)
  {
  }

  lemma EndStep(L: Layout, s: State, i: nat)
    requires Inv(L, s) && Enabled(L, s, End(i))
    ensures Inv(L, Next(L, s, End(i)))
    ensures Abstract(L, Next(L, s, End(i))) == Abstract(L, s)
  {
    assert s.ops[i] in s.ops;
    assert !s.committing;
  }

  // ---- Disk steps ---------------------------------------------------------

  lemma LogBlocksNotCached(L: Layout, s: State)
    requires Inv(L, s)
    ensures forall b :: !L.IsHome(b) ==> s.cache - {b} == s.cache
  {
    assert forall b :: b in s.cache ==> L.IsHome(b);
  }

  // A commit whose first read has found a buffer is one that the log area has room for.
  lemma CommitFits(L: Layout, s: State)
    requires Inv(L, s) && (s.phase.WritingLog? || s.phase.WritingHead?) && |s.cache.Keys| < NBUF
    ensures EntriesOk(L, s.lh) && |s.lh| < NBUF
  {
    PinnedSize(L, s.cache, s.lh);
  }

  // The log is never in its own way: every disk write but for the buffers is possible.
  lemma IoEnabled(L: Layout, s: State)
    requires Inv(L, s) && Writing(s) && |s.cache.Keys| < NBUF
    ensures Enabled(L, s, Io)
  {
    if s.phase.WritingLog? { CommitFits(L, s); }
    assert forall i :: 0 <= i < |s.lh| ==> L.IsHome(s.lh[i]);
  }

  // The states that the disk writes lead to.
  ghost function Written(s: State, d: Disk, cache: Contents, phase: Phase): State {
    s.(disk := d, cache := cache, phase := phase)
  }

  lemma WritingLogIo(L: Layout, s: State)
    requires Sane(L, s) && s.phase.WritingLog? && LogBlock(L, s) < L.blocks && LogBlock(L, s) !in s.cache
    ensures var t := s.phase.tail;
      IoStep(L, s) ==
        Written(s, s.disk[L.start + t + 1 := View(s.disk, s.cache, s.lh[t])], s.cache, AfterWritingLog(s.lh, t + 1))
  {
    assert s.cache - {L.start + s.phase.tail + 1} == s.cache;
  }

  lemma CopiedInv(L: Layout, s: State, d: Disk, t: nat)
    requires Inv(L, s) && s.phase == WritingLog(t) && |s.lh| < NBUF
    requires DiskOk(L, d) && OnDisk(L, d) == [] && LogCopied(L, d, s.cache, s.lh, t + 1)
    requires Durable(L, d) == Durable(L, s.disk) && HomeViews(L, d, s.cache) == HomeViews(L, s.disk, s.cache)
    ensures var s' := Written(s, d, s.cache, AfterWritingLog(s.lh, t + 1));
      Inv(L, s') && Abstract(L, s') == Abstract(L, s)
  {
  }

  lemma WritingLogStep(L: Layout, s: State)
    requires Inv(L, s) && s.phase.WritingLog? && Enabled(L, s, Io)
    ensures Inv(L, Next(L, s, Io))
    ensures Abstract(L, Next(L, s, Io)) == Abstract(L, s)
  {
    var t := s.phase.tail;
    var d := s.disk[L.start + t + 1 := View(s.disk, s.cache, s.lh[t])];
    CommitFits(L, s);
    CopyToLog(L, s.disk, s.cache, s.lh, t);
    CopiedInv(L, s, d, t);
    LogBlocksNotCached(L, s);
    WritingLogIo(L, s);
  }

  // The header write commits.
  lemma WritingHeadStep(L: Layout, s: State)
    requires Inv(L, s) && s.phase.WritingHead? && Enabled(L, s, Io)
    ensures Inv(L, Next(L, s, Io))
    ensures Abstract(L, Next(L, s, Io)) == Spec(Volatile(L, s), Volatile(L, s))
  {
    var h := PutHeader(s.disk[L.start], s.lh);
    CommitFits(L, s);
    SteadyIo(L, s);
    LogBlocksNotCached(L, s);
    HeaderRoundTrip(s.disk[L.start], s.lh);
    WriteHeader(L, s.disk, s.cache, s.lh, h);
    var s' := IoStep(L, s);
    assert s' == s.(disk := s.disk[L.start := h], phase := AfterInstalling(s.lh, 0),
                    done := s.done + [s.txn], txn := []);
    assert Volatile(L, s') == HomeViews(L, s'.disk, s.cache) == Volatile(L, s);
  }

  lemma InstallingIo(L: Layout, s: State)
    requires Inv(L, s) && (s.phase.Installing? || s.phase.RecInstalling?) && Enabled(L, s, Io)
    ensures var t, d := s.phase.tail, s.disk[s.lh[s.phase.tail] := s.disk[L.start + s.phase.tail + 1]];
      IoStep(L, s) == Written(s, d, s.cache - {s.lh[t]},
        if s.phase.Installing? then AfterInstalling(s.lh, t + 1) else AfterRecInstalling(s.lh, t + 1))
  {
    LogBlocksNotCached(L, s);
    var t := s.phase.tail;
    assert IoWrite(L, s) == (s.lh[t], View(s.disk, s.cache, L.start + t + 1));
    assert View(s.disk, s.cache, L.start + t + 1) == s.disk[L.start + t + 1];
  }

  lemma InstalledInv(L: Layout, s: State, d: Disk, cache: Contents, t: nat)
    requires Inv(L, s) && s.phase == Installing(t)
    requires DiskOk(L, d) && OnDisk(L, d) == s.lh && HomeInstalled(L, d, s.lh, t + 1)
    requires LogCopied(L, d, cache, s.lh, |s.lh|) && Unpinned(cache, s.lh, t + 1) && Pinned(cache, s.lh, t + 1)
    requires cache.Keys <= s.cache.Keys
    requires Durable(L, d) == Durable(L, s.disk) && HomeViews(L, d, cache) == HomeViews(L, s.disk, s.cache)
    ensures var s' := Written(s, d, cache, AfterInstalling(s.lh, t + 1));
      Inv(L, s') && Abstract(L, s') == Abstract(L, s)
  {
    SubsetSize(cache.Keys, s.cache.Keys);
  }

  lemma InstallingStep(L: Layout, s: State)
    requires Inv(L, s) && s.phase.Installing? && Enabled(L, s, Io)
    ensures Inv(L, Next(L, s, Io))
    ensures Abstract(L, Next(L, s, Io)) == Abstract(L, s)
  {
    var t := s.phase.tail;
    var d := s.disk[s.lh[t] := s.disk[L.start + t + 1]];
    InstallBlock(L, s.disk, s.lh, t);
    InstallCached(L, s.disk, s.cache, s.lh, t);
    InstalledInv(L, s, d, s.cache - {s.lh[t]}, t);
    InstallingIo(L, s);
  }

  lemma RecInstalledInv(L: Layout, s: State, d: Disk, t: nat)
    requires Inv(L, s) && s.phase == RecInstalling(t)
    requires DiskOk(L, d) && OnDisk(L, d) == s.lh && HomeInstalled(L, d, s.lh, t + 1)
    requires Durable(L, d) == Durable(L, s.disk)
    ensures var s' := Written(s, d, s.cache, AfterRecInstalling(s.lh, t + 1));
      Inv(L, s') && Abstract(L, s') == Abstract(L, s)
  {
  }

  lemma RecInstallingStep(L: Layout, s: State)
    requires Inv(L, s) && s.phase.RecInstalling? && Enabled(L, s, Io)
    ensures Inv(L, Next(L, s, Io))
    ensures Abstract(L, Next(L, s, Io)) == Abstract(L, s)
  {
    var t := s.phase.tail;
    InstallBlock(L, s.disk, s.lh, t);
    RecInstalledInv(L, s, s.disk[s.lh[t] := s.disk[L.start + t + 1]], t);
    InstallingIo(L, s);
    assert s.cache - {s.lh[t]} == s.cache;
  }

  lemma ClearingStep(L: Layout, s: State)
    requires Inv(L, s) && (s.phase.Clearing? || s.phase.RecClearing?) && Enabled(L, s, Io)
    ensures Inv(L, Next(L, s, Io))
    ensures Abstract(L, Next(L, s, Io)) == Abstract(L, s)
  {
    SteadyIo(L, s);
    NothingPinned(L, s);
    ClearHeader(L, s.disk, s.lh);
  }

  lemma NothingPinned(L: Layout, s: State)
    requires Inv(L, s) && (s.phase.Clearing? || s.phase.RecClearing?)
    ensures s.cache == map[]
  {
    forall b ensures b !in s.cache {
      if b in s.lh {
        var j := IndexOf(s.lh, b);
        assert s.lh[j] !in s.cache;
      }
    }
  }

  // ---- One step -----------------------------------------------------------

  lemma IoRefines(L: Layout, s: State)
    requires Inv(L, s) && Enabled(L, s, Io)
    ensures Inv(L, Next(L, s, Io))
    ensures Abstract(L, Next(L, s, Io)) == SpecNext(L, s, Io, Abstract(L, s))
  {
    match s.phase {
      case WritingLog(_) => WritingLogStep(L, s);
      case WritingHead => WritingHeadStep(L, s);
      case Installing(_) => InstallingStep(L, s);
      case RecInstalling(_) => RecInstallingStep(L, s);
      case _ => ClearingStep(L, s);
    }
  }

  lemma TestStep(L: Layout, s: State, i: nat)
    requires Inv(L, s) && Enabled(L, s, Test(i))
    ensures Inv(L, Next(L, s, Test(i)))
    ensures Abstract(L, Next(L, s, Test(i))) == SpecNext(L, s, Test(i), Abstract(L, s))
  {
    assert s.phase.Running?;
  }

  // Every step that keeps the transaction contained keeps the invariant and does to the abstract
  // disk what the specification says.
  lemma StepRefines(L: Layout, s: State, e: Event)
    requires Inv(L, s) && Enabled(L, s, e) && Contains(L, s, e)
    ensures Inv(L, Next(L, s, e))
    ensures Abstract(L, Next(L, s, e)) == SpecNext(L, s, e, Abstract(L, s))
  {
    match e {
      case Begin => BeginStep(L, s);
      case Write(i, b, data) => WriteStep(L, s, i, b, data);
      case End(i) => EndStep(L, s, i);
      case Test(i) => TestStep(L, s, i);
      case Io => IoRefines(L, s);
      case _ =>
    }
  }

  // ---- The history --------------------------------------------------------

  // The disk means the committed transactions, in order; the caches add the
  // writes of the current one.
  predicate Recorded(a: Spec, initial: Contents, done: seq<seq<OpWrite>>, txn: seq<OpWrite>) {
    a.durable == Replay(initial, done) && a.volatile == ApplyWrites(Replay(initial, done), txn)
  }

  ghost predicate History(L: Layout, s: State, initial: Contents)
    requires DiskOk(L, s.disk)
  {
    Recorded(Abstract(L, s), initial, s.done, s.txn)
  }

  lemma RecordCommit(a: Spec, initial: Contents, done: seq<seq<OpWrite>>, txn: seq<OpWrite>)
    requires Recorded(a, initial, done, txn)
    ensures Recorded(Spec(a.volatile, a.volatile), initial, done + [txn], [])
  {
    assert (done + [txn])[..|done|] == done;
  }

  lemma RecordWrite(a: Spec, initial: Contents, done: seq<seq<OpWrite>>, txn: seq<OpWrite>, w: OpWrite)
    requires Recorded(a, initial, done, txn)
    ensures Recorded(a.(volatile := a.volatile[w.block := w.data]), initial, done, txn + [w])
  {
    assert (txn + [w])[..|txn|] == txn;
  }

  lemma HistoryStep(L: Layout, s: State, e: Event, initial: Contents)
    requires Inv(L, s) && Enabled(L, s, e) && Contains(L, s, e) && History(L, s, initial)
    ensures Inv(L, Next(L, s, e)) && History(L, Next(L, s, e), initial)
  {
    StepRefines(L, s, e);
    var s' := Next(L, s, e);
    var a, a' := Abstract(L, s), Abstract(L, s');
    assert Recorded(a', initial, s'.done, s'.txn) by {
      match e {
        case Io => RecordIo(L, s, a, initial);
        case Write(i, b, data) => RecordWrite(a, initial, s.done, s.txn, OpWrite(s.ops[i].id, b, data));
        case _ => RecordElse(L, s, e, a, initial);
      }
    }
  }

  lemma RecordIo(L: Layout, s: State, a: Spec, initial: Contents)
    requires Sane(L, s) && Enabled(L, s, Io) && Recorded(a, initial, s.done, s.txn)
    ensures var s' := Next(L, s, Io); Recorded(SpecNext(L, s, Io, a), initial, s'.done, s'.txn)
  {
    if s.phase.WritingHead? { RecordCommit(a, initial, s.done, s.txn); }
  }

  lemma RecordElse(L: Layout, s: State, e: Event, a: Spec, initial: Contents)
    requires Sane(L, s) && Enabled(L, s, e) && Recorded(a, initial, s.done, s.txn) && !e.Io? && !e.Write?
    ensures var s' := Next(L, s, e); Recorded(SpecNext(L, s, e, a), initial, s'.done, s'.txn)
  {
  }

  // ---- Whole runs ---------------------------------------------------------

  lemma {:induction false} RunKeepsHistory(L: Layout, s: State, es: seq<Event>, initial: Contents)
    requires Inv(L, s) && History(L, s, initial) && Legal(L, s, es) && Tame(L, s, es)
    ensures Inv(L, Exec(L, s, es)) && History(L, Exec(L, s, es), initial)
    decreases |es|
  {
    if es != [] {
      HistoryStep(L, s, es[0], initial);
      RunKeepsHistory(L, Next(L, s, es[0]), es[1..], initial);
    }
  }

  // The disk stands for exactly the transactions whose header was written; whenever recovery has
  // finished, the home blocks themselves hold that, and bread adds the writes of the current
  // transaction only.
  ghost predicate Safe(L: Layout, s0: State, es: seq<Event>)
    requires Start(L, s0) && Legal(L, s0, es)
  {
    var s := Exec(L, s0, es);
    var committed := Replay(Durable(L, s0.disk), s.done);
    && DiskOk(L, s.disk) && Durable(L, s.disk) == committed
    && (s.phase.Running? ==>
          forall b :: 0 <= b < L.blocks && L.IsHome(b) ==>
            && b in committed && s.disk[b] == committed[b]
            && b in ApplyWrites(committed, s.txn)
            && View(s.disk, s.cache, b) == ApplyWrites(committed, s.txn)[b])
  }

  // Crash safety, after any run of operations, commits, crashes and recoveries, with crashes
  // between any two disk writes, as long as the transactions stay contained.
  lemma CrashSafety(L: Layout, s0: State, es: seq<Event>)
    requires Start(L, s0) && Legal(L, s0, es) && Tame(L, s0, es)
    ensures Safe(L, s0, es)
  {
    RunKeepsHistory(L, s0, es, Durable(L, s0.disk));
    var s := Exec(L, s0, es);
    var committed := Replay(Durable(L, s0.disk), s.done);
    if s.phase.Running? {
      forall b | 0 <= b < L.blocks && L.IsHome(b)
        ensures b in committed && s.disk[b] == committed[b]
        ensures b in ApplyWrites(committed, s.txn)
        ensures View(s.disk, s.cache, b) == ApplyWrites(committed, s.txn)[b]
      {
        assert b in Durable(L, s.disk) && Durable(L, s.disk)[b] == s.disk[b];
        assert b in Volatile(L, s) && Volatile(L, s)[b] == View(s.disk, s.cache, b);
      }
    }
  }

  // A log area of LOGSIZE blocks or more contains every transaction: what it has no room for
  // fills the buffer cache.
  lemma LargeLogContains(L: Layout, s: State, e: Event)
    requires Steady(L, s) && Enabled(L, s, e) && L.size >= LOGSIZE
    ensures Contains(L, s, e)
  {
    SteadyStep(L, s, e);
  }

  lemma {:induction false} LargeLogIsTame(L: Layout, s: State, es: seq<Event>)
    requires Steady(L, s) && Legal(L, s, es) && L.size >= LOGSIZE
    ensures Tame(L, s, es)
    decreases |es|
  {
    if es != [] {
      LargeLogContains(L, s, es[0]);
      SteadyStep(L, s, es[0]);
      LargeLogIsTame(L, Next(L, s, es[0]), es[1..]);
    }
  }

  // ---- Operations are never split -----------------------------------------

  ghost predicate IdsWithin(ws: seq<OpWrite>, lo: nat, hi: nat) {
    forall w :: w in ws ==> lo <= w.op < hi
  }

  // Ids at or above `floor` began after the last commit or crash.
  ghost predicate Unsplit(s: State, floor: nat) {
    && floor <= s.nextOp
    && (forall t :: 0 <= t < |s.done| ==> IdsWithin(s.done[t], 0, floor))
    && (forall t1, t2, w1, w2 :: 0 <= t1 < t2 < |s.done| && w1 in s.done[t1] && w2 in s.done[t2] ==> w1.op < w2.op)
    && IdsWithin(s.txn, floor, s.nextOp)
    && (forall o :: o in s.ops ==> floor <= o.id < s.nextOp)
  }

  function NextFloor(s: State, e: Event, floor: nat): nat {
    if e.Crash? || (e.Io? && s.phase.WritingHead?) then s.nextOp else floor
  }

  lemma UnsplitCommit(s: State, s': State, floor: nat)
    requires Unsplit(s, floor) && s.ops == []
    requires s'.done == s.done + [s.txn] && s'.txn == [] && s'.ops == s.ops && s'.nextOp == s.nextOp
    ensures Unsplit(s', s.nextOp)
  {
  }

  lemma UnsplitElse(s: State, s': State, floor: nat, floor': nat)
    requires Unsplit(s, floor) && s'.done == s.done && floor <= floor' <= s'.nextOp
    requires IdsWithin(s'.txn, floor', s'.nextOp) && forall o :: o in s'.ops ==> floor' <= o.id < s'.nextOp
    ensures Unsplit(s', floor')
  {
    forall t | 0 <= t < |s'.done| ensures IdsWithin(s'.done[t], 0, floor') {
      assert IdsWithin(s.done[t], 0, floor);
    }
  }

  lemma UnsplitStep(L: Layout, s: State, e: Event, floor: nat)
    requires Steady(L, s) && Enabled(L, s, e) && Unsplit(s, floor)
    ensures Unsplit(Next(L, s, e), NextFloor(s, e, floor))
  {
    var s' := Next(L, s, e);
    if e.Io? && s.phase.WritingHead? {
      UnsplitCommit(s, s', floor);
    } else {
      if e.Test? || e.Write? { assert s.ops[e.i] in s.ops; }
      UnsplitElse(s, s', floor, NextFloor(s, e, floor));
    }
  }

  // The writes that an event makes, and those of a run, in order.
  function MadeBy(s: State, e: Event): seq<OpWrite> {
    if e.Write? && e.i < |s.ops| then [OpWrite(s.ops[e.i].id, e.b, e.data)] else []
  }

  ghost function Made(L: Layout, s: State, es: seq<Event>): seq<OpWrite>
    requires Legal(L, s, es)
    decreases |es|
  {
    if es == [] then [] else MadeBy(s, es[0]) + Made(L, Next(L, s, es[0]), es[1..])
  }

  // A committed transaction has every write that its operations have made, and so has the
  // current one as long as the machine runs.
  ghost predicate Whole(s: State, floor: nat, made: seq<OpWrite>) {
    && (forall w :: w in made ==> w.op < s.nextOp)
    && (forall t, v, w :: 0 <= t < |s.done| && v in s.done[t] && w in made && w.op == v.op ==> w in s.done[t])
    && (forall t, v :: 0 <= t < |s.done| && v in s.done[t] ==> v in made)
    && (forall v :: v in s.txn ==> v in made)
    && (!s.phase.Panicked? ==> forall w :: w in made && w.op >= floor ==> w in s.txn)
  }

  lemma WholeCommit(s: State, s': State, floor: nat, made: seq<OpWrite>)
    requires Unsplit(s, floor) && Whole(s, floor, made) && !s.phase.Panicked?
    requires s'.done == s.done + [s.txn] && s'.txn == [] && s'.nextOp == s.nextOp
    ensures Whole(s', s.nextOp, made)
  {
    var n := |s.done|;
    assert s'.done[n] == s.txn;
    forall t, v, w | 0 <= t < |s'.done| && v in s'.done[t] && w in made && w.op == v.op ensures w in s'.done[t] {
      if t < n { assert s'.done[t] == s.done[t]; }
    }
    forall t, v | 0 <= t < |s'.done| && v in s'.done[t] ensures v in made {
      if t < n { assert s'.done[t] == s.done[t]; }
    }
  }

  lemma WholeWrite(s: State, s': State, floor: nat, made: seq<OpWrite>, o: OpWrite)
    requires Unsplit(s, floor) && Whole(s, floor, made) && floor <= o.op < s.nextOp
    requires s'.done == s.done && s'.txn == s.txn + [o] && s'.nextOp == s.nextOp && s'.phase == s.phase
    ensures Whole(s', floor, made + [o])
  {
    forall w | w in made + [o] && w !in made ensures w == o {}
    forall t, v | 0 <= t < |s.done| && v in s.done[t] ensures v.op != o.op {
      assert IdsWithin(s.done[t], 0, floor);
    }
  }

  lemma WholeElse(s: State, s': State, floor: nat, floor': nat, made: seq<OpWrite>)
    requires Whole(s, floor, made) && s'.done == s.done && (s'.txn == s.txn || s'.txn == []) && s'.nextOp >= s.nextOp
    requires s'.phase.Panicked? || floor' == s.nextOp || (s'.txn == s.txn && floor' == floor && !s.phase.Panicked?)
    ensures Whole(s', floor', made)
  {
  }

  lemma WholeStep(L: Layout, s: State, e: Event, floor: nat, made: seq<OpWrite>)
    requires Steady(L, s) && Enabled(L, s, e) && Unsplit(s, floor) && Whole(s, floor, made)
    ensures Whole(Next(L, s, e), NextFloor(s, e, floor), made + MadeBy(s, e))
  {
    var s', floor' := Next(L, s, e), NextFloor(s, e, floor);
    if MadeBy(s, e) != [] {
      assert s.ops[e.i] in s.ops;
      WholeWrite(s, s', floor, made, OpWrite(s.ops[e.i].id, e.b, e.data));
    } else {
      assert made + MadeBy(s, e) == made;
      if e.Io? && s.phase.WritingHead? {
        WholeCommit(s, s', floor, made);
      } else {
        WholeElse(s, s', floor, floor', made);
      }
    }
  }

  lemma MadeNext(L: Layout, s: State, es: seq<Event>, made: seq<OpWrite>)
    requires Legal(L, s, es) && es != []
    ensures made + MadeBy(s, es[0]) + Made(L, Next(L, s, es[0]), es[1..]) == made + Made(L, s, es)
  {
  }

  lemma {:induction false} WholeRun(L: Layout, s: State, es: seq<Event>, floor: nat, made: seq<OpWrite>) returns (f: nat)
    requires Steady(L, s) && Legal(L, s, es) && Unsplit(s, floor) && Whole(s, floor, made)
    ensures Unsplit(Exec(L, s, es), f) && Whole(Exec(L, s, es), f, made + Made(L, s, es))
    decreases |es|
  {
    if es == [] {
      f := floor;
      assert made + Made(L, s, es) == made;
    } else {
      var e, s' := es[0], Next(L, s, es[0]);
      SteadyStep(L, s, e);
      UnsplitStep(L, s, e, floor);
      WholeStep(L, s, e, floor, made);
      f := WholeRun(L, s', es[1..], NextFloor(s, e, floor), made + MadeBy(s, e));
      MadeNext(L, s, es, made);
    }
  }

  lemma UnsplitApart(s: State, floor: nat)
    requires Unsplit(s, floor)
    ensures forall t1, t2, w1, w2 ::
      0 <= t1 < t2 < |s.done| && w1 in s.done[t1] && w2 in s.done[t2] ==> w1.op != w2.op
    ensures forall t, w :: 0 <= t < |s.done| && w in s.done[t] ==>
      (forall v :: v in s.txn ==> w.op != v.op) && (forall o :: o in s.ops ==> w.op != o.id)
  {
    forall t, w | 0 <= t < |s.done| && w in s.done[t] ensures w.op < floor {
      assert IdsWithin(s.done[t], 0, floor);
    }
  }

  // A committed transaction that has one write of an operation has every write that the
  // operation made in the run, and made nothing up; and no other transaction, nor the current
  // one, nor an operation that is still outstanding, shares its operations.
  lemma OperationsAreAtomic(L: Layout, s0: State, es: seq<Event>)
    requires Start(L, s0) && Legal(L, s0, es)
    ensures var s, made := Exec(L, s0, es), Made(L, s0, es);
      && (forall t, v, w :: 0 <= t < |s.done| && v in s.done[t] && w in made && w.op == v.op ==> w in s.done[t])
      && (forall t, v :: 0 <= t < |s.done| && v in s.done[t] ==> v in made)
    ensures var s := Exec(L, s0, es);
      && (forall t1, t2, w1, w2 :: 0 <= t1 < t2 < |s.done| && w1 in s.done[t1] && w2 in s.done[t2] ==> w1.op != w2.op)
      && (forall t, w :: 0 <= t < |s.done| && w in s.done[t] ==>
            (forall v :: v in s.txn ==> w.op != v.op) && (forall o :: o in s.ops ==> w.op != o.id))
  {
    var f := WholeRun(L, s0, es, 0, []);
    assert [] + Made(L, s0, es) == Made(L, s0, es);
    UnsplitApart(Exec(L, s0, es), f);
  }

  // ---- Reservations and panics --------------------------------------------

  lemma BudgetUpdate(s: State, s': State, i: nat, o: Op)
    requires Budgeted(s) && i < |s.ops| && s'.ops == s.ops[i := o] && s'.phase == s.phase
    requires o.added <= MAXOPBLOCKS && |s'.lh| + s.ops[i].added == |s.lh| + o.added
    ensures Budgeted(s')
  {
    ReservedUpdate(s.ops, i, o);
    forall p | p in s.ops[i := o] ensures p == o || p in s.ops {}
  }

  // Each step within budget keeps the reservations.
  lemma BudgetStep(L: Layout, s: State, e: Event)
    requires Steady(L, s) && Budgeted(s) && Enabled(L, s, e) && WithinBudget(s, e)
    ensures Budgeted(Next(L, s, e))
  {
    ReservedBounds(s.ops);
    var s' := Next(L, s, e);
    match e {
      case Begin => ReservedAppend(s.ops, Op(s.nextOp, 0, false));
      case Test(i) =>
        assert s.ops[i] in s.ops;
        if !WritePanics(L, s.lh) { BudgetUpdate(s, s', i, s'.ops[i]); }
      case Write(i, _, _) =>
        assert s.ops[i] in s.ops;
        BudgetUpdate(s, s', i, s'.ops[i]);
      case End(i) =>
        assert s.ops[i] in s.ops;
        ReservedRemove(s.ops, i);
        forall o | o in s'.ops ensures o in s.ops {}
      case _ =>
    }
  }

  lemma {:induction false} BudgetRun(L: Layout, s: State, es: seq<Event>)
    requires Steady(L, s) && Budgeted(s) && Legal(L, s, es) && Thrifty(L, s, es)
    ensures Budgeted(Exec(L, s, es))
    decreases |es|
  {
    if es != [] {
      BudgetStep(L, s, es[0]);
      SteadyStep(L, s, es[0]);
      BudgetRun(L, Next(L, s, es[0]), es[1..]);
    }
  }

  lemma ThriftySteady(L: Layout, s: State)
    requires ReachedThriftily(L, s)
    ensures Steady(L, s) && Budgeted(s) && Reachable(L, s)
  {
    var s0, es :| Start(L, s0) && Legal(L, s0, es) && Thrifty(L, s0, es) && Exec(L, s0, es) == s;
    SteadyRun(L, s0, es);
    BudgetRun(L, s0, es);
  }

  // Whatever the operations do, end_op's panic cannot fire, no block is logged twice, and
  // lh.block is not overrun: the buffers run out before it does.
  lemma CommitsAlone(L: Layout, s: State)
    requires Reachable(L, s)
    ensures s.committing ==> s.ops == [] || s.phase.Panicked?
    ensures forall i, j :: 0 <= i < j < |s.lh| ==> s.lh[i] != s.lh[j]
    ensures |s.lh| <= LOGSIZE
    ensures forall i, b, data :: Enabled(L, s, Write(i, b, data)) && b !in s.lh ==> |s.lh| < LOGSIZE
    ensures Sane(L, s)
    ensures forall i :: Enabled(L, s, End(i)) ==> !s.committing && !Next(L, s, End(i)).phase.Panicked?
  {
    ReachableSteady(L, s);
    forall i, b, data | Enabled(L, s, Write(i, b, data)) && b !in s.lh ensures |s.lh| < LOGSIZE {
      SteadyWrite(L, s, i, b, data);
    }
  }

  // Within budget the log has room for what is outstanding.
  lemma ReservationSafety(L: Layout, s: State)
    requires ReachedThriftily(L, s)
    ensures Up(s) ==> |s.lh| + Reserved(s.ops) <= LOGSIZE
    ensures forall o :: o in s.ops ==> o.added <= MAXOPBLOCKS
  {
    ThriftySteady(L, s);
  }

  // log_write's test panics exactly when the log is at its capacity, and it is the only step of
  // an operation that does.
  lemma WritePanicExactly(L: Layout, s: State, i: nat)
    requires Reachable(L, s) && Enabled(L, s, Test(i))
    ensures Sane(L, s)
    ensures Next(L, s, Test(i)).phase.Panicked? <==> |s.lh| >= L.Capacity()
    ensures forall e :: Enabled(L, s, e) && (e.Begin? || e.Write? || e.End?) ==> !Next(L, s, e).phase.Panicked?
  {
    ReachableSteady(L, s);
  }

  // Within budget, with a log area larger than LOGSIZE, an operation that has not used up its
  // budget finds room for a new block, at the test and also when it appends.
  lemma NewBlockFits(L: Layout, s: State, i: nat)
    requires ReachedThriftily(L, s) && Up(s) && i < |s.ops|
    requires s.ops[i].added < MAXOPBLOCKS && L.size > LOGSIZE
    ensures Sane(L, s) && |s.lh| < L.Capacity()
    ensures Enabled(L, s, Test(i)) ==> !Next(L, s, Test(i)).phase.Panicked?
  {
    ThriftySteady(L, s);
    ReservedBounds(s.ops);
  }
}
