// The write-ahead log of log.c as a state machine.  A step is taken under log.lock, or
// is log_write's size test, which comes before it takes the lock, or is one atomic
// single-block disk write.  A crash may come between any two steps, including during
// recovery.

module LogMachine {
  import opened Params
  import opened Sets

  const WORDS := 128          // BSIZE / sizeof(int)

  type Block = b: seq<int> | |b| == WORDS witness seq(WORDS, _ => 0)
  type Disk = seq<Block>
  type Contents = map<int, Block>

  // log.start, log.size and the number of blocks on the device.
  datatype Layout = Layout(start: nat, size: nat, blocks: nat) {
    ghost predicate Valid() { 1 <= size && start + size <= blocks }

    // A block with a home outside the log.
    predicate IsHome(b: int) { 0 <= b < blocks && !(start <= b < start + size) }

    // log_write's first panic test fails exactly below this bound.
    function Capacity(): int { if LOGSIZE <= size - 1 then LOGSIZE else size - 1 }
  }

  // ---- The header block ---------------------------------------------------

  function HeaderCount(h: Block): int { h[0] }

  predicate HeaderFits(h: Block) { 0 <= HeaderCount(h) <= LOGSIZE }

  function HeaderEntries(h: Block): (lh: seq<int>)
    requires HeaderFits(h)
    ensures |lh| == HeaderCount(h)
  {
    h[1..1 + HeaderCount(h)]
  }

  // write_head overwrites the count and the first |lh| entries only.
  function PutHeader(h: Block, lh: seq<int>): Block
    requires |lh| <= LOGSIZE
  {
    [|lh|] + lh + h[1 + |lh|..]
  }

  lemma HeaderRoundTrip(h: Block, lh: seq<int>)
    requires |lh| <= LOGSIZE
    ensures HeaderFits(PutHeader(h, lh)) && HeaderEntries(PutHeader(h, lh)) == lh
  {
    assert PutHeader(h, lh)[1..1 + |lh|] == lh;
  }

  // ---- What a disk means --------------------------------------------------

  // Different home blocks, as many as lh.block has room for.
  predicate Listed(L: Layout, lh: seq<int>) {
    && |lh| <= LOGSIZE
    && (forall i :: 0 <= i < |lh| ==> L.IsHome(lh[i]))
    && (forall i, j :: 0 <= i < j < |lh| ==> lh[i] != lh[j])
  }

  // ... and no more than the log area holds.
  predicate EntriesOk(L: Layout, lh: seq<int>) {
    Listed(L, lh) && |lh| < L.size
  }

  // A disk of the right size with a header that can be read.
  ghost predicate DiskShaped(L: Layout, d: Disk) {
    && L.Valid() && |d| == L.blocks
    && HeaderFits(d[L.start]) && Listed(L, HeaderEntries(d[L.start]))
  }

  ghost predicate DiskOk(L: Layout, d: Disk) {
    && L.Valid() && |d| == L.blocks
    && HeaderFits(d[L.start]) && EntriesOk(L, HeaderEntries(d[L.start]))
  }

  function OnDisk(L: Layout, d: Disk): seq<int>
    requires L.Valid() && |d| == L.blocks && HeaderFits(d[L.start])
  {
    HeaderEntries(d[L.start])
  }

  function IndexOf(lh: seq<int>, b: int): (i: nat)
    requires b in lh
    ensures i < |lh| && lh[i] == b
  {
    if lh[0] == b then 0 else 1 + IndexOf(lh[1..], b)
  }

  // Block b as seen through a log that holds the blocks of lh.
  function Overlaid(L: Layout, d: Disk, lh: seq<int>, b: int): Block
    requires L.Valid() && |d| == L.blocks && EntriesOk(L, lh) && 0 <= b < L.blocks
  {
    if b in lh then d[L.start + 1 + IndexOf(lh, b)] else d[b]
  }

  // The file system a disk stands for: home blocks, overlaid with the blocks of
  // the transaction whose header is on disk.
  ghost function Durable(L: Layout, d: Disk): Contents
    requires DiskOk(L, d)
  {
    map b | 0 <= b < L.blocks && L.IsHome(b) :: Overlaid(L, d, OnDisk(L, d), b)
  }

  // ---- States and events --------------------------------------------------

  // Where the thread that runs commit() or recover_from_log() is.  Each phase
  // but the first, the sixth and the last two ends with one disk write.
  datatype Phase =
    | Running
    | WritingLog(tail: nat)
    | WritingHead
    | Installing(tail: nat)
    | Clearing
    | Committed
    | RecInstalling(tail: nat)
    | RecClearing
    | Down
    | Panicked

  // An operation between begin_op and end_op, how many blocks it has added to the log, and
  // whether it is inside log_write, past the size test.
  datatype Op = Op(id: nat, added: nat, passed: bool)

  datatype OpWrite = OpWrite(op: nat, block: int, data: Block)

  // disk survives a crash; cache (the pinned dirty buffers), lh, ops and
  // committing do not.  The last three components only record history: the
  // next operation id, the writes of the current transaction, and the writes of
  // every transaction whose header reached the disk.
  datatype State = State(
    disk: Disk, cache: Contents, lh: seq<int>, ops: seq<Op>, committing: bool, phase: Phase,
    nextOp: nat, txn: seq<OpWrite>, done: seq<seq<OpWrite>>)

  datatype Event =
    | Begin
    | Test(i: nat)       // log_write's size test, without the lock
    | Write(i: nat, b: int, data: Block)   // the rest of log_write
    | End(i: nat)
    | Io                 // the next disk write of commit() or recovery
    | Finish             // end_op clears `committing`
    | Crash
    | Halt               // a panic elsewhere in the kernel
    | Boot               // read_head

  // bread: a pinned buffer wins over the disk.
  function View(d: Disk, cache: Contents, b: int): Block
    requires 0 <= b < |d|
  {
    if b in cache then cache[b] else d[b]
  }

  ghost function HomeViews(L: Layout, d: Disk, cache: Contents): Contents
    requires |d| == L.blocks
  {
    map b | 0 <= b < L.blocks && L.IsHome(b) :: View(d, cache, b)
  }

  ghost function Volatile(L: Layout, s: State): Contents
    requires DiskOk(L, s.disk)
  {
    if s.phase.RecInstalling? || s.phase.RecClearing? || s.phase.Down? || s.phase.Panicked?
    then Durable(L, s.disk)
    else HomeViews(L, s.disk, s.cache)
  }

  // log absorption
  function Append(lh: seq<int>, b: int): (r: seq<int>)
    ensures b in r
    ensures |lh| <= |r| <= |lh| + 1
  {
    if b in lh then lh else lh + [b]
  }

  // What begin_op still owes the outstanding operations.
  function Reserved(ops: seq<Op>): int {
    if ops == [] then 0 else MAXOPBLOCKS - ops[0].added + Reserved(ops[1..])
  }

  // ---- Steps --------------------------------------------------------------

  predicate Up(s: State) {
    !s.phase.Down? && !s.phase.Panicked? && !s.phase.RecInstalling? && !s.phase.RecClearing?
  }

  // begin_op's loop exits exactly under this test; otherwise it sleeps.
  predicate MayBegin(s: State) {
    !s.committing && |s.lh| + (|s.ops| + 1) * MAXOPBLOCKS <= LOGSIZE
  }

  predicate WritePanics(L: Layout, lh: seq<int>) {
    |lh| >= LOGSIZE || |lh| >= L.size - 1
  }

  // The block of the log area that the next disk write reads or writes; every bwrite of commit
  // and recovery comes after a bread of it.
  function LogBlock(L: Layout, s: State): int {
    match s.phase
    case WritingLog(t) => L.start + t + 1
    case Installing(t) => L.start + t + 1
    case RecInstalling(t) => L.start + t + 1
    case _ => L.start
  }

  // The block in hand is the one to be copied: the second bread of it would sleep for ever.
  predicate SelfWait(L: Layout, s: State) {
    match s.phase
    case WritingLog(t) => t < |s.lh| && s.lh[t] == L.start + t + 1
    case Installing(t) => t < |s.lh| && s.lh[t] == L.start + t + 1
    case RecInstalling(t) => t < |s.lh| && s.lh[t] == L.start + t + 1
    case _ => false
  }

  predicate Writing(s: State) {
    s.phase.WritingLog? || s.phase.WritingHead? || s.phase.Installing? || s.phase.Clearing?
    || s.phase.RecInstalling? || s.phase.RecClearing?
  }

  // A legal event: what the threads and the hardware can do.  An operation writes home blocks.
  // The pinned blocks and the block that an operation has in hand are in different buffers, of
  // which there are NBUF; bget panics when a bread finds none, and the disk driver when a block
  // is not on the device.
  ghost predicate Enabled(L: Layout, s: State, e: Event) {
    match e
    case Begin => Up(s) && MayBegin(s)
    case Test(i) => Up(s) && i < |s.ops| && !s.ops[i].passed
    case Write(i, b, _) =>
      && Up(s) && i < |s.ops| && s.ops[i].passed && L.IsHome(b)
      && (b in s.cache || |s.cache.Keys| < NBUF)
    case End(i) => Up(s) && i < |s.ops| && !s.ops[i].passed
    case Io => Writing(s) && |s.cache.Keys| < NBUF && LogBlock(L, s) < L.blocks && !SelfWait(L, s)
    case Finish => s.phase.Committed?
    case Crash => true
    case Halt => !s.phase.Down? && !s.phase.Panicked?
    case Boot => s.phase.Down?
  }

  // What begin_op's reservation takes for granted: no operation adds more than MAXOPBLOCKS
  // blocks to the log.
  ghost predicate WithinBudget(s: State, e: Event) {
    e.Write? ==> e.i < |s.ops| && (e.b !in s.lh ==> s.ops[e.i].added < MAXOPBLOCKS)
  }

  // A transaction that the log area has room for, or that fills the buffer cache, so that its
  // commit finds no buffer to begin with: the first block it reads is in the log area.
  predicate Contained(L: Layout, n: nat) {
    n < L.size || (n >= NBUF && L.size > 1)
  }

  // An operation that passed the size test appends a new block although others may have
  // appended since.  The transaction stays contained unless it does not.
  predicate Contains(L: Layout, s: State, e: Event) {
    e.Write? && e.b !in s.lh ==> Contained(L, |s.lh| + 1)
  }

  // The state every phase needs for its next step to be defined.
  ghost predicate Sane(L: Layout, s: State) {
    && DiskShaped(L, s.disk) && Listed(L, s.lh)
    && (s.phase.WritingLog? ==> s.phase.tail < |s.lh|)
    && (s.phase.Installing? ==> s.phase.tail < |s.lh|)
    && (s.phase.RecInstalling? ==> s.phase.tail < |s.lh|)
  }

  function AfterWritingLog(lh: seq<int>, tail: nat): Phase {
    if tail < |lh| then WritingLog(tail) else WritingHead
  }

  function AfterInstalling(lh: seq<int>, tail: nat): Phase {
    if tail < |lh| then Installing(tail) else Clearing
  }

  function AfterRecInstalling(lh: seq<int>, tail: nat): Phase {
    if tail < |lh| then RecInstalling(tail) else RecClearing
  }

  // The single block that the next disk write changes, and its new contents.
  function IoWrite(L: Layout, s: State): (w: (int, Block))
    requires L.Valid() && |s.disk| == L.blocks && Listed(L, s.lh) && LogBlock(L, s) < L.blocks
    requires s.phase.WritingLog? || s.phase.Installing? || s.phase.RecInstalling? ==> s.phase.tail < |s.lh|
    ensures 0 <= w.0 < L.blocks
  {
    assert forall i :: 0 <= i < |s.lh| ==> L.IsHome(s.lh[i]) && 0 <= s.lh[i] < L.blocks;
    match s.phase
    case WritingLog(tail) => (L.start + tail + 1, View(s.disk, s.cache, s.lh[tail]))
    case WritingHead => (L.start, PutHeader(s.disk[L.start], s.lh))
    case Installing(tail) => (s.lh[tail], View(s.disk, s.cache, L.start + tail + 1))
    case RecInstalling(tail) => (s.lh[tail], View(s.disk, s.cache, L.start + tail + 1))
    case _ => (L.start, PutHeader(s.disk[L.start], []))
  }

  ghost function IoStep(L: Layout, s: State): State
    requires Sane(L, s) && LogBlock(L, s) < L.blocks
  {
    var (b, data) := IoWrite(L, s);
    var s' := s.(disk := s.disk[b := data], cache := s.cache - {b});
    match s.phase
    case WritingLog(tail) => s'.(phase := AfterWritingLog(s.lh, tail + 1))
    case WritingHead => s'.(phase := AfterInstalling(s.lh, 0), done := s.done + [s.txn], txn := [])
    case Installing(tail) => s'.(phase := AfterInstalling(s.lh, tail + 1))
    case Clearing => s'.(phase := Committed, lh := [])
    case RecInstalling(tail) => s'.(phase := AfterRecInstalling(s.lh, tail + 1))
    case RecClearing => s'.(phase := Running, lh := [])
    case _ => s
  }

  // The panic of some thread.
  function Halted(s: State): State {
    s.(phase := Panicked, cache := map[], txn := [])
  }

  ghost function Next(L: Layout, s: State, e: Event): State
    requires Sane(L, s) && Enabled(L, s, e)
  {
    match e
    case Begin => s.(ops := s.ops + [Op(s.nextOp, 0, false)], nextOp := s.nextOp + 1)
    case Test(i) =>
      if WritePanics(L, s.lh) then Halted(s) else s.(ops := s.ops[i := s.ops[i].(passed := true)])
    case Write(i, b, data) =>
      var added := s.ops[i].added + if b in s.lh then 0 else 1;
      s.(cache := s.cache[b := data], lh := Append(s.lh, b),
         ops := s.ops[i := Op(s.ops[i].id, added, false)],
         txn := s.txn + [OpWrite(s.ops[i].id, b, data)])
    case End(i) =>
      var ops := RemoveAt(s.ops, i);
      if s.committing then Halted(s.(ops := ops))
      else if ops != [] then s.(ops := ops)
      else s.(ops := ops, committing := true,
              phase := if s.lh == [] then Committed else WritingLog(0))
    case Io => IoStep(L, s)
    case Finish => s.(committing := false, phase := Running)
    case Crash => s.(cache := map[], lh := [], ops := [], committing := false, phase := Down, txn := [])
    case Halt => Halted(s)
    case Boot => s.(lh := OnDisk(L, s.disk), phase := AfterRecInstalling(OnDisk(L, s.disk), 0))
  }

  // ---- The invariant ------------------------------------------------------

  // The first k log blocks hold what the caches hold for their homes.
  ghost predicate LogCopied(L: Layout, d: Disk, cache: Contents, lh: seq<int>, k: int) {
    k <= |lh| && L.start + |lh| < |d|
    && forall j :: 0 <= j < k ==> 0 <= lh[j] < |d| && d[L.start + 1 + j] == View(d, cache, lh[j])
  }

  // The first k homes hold what the log holds for them.
  ghost predicate HomeInstalled(L: Layout, d: Disk, lh: seq<int>, k: int) {
    k <= |lh| && L.start + |lh| < |d|
    && forall j :: 0 <= j < k ==> 0 <= lh[j] < |d| && d[lh[j]] == d[L.start + 1 + j]
  }

  // bwrite has unpinned the first k homes.
  ghost predicate Unpinned(cache: Contents, lh: seq<int>, k: int) {
    k <= |lh| && forall j :: 0 <= j < k ==> lh[j] !in cache
  }

  // The homes from the k-th on are still pinned.
  ghost predicate Pinned(cache: Contents, lh: seq<int>, k: int) {
    k <= |lh| && forall j :: 0 <= j < |lh| && k <= j ==> lh[j] in cache
  }

  // What holds while the header on disk is empty, before the commit point ...
  ghost predicate BeforeCommit(L: Layout, s: State, k: int)
    requires DiskOk(L, s.disk)
  {
    && s.committing && OnDisk(L, s.disk) == [] && Pinned(s.cache, s.lh, 0)
    && if |s.lh| < NBUF then LogCopied(L, s.disk, s.cache, s.lh, k) else k == 0
  }

  // ... and after it, while the header holds the transaction.
  ghost predicate AfterCommit(L: Layout, s: State, k: int)
    requires DiskOk(L, s.disk)
  {
    && s.committing && OnDisk(L, s.disk) == s.lh
    && LogCopied(L, s.disk, s.cache, s.lh, |s.lh|)
    && HomeInstalled(L, s.disk, s.lh, k) && Unpinned(s.cache, s.lh, k) && Pinned(s.cache, s.lh, k)
  }

  ghost predicate InRecovery(L: Layout, s: State, k: int)
    requires DiskOk(L, s.disk)
  {
    OnDisk(L, s.disk) == s.lh && HomeInstalled(L, s.disk, s.lh, k)
  }

  ghost predicate PhaseOk(L: Layout, s: State)
    requires DiskOk(L, s.disk)
  {
    match s.phase
    case Running => OnDisk(L, s.disk) == []
    case WritingLog(tail) => BeforeCommit(L, s, tail)
    case WritingHead => |s.lh| < NBUF && BeforeCommit(L, s, |s.lh|)
    case Installing(tail) => AfterCommit(L, s, tail)
    case Clearing => AfterCommit(L, s, |s.lh|)
    case Committed => OnDisk(L, s.disk) == [] && s.lh == []
    case RecInstalling(tail) => InRecovery(L, s, tail)
    case RecClearing => InRecovery(L, s, |s.lh|)
    case Down => true
    case Panicked => true
  }

  // What every step keeps, whatever the layout.
  ghost predicate Steady(L: Layout, s: State) {
    && Sane(L, s) && |s.cache.Keys| <= NBUF
    && (s.phase.Running? ==> Pinned(s.cache, s.lh, 0)) && (s.phase.Committed? ==> s.lh == [])
    && (Up(s) ==> (s.committing <==> !s.phase.Running?))
    && (s.committing ==> s.ops == [] || s.phase.Panicked?)
    && (!Up(s) ==> s.cache == map[] && s.txn == [])
    && (s.phase.Down? || s.phase.RecInstalling? || s.phase.RecClearing? ==> s.ops == [] && !s.committing)
  }

  // The invariant of runs whose transactions are contained.
  ghost predicate Inv(L: Layout, s: State) {
    && Steady(L, s) && DiskOk(L, s.disk) && PhaseOk(L, s)
    && (forall b :: b in s.cache ==> b in s.lh)
    && (s.phase.Panicked? || Contained(L, |s.lh|))
  }

  // The reservations, in runs within budget.
  ghost predicate Budgeted(s: State) {
    && (forall o :: o in s.ops ==> o.added <= MAXOPBLOCKS)
    && (Up(s) ==> |s.lh| + Reserved(s.ops) <= LOGSIZE)
  }

  // ---- The reservation sum ------------------------------------------------

  lemma {:induction false} ReservedAppend(ops: seq<Op>, o: Op)
    ensures Reserved(ops + [o]) == Reserved(ops) + MAXOPBLOCKS - o.added
  {
    if ops != [] {
      assert (ops + [o])[1..] == ops[1..] + [o];
      ReservedAppend(ops[1..], o);
    } else {
      assert ops + [o] == [o];
    }
  }

  lemma {:induction false} ReservedUpdate(ops: seq<Op>, i: nat, o: Op)
    requires i < |ops|
    ensures Reserved(ops[i := o]) == Reserved(ops) + ops[i].added - o.added
  {
    if i == 0 {
      assert ops[0 := o][1..] == ops[1..];
    } else {
      assert ops[i := o][1..] == ops[1..][i - 1 := o];
      ReservedUpdate(ops[1..], i - 1, o);
    }
  }

  lemma {:induction false} ReservedRemove(ops: seq<Op>, i: nat)
    requires i < |ops|
    ensures Reserved(RemoveAt(ops, i)) == Reserved(ops) - MAXOPBLOCKS + ops[i].added
  {
    if i == 0 {
      assert RemoveAt(ops, 0) == ops[1..];
    } else {
      assert RemoveAt(ops, i)[1..] == RemoveAt(ops[1..], i - 1);
      ReservedRemove(ops[1..], i - 1);
    }
  }

  // Each outstanding operation holds a share between 0 and MAXOPBLOCKS.
  lemma {:induction false} ReservedBounds(ops: seq<Op>)
    requires forall o :: o in ops ==> o.added <= MAXOPBLOCKS
    ensures 0 <= Reserved(ops) <= |ops| * MAXOPBLOCKS
    ensures forall i :: 0 <= i < |ops| ==> MAXOPBLOCKS - ops[i].added <= Reserved(ops)
  {
    if ops != [] {
      ReservedBounds(ops[1..]);
      forall i | 0 <= i < |ops| ensures MAXOPBLOCKS - ops[i].added <= Reserved(ops) {
        if i > 0 { assert ops[i] == ops[1..][i - 1]; }
      }
    }
  }

  // ---- Runs ---------------------------------------------------------------

  ghost predicate Legal(L: Layout, s: State, es: seq<Event>)
    decreases |es|
  {
    es == [] || (Sane(L, s) && Enabled(L, s, es[0]) && Legal(L, Next(L, s, es[0]), es[1..]))
  }

  ghost function Exec(L: Layout, s: State, es: seq<Event>): State
    requires Legal(L, s, es)
    decreases |es|
  {
    if es == [] then s else Exec(L, Next(L, s, es[0]), es[1..])
  }

  lemma {:induction false} ExecAppend(L: Layout, s: State, es: seq<Event>, e: Event)
    requires Legal(L, s, es) && Sane(L, Exec(L, s, es)) && Enabled(L, Exec(L, s, es), e)
    ensures Legal(L, s, es + [e]) && Exec(L, s, es + [e]) == Next(L, Exec(L, s, es), e)
    decreases |es|
  {
    if es == [] {
      assert (es + [e])[1..] == [];
    } else {
      assert (es + [e])[1..] == es[1..] + [e];
      ExecAppend(L, Next(L, s, es[0]), es[1..], e);
    }
  }

  // A machine that is switched on with a well-formed disk.
  ghost predicate Start(L: Layout, s: State) {
    DiskOk(L, s.disk) && s == State(s.disk, map[], [], [], false, Down, 0, [], [])
  }

  ghost predicate Reachable(L: Layout, s: State) {
    exists s0, es :: Start(L, s0) && Legal(L, s0, es) && Exec(L, s0, es) == s
  }

  // A run whose transactions stay contained.
  ghost predicate Tame(L: Layout, s: State, es: seq<Event>)
    requires Legal(L, s, es)
    decreases |es|
  {
    es == [] || (Contains(L, s, es[0]) && Tame(L, Next(L, s, es[0]), es[1..]))
  }

  // A run in which every operation keeps to its budget.
  ghost predicate Thrifty(L: Layout, s: State, es: seq<Event>)
    requires Legal(L, s, es)
    decreases |es|
  {
    es == [] || (WithinBudget(s, es[0]) && Thrifty(L, Next(L, s, es[0]), es[1..]))
  }

  ghost predicate ReachedThriftily(L: Layout, s: State) {
    exists s0, es :: Start(L, s0) && Legal(L, s0, es) && Thrifty(L, s0, es) && Exec(L, s0, es) == s
  }

  lemma {:induction false} ThriftyAppend(L: Layout, s: State, es: seq<Event>, e: Event)
    requires Legal(L, s, es) && Thrifty(L, s, es) && Sane(L, Exec(L, s, es)) && Enabled(L, Exec(L, s, es), e)
    requires WithinBudget(Exec(L, s, es), e)
    ensures Legal(L, s, es + [e]) && Thrifty(L, s, es + [e])
    decreases |es|
  {
    ExecAppend(L, s, es, e);
    if es == [] {
      assert (es + [e])[1..] == [];
    } else {
      assert (es + [e])[1..] == es[1..] + [e];
      ThriftyAppend(L, Next(L, s, es[0]), es[1..], e);
    }
  }

  lemma {:induction false} TameAppend(L: Layout, s: State, es: seq<Event>, e: Event)
    requires Legal(L, s, es) && Tame(L, s, es) && Sane(L, Exec(L, s, es)) && Enabled(L, Exec(L, s, es), e)
    requires Contains(L, Exec(L, s, es), e)
    ensures Legal(L, s, es + [e]) && Tame(L, s, es + [e])
    decreases |es|
  {
    ExecAppend(L, s, es, e);
    if es == [] {
      assert (es + [e])[1..] == [];
    } else {
      assert (es + [e])[1..] == es[1..] + [e];
      TameAppend(L, Next(L, s, es[0]), es[1..], e);
    }
  }

  // ---- Replaying a history ------------------------------------------------

  function ApplyWrites(c: Contents, ws: seq<OpWrite>): Contents {
    if ws == [] then c
    else ApplyWrites(c, ws[..|ws| - 1])[ws[|ws| - 1].block := ws[|ws| - 1].data]
  }

  function Replay(c: Contents, txns: seq<seq<OpWrite>>): Contents {
    if txns == [] then c
    else ApplyWrites(Replay(c, txns[..|txns| - 1]), txns[|txns| - 1])
  }
}
