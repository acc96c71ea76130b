// log.c in its own form: the global `log` and the blocks behind bread and bwrite,
// changed in place.  Every bwrite is one step of the log machine, so each method
// is a run of the machine and a crash between any two writes is a crash there.
module LogProgram {
  import BufferCache
  import opened LogLimits
  import opened LogMachine
  import opened LogSafety
  import opened Params
  import opened Sets

  // n disk writes in a row.
  function Writes(n: nat): seq<Event> {
    seq(n, _ => Io)
  }

  // The disk writes of one commit() of n blocks.
  function CommitWrites(n: nat): nat {
    if n == 0 then 0 else 2 * n + 2
  }

  // ---- Room in the buffer cache -------------------------------------------

  // commit of n blocks reads a block of the log area before each of its disk writes: which block
  // the k-th read asks for, and which homes are dirty then.
  function ReadBlock(L: Layout, n: nat, k: nat): int {
    if k < n then L.start + k + 1 else if n < k <= 2 * n then L.start + k - n else L.start
  }

  function WaitingAt(lh: seq<int>, k: nat): seq<int> {
    if k <= |lh| then lh else if k <= 2 * |lh| then lh[k - |lh| - 1..] else []
  }

  // The k-th read finds a buffer, when other threads hold the blocks of others(k).
  ghost predicate HasRoom(L: Layout, lh: seq<int>, others: nat -> set<int>, k: nat) {
    BufferCache.Room(Members(WaitingAt(lh, k)) + others(k), ReadBlock(L, |lh|, k))
  }

  // Nobody but the log holds a block of the log area.
  ghost predicate Apart(L: Layout, others: nat -> set<int>) {
    forall k, b :: b in others(k) ==> L.IsHome(b)
  }

  // A run of the log machine from power-on, and the state it has reached.
  datatype RunData = RunData(L: Layout, boot: State, trace: seq<Event>, st: State)

  ghost predicate IsRun(r: RunData) {
    && Start(r.L, r.boot) && Legal(r.L, r.boot, r.trace) && Tame(r.L, r.boot, r.trace)
    && Exec(r.L, r.boot, r.trace) == r.st
  }

  ghost function PowerOn(L: Layout, disk: Disk): (r: RunData)
    requires DiskOk(L, disk)
    ensures IsRun(r)
  {
    var s := State(disk, map[], [], [], false, Down, 0, [], []);
    RunData(L, s, [], s)
  }

  ghost const BLANK: Disk := [seq(WORDS, _ => 0)]

  type Run = r: RunData | IsRun(r) ghost witness PowerOn(Layout(0, 1, 1), BLANK)

  lemma RunInv(r: Run)
    ensures Inv(r.L, r.st)
  {
    RunKeepsHistory(r.L, r.boot, r.trace, Durable(r.L, r.boot.disk));
  }

  ghost function Take(r: Run, e: Event): (r': Run)
    requires Enabled(r.L, r.st, e) && Contains(r.L, r.st, e)
    ensures Sane(r.L, r.st)
    ensures r' == r.(trace := r.trace + [e], st := Next(r.L, r.st, e))
    ensures Abs(r') == SpecNext(r.L, r.st, e, Abs(r))
  {
    RunInv(r);
    StepRefines(r.L, r.st, e);
    ExecAppend(r.L, r.boot, r.trace, e);
    TameAppend(r.L, r.boot, r.trace, e);
    r.(trace := r.trace + [e], st := Next(r.L, r.st, e))
  }

  ghost function Abs(r: Run): Spec {
    RunInv(r);
    Abstract(r.L, r.st)
  }

  lemma EmptyLogIsDurable(L: Layout, s: State)
    requires Inv(L, s) && s.lh == [] && OnDisk(L, s.disk) == []
    ensures Durable(L, s.disk) == Volatile(L, s)
  {
    forall b ensures b !in s.cache {}
    assert s.cache == map[];
  }

  ghost predicate HoldsHomes(L: Layout, d: Disk, c: Contents) {
    |d| == L.blocks && forall b :: 0 <= b < L.blocks && L.IsHome(b) ==> b in c && d[b] == c[b]
  }

  // With an empty header the homes are the file system.
  lemma EmptyLogHomes(L: Layout, d: Disk)
    requires DiskOk(L, d) && OnDisk(L, d) == []
    ensures HoldsHomes(L, d, Durable(L, d))
  {
  }

  predicate Recovering(s: State) {
    s.phase.RecInstalling? || s.phase.RecClearing?
  }

  function InstallPhase(s: State, tail: nat): Phase {
    if Recovering(s) then AfterRecInstalling(s.lh, tail) else AfterInstalling(s.lh, tail)
  }

  // The number of the read that comes before the next disk write.
  function NextRead(s: State): nat {
    match s.phase
    case WritingLog(t) => t
    case WritingHead => |s.lh|
    case Installing(t) => |s.lh| + 1 + t
    case RecInstalling(t) => |s.lh| + 1 + t
    case _ => 2 * |s.lh| + 1
  }

  lemma CacheIs(cache: Contents, lh: seq<int>, t: nat)
    requires t <= |lh| && Unpinned(cache, lh, t) && Pinned(cache, lh, t) && forall b :: b in cache ==> b in lh
    ensures cache.Keys == Members(lh[t..])
  {
    forall b | b in cache ensures b in lh[t..] {
      var j := IndexOf(lh, b);
      assert lh[t..][j - t] == b;
    }
    forall b | b in lh[t..] ensures b in cache {
      var j := IndexOf(lh[t..], b);
      assert lh[t + j] == b;
    }
    assert cache.Keys <= Members(lh[t..]) && Members(lh[t..]) <= cache.Keys;
  }

  // The dirty buffers are those of the homes that wait to be installed.
  lemma WaitingPinned(L: Layout, s: State)
    requires Inv(L, s) && Writing(s) && !Recovering(s)
    ensures s.cache.Keys == Members(WaitingAt(s.lh, NextRead(s)))
  {
    if s.phase.WritingLog? || s.phase.WritingHead? {
      CacheIs(s.cache, s.lh, 0);
      assert s.lh[0..] == s.lh;
    } else if s.phase.Installing? {
      CacheIs(s.cache, s.lh, s.phase.tail);
    } else {
      NothingPinned(L, s);
      assert WaitingAt(s.lh, NextRead(s)) == [];
      assert Members<int>([]) == {} == s.cache.Keys;
    }
  }

  // What the next read of the log area finds, ...
  lemma LogRead(r: Run, others: nat -> set<int>)
    requires Writing(r.st) && (Recovering(r.st) ==> forall j :: others(j) == {})
    ensures BufferCache.Room(r.st.cache.Keys + others(NextRead(r.st)), LogBlock(r.L, r.st)) <==>
      Recovering(r.st) || HasRoom(r.L, r.st.lh, others, NextRead(r.st))
  {
    RunInv(r);
    var k := NextRead(r.st);
    if Recovering(r.st) {
      assert r.st.cache.Keys + others(k) == {};
    } else {
      WaitingPinned(r.L, r.st);
      assert LogBlock(r.L, r.st) == ReadBlock(r.L, |r.st.lh|, k);
    }
  }

  lemma InLogArea(L: Layout, s: State)
    requires Inv(L, s) && Writing(s)
    ensures L.start <= LogBlock(L, s) < L.start + L.size && LogBlock(L, s) !in s.cache
  {
  }

  // ... which leaves a buffer for the disk write, ...
  lemma ReadWrites(r: Run, others: set<int>)
    requires Writing(r.st) && BufferCache.Room(r.st.cache.Keys + others, LogBlock(r.L, r.st))
    requires forall b :: b in others ==> r.L.IsHome(b)
    ensures Enabled(r.L, r.st, Io)
  {
    RunInv(r);
    InLogArea(r.L, r.st);
    SubsetSize(r.st.cache.Keys, r.st.cache.Keys + others);
    IoEnabled(r.L, r.st);
  }

  // The disk write that comes next puts data in block b.
  ghost predicate Puts(L: Layout, s: State, b: int, data: Block) {
    Sane(L, s) && LogBlock(L, s) < L.blocks && IoWrite(L, s) == (b, data)
  }

  // What bread returns of block b, ...
  ghost predicate Seen(s: State, b: int, data: Block) {
    0 <= b < |s.disk| && data == View(s.disk, s.cache, b)
  }

  // ... and of log block b and home t.
  ghost predicate Sources(s: State, b: int, t: nat, log: Block, home: Block) {
    t < |s.lh| && Seen(s, b, log) && Seen(s, s.lh[t], home)
  }

  // ... which is this one, when log block t or its home is copied, ...
  lemma CopyIo(r: Run, t: nat, b: int, to: Block, from: Block)
    requires r.st.phase == WritingLog(t) && Enabled(r.L, r.st, Io) && b == r.L.start + t + 1
    requires Sources(r.st, b, t, to, from)
    ensures Sane(r.L, r.st) && Puts(r.L, r.st, b, from)
    ensures IoStep(r.L, r.st) ==
      r.st.(disk := IoStep(r.L, r.st).disk, phase := AfterWritingLog(r.st.lh, t + 1))
  {
    RunInv(r);
    InLogArea(r.L, r.st);
    WritingLogIo(r.L, r.st);
  }

  lemma InstallIo(r: Run, t: nat, from: int, b: int, lbuf: Block, dbuf: Block)
    requires (r.st.phase == Installing(t) || r.st.phase == RecInstalling(t)) && Enabled(r.L, r.st, Io)
    requires from == r.L.start + t + 1 && Sources(r.st, from, t, lbuf, dbuf) && b == r.st.lh[t]
    ensures Sane(r.L, r.st) && Puts(r.L, r.st, b, lbuf)
    ensures var s' := IoStep(r.L, r.st);
      s' == r.st.(disk := s'.disk, cache := s'.cache, phase := InstallPhase(r.st, t + 1))
  {
    RunInv(r);
    InstallingIo(r.L, r.st);
  }

  // ... or this, when the header is written.
  lemma HeadIo(r: Run, b: int, data: Block)
    requires (r.st.phase.WritingHead? || r.st.phase.Clearing? || r.st.phase.RecClearing?) && Enabled(r.L, r.st, Io)
    requires b == r.L.start < |r.st.disk| && Listed(r.L, r.st.lh)
    requires data ==
      PutHeader(View(r.st.disk, r.st.cache, b), if r.st.phase.WritingHead? then r.st.lh else [])
    ensures Sane(r.L, r.st) && Puts(r.L, r.st, b, data)
    ensures IoStep(r.L, r.st) == HeadNext(r.st, IoStep(r.L, r.st).disk)
  {
    RunInv(r);
    InLogArea(r.L, r.st);
    assert r.st.cache - {r.L.start} == r.st.cache;
  }

  // What the header write leads to.
  ghost function HeadNext(s: State, d: Disk): State {
    match s.phase
    case WritingHead => s.(disk := d, phase := AfterInstalling(s.lh, 0), done := s.done + [s.txn], txn := [])
    case Clearing => s.(disk := d, phase := Committed, lh := [])
    case _ => s.(disk := d, phase := Running, lh := [])
  }

  // ... And the read of a home after it: in a commit the home is pinned.
  lemma HomeRead(r: Run, held: set<int>, b: int, t: nat)
    requires r.st.phase == WritingLog(t) || r.st.phase == Installing(t) || (r.st.phase == RecInstalling(t) && held == {})
    ensures t < |r.st.lh| && BufferCache.Room(r.st.cache.Keys + (held + {b}), r.st.lh[t])
  {
    RunInv(r);
    if Recovering(r.st) {
      assert r.st.cache.Keys + (held + {b}) == {b};
    } else {
      assert r.st.lh[t] in r.st.cache;
    }
  }

  // The k-th read of the commit or, with nothing pinned and nobody else running, of the
  // recovery that starts in s finds a buffer.
  ghost predicate Finds(L: Layout, s: State, others: nat -> set<int>, k: nat) {
    Recovering(s) || HasRoom(L, s.lh, others, k)
  }

  function AllReads(s: State): nat {
    if Recovering(s) then 2 * |s.lh| + 2 else CommitWrites(|s.lh|)
  }

  // The number of reads, from the k-th on, before the first that finds no buffer.
  ghost function ReadsFrom(L: Layout, s: State, others: nat -> set<int>, k: nat): (r: nat)
    requires k <= AllReads(s)
    ensures k <= r <= AllReads(s)
    decreases AllReads(s) - k
  {
    if k < AllReads(s) && Finds(L, s, others, k) then ReadsFrom(L, s, others, k + 1) else k
  }

  ghost function Reads(r0: Run, others: nat -> set<int>): nat {
    ReadsFrom(r0.L, r0.st, others, 0)
  }

  lemma {:induction false} ReadsFind(L: Layout, s: State, others: nat -> set<int>, k: nat, j: nat)
    requires k <= j < AllReads(s) && j <= ReadsFrom(L, s, others, k)
    ensures j < ReadsFrom(L, s, others, k) <==> Finds(L, s, others, j)
    decreases j - k
  {
    if k < j { ReadsFind(L, s, others, k + 1, j); }
  }

  // Reads is the index of the first read that panics.
  lemma ReadsExactly(r0: Run, others: nat -> set<int>, k: nat)
    requires k < AllReads(r0.st) && k <= Reads(r0, others)
    ensures k < Reads(r0, others) <==> Finds(r0.L, r0.st, others, k)
  {
    ReadsFind(r0.L, r0.st, others, 0, k);
  }

  // The state after t turns of install_trans ...
  function InstallAt(s0: State, s: State, disk: Disk, cache: Contents, t: nat): State {
    s.(disk := disk, cache := cache, phase := InstallPhase(s0, t))
  }

  // ... and after the header has been cleared.
  function Installed(s0: State, s: State, disk: Disk, cache: Contents): State {
    s.(disk := disk, cache := cache, phase := if Recovering(s0) then Running else Committed, lh := [])
  }

  lemma InstalledIs(L: Layout, s0: State, s: State, s': State, disk: Disk, cache: Contents)
    requires s.lh == s0.lh && s' == InstallAt(s0, s, disk, cache, |s.lh|)
    ensures forall d: Disk :: HeadNext(s', d) == Installed(s0, s, d, cache)
    ensures if Recovering(s0) then s'.phase.RecClearing? else s'.phase.Clearing?
  {
  }

  // What the commit of a transaction leads to: write_log leads to s1 and write_head to s2.
  function CommittedState(s: State, disk: Disk, cache: Contents): State {
    s.(disk := disk, cache := cache, phase := Committed, lh := [], txn := [], done := s.done + [s.txn])
  }

  lemma CommittedIs(s: State, s1: State, s2: State)
    requires s.phase == WritingLog(0) && s.lh != []
    requires s1 == s.(disk := s1.disk, phase := WritingHead) && s2 == HeadNext(s1, s2.disk)
    ensures s2.lh == s.lh && s2.phase == Installing(0) == InstallPhase(s, 0)
    ensures forall d: Disk, c: Contents :: Installed(s, s2, d, c) == CommittedState(s, d, c)
  {
  }

  // Recovery starts where commit has written the header.
  function FirstWrite(s: State): nat {
    if Recovering(s) then |s.lh| + 1 else 0
  }

  // r is the commit or recovery that started in r0, before its k-th read; the header write of a
  // commit makes the transaction durable.
  ghost predicate Done(r0: Run, r: Run, others: nat -> set<int>, k: nat) {
    && FirstWrite(r0.st) <= k <= Reads(r0, others) && r.L == r0.L
    && r.trace == r0.trace + Writes(k - FirstWrite(r0.st))
    && Abs(r) == if k <= |r0.st.lh| || Recovering(r0.st) then Abs(r0) else Spec(Abs(r0).volatile, Abs(r0).volatile)
  }

  // r is the commit that started in r0 after the panic of its first read without a buffer: before
  // the header write nothing of the transaction survives, and afterwards all of it does.
  ghost predicate Failed(r0: Run, r: Run, others: nat -> set<int>) {
    var k := Reads(r0, others);
    var d := if k <= |r0.st.lh| then Abs(r0).durable else Abs(r0).volatile;
    k < AllReads(r0.st) && r.L == r0.L && r.trace == r0.trace + Writes(k) + [Halt] && Abs(r) == Spec(d, d)
  }

  // What others hold during the commit or recovery that starts in r0: nobody else runs yet when
  // the machine recovers.
  ghost predicate Fair(r0: Run, others: nat -> set<int>) {
    Apart(r0.L, others) && (Recovering(r0.st) ==> forall j :: others(j) == {})
  }

  // r goes on with the commit or recovery that started in r0, ...
  ghost predicate Follows(r0: Run, r: Run, others: nat -> set<int>, k: nat) {
    && Done(r0, r, others, k) && k == NextRead(r.st) && r.st.lh == r0.st.lh && k < AllReads(r0.st)
    && Recovering(r.st) == Recovering(r0.st) && Fair(r0, others)
  }

  // ... whose k-th read has found a buffer.
  ghost predicate Ready(r0: Run, r: Run, others: nat -> set<int>, k: nat) {
    Follows(r0, r, others, k) && k < Reads(r0, others) && Enabled(r.L, r.st, Io)
  }

  lemma TakeIo(r: Run, b: int, data: Block)
    requires Enabled(r.L, r.st, Io) && Puts(r.L, r.st, b, data)
    ensures var r' := Take(r, Io);
      && r'.L == r.L && r'.st == IoStep(r.L, r.st) && 0 <= b < |r.st.disk|
      && r'.st.disk == r.st.disk[b := data] && r'.st.cache == r.st.cache - {b}
  {
  }

  lemma TakeWrite(r: Run, i: nat, b: int, data: Block)
    requires Enabled(r.L, r.st, Write(i, b, data)) && Contains(r.L, r.st, Write(i, b, data))
    ensures var r' := Take(r, Write(i, b, data));
      && r'.L == r.L && r'.st.disk == r.st.disk && r'.st.cache == r.st.cache[b := data]
      && r'.st.lh == Append(r.st.lh, b) && |r'.st.ops| == |r.st.ops| && r'.st.committing == r.st.committing
  {
  }

  lemma DoneNext(r0: Run, r: Run, others: nat -> set<int>, k: nat)
    requires Done(r0, r, others, k) && k < Reads(r0, others) && Enabled(r.L, r.st, Io)
    requires r.st.phase.WritingHead? <==> k == |r0.st.lh| && !Recovering(r0.st)
    ensures Done(r0, Take(r, Io), others, k + 1)
  {
    assert Writes(k + 1 - FirstWrite(r0.st)) == Writes(k - FirstWrite(r0.st)) + [Io];
  }

  lemma RecoveryReads(r0: Run, others: nat -> set<int>)
    requires Recovering(r0.st)
    ensures Reads(r0, others) == AllReads(r0.st) && Done(r0, r0, others, |r0.st.lh| + 1)
  {
    if Reads(r0, others) < AllReads(r0.st) { ReadsExactly(r0, others, Reads(r0, others)); }
    assert Writes(0) == [];
  }

  // What recovery has done when it has made its disk writes.
  lemma Recovered(down: Run, r0: Run, r: Run, others: nat -> set<int>)
    requires down.st.phase.Down? && r0 == Take(down, Boot) && Recovering(r0.st)
    requires r.st.phase.Running? && r.st.done == r0.st.done && Done(r0, r, others, AllReads(r0.st))
    ensures DiskOk(r.L, r.st.disk) && OnDisk(r.L, r.st.disk) == [] && DiskOk(r.L, down.st.disk)
    ensures r.trace == down.trace + [Boot] + Writes(|OnDisk(r.L, down.st.disk)| + 1)
    ensures Abs(r) == Abs(down) && r.st.done == down.st.done && HoldsHomes(r.L, r.st.disk, Abs(down).durable)
  {
    RunInv(down);
    RunInv(r);
    EmptyLogHomes(r.L, r.st.disk);
  }

  lemma HaltFails(r0: Run, r: Run, others: nat -> set<int>, k: nat)
    requires Done(r0, r, others, k) && k == Reads(r0, others) < AllReads(r0.st) && Enabled(r.L, r.st, Halt)
    ensures Failed(r0, Take(r, Halt), others)
  {
    if Recovering(r0.st) { RecoveryReads(r0, others); }
  }

  // ---- When a commit panics -----------------------------------------------

  lemma WaitingSize(L: Layout, lh: seq<int>, k: nat)
    requires Listed(L, lh) && !L.IsHome(ReadBlock(L, |lh|, k))
    ensures |Members(WaitingAt(lh, k))| == |WaitingAt(lh, k)|
    ensures ReadBlock(L, |lh|, k) !in Members(WaitingAt(lh, k))
  {
    var w := WaitingAt(lh, k);
    DistinctMembers(w);
    assert forall b :: b in w ==> b in lh && L.IsHome(b);
  }

  // Nobody but the log reads the log area, so a read fails exactly when the pinned blocks and
  // the blocks held by others fill the buffer cache.
  lemma RoomExactly(L: Layout, lh: seq<int>, others: nat -> set<int>, k: nat)
    requires Listed(L, lh) && !L.IsHome(ReadBlock(L, |lh|, k)) && Apart(L, others)
    ensures HasRoom(L, lh, others, k) <==> |Members(WaitingAt(lh, k)) + others(k)| < NBUF
  {
    WaitingSize(L, lh, k);
  }

  lemma FitsAt(L: Layout, lh: seq<int>, others: nat -> set<int>, k: nat)
    requires EntriesOk(L, lh) && |lh| + |others(k)| < NBUF
    ensures HasRoom(L, lh, others, k)
  {
    WaitingSize(L, lh, k);
    var w := Members(WaitingAt(lh, k));
    assert |w + others(k)| == |w| + |others(k)| - |w * others(k)|;
  }

  // A commit goes through when its blocks and those that others hold at any time are fewer than
  // the buffers.
  lemma SmallCommitFits(r0: Run, others: nat -> set<int>)
    requires Up(r0.st) && forall k :: |r0.st.lh| + |others(k)| < NBUF
    ensures Reads(r0, others) == AllReads(r0.st)
  {
    var k := Reads(r0, others);
    RunInv(r0);
    if k < AllReads(r0.st) {
      ReadsExactly(r0, others, k);
      assert |r0.st.lh| + |others(k)| < NBUF;
      FitsAt(r0.L, r0.st.lh, others, k);
    }
  }

  // lh.block has room for a new block whatever the other operations have appended.
  lemma AppendFits(r: Run, i: nat, b: int, data: Block)
    requires Enabled(r.L, r.st, Write(i, b, data))
    ensures b !in r.st.lh ==> |r.st.lh| < LOGSIZE
    ensures r.L.size >= LOGSIZE ==> Contains(r.L, r.st, Write(i, b, data))
  {
    RunInv(r);
    SteadyWrite(r.L, r.st, i, b, data);
    if r.L.size >= LOGSIZE { LargeLogContains(r.L, r.st, Write(i, b, data)); }
  }

  // NBUF == LOGSIZE, so with a log area of LOGSIZE blocks or more, mkfs's among them, operations
  // that keep to their budgets can fill the log and with it the buffer cache; then the first read
  // of write_log panics, even if no other thread holds a buffer.
  lemma FullCommitPanics(L: Layout, s0: State) returns (r: Run)
    requires Start(L, s0) && OnDisk(L, s0.disk) == [] && LOGSIZE <= L.size <= L.blocks - L.size
    ensures r.L == L && r.boot == s0 && Thrifty(L, s0, r.trace) && r.st.phase == WritingLog(0)
    ensures forall others: nat -> set<int> :: Apart(L, others) ==> Reads(r, others) == 0
  {
    var es, s := FullCache(L, s0);
    LargeLogIsTame(L, s0, es);
    r := RunData(L, s0, es, s);
    RunInv(r);
    WaitingSize(L, s.lh, 0);
    forall others: nat -> set<int> | Apart(L, others) ensures Reads(r, others) == 0 {
      RoomExactly(L, s.lh, others, 0);
      SubsetSize(Members(s.lh), Members(s.lh) + others(0));
      ReadsExactly(r, others, 0);
    }
  }

  class Log {
    const L: Layout
    var disk: Disk
    var cache: Contents           // the dirty buffers of the buffer cache
    var outstanding: int
    var committing: bool
    var n: int                    // lh.n
    var block: array<int>         // lh.block

    ghost var run: Run            // the machine run that this object has made

    // The memory agrees with the machine.
    ghost predicate Valid()
      reads this, block
    {
      && Valid0() && block[..n] == run.st.lh
      && outstanding == |run.st.ops| && committing == run.st.committing
    }

    ghost predicate Valid0()
      reads this
    {
      && run.L == L && disk == run.st.disk && cache == run.st.cache
      && block.Length == LOGSIZE && 0 <= n <= LOGSIZE
    }

    constructor (L: Layout, disk: Disk)
      requires DiskOk(L, disk)
      ensures Valid() && fresh(block) && this.L == L && this.disk == disk && run == PowerOn(L, disk)
    {
      this.L, this.disk, cache := L, disk, map[];
      outstanding, committing, n := 0, false, 0;
      block := new int[LOGSIZE];
      run := PowerOn(L, disk);
    }

    // One synchronous disk write, which also cleans the buffer: the k-th of the commit or recovery
    // that started in r0.
    method BWrite(b: int, data: Block, ghost others: nat -> set<int>, ghost k: nat, ghost r0: Run)
      requires Valid0() && Ready(r0, run, others, k) && Puts(L, run.st, b, data)
      modifies this`disk, this`cache, this`run
      ensures Valid0() && Done(r0, run, others, k + 1) && run.st == IoStep(L, old(run).st)
    {
      ghost var r := run;
      TakeIo(r, b, data);
      DoneNext(r0, r, others, k);
      run := Take(r, Io);
      disk, cache := disk[b := data], cache - {b};
    }

    // bread while other threads hold the buffers of `others`.  Not ok is bget's panic.
    method BRead(b: int, others: set<int>) returns (ok: bool, data: Block)
      requires Valid0() && 0 <= b < |disk| && Enabled(L, run.st, Halt)
      modifies this`run
      ensures ok <==> BufferCache.Room(cache.Keys + others, b)
      ensures ok ==> run == old(run) && data == View(disk, cache, b)
      ensures !ok ==> run == Take(old(run), Halt)
    {
      data := View(disk, cache, b);
      ok := b in cache || b in others || |cache.Keys + others| < NBUF;
      if !ok {
        run := Take(run, Halt);
      }
    }

    // The k-th read of the commit or recovery that started in r0, of a block of the log area.
    method ReadLog(b: int, others: nat -> set<int>, k: nat, ghost r0: Run) returns (ok: bool, data: Block)
      requires Valid0() && Writing(run.st) && b == LogBlock(L, run.st) && Follows(r0, run, others, k)
      modifies this`run
      ensures ok <==> k < Reads(r0, others)
      ensures ok ==> run == old(run) && Ready(r0, run, others, k) && Seen(run.st, b, data)
      ensures !ok ==> k == Reads(r0, others) && Failed(r0, run, others)
    {
      RunInv(run);
      InLogArea(L, run.st);
      LogRead(run, others);
      ReadsExactly(r0, others, k);
      ok, data := BRead(b, others(k));
      if ok { ReadWrites(run, others(k)); } else { HaltFails(r0, old(run), others, k); }
    }

    // The read of a home while the buffer of log block b is held as well.
    method ReadHome(tail: nat, held: set<int>, b: int) returns (data: Block)
      requires Valid0() && tail < n && block[..n] == run.st.lh
      requires run.st.phase == WritingLog(tail) || run.st.phase == Installing(tail)
        || (run.st.phase == RecInstalling(tail) && held == {})
      modifies this`run
      ensures run == old(run) && Seen(run.st, run.st.lh[tail], data)
    {
      RunInv(run);
      HomeRead(run, held, b, tail);
      assert block[tail] == run.st.lh[tail];
      var ok;
      ok, data := BRead(block[tail], held + {b});
      assert ok;
    }

    // The k-th read, of a block of the log area, and that of a home.
    method ReadBoth(b: int, tail: nat, others: nat -> set<int>, k: nat, ghost r0: Run)
      returns (ok: bool, log: Block, home: Block)
      requires Valid0() && tail < n && block[..n] == run.st.lh && b == L.start + tail + 1
      requires Follows(r0, run, others, k)
      requires run.st.phase == WritingLog(tail) || run.st.phase == Installing(tail) || run.st.phase == RecInstalling(tail)
      modifies this`run
      ensures ok ==> run == old(run) && Ready(r0, run, others, k) && Sources(run.st, b, tail, log, home)
      ensures !ok ==> k == Reads(r0, others) && Failed(r0, run, others)
    {
      ghost var r := run;
      ok, log := ReadLog(b, others, k, r0);
      home := log;
      if ok {
        home := ReadHome(tail, others(k), b);
        assert Sources(r.st, b, tail, log, home);
      }
    }

    // One turn of write_log, in the commit that started in r0.
    method CopyBlock(tail: nat, others: nat -> set<int>, ghost r0: Run) returns (ok: bool)
      requires Valid0() && run.st.phase == WritingLog(tail) && tail < n && block[..n] == run.st.lh
      requires Follows(r0, run, others, tail)
      modifies this`disk, this`cache, this`run
      ensures ok ==> Valid0() && Done(r0, run, others, tail + 1)
      ensures ok ==> run.st == old(run).st.(disk := disk, phase := AfterWritingLog(old(run).st.lh, tail + 1))
      ensures !ok ==> tail == Reads(r0, others) && Failed(r0, run, others)
    {
      var to, from;
      var b := L.start + tail + 1;
      ok, to, from := ReadBoth(b, tail, others, tail, r0);
      if !ok { return; }
      CopyIo(run, tail, b, to, from);
      BWrite(b, from, others, tail, r0);
    }

    // Copies the blocks of the transaction from the cache to the log.
    method WriteLog(others: nat -> set<int>) returns (ok: bool)
      requires Valid0() && n > 0 && block[..n] == run.st.lh && run.st.phase == WritingLog(0)
      requires Apart(L, others)
      modifies this`disk, this`cache, this`run
      ensures ok ==> Valid0() && run.st == old(run).st.(disk := disk, phase := WritingHead)
      ensures ok ==> Done(old(run), run, others, n)
      ensures !ok ==> Failed(old(run), run, others)
    {
      ghost var r0 := run;
      var tail := 0;
      while tail < n
        invariant 0 <= tail <= n && Valid0() && r0.st.lh == block[..n]
        invariant run.st == r0.st.(disk := disk, phase := AfterWritingLog(r0.st.lh, tail))
        invariant Done(r0, run, others, tail)
      {
        ok := CopyBlock(tail, others, r0);
        if !ok { return; }
        tail := tail + 1;
      }
      ok := true;
    }

    // The header block with the in-memory header in it.
    method Header(buf: Block) returns (hb: Block)
      requires 0 <= n <= LOGSIZE == block.Length
      ensures hb == PutHeader(buf, block[..n])
    {
      hb := buf[0 := n];
      var i := 0;
      while i < n
        invariant 0 <= i <= n
        invariant hb == [n] + block[..i] + buf[1 + i..]
      {
        hb := hb[1 + i := block[i]];
        i := i + 1;
      }
      assert hb == PutHeader(buf, block[..n]);
    }

    // Writes the in-memory header to disk: the commit point, or, with n == 0,
    // the end of a transaction or of recovery.
    method WriteHead(others: nat -> set<int>, k: nat, ghost r0: Run) returns (ok: bool)
      requires Valid0() && Follows(r0, run, others, k)
      requires if run.st.phase.WritingHead? then block[..n] == run.st.lh
               else n == 0 && (run.st.phase.Clearing? || run.st.phase.RecClearing?)
      modifies this`disk, this`cache, this`run
      ensures ok ==> Valid0() && Done(r0, run, others, k + 1) && block[..n] == run.st.lh
      ensures ok ==> run.st == HeadNext(old(run).st, disk)
      ensures !ok ==> k == Reads(r0, others) && Failed(r0, run, others)
    {
      var buf;
      ok, buf := ReadLog(L.start, others, k, r0);
      if !ok { return; }
      var hb := Header(buf);
      RunInv(run);
      HeadIo(run, L.start, hb);
      BWrite(L.start, hb, others, k, r0);
    }

    // One turn of install_trans.
    method InstallOne(tail: nat, others: nat -> set<int>, k: nat, ghost r0: Run, ghost s: State) returns (ok: bool)
      requires Valid0() && tail < n && block[..n] == s.lh == r0.st.lh && Done(r0, run, others, k)
      requires run.st == InstallAt(r0.st, s, disk, cache, tail) && k == n + 1 + tail && Fair(r0, others)
      modifies this`disk, this`cache, this`run
      ensures ok ==> Valid0() && Done(r0, run, others, k + 1)
      ensures ok ==> run.st == InstallAt(r0.st, s, disk, cache, tail + 1)
      ensures !ok ==> k == Reads(r0, others) && Failed(r0, run, others)
    {
      var lbuf, dbuf;
      var from := L.start + tail + 1;
      ok, lbuf, dbuf := ReadBoth(from, tail, others, k, r0);
      if !ok { return; }
      var b := block[tail];
      InstallIo(run, tail, from, b, lbuf, dbuf);
      BWrite(b, lbuf, others, k, r0);
    }

    // Copies committed blocks from the log to their homes, in commit and in recovery.
    method InstallTrans(others: nat -> set<int>, ghost r0: Run) returns (ok: bool)
      requires Valid0() && run.st.phase == InstallPhase(r0.st, 0)
      requires block[..n] == run.st.lh == r0.st.lh && Done(r0, run, others, n + 1)
      requires Fair(r0, others) && (Recovering(r0.st) || n > 0)
      modifies this`disk, this`cache, this`run
      ensures ok ==> run.st == InstallAt(r0.st, old(run).st, disk, cache, n)
      ensures ok ==> Done(r0, run, others, 2 * n + 1) && Valid0()
      ensures !ok ==> Failed(r0, run, others)
    {
      ghost var s := run.st;
      var tail := 0;
      var k := n + 1;
      while tail < n
        invariant 0 <= tail <= n && Valid0() && k == n + 1 + tail
        invariant run.st == InstallAt(r0.st, s, disk, cache, tail) && Done(r0, run, others, k)
      {
        ok := InstallOne(tail, others, k, r0, s);
        if !ok { return; }
        tail, k := tail + 1, k + 1;
      }
      ok := true;
    }

    // The end of recovery, and of the commit of a transaction that has blocks: after its commit
    // point ...
    method Install(others: nat -> set<int>, ghost r0: Run) returns (ok: bool)
      requires Valid0() && run.st.phase == InstallPhase(r0.st, 0)
      requires block[..n] == run.st.lh == r0.st.lh && Done(r0, run, others, n + 1)
      requires Fair(r0, others) && (Recovering(r0.st) || n > 0)
      modifies this`disk, this`cache, this`run, this`n
      ensures ok ==> Valid0() && n == 0 && Done(r0, run, others, 2 * old(n) + 2)
      ensures ok ==> run.st == Installed(r0.st, old(run).st, disk, cache)
      ensures !ok ==> Failed(r0, run, others)
    {
      ghost var s := run.st;
      var k := 2 * n + 1;
      ok := InstallTrans(others, r0);
      if ok {
        n := 0;
        InstalledIs(L, r0.st, s, run.st, disk, cache);
        ok := WriteHead(others, k, r0);
      }
    }

    // ... and before it, ...
    method WriteAll(others: nat -> set<int>) returns (ok: bool)
      requires Valid0() && n > 0 && block[..n] == run.st.lh && run.st.phase == WritingLog(0)
      requires Apart(L, others)
      modifies this`disk, this`cache, this`run
      ensures ok ==> Valid0() && Done(old(run), run, others, n + 1) && block[..n] == run.st.lh == old(run).st.lh
      ensures ok ==> run.st.phase == InstallPhase(old(run).st, 0)
      ensures ok ==> forall d: Disk, c: Contents ::
        Installed(old(run).st, run.st, d, c) == CommittedState(old(run).st, d, c)
      ensures !ok ==> Failed(old(run), run, others)
    {
      ghost var r0 := run;
      ok := WriteLog(others);
      if ok {
        ghost var copied := run.st;
        ok := WriteHead(others, n, r0);
        if ok { CommittedIs(r0.st, copied, run.st); }
      }
    }

    // ... and all of it.  Not ok is the panic.
    method CommitBlocks(others: nat -> set<int>) returns (ok: bool)
      requires Valid0() && n > 0 && block[..n] == run.st.lh && run.st.phase == WritingLog(0)
      requires Apart(L, others)
      modifies this`disk, this`cache, this`run, this`n
      ensures ok ==> Valid0() && n == 0 && Done(old(run), run, others, 2 * old(n) + 2)
      ensures ok ==> run.st == CommittedState(old(run).st, disk, cache)
      ensures !ok ==> Failed(old(run), run, others)
    {
      ghost var r0 := run;
      ok := WriteAll(others);
      if ok { ok := Install(others, r0); }
    }

    method Commit(others: nat -> set<int>) returns (ok: bool)
      requires Valid() && run.st.phase == if n == 0 then Committed else WritingLog(0)
      requires Apart(L, others)
      modifies this`disk, this`cache, this`run, this`n
      ensures ok <==> Reads(old(run), others) == CommitWrites(old(n))
      ensures ok ==> Valid() && run.st.phase == Committed && n == 0
      ensures ok ==> run.trace == old(run).trace + Writes(CommitWrites(old(n)))
      // The contents the operations left in the caches are now on disk.
      ensures ok ==> Abs(run) == Spec(old(Abs(run)).volatile, old(Abs(run)).volatile)
      ensures !ok ==> Failed(old(run), run, others)
    {
      if n > 0 {
        ok := CommitBlocks(others);
      } else {
        ok := true;
        RunInv(run);
        EmptyLogIsDurable(L, run.st);
      }
    }

    // Reads the log header from disk into memory.
    method ReadHead()
      requires Valid() && run.st.phase.Down?
      modifies this`n, this`run, block
      ensures Valid() && run == Take(old(run), Boot)
    {
      RunInv(run);
      var lh := View(disk, cache, L.start);
      n := HeaderCount(lh);
      run := Take(run, Boot);
      var i := 0;
      while i < n
        invariant 0 <= i <= n && Valid0() && n == HeaderCount(lh)
        invariant block[..i] == lh[1..1 + i]
        modifies block
      {
        block[i] := lh[1 + i];
        i := i + 1;
      }
    }

    // After recovery the homes hold what the disk stood for before it, and the log is empty.
    method RecoverFromLog()
      requires Valid() && run.st.phase.Down?
      modifies this`disk, this`cache, this`run, this`n, block
      ensures Valid() && run.st.phase.Running? && n == 0 && DiskOk(L, disk) && OnDisk(L, disk) == []
      ensures DiskOk(L, old(disk)) && run.trace == old(run).trace + [Boot] + Writes(|OnDisk(L, old(disk))| + 1)
      ensures Abs(run) == Abs(old(run)) && run.st.done == old(run).st.done
      ensures HoldsHomes(L, disk, Abs(old(run)).durable)
    {
      ReadHead();
      ghost var r0 := run;
      var others := (_: nat) => {};
      RecoveryReads(r0, others);
      var ok := Install(others, r0);
      assert ok;
      Recovered(old(run), r0, run, others);
    }

    // One turn of begin_op's loop; the caller sleeps and tries again when it fails.
    method BeginOp() returns (started: bool)
      requires Valid() && Up(run.st)
      modifies this`outstanding, this`run
      ensures Valid()
      ensures started <==> !committing && n + (old(outstanding) + 1) * MAXOPBLOCKS <= LOGSIZE
      ensures run == if started then Take(old(run), Begin) else old(run)
    {
      if committing {
        started := false;
      } else if n + (outstanding + 1) * MAXOPBLOCKS > LOGSIZE {
        started := false;
      } else {
        run := Take(run, Begin);
        outstanding := outstanding + 1;
        started := true;
      }
    }

    // The operation at index i of the outstanding ones ends.
    method EndOp(ghost i: nat, others: nat -> set<int>) returns (ok: bool)
      requires Valid() && Up(run.st) && i < |run.st.ops| && !run.st.ops[i].passed
      requires Apart(L, others)
      modifies this`disk, this`cache, this`outstanding, this`committing, this`n, this`run
      ensures ok <==> old(outstanding) > 1 || Reads(Take(old(run), End(i)), others) == CommitWrites(old(n))
      ensures ok ==> Valid() && !committing && outstanding == old(outstanding) - 1
      ensures ok && outstanding > 0 ==> run == Take(old(run), End(i)) && Abs(run) == old(Abs(run))
      ensures ok && outstanding == 0 ==> Abs(run) == Spec(old(Abs(run)).volatile, old(Abs(run)).volatile)
      ensures ok && outstanding == 0 ==>
        run.trace == old(run).trace + [End(i)] + Writes(CommitWrites(old(n))) + [Finish]
      ensures !ok ==> Failed(Take(old(run), End(i)), run, others)
    {
      assert !committing by {
        RunInv(run);
        assert run.st.ops[i] in run.st.ops;
      }
      ghost var start := run;
      ok := true;
      var doCommit := false;
      run := Take(run, End(i));
      assert Abs(run) == Abs(start);
      outstanding := outstanding - 1;
      assert !committing;    // the panic
      if outstanding == 0 {
        doCommit := true;
        committing := true;
      }
      if doCommit {
        ok := Commit(others);
        if !ok { return; }
        committing := false;
        run := Take(run, Finish);
      }
    }

    // log_write before it takes the lock.  False is the panic.
    method LogTest(ghost i: nat) returns (ok: bool)
      requires Valid() && Enabled(L, run.st, Test(i))
      modifies this`run
      ensures run == Take(old(run), Test(i))
      ensures ok <==> n < L.Capacity()
      ensures ok ==> Valid()
    {
      var size := L.size;
      run := Take(run, Test(i));
      ok := !(n >= LOGSIZE || n >= size - 1);
    }

    // ... and after: records that block b, now holding data in the cache, belongs to the
    // transaction.  By now the log may have grown past what the test allowed.
    method LogAppend(ghost i: nat, b: int, data: Block)
      requires Valid() && Enabled(L, run.st, Write(i, b, data))
      modifies this`cache, this`n, this`run, block
      ensures 0 <= n <= LOGSIZE == block.Length && block[..n] == Append(old(block[..n]), b) && cache == old(cache)[b := data]
      ensures Valid() <==> Contains(L, old(run).st, Write(i, b, data))
      ensures Valid() ==> run == Take(old(run), Write(i, b, data))
      ensures L.size >= LOGSIZE ==> Valid()
    {
      ghost var s := run.st;
      AppendFits(run, i, b, data);
      Absorb(b);
      cache := cache[b := data];
      if Contains(L, s, Write(i, b, data)) {
        TakeWrite(run, i, b, data);
        run := Take(run, Write(i, b, data));
      } else {
        assert |block[..n]| != |run.st.lh|;
      }
    }

    // Its loop: the block's place in the log, or a new one.
    method Absorb(b: int)
      requires 0 <= n <= LOGSIZE == block.Length && (b !in block[..n] ==> n < LOGSIZE)
      modifies this`n, block
      ensures 0 <= n <= LOGSIZE && block[..n] == Append(old(block[..n]), b)
    {
      var j := 0;
      while j < n
        invariant 0 <= j <= n && b !in block[..j]
      {
        if block[j] == b { break; }
        j := j + 1;
      }
      block[j] := b;
      if j == n {
        n := n + 1;
      }
    }
  }
}
