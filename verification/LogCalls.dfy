// The system calls' logged blocks as the budgets of the log: runs of the log machine in which each
// operation is one of the calls keep the reservations.
module LogCalls {
  import L = LogMachine
  import LogBudget
  import LogSafety
  import opened LogBound
  import opened LogOps
  import opened Params
  import opened Sets

  // What one operation does between begin_op and end_op: a chunk of filewrite; create, mkdir,
  // mknod or link; unlink; or only iput, as in close.
  datatype Call =
    | Chunk(g: Geometry, f: File, off: nat, n: nat)
    | Make(gi: Geometry, gd: Geometry, dp: File, dir: bool, off: nat)
    | Remove(gd: Geometry, gi: Geometry, dp: File, ip: File, off: nat, dir: bool, last: bool)
    | Drop(g: Geometry, f: File, last: bool)

  // What the callers see to.
  ghost predicate Proper(c: Call) {
    match c
    case Chunk(_, f, _, n) => f.Shaped() && f.NoHoles() && f.logged == {} && n <= CHUNK
    case Make(_, _, dp, _, off) => dp.Shaped() && off % DIRENT == 0
    case Remove(_, _, dp, ip, off, _, _) => EntryAt(dp, off) && ip.Shaped()
    case Drop(_, f, _) => f.Shaped() && f.logged == {}
  }

  ghost function Effect(c: Call): Outcome
    requires Proper(c)
  {
    match c
    case Chunk(g, f, off, n) => Write(g, f, off, n)
    case Make(gi, gd, dp, dir, off) => Create(gi, gd, dp, dir, off)
    case Remove(gd, gi, dp, ip, off, dir, last) => Unlink(gd, gi, dp, ip, off, dir, last)
    case Drop(g, f, last) => Put(g, f, last)
  }

  // The inode that a call frees has its blocks under at most seven bitmap blocks.
  ghost predicate Narrow(c: Call)
    requires Proper(c)
  {
    match c
    case Remove(_, gi, _, ip, _, _, last) => last ==> |BitmapBlocks(gi, Blocks(Cells(ip)))| <= 7
    case Drop(g, f, last) => last ==> |BitmapBlocks(g, Blocks(Cells(f)))| <= 7
    case _ => true
  }

  // The blocks that a call logs; one that is rejected logs none.
  ghost function LoggedBy(c: Call): set<int>
    requires Proper(c)
  {
    if Effect(c).Done? then Effect(c).file.logged else {}
  }

  lemma DropFits(g: Geometry, f: File, last: bool)
    requires f.Shaped() && f.logged == {} && Put(g, f, last).Done? && (last ==> |BitmapBlocks(g, Blocks(Cells(f)))| <= 7)
    ensures |Put(g, f, last).file.logged| <= MAXOPBLOCKS
  {
    if last {
      var bitmap := BitmapBlocks(g, Blocks(Cells(f)));
      AddOne(bitmap, g.inodeBlock);
      assert {} + (bitmap + {g.inodeBlock}) == bitmap + {g.inodeBlock};
    }
  }

  lemma RemoveFits(gd: Geometry, gi: Geometry, dp: File, ip: File, off: nat, dir: bool, last: bool)
    requires EntryAt(dp, off) && ip.Shaped() && Unlink(gd, gi, dp, ip, off, dir, last).Done?
    requires last ==> |BitmapBlocks(gi, Blocks(Cells(ip)))| <= 7
    ensures |Unlink(gd, gi, dp, ip, off, dir, last).file.logged| <= MAXOPBLOCKS
  {
    var few := Few(EntryBlock(dp, off), gd.inodeBlock, gi, dir);
    FewSize(EntryBlock(dp, off), gd.inodeBlock, gi, dir);
    UnlinkLogs(gd, gi, dp, ip, off, dir, last);
    UnionBound(few, if last then BitmapBlocks(gi, Blocks(Cells(ip))) else {});
  }

  // Each of them logs at most MAXOPBLOCKS blocks.
  lemma CallFits(c: Call)
    requires Proper(c) && Narrow(c)
    ensures |LoggedBy(c)| <= MAXOPBLOCKS
  {
    if Effect(c).Done? {
      match c {
        case Chunk(g, f, off, n) => ChunkFitsReservation(g, f, off, n);
        case Make(gi, gd, dp, dir, off) => CreateFits(gi, gd, dp, dir, off);
        case Remove(gd, gi, dp, ip, off, dir, last) => RemoveFits(gd, gi, dp, ip, off, dir, last);
        case Drop(g, f, last) => DropFits(g, f, last);
      }
    }
  }

  // On a disk of at most seven bitmap blocks, such as mkfs makes, every call is narrow.
  lemma SmallDiskIsNarrow(c: Call)
    requires Proper(c) && Effect(c).Done?
    requires match c { case Remove(_, _, dp, _, _, _, _) => |dp.used| <= 7 * BPB case Drop(_, f, _) => |f.used| <= 7 * BPB case _ => true }
    ensures Narrow(c)
  {
    match c {
      case Remove(gd, gi, dp, ip, off, dir, last) =>
        UnlinkLogs(gd, gi, dp, ip, off, dir, last);
        if last { NarrowBitmap(gi, ip.(used := dp.used)); }
      case Drop(g, f, last) => if last { NarrowBitmap(g, f); }
      case _ =>
    }
  }

  lemma NarrowBitmap(g: Geometry, f: File)
    requires f.Shaped() && InTable(Cells(f), f.used) && |f.used| <= 7 * BPB
    ensures |BitmapBlocks(g, Blocks(Cells(f)))| <= 7
  {
    BitmapWithin(g, f);
    SubsetSize(BitmapBlocks(g, Blocks(Cells(f))), Range(g.bmapstart, 7));
  }

  ghost predicate AllFit(calls: nat -> Call) {
    forall id :: Proper(calls(id)) && Narrow(calls(id))
  }

  ghost function Budgets(calls: nat -> Call): LogBudget.Budget
    requires AllFit(calls)
  {
    (id: nat) => if Proper(calls(id)) then LoggedBy(calls(id)) else {}
  }

  // Any interleaving of such calls, with commits and crashes at any point, keeps the reservations:
  // what begin_op lets in always has room.
  lemma CallsKeepReservations(l: L.Layout, s0: L.State, es: seq<L.Event>, calls: nat -> Call)
    requires AllFit(calls) && L.Start(l, s0) && L.Legal(l, s0, es)
    requires LogBudget.InBudget(l, s0, es, Budgets(calls))
    ensures var s := L.Exec(l, s0, es);
      && L.ReachedThriftily(l, s)
      && (L.Up(s) ==> |s.lh| + L.Reserved(s.ops) <= LOGSIZE)
  {
    forall id ensures |Budgets(calls)(id)| <= MAXOPBLOCKS {
      CallFits(calls(id));
    }
    LogBudget.BudgetsReserve(l, s0, es, Budgets(calls));
    LogSafety.ReservationSafety(l, L.Exec(l, s0, es));
  }
}
