// The buffer cache of bio.c: a fixed set of buffers on a circular doubly linked
// list, most recently released first, in front of the disk.
module BufferCache {
  import opened Arith
  import opened Params
  import opened Sets

  const HEAD := NBUF            // bcache.head, the list's sentinel

  type Block = seq<int>

  // struct buf, without its links and its sleep-lock
  datatype Buf = Buf(dev: int, blockno: int, valid: bool, dirty: bool, refcnt: int, data: Block)

  // ---- The list -----------------------------------------------------------

  ghost predicate LinkAt(next: seq<int>, prev: seq<int>, ring: seq<int>, k: int)
    requires 0 <= k < |ring|
  {
    && 0 <= ring[k] < |next| && 0 <= ring[Succ(|ring|, k)] < |prev|
    && next[ring[k]] == ring[Succ(|ring|, k)] && prev[ring[Succ(|ring|, k)]] == ring[k]
  }

  ghost predicate Distinct(ring: seq<int>) {
    forall i, j :: 0 <= i < j < |ring| ==> ring[i] != ring[j]
  }

  // The links go round the ring, from the sentinel back to it.
  ghost predicate Linked(next: seq<int>, prev: seq<int>, ring: seq<int>) {
    && |next| == |prev| == NBUF + 1 && 0 < |ring| && ring[0] == HEAD && Distinct(ring)
    && forall k :: 0 <= k < |ring| ==> LinkAt(next, prev, ring, k)
  }

  function PushFront(s: seq<int>, b: int): seq<int>
    requires 0 < |s|
  {
    [s[0], b] + s[1..]
  }

  // Removing one place of a ring removes one buffer.
  lemma MoveMembers(s: seq<int>, j: int)
    requires 0 <= j < |s| && Distinct(s)
    ensures forall i :: i in RemoveAt(s, j) <==> i in s && i != s[j]
  {
    assert s == s[..j] + [s[j]] + s[j + 1..];
  }

  lemma PushMembers(s: seq<int>, b: int)
    requires 0 < |s|
    ensures forall i :: i in PushFront(s, b) <==> i in s || i == b
  {
    assert s == [s[0]] + s[1..];
  }

  // Taking b out sets two pointers: the one back from b's successor and the one on from b's
  // predecessor, each to the other of these two.
  lemma UnlinkRing(next: seq<int>, prev: seq<int>, ring: seq<int>, j: int)
    requires Linked(next, prev, ring) && 1 <= j < |ring|
    ensures var b := ring[j];
      && 0 <= b < |next| && 0 <= next[b] < |next| && 0 <= prev[b] < |next|
      && Linked(next[prev[b] := next[b]], prev[next[b] := prev[b]], RemoveAt(ring, j))
  {
    var b, r := ring[j], RemoveAt(ring, j);
    assert LinkAt(next, prev, ring, j) && LinkAt(next, prev, ring, j - 1);
    assert LinkAt(next, prev, ring, Succ(|ring|, j));
    var next', prev' := next[prev[b] := next[b]], prev[next[b] := prev[b]];
    forall k | 0 <= k < |r| ensures LinkAt(next', prev', r, k) {
      assert LinkAt(next, prev, ring, if k < j then k else k + 1);
      assert r[k] == ring[if k < j then k else k + 1];
    }
  }

  // Putting b in front sets four pointers: b's own two, to the old first buffer and to the
  // sentinel, and then the ones of those two that lead to each other, both to b.
  lemma PushRing(next: seq<int>, prev: seq<int>, ring: seq<int>, b: int)
    requires Linked(next, prev, ring) && 0 <= b < NBUF && b !in ring
    ensures 0 <= next[HEAD] < |next|
    ensures Linked(next[b := next[HEAD]][HEAD := b], prev[b := HEAD][next[HEAD] := b], PushFront(ring, b))
  {
    assert LinkAt(next, prev, ring, 0);
    var r := PushFront(ring, b);
    var next', prev' := next[b := next[HEAD]][HEAD := b], prev[b := HEAD][next[HEAD] := b];
    forall k | 0 <= k < |r| ensures LinkAt(next', prev', r, k) {
      if k >= 2 {
        assert r[k] == ring[k - 1];
        assert LinkAt(next, prev, ring, k - 1);
      }
    }
  }

  // `when` says when each buffer lost its last user, for the last time, and the ring is sorted by it.
  ghost predicate RecentFirst(ring: seq<int>, when: seq<nat>, clock: nat) {
    && |when| == NBUF && (forall i :: 0 <= i < NBUF ==> when[i] <= clock)
    && (forall k :: 1 <= k < |ring| ==> 0 <= ring[k] < NBUF)
    && (forall j, k :: 1 <= j < k < |ring| ==> when[ring[k]] <= when[ring[j]])
  }

  lemma RemoveRecent(ring: seq<int>, when: seq<nat>, clock: nat, j: int)
    requires RecentFirst(ring, when, clock) && 1 <= j < |ring|
    ensures RecentFirst(RemoveAt(ring, j), when, clock)
  {
    var r := RemoveAt(ring, j);
    assert forall k :: 1 <= k < |r| ==> r[k] == ring[if k < j then k else k + 1];
  }

  // A buffer given back now belongs in front.
  lemma PushRecent(ring: seq<int>, when: seq<nat>, clock: nat, b: int, now: nat)
    requires RecentFirst(ring, when, clock) && 0 < |ring| && 0 <= b < NBUF && b !in ring && clock <= now
    ensures RecentFirst(PushFront(ring, b), when[b := now], now)
  {
    var r := PushFront(ring, b);
    assert forall k :: 2 <= k < |r| ==> r[k] == ring[k - 1];
  }

  // ---- What the buffers mean ----------------------------------------------

  predicate Names(b: Buf, dev: int, blockno: int) {
    b.dev == dev && b.blockno == blockno
  }

  // Buffer i holds block b of disk 1.
  predicate Holds(bufs: seq<Buf>, i: int, b: int) {
    0 <= i < |bufs| && Names(bufs[i], 1, b) && bufs[i].valid
  }

  ghost predicate Unique(bufs: seq<Buf>) {
    forall i, j :: 0 <= i < j < |bufs| && bufs[i].dev != 0 ==> !Names(bufs[j], bufs[i].dev, bufs[i].blockno)
  }

  // A buffer that nobody uses and that is not dirty is a copy of its block.
  ghost predicate BufOk(b: Buf, disk: seq<Block>) {
    && 0 <= b.refcnt && (b.dirty ==> b.valid)
    && (b.valid ==> b.dev == 1 && 0 <= b.blockno < |disk|)
    && (b.valid && !b.dirty && b.refcnt == 0 ==> b.data == disk[b.blockno])
  }

  ghost predicate BufsOk(bufs: seq<Buf>, disk: seq<Block>) {
    |bufs| == NBUF && Unique(bufs) && forall i :: 0 <= i < NBUF ==> BufOk(bufs[i], disk)
  }

  // A buffer among the first n that holds block b, or -1.
  function Holder(bufs: seq<Buf>, b: int, n: nat): (i: int)
    requires n <= |bufs|
    ensures i == -1 ==> forall j :: 0 <= j < n ==> !Holds(bufs, j, b)
    ensures i != -1 ==> 0 <= i < n && Holds(bufs, i, b)
  {
    if n == 0 then -1
    else if Holds(bufs, n - 1, b) then n - 1
    else Holder(bufs, b, n - 1)
  }

  // The block map that the cache stands for: a buffer's data where there is a
  // valid buffer, the disk elsewhere.
  function View(bufs: seq<Buf>, disk: seq<Block>, b: int): Block
    requires 0 <= b < |disk|
  {
    var i := Holder(bufs, b, |bufs|);
    if i == -1 then disk[b] else bufs[i].data
  }

  lemma ViewIs(bufs: seq<Buf>, disk: seq<Block>, i: int, b: int)
    requires Unique(bufs) && 0 <= b < |disk| && Holds(bufs, i, b)
    ensures View(bufs, disk, b) == bufs[i].data
  {
    var j := Holder(bufs, b, |bufs|);
    assert Names(bufs[i], 1, b) && Names(bufs[j], 1, b);
  }

  // A buffer that may be recycled.
  predicate Eligible(b: Buf) {
    b.refcnt == 0 && !b.dirty
  }

  // What bget needs while the blocks of `busy` are in use or dirty: a buffer that has block b
  // already, or one to recycle.
  predicate Room(busy: set<int>, b: int) {
    b in busy || |busy| < NBUF
  }

  // The blocks whose buffers may not be recycled.
  function Busy(bufs: seq<Buf>): (r: set<int>)
    ensures |r| <= |bufs|
  {
    if bufs == [] then {}
    else
      var n := |bufs| - 1;
      if Eligible(bufs[n]) then Busy(bufs[..n]) else Busy(bufs[..n]) + {bufs[n].blockno}
  }

  lemma {:induction false} BusyIs(bufs: seq<Buf>, b: int)
    ensures b in Busy(bufs) <==> exists j :: 0 <= j < |bufs| && !Eligible(bufs[j]) && bufs[j].blockno == b
  {
    if bufs != [] {
      var n := |bufs| - 1;
      BusyIs(bufs[..n], b);
      if j :| 0 <= j < |bufs| && !Eligible(bufs[j]) && bufs[j].blockno == b {
        assert j < n ==> bufs[..n][j] == bufs[j];
      }
    }
  }

  lemma {:induction false} AllBusy(bufs: seq<Buf>)
    requires Unique(bufs) && forall j :: 0 <= j < |bufs| ==> !Eligible(bufs[j]) && bufs[j].dev == 1
    ensures |Busy(bufs)| == |bufs|
  {
    if bufs != [] {
      var n := |bufs| - 1;
      var front := bufs[..n];
      AllBusy(front);
      BusyIs(front, bufs[n].blockno);
      forall j | 0 <= j < n ensures front[j].blockno != bufs[n].blockno {
        assert !Names(bufs[n], bufs[j].dev, bufs[j].blockno);
      }
    }
  }

  lemma {:induction false} OneEligible(bufs: seq<Buf>, i: nat)
    requires i < |bufs| && Eligible(bufs[i])
    ensures |Busy(bufs)| < |bufs|
  {
    var n := |bufs| - 1;
    if i < n {
      assert bufs[..n][i] == bufs[i];
      OneEligible(bufs[..n], i);
    }
  }

  // bget finds a buffer exactly when the busy blocks leave room.
  lemma RoomExactly(bufs: seq<Buf>, b: int)
    requires |bufs| == NBUF && Unique(bufs)
    requires forall j :: 0 <= j < NBUF && !Eligible(bufs[j]) ==> bufs[j].dev == 1
    ensures Room(Busy(bufs), b) <==> exists j :: 0 <= j < NBUF && (Names(bufs[j], 1, b) || Eligible(bufs[j]))
  {
    BusyIs(bufs, b);
    if i :| 0 <= i < NBUF && Eligible(bufs[i]) {
      OneEligible(bufs, i);
    } else {
      AllBusy(bufs);
    }
  }

  // Changing one buffer and at most the block it holds leaves every other block alone.
  lemma ViewElsewhere(bufs: seq<Buf>, disk: seq<Block>, i: int, x: Buf, disk': seq<Block>, b: int)
    requires BufsOk(bufs, disk) && 0 <= i < NBUF && 0 <= b < |disk| == |disk'| && disk'[b] == disk[b]
    requires Unique(bufs[i := x]) && !Holds(bufs, i, b) && !Holds(bufs[i := x], i, b)
    ensures View(bufs[i := x], disk', b) == View(bufs, disk, b)
  {
    var j := Holder(bufs, b, |bufs|);
    if j != -1 {
      assert Holds(bufs[i := x], j, b);
      ViewIs(bufs, disk, j, b);
      ViewIs(bufs[i := x], disk', j, b);
    } else {
      var bufs' := bufs[i := x];
      forall j ensures !Holds(bufs', j, b) {
        assert !Holds(bufs, j, b);
      }
    }
  }

  // Recycling an eligible buffer for another block changes no block.
  lemma RecycleKeeps(bufs: seq<Buf>, disk: seq<Block>, i: int, dev: int, blockno: int)
    requires BufsOk(bufs, disk) && 0 <= i < NBUF && Eligible(bufs[i])
    requires forall j :: 0 <= j < NBUF ==> !Names(bufs[j], dev, blockno)
    ensures var bufs' := bufs[i := Buf(dev, blockno, false, false, 1, bufs[i].data)];
      BufsOk(bufs', disk) && forall b :: 0 <= b < |disk| ==> View(bufs', disk, b) == View(bufs, disk, b)
  {
    var x := Buf(dev, blockno, false, false, 1, bufs[i].data);
    var bufs' := bufs[i := x];
    assert Unique(bufs');
    forall b | 0 <= b < |disk| ensures View(bufs', disk, b) == View(bufs, disk, b) {
      if Holds(bufs, i, b) {
        ViewIs(bufs, disk, i, b);
        forall j ensures !Holds(bufs', j, b) {
          assert j != i ==> !Holds(bufs, j, b);
        }
      } else {
        ViewElsewhere(bufs, disk, i, x, disk, b);
      }
    }
  }

  // Changing the data of the buffer that holds block b, or filling it from the
  // disk, changes block b only.
  lemma UpdateView(bufs: seq<Buf>, disk: seq<Block>, i: int, x: Buf, disk': seq<Block>)
    requires BufsOk(bufs, disk) && 0 <= i < NBUF && |disk'| == |disk| && 0 <= bufs[i].blockno < |disk| && bufs[i].dev == 1
    requires Names(x, 1, bufs[i].blockno) && x.valid && BufOk(x, disk')
    requires forall b :: 0 <= b < |disk| && b != bufs[i].blockno ==> disk'[b] == disk[b]
    ensures BufsOk(bufs[i := x], disk')
    ensures forall b :: 0 <= b < |disk| ==>
      View(bufs[i := x], disk', b) == if b == bufs[i].blockno then x.data else View(bufs, disk, b)
  {
    var bufs' := bufs[i := x];
    assert forall j :: 0 <= j < NBUF && j != i ==> !Names(bufs[j], 1, bufs[i].blockno);
    assert Unique(bufs');
    forall j | 0 <= j < NBUF ensures BufOk(bufs'[j], disk') {
      assert j != i ==> BufOk(bufs[j], disk);
    }
    forall b | 0 <= b < |disk|
      ensures View(bufs', disk', b) == if b == bufs[i].blockno then x.data else View(bufs, disk, b)
    {
      if b == bufs[i].blockno {
        assert Holds(bufs', i, b);
        ViewIs(bufs', disk', i, b);
      } else {
        ViewElsewhere(bufs, disk, i, x, disk', b);
      }
    }
  }

  // One user more or fewer.
  lemma RefKeeps(bufs: seq<Buf>, disk: seq<Block>, i: int, n: int)
    requires BufsOk(bufs, disk) && 0 <= i < NBUF && 0 <= n
    ensures BufsOk(bufs[i := bufs[i].(refcnt := n)], disk) <==>
      (bufs[i].valid && !bufs[i].dirty && n == 0 ==> bufs[i].data == disk[bufs[i].blockno])
    ensures forall b :: 0 <= b < |disk| ==> View(bufs[i := bufs[i].(refcnt := n)], disk, b) == View(bufs, disk, b)
  {
    var bufs' := bufs[i := bufs[i].(refcnt := n)];
    assert Unique(bufs');
    assert forall j :: 0 <= j < NBUF && j != i ==> bufs'[j] == bufs[j];
    assert BufsOk(bufs', disk) <==> BufOk(bufs'[i], disk);
    forall b | 0 <= b < |disk| ensures View(bufs', disk, b) == View(bufs, disk, b) {
      if Holds(bufs, i, b) {
        ViewIs(bufs, disk, i, b);
        assert Holds(bufs', i, b);
        ViewIs(bufs', disk, i, b);
      } else {
        ViewElsewhere(bufs, disk, i, bufs'[i], disk, b);
      }
    }
  }

  // A block whose buffer is not filled yet is still read from the disk.
  lemma NotHeld(bufs: seq<Buf>, disk: seq<Block>, i: int)
    requires BufsOk(bufs, disk) && 0 <= i < NBUF && !bufs[i].valid && bufs[i].dev == 1 && 0 <= bufs[i].blockno < |disk|
    ensures View(bufs, disk, bufs[i].blockno) == disk[bufs[i].blockno]
  {
    forall j | 0 <= j < NBUF ensures !Holds(bufs, j, bufs[i].blockno) {
      assert j != i ==> !Names(bufs[j], 1, bufs[i].blockno);
    }
  }

  // ---- The program --------------------------------------------------------

  class BCache {
    var buf: seq<Buf>
    var next: seq<int>
    var prev: seq<int>
    var disk: seq<Block>

    ghost var ring: seq<int>      // the sentinel and the buffers, from head.next on
    ghost var when: seq<nat>      // when each buffer was last given back by its last user
    ghost var clock: nat

    ghost predicate ListOk()
      reads this
    {
      Linked(next, prev, ring) && |ring| == NBUF + 1 && forall i :: 0 <= i < NBUF ==> i in ring
    }

    ghost predicate Valid()
      reads this
    {
      ListOk() && RecentFirst(ring, when, clock) && BufsOk(buf, disk)
    }

    // The contents of block b as the rest of the kernel sees them.
    ghost function Contents(b: int): Block
      requires 0 <= b < |disk|
      reads this
    {
      View(buf, disk, b)
    }

    // binit
    constructor (disk: seq<Block>)
      ensures Valid() && this.disk == disk && forall i :: 0 <= i < NBUF ==> buf[i].refcnt == 0 && !buf[i].valid
    {
      this.disk := disk;
      buf := seq(NBUF, i => Buf(0, 0, false, false, 0, []));
      next := seq(NBUF + 1, i => HEAD);
      prev := seq(NBUF + 1, i => HEAD);
      ring, when, clock := [HEAD], seq(NBUF, i => 0), 0;
      new;
      assert LinkAt(next, prev, ring, 0);
      var b := 0;
      while b < NBUF
        invariant 0 <= b <= NBUF && Linked(next, prev, ring) && |ring| == b + 1
        invariant forall i :: i in ring <==> i == HEAD || 0 <= i < b
        invariant RecentFirst(ring, when, clock) && clock == 0 && forall i :: 0 <= i < NBUF ==> when[i] == 0
        invariant this.disk == disk && buf == seq(NBUF, i => Buf(0, 0, false, false, 0, []))
      {
        PushRing(next, prev, ring, b);
        next := next[b := next[HEAD]];
        prev := prev[b := HEAD];
        prev := prev[next[HEAD] := b];
        next := next[HEAD := b];
        PushMembers(ring, b);
        PushRecent(ring, when, clock, b, 0);
        assert when[b := 0] == when;
        ring := PushFront(ring, b);
        b := b + 1;
      }
    }

    // The first loop of bget: the buffer named (dev, blockno), if there is one.
    method Lookup(dev: int, blockno: int) returns (b: int)
      requires Valid()
      ensures if b == HEAD then forall j :: 0 <= j < NBUF ==> !Names(buf[j], dev, blockno)
              else 0 <= b < NBUF && Names(buf[b], dev, blockno)
    {
      b := next[HEAD];
      ghost var k := 1;
      assert LinkAt(next, prev, ring, 0);
      while b != HEAD
        invariant 1 <= k <= |ring| && b == if k < |ring| then ring[k] else HEAD
        invariant forall j :: 1 <= j < k ==> 0 <= ring[j] < NBUF && !Names(buf[ring[j]], dev, blockno)
        decreases |ring| - k
      {
        assert LinkAt(next, prev, ring, k);
        if buf[b].dev == dev && buf[b].blockno == blockno { return; }
        b := next[b];
        k := k + 1;
      }
      forall j | 0 <= j < NBUF ensures !Names(buf[j], dev, blockno) {
        assert j in ring;
        var i :| 0 <= i < |ring| && ring[i] == j;
      }
    }

    // The second loop: the least recently released buffer that may be recycled.
    method Victim() returns (b: int, ghost k: int)
      requires Valid()
      ensures b == HEAD ==> forall j :: 0 <= j < NBUF ==> !Eligible(buf[j])
      ensures b != HEAD ==> 1 <= k < |ring| && ring[k] == b && 0 <= b < NBUF && Eligible(buf[b])
      ensures b != HEAD ==> forall j :: k < j < |ring| ==> 0 <= ring[j] < NBUF && !Eligible(buf[ring[j]])
      ensures b != HEAD ==> forall j :: 0 <= j < NBUF && Eligible(buf[j]) ==> when[b] <= when[j]
    {
      b := prev[HEAD];
      k := |ring| - 1;
      assert LinkAt(next, prev, ring, |ring| - 1);
      while b != HEAD
        invariant 0 <= k < |ring| && b == ring[k]
        invariant forall j :: k < j < |ring| ==> 0 <= ring[j] < NBUF && !Eligible(buf[ring[j]])
        decreases k
      {
        assert LinkAt(next, prev, ring, k) && LinkAt(next, prev, ring, k - 1);
        if buf[b].refcnt == 0 && !buf[b].dirty {
          forall j | 0 <= j < NBUF && Eligible(buf[j]) ensures when[b] <= when[j] {
            assert j in ring;
            var i :| 0 <= i < |ring| && ring[i] == j;
          }
          return;
        }
        b := prev[b];
        k := k - 1;
      }
      forall j | 0 <= j < NBUF ensures !Eligible(buf[j]) {
        assert j in ring;
        var i :| 0 <= i < |ring| && ring[i] == j;
      }
    }

    // A buffer for block blockno of device dev, with one more user.  Not ok is
    // the panic when every buffer is in use or dirty.
    method BGet(dev: int, blockno: int) returns (ok: bool, b: int, ghost k: int)
      requires Valid()
      modifies this`buf
      ensures Valid() && (forall c :: 0 <= c < |disk| ==> Contents(c) == old(Contents(c)))
      ensures ok <==> exists j :: 0 <= j < NBUF && (Names(old(buf)[j], dev, blockno) || Eligible(old(buf)[j]))
      ensures ok ==> 0 <= b < NBUF && Names(buf[b], dev, blockno) && buf == old(buf)[b := buf[b]]
      // A buffer with the block is kept as it is ...
      ensures ok && Names(old(buf)[b], dev, blockno) ==> buf[b] == old(buf)[b].(refcnt := old(buf)[b].refcnt + 1)
      // ... and otherwise the least recently released eligible one is taken.
      ensures ok && !Names(old(buf)[b], dev, blockno) ==>
        && (forall j :: 0 <= j < NBUF ==> !Names(old(buf)[j], dev, blockno))
        && buf[b] == Buf(dev, blockno, false, false, 1, old(buf)[b].data)
        && 1 <= k < |ring| && ring[k] == b && Eligible(old(buf)[b])
        && (forall j :: k < j < |ring| ==> 0 <= ring[j] < NBUF && !Eligible(old(buf)[ring[j]]))
        && (forall j :: 0 <= j < NBUF && Eligible(old(buf)[j]) ==> when[b] <= when[j])
      ensures !ok ==> buf == old(buf)
    {
      b := Lookup(dev, blockno);
      k := 0;
      if b != HEAD {
        RefKeeps(buf, disk, b, buf[b].refcnt + 1);
        buf := buf[b := buf[b].(refcnt := buf[b].refcnt + 1)];
        ok := true;
        return;
      }
      b, k := Victim();
      if b != HEAD {
        RecycleKeeps(buf, disk, b, dev, blockno);
        buf := buf[b := Buf(dev, blockno, false, false, 1, buf[b].data)];
        ok := true;
        return;
      }
      ok := false;
    }

    // iderw of memide.c: writes a dirty buffer, reads into an invalid one.  False
    // is one of its panics.
    method Iderw(b: int) returns (ok: bool)
      requires Valid() && 0 <= b < NBUF && buf[b].refcnt > 0
      modifies this`buf, this`disk
      ensures Valid() && |disk| == |old(disk)|
      ensures forall c :: 0 <= c < |disk| ==> Contents(c) == old(Contents(c))
      ensures ok <==> !(old(buf)[b].valid && !old(buf)[b].dirty) && buf[b].dev == 1 && 0 <= buf[b].blockno < |disk|
      ensures ok ==> buf == old(buf)[b := old(buf)[b].(valid := true, dirty := false, data := buf[b].data)]
      ensures ok ==> buf[b].data == Contents(buf[b].blockno) && disk == old(disk)[buf[b].blockno := buf[b].data]
      ensures !ok ==> buf == old(buf) && disk == old(disk)
    {
      var x := buf[b];
      if (x.valid && !x.dirty) || x.dev != 1 || x.blockno < 0 || x.blockno >= |disk| {
        ok := false;
        return;
      }
      if x.dirty {
        ViewIs(buf, disk, b, x.blockno);
        UpdateView(buf, disk, b, x.(dirty := false), disk[x.blockno := x.data]);
        disk := disk[x.blockno := x.data];
        buf := buf[b := x.(dirty := false)];
      } else {
        NotHeld(buf, disk, b);
        UpdateView(buf, disk, b, x.(valid := true, data := disk[x.blockno]), disk);
        buf := buf[b := x.(valid := true, data := disk[x.blockno])];
      }
      ok := true;
    }

    // A buffer with the current contents of block blockno.
    method BRead(blockno: int) returns (ok: bool, b: int)
      requires Valid() && 0 <= blockno < |disk|
      modifies this`buf, this`disk
      ensures Valid() && disk == old(disk) && (forall c :: 0 <= c < |disk| ==> Contents(c) == old(Contents(c)))
      ensures ok <==> exists j :: 0 <= j < NBUF && (Names(old(buf)[j], 1, blockno) || Eligible(old(buf)[j]))
      ensures ok ==> 0 <= b < NBUF && Holds(buf, b, blockno) && buf[b].refcnt > 0 && buf[b].data == old(Contents(blockno))
    {
      ghost var k;
      ok, b, k := BGet(1, blockno);
      if ok {
        if !buf[b].valid {
          var done := Iderw(b);
          assert done;
        } else {
          ViewIs(buf, disk, b, blockno);
        }
      }
    }

    // What the holder of a buffer does to its data, followed by log_write's flag:
    // the block is changed, and the buffer is pinned.
    method ModifyAndPin(b: int, data: Block)
      requires Valid() && 0 <= b < NBUF && buf[b].refcnt > 0 && buf[b].valid
      modifies this`buf
      ensures Valid() && buf == old(buf)[b := old(buf)[b].(data := data, dirty := true)]
      ensures forall c :: 0 <= c < |disk| ==>
        Contents(c) == if c == old(buf)[b].blockno then data else old(Contents(c))
    {
      var x := buf[b].(data := data, dirty := true);
      UpdateView(buf, disk, b, x, disk);
      ViewIs(buf[b := x], disk, b, x.blockno);
      buf := buf[b := x];
    }

    // Writes a buffer to the disk: contents are as before, and on disk.
    method BWrite(b: int)
      requires Valid() && 0 <= b < NBUF && buf[b].refcnt > 0 && buf[b].valid
      modifies this`buf, this`disk
      ensures Valid() && |disk| == |old(disk)| && (forall c :: 0 <= c < |disk| ==> Contents(c) == old(Contents(c)))
      ensures buf == old(buf)[b := old(buf)[b].(dirty := false)]
      ensures disk == old(disk)[old(buf)[b].blockno := old(buf)[b].data]
    {
      ViewIs(buf, disk, b, buf[b].blockno);
      UpdateView(buf, disk, b, buf[b].(dirty := true), disk);
      buf := buf[b := buf[b].(dirty := true)];
      var done := Iderw(b);
      assert done;
    }

    // The buffer leaves its place in the list for the front.
    method MoveToFront(b: int)
      requires ListOk() && RecentFirst(ring, when, clock) && 0 <= b < NBUF
      modifies this`next, this`prev, this`ring, this`when, this`clock
      ensures ListOk() && RecentFirst(ring, when, clock)
      ensures when == old(when)[b := clock] && clock == old(clock) + 1
      ensures exists j :: 1 <= j < |old(ring)| && old(ring)[j] == b && ring == PushFront(RemoveAt(old(ring), j), b)
    {
      assert b in ring;
      ghost var j :| 0 <= j < |ring| && ring[j] == b;
      UnlinkRing(next, prev, ring, j);
      RemoveRecent(ring, when, clock, j);
      prev := prev[next[b] := prev[b]];
      next := next[prev[b] := next[b]];
      MoveMembers(ring, j);
      ring := RemoveAt(ring, j);
      PushRing(next, prev, ring, b);
      PushMembers(ring, b);
      PushRecent(ring, when, clock, b, clock + 1);
      next := next[b := next[HEAD]];
      prev := prev[b := HEAD];
      prev := prev[next[HEAD] := b];
      next := next[HEAD := b];
      ring := PushFront(ring, b);
      clock := clock + 1;
      when := when[b := clock];
    }

    // Gives a buffer back; with its last user it becomes the most recent one.  The cache stays
    // sound exactly if that user has not changed it without logging or writing it.
    method BRelse(b: int)
      requires Valid() && 0 <= b < NBUF && buf[b].refcnt > 0
      modifies this`buf, this`next, this`prev, this`ring, this`when, this`clock
      ensures buf == old(buf)[b := old(buf)[b].(refcnt := old(buf)[b].refcnt - 1)]
      ensures Valid() <==> (Eligible(buf[b]) && buf[b].valid ==> buf[b].data == disk[buf[b].blockno])
      ensures ListOk() && RecentFirst(ring, when, clock)
      ensures forall c :: 0 <= c < |disk| ==> Contents(c) == old(Contents(c))
      ensures buf[b].refcnt > 0 ==> ring == old(ring) && when == old(when) && clock == old(clock)
      ensures buf[b].refcnt == 0 ==> when == old(when)[b := clock] && clock == old(clock) + 1
      ensures buf[b].refcnt == 0 ==>
        exists j :: 1 <= j < |old(ring)| && old(ring)[j] == b && ring == PushFront(RemoveAt(old(ring), j), b)
    {
      RefKeeps(buf, disk, b, buf[b].refcnt - 1);
      buf := buf[b := buf[b].(refcnt := buf[b].refcnt - 1)];
      if buf[b].refcnt == 0 {
        MoveToFront(b);
      }
    }
  }
}
