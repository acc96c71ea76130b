// What the log is for: a property that every operation keeps holds of the disk after a crash at any
// point.  Operations that were outstanding together may have written the same blocks in turn, as
// long as some order of them agrees with the order of the writes to each block.
module LogRecovery {
  import B = BlockTree
  import opened LogMachine
  import opened LogSafety
  import opened Params

  // The writes of one operation, and their effect when the operations of a transaction run one
  // after the other.
  function PartOf(ws: seq<OpWrite>, id: nat): seq<OpWrite> {
    if ws == [] then []
    else PartOf(ws[..|ws| - 1], id) + if ws[|ws| - 1].op == id then [ws[|ws| - 1]] else []
  }

  function Serial(c: Contents, ws: seq<OpWrite>, order: seq<nat>): Contents {
    if order == [] then c
    else ApplyWrites(Serial(c, ws, order[..|order| - 1]), PartOf(ws, order[|order| - 1]))
  }

  predicate Before(order: seq<nat>, a: nat, b: nat) {
    exists k, l :: 0 <= k < l < |order| && order[k] == a && order[l] == b
  }

  // The operations in some order that agrees with the order of any two writes of one block.
  ghost predicate Agrees(ws: seq<OpWrite>, order: seq<nat>) {
    && (forall i, j :: 0 <= i < j < |order| ==> order[i] != order[j])
    && (forall w :: w in ws ==> w.op in order)
    && (forall i, j :: 0 <= i < j < |ws| && ws[i].block == ws[j].block ==> !Before(order, ws[j].op, ws[i].op))
  }

  // ---- A transaction is as good as its operations one by one --------------

  lemma {:induction false} PartWrites(ws: seq<OpWrite>, id: nat)
    ensures forall w :: w in PartOf(ws, id) ==> w in ws && w.op == id
  {
    if ws != [] { PartWrites(ws[..|ws| - 1], id); }
  }

  lemma PartNext(ws: seq<OpWrite>, w: OpWrite, id: nat)
    ensures PartOf(ws + [w], id) == if w.op == id then PartOf(ws, id) + [w] else PartOf(ws, id)
  {
    assert (ws + [w])[..|ws|] == ws;
  }

  // A write commutes with those of other blocks.
  lemma {:induction false} WriteCommutes(c: Contents, ws: seq<OpWrite>, b: int, data: Block)
    requires forall w :: w in ws ==> w.block != b
    ensures ApplyWrites(c[b := data], ws) == ApplyWrites(c, ws)[b := data]
  {
    if ws != [] {
      var n := |ws| - 1;
      WriteCommutes(c, ws[..n], b, data);
      assert ws[n] in ws;
      var x: Contents := ApplyWrites(c, ws[..n]);
      var v := ws[n];
      assert x[b := data][v.block := v.data] == x[v.block := v.data][b := data];
    }
  }

  lemma {:induction false} SerialElsewhere(c: Contents, ws: seq<OpWrite>, w: OpWrite, order: seq<nat>)
    requires w.op !in order
    ensures Serial(c, ws + [w], order) == Serial(c, ws, order)
  {
    if order != [] {
      var n := |order| - 1;
      SerialElsewhere(c, ws, w, order[..n]);
      assert order[n] in order;
      PartNext(ws, w, order[n]);
    }
  }

  // No operation after w's in the order writes its block.
  ghost predicate Settled(ws: seq<OpWrite>, w: OpWrite, order: seq<nat>) {
    forall k, l, v :: 0 <= k < l < |order| && order[k] == w.op && v in ws && v.op == order[l] ==> v.block != w.block
  }

  // The transaction's next write can be made at the end of its operation's turn or of them all.
  lemma {:induction false} SerialNext(c: Contents, ws: seq<OpWrite>, w: OpWrite, order: seq<nat>)
    requires w.op in order && Settled(ws, w, order)
    requires forall i, j :: 0 <= i < j < |order| ==> order[i] != order[j]
    ensures Serial(c, ws + [w], order) == Serial(c, ws, order)[w.block := w.data]
  {
    var n := |order| - 1;
    var id, rest := order[n], order[..n];
    PartNext(ws, w, id);
    if id == w.op {
      assert w.op !in rest;
      SerialElsewhere(c, ws, w, rest);
      ApplyNext(Serial(c, ws, rest), PartOf(ws, id), w);
    } else {
      var k :| 0 <= k < |order| && order[k] == w.op;
      assert rest[k] == w.op;
      SerialNext(c, ws, w, rest);
      PartWrites(ws, id);
      WriteCommutes(Serial(c, ws, rest), PartOf(ws, id), w.block, w.data);
    }
  }

  lemma {:induction false} NoWrites(c: Contents, order: seq<nat>)
    ensures Serial(c, [], order) == c
  {
    if order != [] { NoWrites(c, order[..|order| - 1]); }
  }

  lemma ApplyNext(c: Contents, ws: seq<OpWrite>, w: OpWrite)
    ensures ApplyWrites(c, ws + [w]) == ApplyWrites(c, ws)[w.block := w.data]
  {
    assert (ws + [w])[..|ws|] == ws;
  }

  lemma AgreesBefore(ws: seq<OpWrite>, w: OpWrite, order: seq<nat>)
    requires Agrees(ws + [w], order)
    ensures Agrees(ws, order) && w.op in order && Settled(ws, w, order)
  {
    var all := ws + [w];
    assert all[|ws|] == w;
    assert forall i :: 0 <= i < |ws| ==> all[i] == ws[i];
    assert forall v :: v in ws ==> v in all;
    forall k, l, v | 0 <= k < l < |order| && order[k] == w.op && v in ws && v.op == order[l] ensures v.block != w.block {
      var i :| 0 <= i < |ws| && ws[i] == v;
      assert all[i] == v && Before(order, w.op, v.op);
    }
  }

  lemma {:induction false} SerialIs(c: Contents, ws: seq<OpWrite>, order: seq<nat>)
    requires Agrees(ws, order)
    ensures ApplyWrites(c, ws) == Serial(c, ws, order)
  {
    if ws == [] {
      NoWrites(c, order);
    } else {
      var n := |ws| - 1;
      assert ws == ws[..n] + [ws[n]];
      AgreesBefore(ws[..n], ws[n], order);
      SerialIs(c, ws[..n], order);
      SerialNext(c, ws[..n], ws[n], order);
    }
  }

  // ---- A property that every operation keeps ------------------------------

  // From the contents in which its turn comes, each operation keeps P.
  ghost predicate TurnsKeep(P: Contents -> bool, c: Contents, ws: seq<OpWrite>, order: seq<nat>) {
    forall k :: 0 <= k < |order| && P(Serial(c, ws, order[..k])) ==> P(Serial(c, ws, order[..k + 1]))
  }

  lemma {:induction false} TurnsHold(P: Contents -> bool, c: Contents, ws: seq<OpWrite>, order: seq<nat>, k: nat)
    requires TurnsKeep(P, c, ws, order) && P(c) && k <= |order|
    ensures P(Serial(c, ws, order[..k]))
  {
    if k == 0 {
      assert order[..0] == [];
    } else {
      TurnsHold(P, c, ws, order, k - 1);
      assert order[..k - 1 + 1] == order[..k];
    }
  }

  // The operations of each committed transaction keep P, in some order.
  ghost predicate OperationsKeep(P: Contents -> bool, initial: Contents, done: seq<seq<OpWrite>>, orders: seq<seq<nat>>) {
    && |orders| == |done|
    && forall t :: 0 <= t < |done| ==> Agrees(done[t], orders[t]) && TurnsKeep(P, Replay(initial, done[..t]), done[t], orders[t])
  }

  lemma {:induction false} ReplayKeeps(P: Contents -> bool, initial: Contents, done: seq<seq<OpWrite>>, orders: seq<seq<nat>>, t: nat)
    requires OperationsKeep(P, initial, done, orders) && P(initial) && t <= |done|
    ensures P(Replay(initial, done[..t]))
  {
    if t == 0 {
      assert done[..0] == [];
    } else {
      var c, ws, order := Replay(initial, done[..t - 1]), done[t - 1], orders[t - 1];
      ReplayKeeps(P, initial, done, orders, t - 1);
      TurnsHold(P, c, ws, order, |order|);
      assert order[..|order|] == order;
      SerialIs(c, ws, order);
      assert done[..t][..t - 1] == done[..t - 1];
    }
  }

  lemma HomesHold(L: Layout, d: Disk)
    requires DiskOk(L, d) && OnDisk(L, d) == []
    ensures HomeViews(L, d, map[]) == Durable(L, d)
  {
  }

  // Whatever P says of the file system: if the first disk meets it and every operation keeps it,
  // the disk meets it at every moment of every run, and so do the homes once recovery is done.
  lemma SurvivesCrashes(P: Contents -> bool, L: Layout, s0: State, es: seq<Event>, orders: seq<seq<nat>>)
    requires Start(L, s0) && Legal(L, s0, es) && Tame(L, s0, es) && P(Durable(L, s0.disk))
    requires OperationsKeep(P, Durable(L, s0.disk), Exec(L, s0, es).done, orders)
    ensures var s := Exec(L, s0, es);
      && DiskOk(L, s.disk) && P(Durable(L, s.disk))
      && (s.phase.Running? ==> P(HomeViews(L, s.disk, map[])))
  {
    RunKeepsHistory(L, s0, es, Durable(L, s0.disk));
    var s := Exec(L, s0, es);
    ReplayKeeps(P, Durable(L, s0.disk), s.done, orders, |s.done|);
    assert s.done[..|s.done|] == s.done;
    if s.phase.Running? { HomesHold(L, s.disk); }
  }

  // ---- The file system's own invariant ------------------------------------

  // However the blocks of a disk give its inodes, index blocks and bitmap: if they are such that
  // every block of a file is marked and no two addresses name one block, they are so after any
  // crash.  With a log area of LOGSIZE blocks or more, this is every run.
  lemma OwnedAfterCrashes(image: Contents -> (B.Tree, seq<bool>), L: Layout, s0: State, es: seq<Event>, orders: seq<seq<nat>>)
    requires Start(L, s0) && Legal(L, s0, es) && L.size >= LOGSIZE
    requires var P := (c: Contents) => B.Owned(image(c).0, image(c).1);
      P(Durable(L, s0.disk)) && OperationsKeep(P, Durable(L, s0.disk), Exec(L, s0, es).done, orders)
    ensures var s := Exec(L, s0, es);
      && DiskOk(L, s.disk) && B.Owned(image(Durable(L, s.disk)).0, image(Durable(L, s.disk)).1)
      && (s.phase.Running? ==>
            var now := image(HomeViews(L, s.disk, map[])); B.Owned(now.0, now.1))
  {
    LargeLogIsTame(L, s0, es);
    SurvivesCrashes((c: Contents) => B.Owned(image(c).0, image(c).1), L, s0, es, orders);
  }
}
