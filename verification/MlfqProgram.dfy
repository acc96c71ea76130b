// The queue code of proc.c in its own form: three rings of process indices over
// one process table, changed in place.
module MlfqProgram {
  import opened Mlfq

  // struct fq
  datatype Ring = Ring(procIdx: seq<int>, front: int, back: int, size: int) {
    ghost predicate Valid() {
      && |procIdx| == NPROC && 0 <= front < NPROC && 0 <= size <= NPROC
      && back == (front + size) % NPROC
    }

    // The queue that the ring holds.
    ghost function Queue(): (q: seq<int>)
      requires Valid()
      ensures |q| == size
    {
      seq(size, k requires 0 <= k < size => procIdx[(front + k) % NPROC])
    }
  }

  // One turn round the ring at most.
  lemma RingSlot(front: int, k: int)
    requires 0 <= front < NPROC && 0 <= k <= NPROC
    ensures (front + k) % NPROC == if front + k < NPROC then front + k else front + k - NPROC
  {
  }

  lemma EnqueueRing(r: Ring, idx: int)
    requires r.Valid() && r.size < NPROC
    ensures var r' := Ring(r.procIdx[r.back := idx], r.front, (r.back + 1) % NPROC, r.size + 1);
      r'.Valid() && r'.Queue() == r.Queue() + [idx]
  {
    var r' := Ring(r.procIdx[r.back := idx], r.front, (r.back + 1) % NPROC, r.size + 1);
    RingSlot(r.front, r.size);
    RingSlot(r.front, r.size + 1);
    forall k | 0 <= k < r.size ensures r'.Queue()[k] == r.Queue()[k] {
      RingSlot(r.front, k);
    }
  }

  lemma DequeueRing(r: Ring)
    requires r.Valid() && r.size > 0
    ensures var r' := Ring(r.procIdx, (r.front + 1) % NPROC, r.back, r.size - 1);
      r'.Valid() && r.Queue()[0] == r.procIdx[r.front] && r'.Queue() == r.Queue()[1..]
  {
    var r' := Ring(r.procIdx, (r.front + 1) % NPROC, r.back, r.size - 1);
    RingSlot(r.front, 1);
    RingSlot(r.front, r.size);
    RingSlot(r'.front, r'.size);
    forall k | 0 <= k < r'.size ensures r'.Queue()[k] == r.Queue()[k + 1] {
      RingSlot(r'.front, k);
      RingSlot(r.front, k + 1);
    }
  }

  lemma RotateOnce(q: seq<int>, i: int)
    requires 0 <= i < |q|
    ensures Rotate(q, i) != [] && Rotate(q, i)[0] == q[i] && Rotate(q, i)[1..] == WithoutPick(q, i)
    ensures WithoutPick(q, i) + [q[i]] == Rotate(q, i + 1)
  {
  }

  lemma BoostOneMore(procs: seq<Proc>, q: seq<int>, i: int)
    requires 0 <= i < |q| && 0 <= q[i] < |procs|
    ensures var r := BoostAll(procs, q[..i]);
      BoostAll(procs, q[..i + 1]) == r[q[i] := Boosted(r[q[i]])]
  {
    assert q[..i + 1] == q[..i] + [q[i]];
  }

  lemma MoveOne(q0: seq<int>, q: seq<int>, i: int)
    requires 0 <= i < |q|
    ensures q[i..] != [] && q[i..][0] == q[i] && q[i..][1..] == q[i + 1..]
    ensures q0 + q[..i] + [q[i]] == q0 + q[..i + 1]
  {
    assert q[..i + 1] == q[..i] + [q[i]];
  }

  // The boosts of the three levels one after the other are the whole boost.
  lemma BoostForm(s: Sched, front: seq<int>)
    requires |s.q| == 3 && (s.dictated ==> 0 <= s.dictator < |s.procs|)
    requires front == (if s.dictated then [s.dictator] else []) + s.q[0]
    ensures Boost(s) == s.(procs := BoostAll(BoostAll(BoostAll(s.procs, front), s.q[1]), s.q[2]),
                           q := [front + s.q[1] + s.q[2], [], []], dictated := false,
                           dictator := if s.dictated then -1 else s.dictator)
  {
    assert BoostAll(BoostAll(BoostAll(s.procs, front), s.q[1]), s.q[2]) == BoostAll(s.procs, front + s.q[1] + s.q[2]);
  }

  // What FindBest has seen: nobody, or the best of the first i entries.
  ghost predicate BestSoFar(procs: seq<Proc>, q: seq<int>, i: int, best: int, at: int)
    requires 0 <= i <= |q|
  {
    if best == USELESS then NoneRunnable(procs, q[..i])
    else IsBest(procs, q[..i], at) && best == procs[q[at]].priority
  }

  lemma BestNext(procs: seq<Proc>, q: seq<int>, i: int, best: int, at: int)
    requires 0 <= i < |q| && 0 <= q[i] < |procs| && procs[q[i]].priority < USELESS && BestSoFar(procs, q, i, best, at)
    ensures var p := q[i];
      if Runnable(procs, p) && best > procs[p].priority then BestSoFar(procs, q, i + 1, procs[p].priority, i)
      else BestSoFar(procs, q, i + 1, best, at)
  {
    assert q[..i + 1] == q[..i] + [q[i]];
  }

  // kill changes the first process with that pid,
  lemma {:induction false} KilledFirst(procs: seq<Proc>, pid: int, i: int)
    requires HasPid(procs, i, pid) && forall j :: 0 <= j < i ==> !HasPid(procs, j, pid)
    ensures Killed(procs, pid) == procs[i := Marked(procs[i])]
  {
    if i > 0 {
      assert !HasPid(procs, 0, pid);
      forall j | 0 <= j < i - 1 ensures !HasPid(procs[1..], j, pid) {
        assert !HasPid(procs, j + 1, pid);
      }
      KilledFirst(procs[1..], pid, i - 1);
    }
  }

  // ... and nothing if there is none.
  lemma {:induction false} KilledNone(procs: seq<Proc>, pid: int)
    requires forall j :: 0 <= j < |procs| ==> !HasPid(procs, j, pid)
    ensures Killed(procs, pid) == procs
  {
    if procs != [] {
      assert !HasPid(procs, 0, pid);
      forall j | 0 <= j < |procs| - 1 ensures !HasPid(procs[1..], j, pid) {
        assert !HasPid(procs, j + 1, pid);
      }
      KilledNone(procs[1..], pid);
    }
  }

  ghost predicate InTable(q: seq<int>) {
    forall j :: 0 <= j < |q| ==> 0 <= q[j] < NPROC
  }

  lemma QueuesInTable(s: Sched)
    requires Inv(s)
    ensures InTable(s.q[0]) && InTable(s.q[1]) && InTable(s.q[2])
  {
    forall lv, j | 0 <= lv < 3 && 0 <= j < |s.q[lv]| ensures 0 <= s.q[lv][j] < NPROC {
      assert s.q[lv][j] in multiset(s.q[lv]);
      assert Members(s)[s.q[lv][j]] > 0;
    }
  }

  class Kernel {
    var procs: seq<Proc>          // ptable.proc
    var mlfq: seq<Ring>
    var isDictated: bool
    var dictator: int
    var globalTicks: int

    ghost predicate Valid()
      reads this
    {
      |mlfq| == 3 && mlfq[0].Valid() && mlfq[1].Valid() && mlfq[2].Valid() && |procs| == NPROC
    }

    ghost function Q(lv: int): seq<int>
      requires Valid() && 0 <= lv < 3
      reads this
    {
      mlfq[lv].Queue()
    }

    // The machine state that this object stands for.
    ghost function State(cpu: Cpu): Sched
      requires Valid()
      reads this
    {
      Sched(procs, [Q(0), Q(1), Q(2)], isDictated, dictator, globalTicks, cpu)
    }

    // The tables as they are at boot, after userinit has made process 0.
    constructor ()
      ensures Valid() && Init(State(AtLoop)) && globalTicks == 0
    {
      procs := seq(NPROC, _ => Proc(UNUSED, 0, -1, 0, 0, 0, 0, false));
      mlfq := seq(3, _ => Ring(seq(NPROC, _ => 0), 0, 0, 0));
      isDictated := false;
      dictator := -1;
      globalTicks := 0;
      new;
      procs := procs[0 := procs[0].(state := RUNNABLE, pid := 1, priority := 3, qlv := 0, tq := 0)];
      assert Q(0) == [] && Q(1) == [] && Q(2) == [];
      var r := EnQ(0, 0);
      assert Q(0) == [0] && Q(1) == [] && Q(2) == [];
    }

    // No check for a full ring.
    method EnQ(lv: int, idx: int) returns (r: int)
      requires Valid() && 0 <= lv < 3 && mlfq[lv].size < NPROC
      modifies this`mlfq
      ensures Valid() && mlfq == old(mlfq)[lv := mlfq[lv]] && Q(lv) == old(Q(lv)) + [idx] && r == idx
    {
      var f := mlfq[lv];
      EnqueueRing(f, idx);
      f := f.(procIdx := f.procIdx[f.back := idx]);
      f := f.(back := f.back + 1);
      f := f.(back := f.back % NPROC);
      f := f.(size := f.size + 1);
      mlfq := mlfq[lv := f];
      r := idx;
    }

    // -1 when the queue is empty.
    method DeQ(lv: int) returns (r: int)
      requires Valid() && 0 <= lv < 3
      modifies this`mlfq
      ensures Valid() && mlfq == old(mlfq)[lv := mlfq[lv]]
      ensures if old(Q(lv)) == [] then r == -1 && mlfq == old(mlfq)
              else r == old(Q(lv))[0] && Q(lv) == old(Q(lv))[1..]
    {
      var f := mlfq[lv];
      if f.size == 0 {
        return -1;
      }
      DequeueRing(f);
      r := f.procIdx[f.front];
      f := f.(front := f.front + 1);
      f := f.(front := f.front % NPROC);
      f := f.(size := f.size - 1);
      mlfq := mlfq[lv := f];
    }

    // One turn of the queue: its first entry goes to the back.
    method Turn(lv: int, ghost q: seq<int>, ghost i: int) returns (p: int)
      requires Valid() && 0 <= lv < 3 && 0 <= i < |q| && Q(lv) == Rotate(q, i)
      modifies this`mlfq
      ensures Valid() && mlfq == old(mlfq)[lv := mlfq[lv]] && p == q[i] && Q(lv) == Rotate(q, i + 1)
    {
      RotateOnce(q, i);
      p := DeQ(lv);
      var r := EnQ(lv, p);
    }

    // The first half of pickProc at level 2: goes once round the queue and finds
    // the entry to run, or USELESS.
    method FindBest(lv: int) returns (best: int, at: int)
      requires Valid() && 0 <= lv < 3
      requires InTable(Q(lv))
      requires forall i :: 0 <= i < NPROC ==> procs[i].priority < USELESS
      modifies this`mlfq
      ensures Valid() && mlfq == old(mlfq)[lv := mlfq[lv]] && Q(lv) == old(Q(lv))
      ensures if best == USELESS then NoneRunnable(procs, Q(lv)) else IsBest(procs, Q(lv), at)
    {
      ghost var q := Q(lv);
      var sz := mlfq[lv].size;
      best, at := USELESS, 0;
      var i := 0;
      while i < sz
        invariant 0 <= i <= sz && Valid() && mlfq == old(mlfq)[lv := mlfq[lv]] && Q(lv) == Rotate(q, i)
        invariant BestSoFar(procs, q, i, best, at)
      {
        BestNext(procs, q, i, best, at);
        var p := Turn(lv, q, i);
        if procs[p].state == RUNNABLE {
          if best > procs[p].priority {
            best := procs[p].priority;
            at := i;
          }
        }
        i := i + 1;
      }
      assert q[..sz] == q;
    }

    // Takes entry `at` out, moving those before it to the back.
    method TakeEntry(lv: int, at: int) returns (idx: int)
      requires Valid() && 0 <= lv < 3 && 0 <= at < |Q(lv)|
      modifies this`mlfq
      ensures Valid() && mlfq == old(mlfq)[lv := mlfq[lv]]
      ensures idx == old(Q(lv))[at] && Q(lv) == WithoutPick(old(Q(lv)), at)
    {
      ghost var q := Q(lv);
      idx := DeQ(lv);
      var i := 0;
      while i < at
        invariant 0 <= i <= at && Valid() && mlfq == old(mlfq)[lv := mlfq[lv]]
        invariant idx == q[i] && Q(lv) == WithoutPick(q, i)
      {
        RotateOnce(q, i);
        RotateOnce(q, i + 1);
        var r := EnQ(lv, idx);
        idx := DeQ(lv);
        i := i + 1;
      }
    }

    // Takes the entry to run out of queue lv, turning the queue; -1 and no change
    // when nobody there can run.
    method PickProc(lv: int) returns (idx: int, ghost k: int)
      requires Valid() && 0 <= lv < 3
      requires InTable(Q(lv))
      requires forall i :: 0 <= i < NPROC ==> procs[i].priority < USELESS
      modifies this`mlfq
      ensures Valid() && mlfq == old(mlfq)[lv := mlfq[lv]]
      ensures if NoneRunnable(procs, old(Q(lv))) then idx == -1 && Q(lv) == old(Q(lv))
              else IsPick(procs, lv, old(Q(lv)), k) && idx == old(Q(lv))[k] && Q(lv) == WithoutPick(old(Q(lv)), k)
    {
      ghost var q := Q(lv);
      if mlfq[lv].size == 0 {
        return -1, 0;
      }
      var sz := mlfq[lv].size;
      if lv == 2 {
        var best, at := FindBest(lv);
        if best == USELESS {
          return -1, 0;
        }
        idx := TakeEntry(lv, at);
        k := at;
      } else {
        var i := 0;
        while i < sz
          invariant 0 <= i <= sz && Valid() && mlfq == old(mlfq)[lv := mlfq[lv]] && Q(lv) == Rotate(q, i)
          invariant forall j :: 0 <= j < i ==> !Runnable(procs, q[j])
        {
          RotateOnce(q, i);
          idx := DeQ(lv);
          if procs[idx].state == RUNNABLE {
            k := i;
            return;
          }
          var r := EnQ(lv, idx);
          i := i + 1;
        }
        return -1, 0;
      }
    }

    // Puts process idx in front of queue 0 by turning the queue once round.
    method ToFront(idx: int)
      requires Valid() && mlfq[0].size < NPROC
      modifies this`mlfq
      ensures Valid() && mlfq == old(mlfq)[0 := mlfq[0]] && Q(0) == [idx] + old(Q(0))
    {
      ghost var q := Q(0) + [idx];
      var sz := mlfq[0].size;
      var r := EnQ(0, idx);
      assert Q(0) == Rotate(q, 0);
      var i := 0;
      while i < sz
        invariant 0 <= i <= sz && Valid() && mlfq == old(mlfq)[0 := mlfq[0]] && Q(0) == Rotate(q, i)
      {
        var p := Turn(0, q, i);
        i := i + 1;
      }
    }

    // One turn of priorityBoost's inner loop.
    method BoostEntry(lv: int)
      requires Valid() && 0 <= lv < 3 && Q(lv) != [] && 0 <= Q(lv)[0] < NPROC && (lv != 0 ==> mlfq[0].size < NPROC)
      modifies this`mlfq, this`procs
      ensures Valid() && procs == old(procs)[old(Q(lv))[0] := Boosted(old(procs)[old(Q(lv))[0]])]
      ensures mlfq == old(mlfq)[0 := mlfq[0]][lv := mlfq[lv]]
      ensures if lv == 0 then Q(0) == old(Q(0))[1..] + [old(Q(0))[0]]
              else Q(lv) == old(Q(lv))[1..] && Q(0) == old(Q(0)) + [old(Q(lv))[0]]
    {
      var idx := DeQ(lv);
      procs := procs[idx := procs[idx].(qlv := 0)];
      procs := procs[idx := procs[idx].(priority := 3)];
      procs := procs[idx := procs[idx].(tq := 0)];
      var r := EnQ(0, idx);
    }

    // The turns of priorityBoost's outer loop.
    method BoostLevel0()
      requires Valid() && InTable(Q(0))
      modifies this`mlfq, this`procs
      ensures Valid() && procs == BoostAll(old(procs), old(Q(0)))
      ensures mlfq == old(mlfq)[0 := mlfq[0]] && Q(0) == old(Q(0))
    {
      ghost var q := Q(0);
      var sz := mlfq[0].size;
      var i := 0;
      while i < sz
        invariant 0 <= i <= sz == |q| && Valid() && procs == BoostAll(old(procs), q[..i])
        invariant mlfq == old(mlfq)[0 := mlfq[0]] && Q(0) == Rotate(q, i)
      {
        RotateOnce(q, i);
        BoostOneMore(old(procs), q, i);
        BoostEntry(0);
        i := i + 1;
      }
      assert q[..sz] == q;
    }

    method BoostLevel(lv: int)
      requires Valid() && 1 <= lv < 3 && |Q(0)| + |Q(lv)| <= NPROC
      requires InTable(Q(lv))
      modifies this`mlfq, this`procs
      ensures Valid() && procs == BoostAll(old(procs), old(Q(lv)))
      ensures mlfq == old(mlfq)[0 := mlfq[0]][lv := mlfq[lv]]
      ensures Q(0) == old(Q(0)) + old(Q(lv)) && Q(lv) == []
    {
      ghost var q0, q := Q(0), Q(lv);
      var sz := mlfq[lv].size;
      var i := 0;
      while i < sz
        invariant 0 <= i <= sz == |q| && Valid() && procs == BoostAll(old(procs), q[..i])
        invariant mlfq == old(mlfq)[0 := mlfq[0]][lv := mlfq[lv]]
        invariant Q(0) == q0 + q[..i] && Q(lv) == q[i..]
      {
        BoostOneMore(old(procs), q, i);
        MoveOne(q0, q, i);
        BoostEntry(lv);
        i := i + 1;
      }
      assert q[..sz] == q;
    }

    // The first part of priorityBoost: a dictator goes back to queue 0.
    method BoostDictator()
      requires Valid() && (isDictated ==> mlfq[0].size < NPROC)
      modifies this`mlfq, this`isDictated, this`dictator
      ensures Valid() && mlfq == old(mlfq)[0 := mlfq[0]]
      ensures Q(0) == (if old(isDictated) then [old(dictator)] else []) + old(Q(0))
      ensures !isDictated && dictator == if old(isDictated) then -1 else old(dictator)
    {
      if isDictated {
        ToFront(dictator);
        isDictated := false;
        dictator := -1;
      }
    }

    // The outer loop of priorityBoost.
    method BoostQueues()
      requires Valid() && |Q(0)| + |Q(1)| + |Q(2)| <= NPROC
      requires InTable(Q(0)) && InTable(Q(1)) && InTable(Q(2))
      modifies this`mlfq, this`procs
      ensures Valid() && Q(0) == old(Q(0)) + old(Q(1)) + old(Q(2)) && Q(1) == [] && Q(2) == []
      ensures procs == BoostAll(BoostAll(BoostAll(old(procs), old(Q(0))), old(Q(1))), old(Q(2)))
    {
      BoostLevel0();
      BoostLevel(1);
      assert mlfq[2] == old(mlfq[2]);
      BoostLevel(2);
      assert Q(1) == [];
    }

    // Everybody goes to queue 0, a dictator to its front.
    method PriorityBoost()
      requires Valid() && |Q(0)| + |Q(1)| + |Q(2)| + (if isDictated then 1 else 0) <= NPROC
      requires isDictated ==> 0 <= dictator < NPROC
      requires InTable(Q(0)) && InTable(Q(1)) && InTable(Q(2))
      modifies this`mlfq, this`procs, this`isDictated, this`dictator
      ensures Valid() && State(AtLoop) == Boost(old(State(AtLoop)))
    {
      ghost var s := State(AtLoop);
      BoostDictator();
      ghost var front := Q(0);
      assert InTable(front) && Q(1) == s.q[1] && Q(2) == s.q[2];
      BoostQueues();
      BoostForm(s, front);
    }

    // scheduler() up to the switch: who runs next (-1 for nobody), and from which level.
    method ScheduleNext() returns (idx: int, lv: int)
      requires Valid() && Inv(State(AtLoop)) && forall i :: 0 <= i < NPROC ==> procs[i].priority < USELESS
      modifies this`mlfq, this`procs
      ensures Valid() && PickNext(old(State(AtLoop)), State(if idx == -1 then AtLoop else Run(idx, lv)))
    {
      ghost var s := State(AtLoop);
      QueuesInTable(s);
      lv := 0;
      idx := -1;
      if isDictated {
        idx := dictator;
      } else {
        ghost var k := 0;
        while lv < 3
          invariant 0 <= lv <= 3 && Valid() && procs == s.procs && State(AtLoop) == s && idx == -1
          invariant forall l :: 0 <= l < lv ==> NoneRunnable(procs, s.q[l])
        {
          ghost var before := mlfq;
          idx, k := PickProc(lv);
          if idx != -1 {
            assert Picks(s, lv, k);
            assert State(Run(idx, lv)) == s.(q := s.q[lv := WithoutPick(s.q[lv], k)], cpu := Run(idx, lv));
            break;
          }
          assert State(AtLoop) == s;
          lv := lv + 1;
        }
        if idx == -1 {
          return;
        }
        ghost var after := AfterPick(s, lv, k);
        procs := procs[idx := procs[idx].(state := RUNNING)];
        assert State(Run(idx, lv)) == after;
        return;
      }
      procs := procs[idx := procs[idx].(state := RUNNING)];
    }

    // The accounting of process idx, picked from level lv0, when it comes back;
    // the level it belongs to now.
    method Charge(idx: int, lv0: int) returns (lv: int)
      requires Valid() && 0 <= idx < NPROC && 0 <= lv0 < 3
      modifies this`procs
      ensures Valid() && procs == old(procs)[idx := Charged(old(procs)[idx], lv0, isDictated)]
      ensures lv == if !isDictated && UsedUp(old(procs)[idx], lv0) then LowerLevel(lv0) else lv0
    {
      lv := lv0;
      procs := procs[idx := procs[idx].(tq := procs[idx].tq + 1)];
      if !isDictated {
        if procs[idx].tq >= lv * 2 + 4 {
          if lv == 2 {
            procs := procs[idx := procs[idx].(priority := if procs[idx].priority - 1 >= 0 then procs[idx].priority - 1 else 0)];
          }
          lv := if lv + 1 < 2 then lv + 1 else 2;
          procs := procs[idx := procs[idx].(qlv := lv)];
          procs := procs[idx := procs[idx].(tq := 0)];
        }
      }
    }

    // scheduler() after the switch, up to the boost.
    method Requeue(idx: int, lv0: int)
      requires Valid() && 0 <= idx < NPROC && 0 <= lv0 < 3 && |Q(0)| + |Q(1)| + |Q(2)| < NPROC
      requires InTable(Q(0)) && InTable(Q(1)) && InTable(Q(2))
      modifies this`procs, this`mlfq
      ensures Valid() && State(AtLoop) == Requeued(old(State(Run(idx, lv0))), idx, lv0)
      ensures InTable(Q(0)) && InTable(Q(1)) && InTable(Q(2))
      ensures |Q(0)| + |Q(1)| + |Q(2)| <= NPROC - if isDictated then 1 else 0
    {
      var lv := Charge(idx, lv0);
      if !isDictated {
        if procs[idx].state != ZOMBIE {
          var r := EnQ(lv, idx);
        }
      }
    }

    // scheduler() after the switch.
    method AfterSwitch(idx: int, lv0: int)
      requires Valid() && 0 <= idx < NPROC && 0 <= lv0 < 3 && |Q(0)| + |Q(1)| + |Q(2)| < NPROC
      requires isDictated ==> 0 <= dictator < NPROC
      requires InTable(Q(0)) && InTable(Q(1)) && InTable(Q(2))
      modifies this
      ensures Valid() && State(AtLoop) == Feedback(old(State(Run(idx, lv0))), idx, lv0)
    {
      Requeue(idx, lv0);
      if globalTicks >= 100 {
        globalTicks := 0;
        PriorityBoost();
      }
    }

    // Turns the queues until the process with that pid is seen.
    method SetPriority(pid: int, priority: int)
      requires Valid() && InTable(Q(0)) && InTable(Q(1)) && InTable(Q(2))
      modifies this`mlfq, this`procs
      ensures Valid() && PriorityNext(old(State(AtLoop)), pid, priority, State(AtLoop))
    {
      ghost var s := State(AtLoop);
      var found := false;
      var idx := -1;
      var lv := 0;
      while lv < 3
        invariant 0 <= lv <= 3 && Valid() && procs == s.procs && State(AtLoop) == s && !found
        invariant forall l :: 0 <= l < lv ==> NotSeen(procs, s.q[l], pid)
      {
        ghost var n;
        found, idx, n := SearchLevel(lv, pid);
        if found {
          assert Finds(s, pid, lv, n);
          assert State(AtLoop) == s.(q := s.q[lv := Rotate(s.q[lv], n)]);
          if 0 <= priority <= 4 {
            procs := procs[idx := procs[idx].(priority := priority)];
          }
          assert State(AtLoop) == AfterPriority(s, lv, n, priority);
          return;
        }
        assert State(AtLoop) == s;
        lv := lv + 1;
      }
    }

    // The inner loop of setPriority.
    method SearchLevel(lv: int, pid: int) returns (found: bool, idx: int, ghost n: int)
      requires Valid() && 0 <= lv < 3 && InTable(Q(lv))
      modifies this`mlfq
      ensures Valid() && mlfq == old(mlfq)[lv := mlfq[lv]]
      ensures if found then IsSeen(procs, old(Q(lv)), pid, n) && idx == old(Q(lv))[n - 1] && Q(lv) == Rotate(old(Q(lv)), n)
              else NotSeen(procs, old(Q(lv)), pid) && Q(lv) == old(Q(lv))
    {
      ghost var q := Q(lv);
      var sz := mlfq[lv].size;
      var i := 0;
      found, idx, n := false, -1, 0;
      while i < sz
        invariant 0 <= i <= sz && !found && Valid() && mlfq == old(mlfq)[lv := mlfq[lv]] && Q(lv) == Rotate(q, i)
        invariant forall j :: 0 <= j < i ==> !HasPid(procs, q[j], pid)
      {
        idx := Turn(lv, q, i);
        i := i + 1;
        if procs[idx].pid == pid {
          found, n := true, i;
          return;
        }
      }
    }

    // schedulerUnlock with the right password, called by process idx.
    method SchedulerUnlock(idx: int, ghost lv: int)
      requires Valid() && 0 <= idx < NPROC && |Q(0)| < NPROC && (isDictated ==> 0 <= dictator < NPROC)
      modifies this
      ensures Valid() && State(Run(idx, lv)) == Unlock(old(State(Run(idx, lv))))
    {
      if !isDictated || idx != dictator {
        return;
      }
      procs := procs[idx := procs[idx].(priority := 3)];
      procs := procs[idx := procs[idx].(qlv := 0)];
      procs := procs[idx := procs[idx].(tq := 0)];
      ToFront(idx);
      dictator := -1;
      isDictated := false;
    }

    // wakeup1
    method Wakeup1(chan: int)
      requires Valid()
      modifies this`procs
      ensures Valid() && procs == Woken(old(procs), chan)
    {
      ghost var all := Woken(procs, chan);
      var i := 0;
      while i < NPROC
        invariant 0 <= i <= NPROC && Valid()
        invariant forall j :: 0 <= j < NPROC ==> procs[j] == if j < i then all[j] else old(procs)[j]
      {
        if procs[i].state == SLEEPING && procs[i].chan == chan {
          procs := procs[i := procs[i].(state := RUNNABLE)];
        }
        i := i + 1;
      }
    }

    method Kill(pid: int) returns (r: int)
      requires Valid()
      modifies this`procs
      ensures Valid() && procs == Killed(old(procs), pid)
      ensures r == if exists i :: 0 <= i < NPROC && HasPid(old(procs), i, pid) then 0 else -1
    {
      var i := 0;
      while i < NPROC
        invariant 0 <= i <= NPROC && Valid() && procs == old(procs)
        invariant forall j :: 0 <= j < i ==> !HasPid(procs, j, pid)
      {
        if procs[i].pid == pid {
          assert HasPid(old(procs), i, pid);
          KilledFirst(procs, pid, i);
          procs := procs[i := procs[i].(killed := true)];
          if procs[i].state == SLEEPING {
            procs := procs[i := procs[i].(state := RUNNABLE)];
          }
          return 0;
        }
        i := i + 1;
      }
      KilledNone(procs, pid);
      return -1;
    }
  }
}
