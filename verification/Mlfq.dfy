// The multi-level feedback queue scheduler of proc.c as a state machine on one
// CPU.  A step is what happens while ptable.lock is held; the process that the
// scheduler has switched to takes steps until it gives up the CPU.
module Mlfq {
  const NPROC := 64
  const USELESS := 200
  const BOOST := 100            // ticks between priority boosts

  datatype ProcState = UNUSED | EMBRYO | SLEEPING | RUNNABLE | RUNNING | ZOMBIE

  datatype Proc = Proc(state: ProcState, pid: int, parent: int, chan: int, priority: int, qlv: int, tq: int, killed: bool)

  // The CPU is at the head of the scheduler's loop, or runs process idx, which
  // was picked from level lv.
  datatype Cpu = AtLoop | Run(idx: int, lv: int)

  datatype Sched = Sched(procs: seq<Proc>, q: seq<seq<int>>, dictated: bool, dictator: int, ticks: int, cpu: Cpu)

  predicate Runnable(procs: seq<Proc>, i: int) {
    0 <= i < |procs| && procs[i].state == RUNNABLE
  }

  // ---- pickProc -----------------------------------------------------------

  // The first RUNNABLE entry of levels 0 and 1.
  ghost predicate IsFirst(procs: seq<Proc>, q: seq<int>, k: int) {
    0 <= k < |q| && Runnable(procs, q[k]) && forall j :: 0 <= j < k ==> !Runnable(procs, q[j])
  }

  // At level 2 the first RUNNABLE entry of least priority value.
  ghost predicate IsBest(procs: seq<Proc>, q: seq<int>, k: int) {
    && 0 <= k < |q| && Runnable(procs, q[k])
    && forall j :: 0 <= j < |q| && Runnable(procs, q[j]) ==>
         procs[q[k]].priority <= procs[q[j]].priority && (j < k ==> procs[q[k]].priority < procs[q[j]].priority)
  }

  ghost predicate IsPick(procs: seq<Proc>, lv: int, q: seq<int>, k: int) {
    if lv == 2 then IsBest(procs, q, k) else IsFirst(procs, q, k)
  }

  ghost predicate NoneRunnable(procs: seq<Proc>, q: seq<int>) {
    forall j :: 0 <= j < |q| ==> !Runnable(procs, q[j])
  }

  lemma PickIsUnique(procs: seq<Proc>, lv: int, q: seq<int>, j: int, k: int)
    requires IsPick(procs, lv, q, j) && IsPick(procs, lv, q, k)
    ensures j == k
  {
  }

  // The picked entry leaves the queue; those before it go to the back.
  function WithoutPick(q: seq<int>, k: int): seq<int>
    requires 0 <= k < |q|
  {
    q[k + 1..] + q[..k]
  }

  lemma WithoutPickMultiset(q: seq<int>, k: int)
    requires 0 <= k < |q|
    ensures multiset(q) == multiset(WithoutPick(q, k)) + multiset{q[k]}
  {
    assert q == q[..k] + [q[k]] + q[k + 1..];
  }

  // ---- Steps --------------------------------------------------------------

  datatype Exit = ToSleep(chan: int) | ToRunnable | ToZombie

  datatype Step =
    | Pick                                       // the scheduler picks and switches
    | Leave(exit: Exit)                          // yield, sleep, exit: back to the scheduler
    | AllocProc(np: int, pid: int)               // fork, first part
    | ForkFails(np: int)                         // copyuvm or kalloc failed
    | ForkRuns(np: int)                          // fork, last part
    | Reap(child: int)                           // wait
    | Wakeup(chan: int)
    | Kill(pid: int)
    | SetPriority(pid: int, priority: int)
    | Lock                                       // schedulerLock with the password, nobody dictating
    | LockFails                                  // ... and its two failing branches, up to exit
    | Tick

  function Woken(procs: seq<Proc>, chan: int): (r: seq<Proc>)
    ensures |r| == |procs|
  {
    seq(|procs|, i requires 0 <= i < |procs| =>
      if procs[i].state == SLEEPING && procs[i].chan == chan then procs[i].(state := RUNNABLE) else procs[i])
  }

  // kill marks the first process with that pid, and wakes it if it sleeps.
  function Marked(p: Proc): Proc {
    p.(killed := true, state := if p.state == SLEEPING then RUNNABLE else p.state)
  }

  function Killed(procs: seq<Proc>, pid: int): (r: seq<Proc>)
    ensures |r| == |procs|
  {
    if procs == [] then []
    else if procs[0].pid == pid then [Marked(procs[0])] + procs[1..]
    else [procs[0]] + Killed(procs[1..], pid)
  }

  // exit wakes the parent and, for abandoned zombies, init.
  function AfterExit(procs: seq<Proc>, idx: int, init: int): (r: seq<Proc>)
    requires 0 <= idx < |procs|
    ensures |r| == |procs|
  {
    var orphans := exists i :: 0 <= i < |procs| && procs[i].parent == idx && procs[i].state == ZOMBIE;
    var woken := Woken(procs, procs[idx].parent);
    var adopted := seq(|procs|, i requires 0 <= i < |procs| =>
      if woken[i].parent == idx then woken[i].(parent := init) else woken[i]);
    var all := if orphans then Woken(adopted, init) else adopted;
    all[idx := all[idx].(state := ZOMBIE)]
  }

  // setPriority turns the queue until it has seen the process.
  function Rotate(q: seq<int>, n: int): seq<int>
    requires 0 <= n <= |q|
  {
    q[n..] + q[..n]
  }

  ghost predicate HasPid(procs: seq<Proc>, i: int, pid: int) {
    0 <= i < |procs| && procs[i].pid == pid
  }

  ghost predicate IsSeen(procs: seq<Proc>, q: seq<int>, pid: int, n: int) {
    0 < n <= |q| && HasPid(procs, q[n - 1], pid) && forall j :: 0 <= j < n - 1 ==> !HasPid(procs, q[j], pid)
  }

  ghost predicate NotSeen(procs: seq<Proc>, q: seq<int>, pid: int) {
    forall j :: 0 <= j < |q| ==> !HasPid(procs, q[j], pid)
  }

  function Boosted(p: Proc): Proc {
    p.(qlv := 0, priority := 3, tq := 0)
  }

  function BoostAll(procs: seq<Proc>, q: seq<int>): (r: seq<Proc>)
    ensures |r| == |procs|
  {
    seq(|procs|, i requires 0 <= i < |procs| => if i in q then Boosted(procs[i]) else procs[i])
  }

  // priorityBoost: everything goes to level 0, a dictator to its front.
  function Boost(s: Sched): Sched
    requires |s.q| == 3 && (s.dictated ==> 0 <= s.dictator < |s.procs|)
  {
    var all := (if s.dictated then [s.dictator] else []) + s.q[0] + s.q[1] + s.q[2];
    s.(q := [all, [], []], dictated := false, dictator := if s.dictated then -1 else s.dictator,
       procs := BoostAll(s.procs, all))
  }

  function Quantum(lv: int): int {
    2 * lv + 4
  }

  // A process that has used up its quantum at level lv, and the level it goes to.
  predicate UsedUp(p: Proc, lv: int) {
    p.tq + 1 >= Quantum(lv)
  }

  function LowerLevel(lv: int): int {
    if lv + 1 < 2 then lv + 1 else 2
  }

  function Charged(p: Proc, lv: int, dictated: bool): Proc {
    if dictated || !UsedUp(p, lv) then p.(tq := p.tq + 1)
    else p.(priority := if lv != 2 then p.priority else if p.priority - 1 >= 0 then p.priority - 1 else 0,
            qlv := LowerLevel(lv), tq := 0)
  }

  // What the scheduler does when process idx, picked from level lv, comes back ...
  function Requeued(s: Sched, idx: int, lv: int): Sched
    requires |s.q| == 3 && 0 <= idx < |s.procs| && 0 <= lv < 3
  {
    var p := s.procs[idx];
    var to := if !s.dictated && UsedUp(p, lv) then LowerLevel(lv) else lv;
    s.(procs := s.procs[idx := Charged(p, lv, s.dictated)],
       q := if !s.dictated && p.state != ZOMBIE then s.q[to := s.q[to] + [idx]] else s.q,
       cpu := AtLoop)
  }

  // ... and when it is time, after that.
  function Feedback(s: Sched, idx: int, lv: int): Sched
    requires |s.q| == 3 && 0 <= idx < |s.procs| && 0 <= lv < 3
    requires s.dictated ==> 0 <= s.dictator < |s.procs|
  {
    var s1 := Requeued(s, idx, lv);
    if s1.ticks >= BOOST then Boost(s1.(ticks := 0)) else s1
  }

  function AfterForkRuns(p: Proc, parent: int): Proc {
    p.(state := RUNNABLE, parent := parent, priority := 3, qlv := 0, tq := 0)
  }

  // One step.  Process 0 is init and does not exit.
  ghost predicate Next(s: Sched, e: Step, s': Sched)
    requires |s.q| == 3
  {
    match e
    case Pick => s.cpu.AtLoop? && PickNext(s, s')
    case Leave(exit) =>
      && s.cpu.Run? && 0 <= s.cpu.idx < |s.procs| && 0 <= s.cpu.lv < 3
      && (exit.ToZombie? ==> s.cpu.idx != 0)
      && (s.dictated ==> 0 <= s.dictator < |s.procs|)
      && s' == Feedback(Left(s, exit), s.cpu.idx, s.cpu.lv)
    case AllocProc(np, pid) =>
      && s.cpu.Run? && 0 <= np < |s.procs| && s.procs[np].state == UNUSED
      && (forall i :: 0 <= i < np ==> s.procs[i].state != UNUSED)
      && s' == s.(procs := s.procs[np := s.procs[np].(state := EMBRYO, pid := pid)])
    case ForkFails(np) =>
      && s.cpu.Run? && 0 <= np < |s.procs| && s.procs[np].state == EMBRYO
      && s' == s.(procs := s.procs[np := s.procs[np].(state := UNUSED)])
    case ForkRuns(np) =>
      && s.cpu.Run? && 0 <= np < |s.procs| && s.procs[np].state == EMBRYO
      && s' == s.(procs := s.procs[np := AfterForkRuns(s.procs[np], s.cpu.idx)], q := s.q[0 := s.q[0] + [np]])
    case Reap(child) =>
      && s.cpu.Run? && 0 <= child < |s.procs| && s.procs[child].state == ZOMBIE && s.procs[child].parent == s.cpu.idx
      && s' == s.(procs := s.procs[child := s.procs[child].(state := UNUSED, pid := 0, parent := -1, killed := false)])
    case Wakeup(chan) => s' == s.(procs := Woken(s.procs, chan))
    case Kill(pid) => s.cpu.Run? && s' == s.(procs := Killed(s.procs, pid))
    case SetPriority(pid, priority) => s.cpu.Run? && PriorityNext(s, pid, priority, s')
    case Lock =>
      && s.cpu.Run? && !s.dictated && 0 <= s.cpu.idx < |s.procs|
      && s' == s.(ticks := 0, dictator := s.cpu.idx, dictated := true,
                  procs := s.procs[s.cpu.idx := s.procs[s.cpu.idx].(tq := 0, qlv := -1)])
    case LockFails =>
      s.cpu.Run? && s' == if s.dictated then s.(dictator := -1, dictated := false) else s
    case Tick => s' == s.(ticks := s.ticks + 1)
  }

  // scheduler() up to the switch.  A dictator is picked whatever its state is.
  ghost predicate PickNext(s: Sched, s': Sched)
    requires |s.q| == 3
  {
    if s.dictated then
      && 0 <= s.dictator < |s.procs|
      && s' == s.(procs := s.procs[s.dictator := s.procs[s.dictator].(state := RUNNING)], cpu := Run(s.dictator, 0))
    else if NoneRunnable(s.procs, s.q[0]) && NoneRunnable(s.procs, s.q[1]) && NoneRunnable(s.procs, s.q[2]) then
      s' == s
    else
      exists lv, k :: Picks(s, lv, k) && s' == AfterPick(s, lv, k)
  }

  ghost predicate Picks(s: Sched, lv: int, k: int)
    requires |s.q| == 3
  {
    0 <= lv < 3 && (forall l :: 0 <= l < lv ==> NoneRunnable(s.procs, s.q[l])) && IsPick(s.procs, lv, s.q[lv], k)
  }

  function AfterPick(s: Sched, lv: int, k: int): Sched
    requires 0 <= lv < |s.q| && 0 <= k < |s.q[lv]| && 0 <= s.q[lv][k] < |s.procs|
  {
    var idx := s.q[lv][k];
    s.(procs := s.procs[idx := s.procs[idx].(state := RUNNING)], q := s.q[lv := WithoutPick(s.q[lv], k)], cpu := Run(idx, lv))
  }

  // The state changes of yield, sleep and exit.
  function Left(s: Sched, exit: Exit): Sched
    requires s.cpu.Run? && 0 <= s.cpu.idx < |s.procs|
  {
    var idx := s.cpu.idx;
    match exit
    case ToRunnable => s.(procs := s.procs[idx := s.procs[idx].(state := RUNNABLE)])
    case ToSleep(chan) => s.(procs := s.procs[idx := s.procs[idx].(state := SLEEPING, chan := chan)])
    case ToZombie =>
      var s1 := s.(procs := AfterExit(s.procs, idx, 0));
      if s.dictator == idx then s1.(dictated := false, dictator := -1) else s1
  }

  // setPriority finds the process as entry n - 1 of level lv.
  ghost predicate Finds(s: Sched, pid: int, lv: int, n: int)
    requires |s.q| == 3
  {
    0 <= lv < 3 && (forall l :: 0 <= l < lv ==> NotSeen(s.procs, s.q[l], pid)) && IsSeen(s.procs, s.q[lv], pid, n)
  }

  ghost predicate PriorityNext(s: Sched, pid: int, priority: int, s': Sched)
    requires |s.q| == 3
  {
    if NotSeen(s.procs, s.q[0], pid) && NotSeen(s.procs, s.q[1], pid) && NotSeen(s.procs, s.q[2], pid) then s' == s
    else exists lv, n :: Finds(s, pid, lv, n) && s' == AfterPriority(s, lv, n, priority)
  }

  // An invalid priority still turns the queue.
  function AfterPriority(s: Sched, lv: int, n: int, priority: int): Sched
    requires 0 <= lv < |s.q| && 0 < n <= |s.q[lv]| && 0 <= s.q[lv][n - 1] < |s.procs|
  {
    var idx := s.q[lv][n - 1];
    s.(q := s.q[lv := Rotate(s.q[lv], n)],
       procs := if 0 <= priority <= 4 then s.procs[idx := s.procs[idx].(priority := priority)] else s.procs)
  }

  // ---- The invariant ------------------------------------------------------

  ghost function Members(s: Sched): multiset<int>
    requires |s.q| == 3
  {
    multiset(s.q[0]) + multiset(s.q[1]) + multiset(s.q[2])
  }

  predicate Alive(p: Proc) {
    p.state == SLEEPING || p.state == RUNNABLE
  }

  // Who is in a queue: every process that is not running, except a dictator.
  predicate Queued(s: Sched, i: int) {
    0 <= i < |s.procs| && Alive(s.procs[i]) && !(s.dictated && i == s.dictator)
  }

  ghost predicate QueuesExact(s: Sched)
    requires |s.q| == 3
  {
    forall i :: Members(s)[i] == if Queued(s, i) then 1 else 0
  }

  ghost predicate CpuOk(s: Sched) {
    && (s.cpu.Run? ==> 0 <= s.cpu.idx < |s.procs| && 0 <= s.cpu.lv < 3 && s.procs[s.cpu.idx].state == RUNNING)
    && (forall i :: 0 <= i < |s.procs| && s.procs[i].state == RUNNING ==> s.cpu.Run? && s.cpu.idx == i)
    && (if s.dictated then
          && 0 <= s.dictator < |s.procs| && (s.cpu.Run? ==> s.cpu.idx == s.dictator)
          && (s.cpu.AtLoop? ==> Alive(s.procs[s.dictator]))
        else s.dictator == -1)
  }

  ghost predicate Inv(s: Sched) {
    |s.procs| == NPROC && |s.q| == 3 && QueuesExact(s) && CpuOk(s)
  }

  // ---- Every step keeps it ------------------------------------------------

  // Steps that only wake processes or change their attributes.
  lemma SameQueues(s: Sched, s': Sched)
    requires Inv(s) && |s'.procs| == NPROC && s'.q == s.q && s'.cpu == s.cpu
    requires s'.dictated == s.dictated && s'.dictator == s.dictator
    requires forall i :: 0 <= i < NPROC ==>
      (Alive(s'.procs[i]) == Alive(s.procs[i])) && (s'.procs[i].state == RUNNING <==> s.procs[i].state == RUNNING)
    ensures Inv(s')
  {
    forall i ensures Queued(s', i) == Queued(s, i) {}
  }

  lemma {:induction false} KilledStates(procs: seq<Proc>, pid: int)
    ensures forall i :: 0 <= i < |procs| ==>
      && Alive(Killed(procs, pid)[i]) == Alive(procs[i])
      && (Killed(procs, pid)[i].state == procs[i].state || (procs[i].state == SLEEPING && Killed(procs, pid)[i].state == RUNNABLE))
    decreases |procs|
  {
    if procs != [] && procs[0].pid != pid {
      KilledStates(procs[1..], pid);
    }
  }

  lemma AfterExitStates(procs: seq<Proc>, idx: int, init: int)
    requires 0 <= idx < |procs|
    ensures AfterExit(procs, idx, init)[idx].state == ZOMBIE
    ensures forall i :: 0 <= i < |procs| && i != idx ==>
      && Alive(AfterExit(procs, idx, init)[i]) == Alive(procs[i])
      && (AfterExit(procs, idx, init)[i].state == RUNNING <==> procs[i].state == RUNNING)
  {
  }

  // One queue changes by adding or removing process idx, and idx is the only
  // process whose place changes.
  lemma MemberChanges(s: Sched, s': Sched, lv: int, idx: int, joins: bool)
    requires |s.q| == 3 && |s.procs| == NPROC && 0 <= lv < 3 && |s'.procs| == NPROC && |s'.q| == 3
    requires s'.q == s.q[lv := s'.q[lv]] && QueuesExact(s)
    requires joins ==> multiset(s'.q[lv]) == multiset(s.q[lv]) + multiset{idx}
    requires !joins ==> multiset(s.q[lv]) == multiset(s'.q[lv]) + multiset{idx}
    requires Queued(s, idx) == !joins && Queued(s', idx) == joins
    requires forall i :: i != idx ==> Queued(s', i) == Queued(s, i)
    ensures QueuesExact(s')
  {
    if lv == 0 {
      assert s'.q[1] == s.q[1] && s'.q[2] == s.q[2];
    } else if lv == 1 {
      assert s'.q[0] == s.q[0] && s'.q[2] == s.q[2];
    } else {
      assert s'.q[0] == s.q[0] && s'.q[1] == s.q[1];
    }
    forall i ensures Members(s')[i] == if Queued(s', i) then 1 else 0 {
      assert Members(s)[i] == if Queued(s, i) then 1 else 0;
    }
  }

  lemma AfterPickKeeps(s: Sched, lv: int, k: int)
    requires Inv(s) && s.cpu.AtLoop? && !s.dictated && 0 <= lv < 3
    requires 0 <= k < |s.q[lv]| && Runnable(s.procs, s.q[lv][k])
    ensures Inv(AfterPick(s, lv, k))
  {
    var s' := AfterPick(s, lv, k);
    WithoutPickMultiset(s.q[lv], k);
    assert s'.q == s.q[lv := s'.q[lv]];
    MemberChanges(s, s', lv, s.q[lv][k], false);
  }

  lemma PickKeeps(s: Sched, s': Sched)
    requires Inv(s) && Next(s, Pick, s')
    ensures Inv(s')
  {
    if s.dictated {
      assert s'.q == s.q;
      forall i ensures Queued(s', i) == Queued(s, i) {}
    } else if s' != s {
      var lv, k :| Picks(s, lv, k) && s' == AfterPick(s, lv, k);
      AfterPickKeeps(s, lv, k);
    }
  }

  lemma ForkKeeps(s: Sched, np: int, s': Sched)
    requires Inv(s) && Next(s, ForkRuns(np), s')
    ensures Inv(s')
  {
    assert s'.q == s.q[0 := s'.q[0]];
    MemberChanges(s, s', 0, np, true);
  }

  lemma PriorityKeeps(s: Sched, pid: int, priority: int, s': Sched)
    requires Inv(s) && Next(s, SetPriority(pid, priority), s')
    ensures Inv(s')
  {
    if s' != s {
      var lv, n :| Finds(s, pid, lv, n) && s' == AfterPriority(s, lv, n, priority);
      assert 0 < n <= |s.q[lv]|;
      var s1 := s.(procs := s'.procs);
      SameQueues(s, s1);
      RotateKeeps(s1, lv, n);
      assert s' == s1.(q := s1.q[lv := Rotate(s1.q[lv], n)]);
    }
  }

  lemma RotateKeeps(s: Sched, lv: int, n: int)
    requires Inv(s) && 0 <= lv < 3 && 0 <= n <= |s.q[lv]|
    ensures Inv(s.(q := s.q[lv := Rotate(s.q[lv], n)]))
  {
    var q := s.q[lv];
    assert q == q[..n] + q[n..];
    assert multiset(Rotate(q, n)) == multiset(q);
    var s' := s.(q := s.q[lv := Rotate(q, n)]);
    assert Members(s') == Members(s);
    forall i ensures Queued(s', i) == Queued(s, i) {}
  }

  // A dictator is born: it runs, so it is in no queue.
  lemma LockKeeps(s: Sched, e: Step, s': Sched)
    requires Inv(s) && (e.Lock? || e.LockFails?) && Next(s, e, s')
    ensures Inv(s')
  {
    assert s'.q == s.q && Members(s') == Members(s);
    forall i ensures Queued(s', i) == Queued(s, i) {}
  }

  // ---- Boost and feedback -------------------------------------------------

  lemma BoostKeeps(s: Sched)
    requires Inv(s) && s.cpu.AtLoop?
    ensures Inv(Boost(s)) && !Boost(s).dictated
  {
    var s' := Boost(s);
    var front := if s.dictated then [s.dictator] else [];
    assert multiset(s'.q[0]) == multiset(front) + multiset(s.q[0]) + multiset(s.q[1]) + multiset(s.q[2]);
    assert Members(s') == multiset(front) + Members(s);
    forall i ensures Members(s')[i] == if Queued(s', i) then 1 else 0 {
      assert Members(s)[i] == if Queued(s, i) then 1 else 0;
    }
  }

  // The process that comes back joins the queue of its level, unless it is a
  // zombie or the dictator.
  lemma RequeuedKeeps(s: Sched, idx: int, lv: int)
    requires |s.procs| == NPROC && |s.q| == 3 && 0 <= idx < NPROC && 0 <= lv < 3
    requires s.procs[idx].state == ZOMBIE || Alive(s.procs[idx])
    requires (s.dictated ==> s.dictator == idx && Alive(s.procs[idx])) && (!s.dictated ==> s.dictator == -1)
    requires forall i :: 0 <= i < NPROC ==> s.procs[i].state != RUNNING
    requires forall i :: Members(s)[i] == if Queued(s, i) && i != idx then 1 else 0
    ensures Inv(Requeued(s, idx, lv))
  {
    var s' := Requeued(s, idx, lv);
    var gone := s.(procs := s.procs[idx := s.procs[idx].(state := ZOMBIE)]);
    forall i ensures Queued(gone, i) <==> Queued(s, i) && i != idx {}
    assert Members(gone) == Members(s);
    assert QueuesExact(gone);
    if !s.dictated && s.procs[idx].state != ZOMBIE {
      var to := if UsedUp(s.procs[idx], lv) then LowerLevel(lv) else lv;
      assert s'.q == gone.q[to := s'.q[to]];
      MemberChanges(gone, s', to, idx, true);
    } else {
      forall i ensures Queued(s', i) == Queued(gone, i) {}
      assert Members(s') == Members(gone);
    }
  }

  lemma FeedbackKeeps(s: Sched, idx: int, lv: int)
    requires |s.procs| == NPROC && |s.q| == 3 && 0 <= idx < NPROC && 0 <= lv < 3
    requires s.dictated ==> 0 <= s.dictator < NPROC
    requires Inv(Requeued(s, idx, lv))
    ensures Inv(Feedback(s, idx, lv))
  {
    var s1 := Requeued(s, idx, lv);
    if s1.ticks >= BOOST {
      SameQueues(s1, s1.(ticks := 0));
      BoostKeeps(s1.(ticks := 0));
    }
  }

  lemma LeaveKeeps(s: Sched, exit: Exit, s': Sched)
    requires Inv(s) && Next(s, Leave(exit), s')
    ensures Inv(s')
  {
    var idx := s.cpu.idx;
    AfterExitStates(s.procs, idx, 0);
    var s1 := Left(s, exit);
    forall i ensures Members(s1)[i] == if Queued(s1, i) && i != idx then 1 else 0 {
      assert Members(s)[i] == if Queued(s, i) then 1 else 0;
    }
    RequeuedKeeps(s1, idx, s.cpu.lv);
    FeedbackKeeps(s1, idx, s.cpu.lv);
  }

  // Every process that can run or sleep is in exactly one place of one queue, a
  // dictator and the running process in none, and nobody else is, after every step.
  lemma StepKeeps(s: Sched, e: Step, s': Sched)
    requires Inv(s) && Next(s, e, s')
    ensures Inv(s')
  {
    match e {
      case Pick => PickKeeps(s, s');
      case Leave(exit) => LeaveKeeps(s, exit, s');
      case ForkRuns(np) => ForkKeeps(s, np, s');
      case SetPriority(pid, priority) => PriorityKeeps(s, pid, priority, s');
      case Lock => LockKeeps(s, e, s');
      case LockFails => LockKeeps(s, e, s');
      case Kill(pid) =>
        KilledStates(s.procs, pid);
        SameQueues(s, s');
      case _ => SameQueues(s, s');
    }
  }

  // Priorities stay in the range that setPriority allows, far from USELESS.
  ghost predicate PrioritiesOk(s: Sched) {
    forall i :: 0 <= i < |s.procs| ==> 0 <= s.procs[i].priority <= 4
  }

  lemma {:induction false} KilledPriorities(procs: seq<Proc>, pid: int)
    ensures forall i :: 0 <= i < |procs| ==> Killed(procs, pid)[i].priority == procs[i].priority
    decreases |procs|
  {
    if procs != [] && procs[0].pid != pid {
      KilledPriorities(procs[1..], pid);
    }
  }

  lemma AfterExitPriorities(procs: seq<Proc>, idx: int, init: int)
    requires 0 <= idx < |procs|
    ensures forall i :: 0 <= i < |procs| ==> AfterExit(procs, idx, init)[i].priority == procs[i].priority
  {
  }

  lemma LeaveKeepsPriorities(s: Sched, exit: Exit)
    requires Inv(s) && s.cpu.Run? && PrioritiesOk(s)
    ensures PrioritiesOk(Feedback(Left(s, exit), s.cpu.idx, s.cpu.lv))
  {
    var s1 := Left(s, exit);
    assert PrioritiesOk(s1) by {
      if exit.ToZombie? { AfterExitPriorities(s.procs, s.cpu.idx, 0); }
    }
    var s2 := Requeued(s1, s.cpu.idx, s.cpu.lv);
    assert PrioritiesOk(s2);
  }

  lemma StepKeepsPriorities(s: Sched, e: Step, s': Sched)
    requires Inv(s) && Next(s, e, s') && PrioritiesOk(s)
    ensures PrioritiesOk(s')
  {
    match e {
      case Kill(pid) => KilledPriorities(s.procs, pid);
      case Leave(exit) =>
        LeaveKeepsPriorities(s, exit);
      case SetPriority(pid, priority) =>
        if s' != s {
          var lv, n :| Finds(s, pid, lv, n) && s' == AfterPriority(s, lv, n, priority);
        }
      case _ =>
    }
  }

  // ---- Capacity -----------------------------------------------------------

  // Distinct numbers below n are at most n.
  lemma {:induction false} Pigeonhole(m: multiset<int>, n: nat)
    requires forall i :: m[i] <= 1 && (m[i] > 0 ==> 0 <= i < n)
    ensures |m| <= n
  {
    if n == 0 {
      assert m == multiset{};
    } else {
      var m' := m[n - 1 := 0];
      Pigeonhole(m', n - 1);
      assert m == m' + multiset{n - 1} || m == m';
    }
  }

  // The queues together hold at most NPROC entries, and one fewer when some
  // process is in none of them: a ring is never full when a process joins it.
  lemma RoomForOneMore(s: Sched, idx: int)
    requires Inv(s) && 0 <= idx < NPROC
    ensures |s.q[0]| + |s.q[1]| + |s.q[2]| <= NPROC
    ensures !Queued(s, idx) ==> |s.q[0]| + |s.q[1]| + |s.q[2]| < NPROC
  {
    var m := Members(s);
    assert |m| == |s.q[0]| + |s.q[1]| + |s.q[2]|;
    Pigeonhole(m, NPROC);
    if !Queued(s, idx) {
      assert m[idx] == 0;
      var m' := m + multiset{idx};
      forall i ensures m'[i] <= 1 && (m'[i] > 0 ==> 0 <= i < NPROC) {
        assert m[i] == if Queued(s, i) then 1 else 0;
      }
      Pigeonhole(m', NPROC);
    }
  }

  // ---- Whole runs ---------------------------------------------------------

  ghost predicate IsRun(ss: seq<Sched>, es: seq<Step>) {
    && |ss| == |es| + 1
    && forall t :: 0 <= t < |es| ==> |ss[t].q| == 3 && Next(ss[t], es[t], ss[t + 1])
  }

  // userinit has made process 0; the table was all zero before.
  ghost predicate Init(s: Sched) {
    && |s.procs| == NPROC && s.q == [[0], [], []] && !s.dictated && s.dictator == -1 && s.cpu == AtLoop
    && s.procs[0].state == RUNNABLE && (forall i :: 1 <= i < NPROC ==> s.procs[i].state == UNUSED)
    && PrioritiesOk(s)
  }

  lemma InitInv(s: Sched)
    requires Init(s)
    ensures Inv(s)
  {
    assert s.q[0] == [0] && s.q[1] == [] && s.q[2] == [];
  }

  lemma {:induction false} RunKeeps(ss: seq<Sched>, es: seq<Step>, t: nat)
    requires IsRun(ss, es) && Inv(ss[0]) && PrioritiesOk(ss[0]) && t <= |es|
    ensures Inv(ss[t]) && PrioritiesOk(ss[t])
  {
    if t > 0 {
      RunKeeps(ss, es, t - 1);
      StepKeeps(ss[t - 1], es[t - 1], ss[t]);
      StepKeepsPriorities(ss[t - 1], es[t - 1], ss[t]);
    }
  }

  // In every state of every run the queues hold exactly the processes they
  // should, and fit in their rings; and every priority is one that setPriority allows, so
  // the search for the least never overlooks a process.
  lemma QueuesAlwaysExact(ss: seq<Sched>, es: seq<Step>, t: nat)
    requires IsRun(ss, es) && Init(ss[0]) && t <= |es|
    ensures |ss[t].q| == 3 && QueuesExact(ss[t]) && |ss[t].q[0]| + |ss[t].q[1]| + |ss[t].q[2]| <= NPROC
    ensures forall i :: 0 <= i < |ss[t].procs| ==> 0 <= ss[t].procs[i].priority <= 4 < USELESS
  {
    InitInv(ss[0]);
    RunKeeps(ss, es, t);
    RoomForOneMore(ss[t], 0);
  }

  // ---- Bounded waiting ----------------------------------------------------

  // Process i waits at position k of level 0.
  ghost predicate Waits(s: Sched, i: int, k: int)
    requires |s.q| == 3
  {
    !s.dictated && 0 <= k < |s.q[0]| && s.q[0][k] == i && Runnable(s.procs, i)
  }

  // Steps that neither lock the scheduler nor set priorities.
  predicate Plain(e: Step) {
    !e.Lock? && !e.LockFails? && !e.SetPriority?
  }

  // The scheduler switches to process i in this step.
  predicate Switches(e: Step, s': Sched, i: int) {
    e.Pick? && s'.cpu.Run? && s'.cpu.idx == i
  }

  // A pick that takes somebody else moves a waiting process forward.
  lemma PickAdvances(s: Sched, s': Sched, i: int, k: int) returns (k': int)
    requires Inv(s) && Next(s, Pick, s') && Waits(s, i, k)
    requires !Switches(Pick, s', i)
    ensures Waits(s', i, k') && k' < k
  {
    assert !NoneRunnable(s.procs, s.q[0]);
    var lv, j :| Picks(s, lv, j) && s' == AfterPick(s, lv, j);
    assert lv == 0;
    assert j < k;
    k' := k - j - 1;
    assert s'.q[0][k'] == s.q[0][j + 1..][k'];
    AfterPickKeeps(s, lv, j);
  }

  // No other plain step moves it back or stops it.
  lemma OtherStepsKeepPlace(s: Sched, e: Step, s': Sched, i: int, k: int)
    requires Inv(s) && Next(s, e, s') && Waits(s, i, k) && Plain(e) && !e.Pick?
    ensures |s'.q| == 3 && Waits(s', i, k)
  {
    match e {
      case Leave(exit) => AfterExitStates(s.procs, s.cpu.idx, 0); LeavePlace(s, exit, i, k);
      case Kill(pid) => KilledStates(s.procs, pid);
      case _ =>
    }
  }

  lemma AfterExitRunnable(procs: seq<Proc>, idx: int, init: int, i: int)
    requires 0 <= idx < |procs| && i != idx && Runnable(procs, i)
    ensures Runnable(AfterExit(procs, idx, init), i)
  {
  }

  lemma LeavePlace(s: Sched, exit: Exit, i: int, k: int)
    requires Inv(s) && s.cpu.Run? && Waits(s, i, k)
    requires !Left(s, exit).dictated
    ensures Waits(Feedback(Left(s, exit), s.cpu.idx, s.cpu.lv), i, k)
  {
    var idx := s.cpu.idx;
    assert i != idx;
    if exit.ToZombie? { AfterExitRunnable(s.procs, idx, 0, i); }
    var s1 := Left(s, exit);
    var s2 := Requeued(s1, idx, s.cpu.lv);
    assert s1.q == s.q && Runnable(s1.procs, i);
    assert Waits(s2, i, k);
    if s2.ticks >= BOOST {
      var s3 := Boost(s2.(ticks := 0));
      assert s3.q[0] == s2.q[0] + (s2.q[1] + s2.q[2]);
    }
  }

  // How often the scheduler picks in a run.
  function PickCount(es: seq<Step>): nat {
    if es == [] then 0 else (if es[0].Pick? then 1 else 0) + PickCount(es[1..])
  }

  // A process at position k of level 0 runs within k + 1 picks, whatever forks,
  // exits, wakeups, demotions and boosts happen meanwhile.
  lemma {:induction false} BoundedWait(ss: seq<Sched>, es: seq<Step>, i: int, k: int)
    requires IsRun(ss, es) && Inv(ss[0]) && Waits(ss[0], i, k)
    requires forall t :: 0 <= t < |es| ==> Plain(es[t]) && !Switches(es[t], ss[t + 1], i)
    ensures PickCount(es) <= k
    decreases |es|
  {
    if es != [] {
      StepKeeps(ss[0], es[0], ss[1]);
      var k' := k;
      if es[0].Pick? {
        k' := PickAdvances(ss[0], ss[1], i, k);
      } else {
        OtherStepsKeepPlace(ss[0], es[0], ss[1], i, k);
      }
      var es', ss' := es[1..], ss[1..];
      forall t | 0 <= t < |es'|
        ensures |ss'[t].q| == 3 && Next(ss'[t], es'[t], ss'[t + 1])
        ensures Plain(es'[t]) && !Switches(es'[t], ss'[t + 1], i)
      {
        assert es'[t] == es[t + 1] && ss'[t] == ss[t + 1];
      }
      BoundedWait(ss', es', i, k');
    }
  }

  // After a boost everybody who can run is at level 0, at a position below NPROC.
  lemma BoostedWaits(s: Sched, i: int) returns (k: int)
    requires Inv(s) && s.cpu.AtLoop? && Runnable(s.procs, i)
    ensures Waits(Boost(s), i, k) && k < NPROC
  {
    BoostKeeps(s);
    var s' := Boost(s);
    RoomForOneMore(s', 0);
    assert Members(s')[i] == 1;
    assert i in s'.q[0];
    k :| 0 <= k < |s'.q[0]| && s'.q[0][k] == i;
  }

  // ... so it runs within NPROC picks of the boost.
  lemma RunsAfterBoost(s: Sched, ss: seq<Sched>, es: seq<Step>, i: int)
    requires Inv(s) && s.cpu.AtLoop? && Runnable(s.procs, i)
    requires IsRun(ss, es) && ss[0] == Boost(s)
    requires forall t :: 0 <= t < |es| ==> Plain(es[t]) && !Switches(es[t], ss[t + 1], i)
    ensures PickCount(es) < NPROC
  {
    var k := BoostedWaits(s, i);
    BoostKeeps(s);
    BoundedWait(ss, es, i, k);
  }

  // ---- schedulerUnlock ----------------------------------------------------

  // The valid branch puts the running dictator at the front of level 0.
  function AfterUnlock(s: Sched): Sched
    requires |s.q| == 3 && 0 <= s.dictator < |s.procs|
  {
    s.(procs := s.procs[s.dictator := Boosted(s.procs[s.dictator])], q := s.q[0 := [s.dictator] + s.q[0]],
       dictator := -1, dictated := false)
  }

  // schedulerUnlock with the right password.
  function Unlock(s: Sched): Sched
    requires |s.q| == 3 && s.cpu.Run? && (s.dictated ==> 0 <= s.dictator < |s.procs|)
  {
    if !s.dictated || s.cpu.idx != s.dictator then s else AfterUnlock(s)
  }

  // It keeps the queues exact if and only if it does nothing: a dictator that
  // unlocks the scheduler while it runs is in a queue already when the scheduler
  // adds it again.
  lemma UnlockExactly(s: Sched)
    requires Inv(s) && s.cpu.Run?
    ensures Inv(Unlock(s)) <==> !s.dictated || s.cpu.idx != s.dictator
  {
    if s.dictated && s.cpu.idx == s.dictator {
      var s', d := Unlock(s), s.dictator;
      assert s'.q[0] == [d] + s.q[0];
      assert Members(s')[d] == 1 + Members(s)[d];
      assert !Queued(s', d);
    }
  }

  // Process d runs and is in a queue all the same; it may lock the scheduler again.
  ghost predicate Surplus(s: Sched, d: int) {
    && |s.procs| == NPROC && |s.q| == 3 && 0 <= d < NPROC && s.procs[d].state == RUNNING && Members(s)[d] == 1
    && s.cpu.Run? && s.cpu.idx == d && 0 <= s.cpu.lv < 3 && (s.dictated ==> s.dictator == d)
  }

  lemma UnlockSurplus(s: Sched)
    requires Inv(s) && s.cpu.Run? && s.dictated
    ensures s.cpu.idx == s.dictator && Surplus(Unlock(s), s.dictator)
  {
    var d, u := s.dictator, Unlock(s);
    assert u.q[0] == [d] + s.q[0] && u.q[1] == s.q[1] && u.q[2] == s.q[2];
    assert Members(u) == multiset{d} + Members(s);
  }

  lemma RotateMembers(s: Sched, lv: int, n: int)
    requires |s.q| == 3 && 0 <= lv < 3 && 0 <= n <= |s.q[lv]|
    ensures Members(s.(q := s.q[lv := Rotate(s.q[lv], n)])) == Members(s)
  {
    var q := s.q[lv];
    assert q == q[..n] + q[n..];
    assert multiset(Rotate(q, n)) == multiset(q);
  }

  lemma SurplusTurned(s: Sched, lv: int, n: int, priority: int, d: int)
    requires Surplus(s, d) && 0 <= lv < 3 && 0 < n <= |s.q[lv]| && 0 <= s.q[lv][n - 1] < NPROC
    ensures Surplus(AfterPriority(s, lv, n, priority), d)
  {
    var s' := AfterPriority(s, lv, n, priority);
    RotateMembers(s, lv, n);
    assert Members(s') == Members(s.(q := s'.q));
  }

  lemma SurplusPriority(s: Sched, pid: int, priority: int, s': Sched, d: int)
    requires Surplus(s, d) && Next(s, SetPriority(pid, priority), s')
    ensures Surplus(s', d)
  {
    if s' != s {
      var lv, n :| Finds(s, pid, lv, n) && s' == AfterPriority(s, lv, n, priority);
      SurplusTurned(s, lv, n, priority, d);
    }
  }

  // Forks, wakeups, kills, changes of priority, locks and ticks leave it so.
  lemma SurplusStep(s: Sched, e: Step, s': Sched, d: int)
    requires Surplus(s, d) && Next(s, e, s') && !e.Leave?
    ensures Surplus(s', d)
  {
    match e {
      case ForkRuns(np) => assert Members(s') == Members(s) + multiset{np};
      case SetPriority(pid, priority) => SurplusPriority(s, pid, priority, s', d);
      case Kill(pid) => KilledStates(s.procs, pid);
      case _ =>
    }
  }

  // Process d, which has just left the CPU or is about to be charged for it, is in the queues once
  // more than it should be.
  ghost predicate OnceMore(s: Sched, d: int) {
    && |s.q| == 3 && 0 <= d < |s.procs| && (s.dictated ==> s.dictator == d)
    && Members(s)[d] == (if Queued(s, d) then 2 else 1)
  }

  lemma SurplusGone(s: Sched, exit: Exit, d: int)
    requires Surplus(s, d)
    ensures var u := Left(s, exit);
      && u.q == s.q && |u.procs| == |s.procs| && (u.dictated ==> u.dictator == d)
      && if exit.ToZombie? then u.procs[d].state == ZOMBIE && !u.dictated else Alive(u.procs[d])
  {
    AfterExitStates(s.procs, d, 0);
  }

  lemma SurplusRequeued(u: Sched, d: int, lv: int)
    requires |u.q| == 3 && 0 <= d < |u.procs| && 0 <= lv < 3 && Members(u)[d] == 1 && (u.dictated ==> u.dictator == d)
    requires Alive(u.procs[d]) || (u.procs[d].state == ZOMBIE && !u.dictated)
    ensures OnceMore(Requeued(u, d, lv), d)
  {
    var r := Requeued(u, d, lv);
    assert r.procs[d].state == u.procs[d].state;
    if !u.dictated && u.procs[d].state != ZOMBIE {
      var to := if UsedUp(u.procs[d], lv) then LowerLevel(lv) else lv;
      assert r.q == u.q[to := u.q[to] + [d]];
      assert Members(r) == Members(u) + multiset{d};
    }
  }

  lemma SurplusBoosted(r: Sched, d: int)
    requires OnceMore(r, d) && (r.dictated ==> Alive(r.procs[d]))
    ensures OnceMore(Boost(r), d)
  {
    BoostMembers(r);
  }

  lemma SurplusCharged(u: Sched, d: int, lv: int)
    requires |u.q| == 3 && 0 <= d < |u.procs| && 0 <= lv < 3 && Members(u)[d] == 1 && (u.dictated ==> u.dictator == d)
    requires Alive(u.procs[d]) || (u.procs[d].state == ZOMBIE && !u.dictated)
    ensures OnceMore(Feedback(u, d, lv), d)
  {
    var r := Requeued(u, d, lv);
    SurplusRequeued(u, d, lv);
    assert r.procs[d].state == u.procs[d].state;
    if r.ticks >= BOOST {
      assert OnceMore(r.(ticks := 0), d);
      SurplusBoosted(r.(ticks := 0), d);
    }
  }

  lemma SurplusLeft(s: Sched, exit: Exit, s': Sched, d: int)
    requires Surplus(s, d) && Next(s, Leave(exit), s')
    ensures OnceMore(s', d)
  {
    SurplusGone(s, exit, d);
    assert Members(Left(s, exit)) == Members(s);
    SurplusCharged(Left(s, exit), d, s.cpu.lv);
  }

  lemma {:induction false} SurplusRun(ss: seq<Sched>, es: seq<Step>, d: int)
    requires IsRun(ss, es) && Surplus(ss[0], d) && forall e :: e in es ==> !e.Leave?
    ensures Surplus(ss[|es|], d)
    decreases |es|
  {
    if es != [] {
      SurplusStep(ss[0], es[0], ss[1], d);
      forall t | 0 <= t < |es[1..]| ensures |ss[1..][t].q| == 3 && Next(ss[1..][t], es[1..][t], ss[1..][t + 1]) {
        assert ss[1..][t] == ss[t + 1] && es[1..][t] == es[t + 1];
      }
      SurplusRun(ss[1..], es[1..], d);
    }
  }

  // Whatever happens between the unlock and the time when the process gives up the CPU: it is then
  // in the queues twice, or once if it has exited or dictates again, and the queues are wrong at
  // the next pick.
  lemma UnlockDuplicates(s: Sched, ss: seq<Sched>, es: seq<Step>, exit: Exit, s': Sched)
    requires Inv(s) && s.cpu.Run? && s.dictated
    requires IsRun(ss, es) && ss[0] == Unlock(s) && forall e :: e in es ==> !e.Leave?
    requires |ss[|es|].q| == 3 && Next(ss[|es|], Leave(exit), s')
    ensures |s'.q| == 3 && Members(s')[s.dictator] == (if Queued(s', s.dictator) then 2 else 1)
    ensures !QueuesExact(s')
  {
    UnlockSurplus(s);
    SurplusRun(ss, es, s.dictator);
    SurplusLeft(ss[|es|], exit, s', s.dictator);
  }

  lemma BoostMembers(s: Sched)
    requires |s.q| == 3 && (s.dictated ==> 0 <= s.dictator < |s.procs|)
    ensures Members(Boost(s)) == Members(s) + if s.dictated then multiset{s.dictator} else multiset{}
    ensures forall i :: 0 <= i < |s.procs| ==> Boost(s).procs[i].state == s.procs[i].state
  {
    var front := if s.dictated then [s.dictator] else [];
    assert Boost(s).q[0] == front + s.q[0] + s.q[1] + s.q[2];
  }

  // A run that gets there: init is picked and locks the scheduler.
  lemma RunningDictatorReached(s: Sched) returns (ss: seq<Sched>, es: seq<Step>)
    requires Init(s)
    ensures IsRun(ss, es) && ss[0] == s && |es| == 2
    ensures Inv(ss[2]) && ss[2].cpu.Run? && ss[2].dictated
  {
    InitInv(s);
    assert s.q[0] == [0] && IsPick(s.procs, 0, s.q[0], 0);
    assert Picks(s, 0, 0);
    var s1 := AfterPick(s, 0, 0);
    var s2 := s1.(ticks := 0, dictator := 0, dictated := true, procs := s1.procs[0 := s1.procs[0].(tq := 0, qlv := -1)]);
    assert Next(s, Pick, s1) && Next(s1, Lock, s2);
    StepKeeps(s, Pick, s1);
    StepKeeps(s1, Lock, s2);
    ss, es := [s, s1, s2], [Pick, Lock];
  }
}
