// Why operations stay within their reservations: if each operation writes blocks
// from a set of its own, of at most MAXOPBLOCKS blocks, then log_write's absorption
// keeps the number of blocks it adds to the log below the limit the log relies on.
module LogBudget {
  import opened LogMachine
  import opened Params
  import LogSafety
  import opened Sets

  type Budget = nat -> set<int>

  // The writing operation keeps to its set of blocks.
  ghost predicate Allowed(s: State, e: Event, budget: Budget) {
    e.Write? && e.i < |s.ops| ==> e.b in budget(s.ops[e.i].id)
  }

  ghost predicate InBudget(L: Layout, s: State, es: seq<Event>, budget: Budget)
    requires Legal(L, s, es)
    decreases |es|
  {
    es == [] || (Allowed(s, es[0], budget) && InBudget(L, Next(L, s, es[0]), es[1..], budget))
  }

  function InLog(lh: seq<int>, allowed: set<int>): set<int> { set b | b in allowed && b in lh }

  // Each outstanding operation has added at most the blocks of its set that are in the log.
  ghost predicate Spent(s: State, budget: Budget) {
    forall i :: 0 <= i < |s.ops| ==> s.ops[i].added <= |InLog(s.lh, budget(s.ops[i].id))|
  }

  lemma InLogGrows(lh: seq<int>, b: int, allowed: set<int>)
    ensures |InLog(lh, allowed)| <= |InLog(Append(lh, b), allowed)|
    ensures b in allowed && b !in lh ==> |InLog(lh, allowed)| < |InLog(Append(lh, b), allowed)|
  {
    SubsetSize(InLog(lh, allowed), InLog(Append(lh, b), allowed));
    if b in allowed && b !in lh {
      assert b in InLog(Append(lh, b), allowed) && b !in InLog(lh, allowed);
    }
  }

  lemma AllowedIsWithinBudget(L: Layout, s: State, e: Event, budget: Budget)
    requires Spent(s, budget) && Enabled(L, s, e) && Allowed(s, e, budget)
    requires forall id :: |budget(id)| <= MAXOPBLOCKS
    ensures WithinBudget(s, e)
  {
    if e.Write? && e.b !in s.lh {
      var allowed := budget(s.ops[e.i].id);
      assert e.b in allowed && e.b !in InLog(s.lh, allowed);
      SubsetSize(InLog(s.lh, allowed), allowed);
    }
  }

  lemma SpentStep(L: Layout, s: State, e: Event, budget: Budget)
    requires Steady(L, s) && Enabled(L, s, e) && Spent(s, budget) && Allowed(s, e, budget)
    ensures Spent(Next(L, s, e), budget)
  {
    var s' := Next(L, s, e);
    if e.Write? {
      forall i | 0 <= i < |s'.ops| ensures s'.ops[i].added <= |InLog(s'.lh, budget(s'.ops[i].id))| {
        InLogGrows(s.lh, e.b, budget(s.ops[i].id));
      }
    }
  }

  // Whatever the interleaving, the commits and the crashes: a run in which each operation writes
  // blocks of its own set is a run within budget.
  lemma {:induction false} BudgetSuffices(L: Layout, s: State, es: seq<Event>, budget: Budget)
    requires Steady(L, s) && Spent(s, budget) && Legal(L, s, es) && InBudget(L, s, es, budget)
    requires forall id :: |budget(id)| <= MAXOPBLOCKS
    ensures Thrifty(L, s, es)
    decreases |es|
  {
    if es != [] {
      AllowedIsWithinBudget(L, s, es[0], budget);
      SpentStep(L, s, es[0], budget);
      LogSafety.SteadyStep(L, s, es[0]);
      BudgetSuffices(L, Next(L, s, es[0]), es[1..], budget);
    }
  }

  // ... so it keeps the reservations, from power-on.
  lemma BudgetsReserve(L: Layout, s0: State, es: seq<Event>, budget: Budget)
    requires Start(L, s0) && Legal(L, s0, es) && InBudget(L, s0, es, budget)
    requires forall id :: |budget(id)| <= MAXOPBLOCKS
    ensures ReachedThriftily(L, Exec(L, s0, es))
  {
    BudgetSuffices(L, s0, es, budget);
  }
}
