/** When the resource guard's release and out-of-memory tick block each other (gptl-routing, resource_protection.rs). */
module Deadlock {
  import opened Bytes
  import opened ResourceGuard

  /** A release waits for the kill queue, which the tick holds while it waits for the quotas, which the release holds. */
  predicate Stuck(sys: System) {
    sys.tick.Holding? && exists t :: t in sys.tasks && sys.tasks[t].Freed?
  }

  /** Steps that go on with something begun. */
  predicate Finishes(step: Step) {
    !step.BeginAllocate? && !step.BeginRelease? && !step.OomCheck?
  }

  predicate Begun(sys: System) {
    !sys.tick.Resting? || exists t :: t in sys.tasks && !sys.tasks[t].Idle?
  }

  ghost predicate NothingGoesOn(sys: System) {
    forall step :: Finishes(step) ==> !Enabled(sys, step)
  }

  /** The quota lock has at most one holder. */
  predicate OneHolder(sys: System) {
    forall t, u :: t in sys.tasks && u in sys.tasks && UnderRelease(sys.tasks[t]) && UnderRelease(sys.tasks[u]) ==> t == u
  }

  /** Nothing that has begun can go on, exactly in a deadlock of one release and the tick: the locks allow no other. */
  lemma NothingGoesOnIff(sys: System)
    requires OneHolder(sys) && Begun(sys)
    ensures NothingGoesOn(sys) <==> Stuck(sys)
  {
    if !Stuck(sys) {
      if t :| t in sys.tasks && UnderRelease(sys.tasks[t]) {
        assert Enabled(sys, if sys.tasks[t].Removed? then FinishFree(t) else FinishRetain(t));
      } else if !sys.tick.Resting? {
        assert !QuotasLocked(sys);
        assert Enabled(sys, if sys.tick.Armed? then OomLock else OomFire);
      } else {
        var t :| t in sys.tasks && !sys.tasks[t].Idle?;
        assert Enabled(sys, if sys.tasks[t].Reserved? then FinishStore(t) else FinishEnqueue(t));
      }
    } else {
      var t :| t in sys.tasks && sys.tasks[t].Freed?;
      assert forall u :: u in sys.tasks && UnderRelease(sys.tasks[u]) ==> u == t;
    }
  }

  lemma StepKeepsOneHolder(sys: System, step: Step)
    requires OneHolder(sys) && Enabled(sys, step)
    ensures OneHolder(Take(sys, step))
  {
  }

  lemma {:induction false} RunKeepsOneHolder(sys: System, steps: seq<Step>)
    requires OneHolder(sys) && Legal(sys, steps)
    ensures OneHolder(Execute(sys, steps))
    decreases |steps|
  {
    if steps != [] {
      StepKeepsOneHolder(sys, steps[0]);
      RunKeepsOneHolder(Take(sys, steps[0]), steps[1..]);
    }
  }

  lemma StuckStep(sys: System, step: Step)
    requires OneHolder(sys) && Stuck(sys) && Enabled(sys, step)
    ensures step.BeginAllocate? && Stuck(Take(sys, step)) && OneHolder(Take(sys, step))
    ensures Take(sys, step).shared == sys.shared.(inUse := Take(sys, step).shared.inUse)
    ensures Take(sys, step).shared.inUse >= sys.shared.inUse
  {
    NothingGoesOnIff(sys);
    var t :| t in sys.tasks && sys.tasks[t].Freed?;
    assert QuotasLocked(sys);
    assert !step.BeginRelease? && !step.OomCheck? && !Finishes(step);
    var next := Take(sys, step);
    assert t in next.tasks && next.tasks[t].Freed?;
  }

  /** A deadlock is for ever: whatever is tried later, no quota is stored or released, no circuit queued or killed. */
  lemma {:induction false} DeadlockIsForever(sys: System, steps: seq<Step>)
    requires OneHolder(sys) && Stuck(sys) && Legal(sys, steps)
    ensures var end := Execute(sys, steps);
            && Stuck(end) && end.shared.inUse >= sys.shared.inUse
            && end.shared == sys.shared.(inUse := end.shared.inUse)
    decreases |steps|
  {
    if steps != [] {
      StuckStep(sys, steps[0]);
      DeadlockIsForever(Take(sys, steps[0]), steps[1..]);
    }
  }

  // ---------------------------------------------------------------- which pools can deadlock

  /** Circuits are verified at no more than the server's difficulty. */
  predicate Bounded(limit: nat, steps: seq<Step>) {
    forall i :: 0 <= i < |steps| && steps[i].BeginAllocate? ==> steps[i].difficulty <= limit
  }

  ghost predicate DeadlockReachable(total: nat, limit: nat) {
    exists steps :: Bounded(limit, steps) && Legal(NewSystem(total), steps) && Stuck(Execute(NewSystem(total), steps))
  }

  /** The memory of `n` circuits whose difficulties add up to `m`. */
  function Together(n: nat, m: nat): nat {
    n * BASE_QUOTA + m * QUOTA_PER_DIFFICULTY
  }

  /** Some circuits together fit the pool and put it under pressure. */
  ghost predicate PressurePossible(total: nat, limit: nat) {
    exists n: nat, m: nat :: m <= n * limit && 9 * total < 10 * Together(n, m) <= 10 * total
  }

  /** What some number of circuits reserve together. */
  ghost predicate IsTogether(limit: nat, x: nat) {
    exists n: nat, m: nat :: m <= n * limit && x == Together(n, m)
  }

  lemma TogetherAdds(limit: nat, x: nat, y: nat)
    requires IsTogether(limit, x) && IsTogether(limit, y)
    ensures IsTogether(limit, x + y)
  {
    var n: nat, m: nat :| m <= n * limit && x == Together(n, m);
    var k: nat, l: nat :| l <= k * limit && y == Together(k, l);
    assert (n + k) * limit == n * limit + k * limit;
    assert x + y == Together(n + k, m + l);
  }

  lemma OneQuota(limit: nat, d: nat)
    requires d <= limit
    ensures IsTogether(limit, MemoryQuota(d)) && IsTogether(limit, 0)
  {
    assert 1 * limit == limit;
    assert MemoryQuota(d) == Together(1, d) && 0 == Together(0, 0);
  }

  lemma {:induction false} SumIsTogether<K(!new)>(limit: nat, m: map<K, nat>)
    requires forall k :: k in m ==> IsTogether(limit, m[k])
    ensures IsTogether(limit, Sum(m))
    decreases m.Keys
  {
    if m == map[] {
      OneQuota(limit, 0);
    } else {
      var k :| k in m && Sum(m) == m[k] + Sum(m - {k});
      SumIsTogether(limit, m - {k});
      TogetherAdds(limit, m[k], Sum(m - {k}));
    }
  }

  /** Every amount on the account is that of one circuit. */
  ghost predicate Parts(limit: nat, sys: System) {
    && (forall id :: id in sys.shared.quotas ==> IsTogether(limit, sys.shared.quotas[id].maxMemory))
    && (forall t :: t in sys.tasks ==> IsTogether(limit, InFlight(sys.tasks[t])))
  }

  lemma InUseIsTogether(limit: nat, sys: System, lost: nat)
    requires Ledger(sys, lost) && Parts(limit, sys) && IsTogether(limit, lost)
    ensures IsTogether(limit, sys.shared.inUse)
  {
    SumIsTogether(limit, MaxMemory(sys.shared.quotas));
    SumIsTogether(limit, Owed(sys.tasks));
    TogetherAdds(limit, StoredMemory(sys.shared), InFlightMemory(sys.tasks));
    TogetherAdds(limit, StoredMemory(sys.shared) + InFlightMemory(sys.tasks), lost);
  }

  lemma StepKeepsParts(limit: nat, sys: System, step: Step, lost: nat)
    requires Parts(limit, sys) && Enabled(sys, step) && Ledger(sys, lost)
    requires step.BeginAllocate? ==> step.difficulty <= limit
    ensures Parts(limit, Take(sys, step)) && IsTogether(limit, Overwritten(sys, step))
  {
    OneQuota(limit, 0);
    match step
    case BeginAllocate(_, _, d) => OneQuota(limit, d);
    case FinishStore(t) => assert IsTogether(limit, InFlight(sys.tasks[t]));
    case OomFire => KillAllConserves(sys.shared, sys.shared.killQueue, InFlightMemory(sys.tasks) + lost);
    case _ =>
  }

  /** The tick has work only if pressure is possible. */
  ghost predicate TickNeedsPressure(limit: nat, sys: System) {
    !sys.tick.Resting? ==> PressurePossible(sys.shared.total, limit)
  }

  lemma StepKeepsTick(limit: nat, sys: System, step: Step, lost: nat)
    requires Parts(limit, sys) && Enabled(sys, step) && Ledger(sys, lost) && IsTogether(limit, lost)
    requires TickNeedsPressure(limit, sys)
    ensures TickNeedsPressure(limit, Take(sys, step)) && Take(sys, step).shared.total == sys.shared.total
  {
    if step.OomFire? {
      KillAllConserves(sys.shared, sys.shared.killQueue, InFlightMemory(sys.tasks) + lost);
    } else if step.OomCheck? && UnderPressure(sys.shared) {
      InUseIsTogether(limit, sys, lost);
      var n: nat, m: nat :| m <= n * limit && sys.shared.inUse == Together(n, m);
      assert 9 * sys.shared.total < 10 * Together(n, m) <= 10 * sys.shared.total;
    }
  }

  lemma {:induction false} RunNeedsPressure(limit: nat, sys: System, steps: seq<Step>, lost: nat)
    requires Parts(limit, sys) && Ledger(sys, lost) && IsTogether(limit, lost) && TickNeedsPressure(limit, sys)
    requires Legal(sys, steps) && Bounded(limit, steps)
    ensures TickNeedsPressure(limit, Execute(sys, steps)) && Execute(sys, steps).shared.total == sys.shared.total
    decreases |steps|
  {
    if steps != [] {
      StepKeepsParts(limit, sys, steps[0], lost);
      StepKeepsTick(limit, sys, steps[0], lost);
      StepKeepsLedger(sys, steps[0], lost);
      TogetherAdds(limit, lost, Overwritten(sys, steps[0]));
      RunNeedsPressure(limit, Take(sys, steps[0]), steps[1..], lost + Overwritten(sys, steps[0]));
    }
  }

  lemma {:induction false} OneMoreStep(sys: System, steps: seq<Step>, step: Step)
    requires Legal(sys, steps) && Enabled(Execute(sys, steps), step)
    ensures Legal(sys, steps + [step]) && Execute(sys, steps + [step]) == Take(Execute(sys, steps), step)
    decreases |steps|
  {
    if steps == [] {
      assert [] + [step] == [step] && [step][1..] == [];
    } else {
      assert (steps + [step])[1..] == steps[1..] + [step];
      OneMoreStep(Take(sys, steps[0]), steps[1..], step);
    }
  }

  /** Nothing but reservations of the first `n` tasks. */
  predicate JustReserved(sys: System, total: nat, n: nat, inUse: nat) {
    && sys.shared == Shared(total, inUse, map[], []) && sys.tick == Resting
    && forall t :: t in sys.tasks ==> t < n && sys.tasks[t].Reserved?
  }

  lemma {:induction false} ReserveMany(total: nat, limit: nat, n: nat, m: nat) returns (steps: seq<Step>)
    requires m <= n * limit && Together(n, m) <= total
    ensures Legal(NewSystem(total), steps) && Bounded(limit, steps)
    ensures JustReserved(Execute(NewSystem(total), steps), total, n, Together(n, m))
    decreases n
  {
    if n == 0 {
      return [];
    }
    var d := if m < limit then m else limit;
    assert m - d <= (n - 1) * limit by { assert n * limit == (n - 1) * limit + limit; NotNegative(n - 1, limit); }
    steps := ReserveMany(total, limit, n - 1, m - d);
    assert Together(n, m) == Together(n - 1, m - d) + MemoryQuota(d);
    OneMoreStep(NewSystem(total), steps, BeginAllocate(n - 1, 0, d));
    steps := steps + [BeginAllocate(n - 1, 0, d)];
  }

  lemma NotNegative(a: nat, b: nat)
    ensures 0 <= a * b
  {
  }

  /** The tick checks, a release starts, the tick locks, and the release goes on as far as it can. */
  lemma FourSteps(sys: System, total: nat, n: nat, inUse: nat)
    requires JustReserved(sys, total, n, inUse) && 9 * total < 10 * inUse
    ensures Enabled(sys, OomCheck)
    ensures var armed := Take(sys, OomCheck);
            && Enabled(armed, BeginRelease(n, 0))
            && var releasing := Take(armed, BeginRelease(n, 0));
               && Enabled(releasing, OomLock)
               && var held := Take(releasing, OomLock);
                  Enabled(held, FinishFree(n)) && Stuck(Take(held, FinishFree(n)))
  {
    var end := Take(Take(Take(Take(sys, OomCheck), BeginRelease(n, 0)), OomLock), FinishFree(n));
    assert end.tasks[n].Freed?;
  }

  /** Under pressure a release between the tick's check and its lock ends in a deadlock, even of an unknown circuit. */
  lemma PressureDeadlocks(total: nat, limit: nat, n: nat, m: nat)
    requires m <= n * limit && 9 * total < 10 * Together(n, m) <= 10 * total
    ensures DeadlockReachable(total, limit)
  {
    var start := NewSystem(total);
    var steps := ReserveMany(total, limit, n, m);
    FourSteps(Execute(start, steps), total, n, Together(n, m));
    OneMoreStep(start, steps, OomCheck);
    OneMoreStep(start, steps + [OomCheck], BeginRelease(n, 0));
    OneMoreStep(start, steps + [OomCheck] + [BeginRelease(n, 0)], OomLock);
    OneMoreStep(start, steps + [OomCheck] + [BeginRelease(n, 0)] + [OomLock], FinishFree(n));
    assert Bounded(limit, steps + [OomCheck] + [BeginRelease(n, 0)] + [OomLock] + [FinishFree(n)]);
  }

  /** A guard can deadlock exactly if the tick can ever find its pool under pressure. */
  lemma DeadlockReachableIff(total: nat, limit: nat)
    ensures DeadlockReachable(total, limit) <==> PressurePossible(total, limit)
  {
    if DeadlockReachable(total, limit) {
      var steps :| Bounded(limit, steps) && Legal(NewSystem(total), steps) && Stuck(Execute(NewSystem(total), steps));
      NewSystemInv(total);
      OneQuota(limit, 0);
      RunNeedsPressure(limit, NewSystem(total), steps, 0);
    }
    if PressurePossible(total, limit) {
      var n: nat, m: nat :| m <= n * limit && 9 * total < 10 * Together(n, m) <= 10 * total;
      PressureDeadlocks(total, limit, n, m);
    }
  }

  const DEFAULT_DIFFICULTY := 20

  /** So can one with the default pool and difficulty: four circuits verified at 14 of 20 suffice. */
  lemma DefaultDeadlocks()
    ensures DeadlockReachable(DEFAULT_TOTAL, DEFAULT_DIFFICULTY)
  {
    PressureDeadlocks(DEFAULT_TOTAL, DEFAULT_DIFFICULTY, 4, 56);
  }
}
