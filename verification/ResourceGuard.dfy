/**
 Memory accounting for circuits (gptl-routing, resource_protection.rs): allocation, release and the out-of-memory
 tick as separately locked sections, interleaved in any order between any number of tasks. The tick locks the kill
 queue first and keeps it while it waits for the quotas; a release keeps the quotas while it waits for the kill queue.
 */
module ResourceGuard {
  import opened Bytes

  const MIB := 1024 * 1024
  const BASE_QUOTA := 100 * MIB
  const QUOTA_PER_DIFFICULTY := 10 * MIB
  const DEFAULT_TOTAL := 1024 * MIB

  datatype CircuitQuota = CircuitQuota(maxMemory: nat, maxBandwidth: nat, currentMemory: nat)

  /** A circuit awaiting its turn to be killed, and the difficulty its proof of work was verified at. */
  datatype KillEntry = KillEntry(circuitId: U32, difficulty: nat)

  /** Everything behind the three locks: the pool, the quotas and the kill queue. */
  datatype Shared = Shared(total: nat, inUse: nat, quotas: map<U32, CircuitQuota>, killQueue: seq<KillEntry>)

  function MemoryQuota(difficulty: nat): nat {
    BASE_QUOTA + difficulty * QUOTA_PER_DIFFICULTY
  }

  function BandwidthQuota(difficulty: nat): nat {
    MIB + difficulty * 512 * 1024
  }

  function SaturatingSub(a: nat, b: nat): nat {
    if b <= a then a - b else 0
  }

  // ---------------------------------------------------------------- locked sections, on values

  /** Under the pool lock: reserve, unless that would exceed the total. */
  function Reserve(s: Shared, quota: nat): Option<Shared> {
    if s.inUse + quota > s.total then None else Some(s.(inUse := s.inUse + quota))
  }

  /** Under the quota lock: store, replacing whatever was there. */
  function Store(s: Shared, id: U32, difficulty: nat): Shared {
    s.(quotas := s.quotas[id := CircuitQuota(MemoryQuota(difficulty), BandwidthQuota(difficulty), 0)])
  }

  /** Under the out-of-memory lock: append and sort by difficulty, keeping ties in order. */
  function Enqueue(s: Shared, id: U32, difficulty: nat): Shared {
    s.(killQueue := StableSort(s.killQueue + [KillEntry(id, difficulty)]))
  }

  function Free(s: Shared, amount: nat): Shared {
    s.(inUse := SaturatingSub(s.inUse, amount))
  }

  function Retain(s: Shared, id: U32): Shared {
    s.(killQueue := Without(s.killQueue, id))
  }

  function Without(q: seq<KillEntry>, id: U32): seq<KillEntry> {
    if q == [] then [] else (if q[0].circuitId == id then [] else [q[0]]) + Without(q[1..], id)
  }

  /** Kill the circuits of a queue from its front, returning each stored quota to the pool. */
  function KillAll(s: Shared, queue: seq<KillEntry>): Shared
    decreases |queue|
  {
    if queue == [] then s
    else
      var id := queue[0].circuitId;
      KillAll(if id in s.quotas
              then s.(inUse := SaturatingSub(s.inUse, s.quotas[id].maxMemory), quotas := s.quotas - {id})
              else s,
              queue[1..])
  }

  function OomKill(s: Shared): Shared {
    KillAll(s, s.killQueue).(killQueue := [])
  }

  /** More than nine tenths of the pool in use. */
  predicate UnderPressure(s: Shared) {
    10 * s.inUse > 9 * s.total
  }

  /** What a circuit is granted: 100 MiB and 10 more for each bit of difficulty, 1 MiB and a half more in bandwidth. */
  lemma QuotaInNumbers(s: Shared, id: U32, difficulty: nat)
    ensures var next := Store(s, id, difficulty);
            && id in next.quotas
            && next.quotas[id] == CircuitQuota(104_857_600 + 10_485_760 * difficulty, 1_048_576 + 524_288 * difficulty, 0)
            && next == s.(quotas := next.quotas)
            && next.quotas.Keys == s.quotas.Keys + {id}
            && forall other :: other in s.quotas && other != id ==> next.quotas[other] == s.quotas[other]
  {
  }

  // ---------------------------------------------------------------- stable sorting by difficulty

  predicate Sorted(q: seq<KillEntry>) {
    forall i, j :: 0 <= i < j < |q| ==> q[i].difficulty <= q[j].difficulty
  }

  /** Insert after every entry of at most the same difficulty. */
  function Insert(q: seq<KillEntry>, e: KillEntry): seq<KillEntry> {
    if q == [] then [e]
    else if q[|q| - 1].difficulty <= e.difficulty then q + [e]
    else Insert(q[..|q| - 1], e) + [q[|q| - 1]]
  }

  function StableSort(q: seq<KillEntry>): seq<KillEntry> {
    if q == [] then [] else Insert(StableSort(q[..|q| - 1]), q[|q| - 1])
  }

  /** The entries of one difficulty, in order: what a stable sort must not disturb. */
  function OfDifficulty(q: seq<KillEntry>, d: nat): seq<KillEntry> {
    if q == [] then []
    else OfDifficulty(q[..|q| - 1], d) + if q[|q| - 1].difficulty == d then [q[|q| - 1]] else []
  }

  lemma {:induction false} InsertSorts(q: seq<KillEntry>, e: KillEntry)
    requires Sorted(q)
    ensures Sorted(Insert(q, e))
    ensures forall x :: x in Insert(q, e) <==> x in q || x == e
  {
    if q != [] && q[|q| - 1].difficulty > e.difficulty {
      var n := |q| - 1;
      InsertSorts(q[..n], e);
      assert forall x :: x in q <==> x in q[..n] || x == q[n];
      var r := Insert(q[..n], e);
      forall i | 0 <= i < |r| ensures r[i].difficulty <= q[n].difficulty {
        assert r[i] in r;
      }
    }
  }

  lemma LastCounted(q: seq<KillEntry>)
    requires q != []
    ensures multiset(q) == multiset(q[..|q| - 1]) + multiset{q[|q| - 1]}
  {
    assert q == q[..|q| - 1] + [q[|q| - 1]];
  }

  lemma {:induction false} InsertAddsOne(q: seq<KillEntry>, e: KillEntry)
    ensures multiset(Insert(q, e)) == multiset(q) + multiset{e}
  {
    if q != [] && q[|q| - 1].difficulty > e.difficulty {
      var n := |q| - 1;
      InsertAddsOne(q[..n], e);
      LastCounted(q);
    }
  }

  lemma {:induction false} InsertKeepsTies(q: seq<KillEntry>, e: KillEntry, d: nat)
    ensures OfDifficulty(Insert(q, e), d) == OfDifficulty(q, d) + if e.difficulty == d then [e] else []
  {
    if q == [] {
      assert [e][..0] == [];
    } else {
      var n := |q| - 1;
      if q[n].difficulty <= e.difficulty {
        assert (q + [e])[..|q|] == q;
      } else {
        InsertKeepsTies(q[..n], e, d);
        var r := Insert(q[..n], e);
        assert (r + [q[n]])[..|r|] == r;
      }
    }
  }

  lemma {:induction false} StableSortPermutes(q: seq<KillEntry>)
    ensures multiset(StableSort(q)) == multiset(q)
  {
    if q != [] {
      var n := |q| - 1;
      StableSortPermutes(q[..n]);
      InsertAddsOne(StableSort(q[..n]), q[n]);
      LastCounted(q);
    }
  }

  /** The sort orders by difficulty, loses and invents nothing, and keeps entries of equal difficulty in order. */
  lemma {:induction false} StableSortSorts(q: seq<KillEntry>, d: nat)
    ensures Sorted(StableSort(q)) && multiset(StableSort(q)) == multiset(q)
    ensures OfDifficulty(StableSort(q), d) == OfDifficulty(q, d)
  {
    StableSortPermutes(q);
    if q != [] {
      var n := |q| - 1;
      StableSortSorts(q[..n], d);
      InsertSorts(StableSort(q[..n]), q[n]);
      InsertKeepsTies(StableSort(q[..n]), q[n], d);
    }
  }

  lemma {:induction false} WithoutKeepsSorted(q: seq<KillEntry>, id: U32)
    requires Sorted(q)
    ensures Sorted(Without(q, id)) && forall e :: e in Without(q, id) <==> e in q && e.circuitId != id
  {
    if q != [] {
      WithoutKeepsSorted(q[1..], id);
      var r := Without(q[1..], id);
      forall i | 0 <= i < |r| ensures q[0].difficulty <= r[i].difficulty {
        assert r[i] in q[1..];
      }
      assert forall e :: e in q <==> e == q[0] || e in q[1..];
    }
  }

  // ---------------------------------------------------------------- the guard

  class Guard {
    var total: nat
    var inUse: nat
    var quotas: map<U32, CircuitQuota>
    var killQueue: seq<KillEntry>

    function State(): Shared
      reads this
    {
      Shared(total, inUse, quotas, killQueue)
    }

    constructor ()
      ensures State() == Shared(DEFAULT_TOTAL, 0, map[], [])
    {
      total, inUse, quotas, killQueue := DEFAULT_TOTAL, 0, map[], [];
    }

    method ReserveMemory(quota: nat) returns (ok: bool)
      modifies this`inUse
      ensures ok <==> old(inUse) + quota <= total
      ensures State() == if ok then old(State()).(inUse := old(inUse) + quota) else old(State())
      ensures ok <==> Reserve(old(State()), quota).Some?
      ensures State() == if ok then Reserve(old(State()), quota).value else old(State())
    {
      if inUse + quota > total { return false; }
      inUse := inUse + quota;
      return true;
    }

    method StoreQuota(id: U32, difficulty: nat)
      modifies this`quotas
      ensures State() == Store(old(State()), id, difficulty)
    {
      quotas := quotas[id := CircuitQuota(MemoryQuota(difficulty), BandwidthQuota(difficulty), 0)];
    }

    method EnqueueKill(id: U32, difficulty: nat)
      modifies this`killQueue
      ensures State() == Enqueue(old(State()), id, difficulty)
    {
      var unsorted := killQueue + [KillEntry(id, difficulty)];
      var sorted: seq<KillEntry> := [];
      for i := 0 to |unsorted|
        invariant sorted == StableSort(unsorted[..i])
      {
        assert unsorted[..i + 1][..i] == unsorted[..i];
        sorted := Insert(sorted, unsorted[i]);
      }
      assert unsorted[..|unsorted|] == unsorted;
      killQueue := sorted;
    }

    /** First section of release: take the quota out, keeping its lock. */
    method RemoveQuota(id: U32) returns (amount: Option<nat>)
      modifies this`quotas
      ensures amount == if id in old(quotas) then Some(old(quotas)[id].maxMemory) else None
      ensures State() == old(State()).(quotas := old(quotas) - {id})
    {
      amount := if id in quotas then Some(quotas[id].maxMemory) else None;
      quotas := quotas - {id};
    }

    method FreeMemory(amount: nat)
      modifies this`inUse
      ensures State() == Free(old(State()), amount)
    {
      inUse := SaturatingSub(inUse, amount);
    }

    method RetainOthers(id: U32)
      modifies this`killQueue
      ensures State() == Retain(old(State()), id)
    {
      killQueue := Without(killQueue, id);
    }

    /** The killing half of the tick, under all three locks. */
    method OomTick()
      modifies this
      ensures State() == OomKill(old(State()))
    {
      ghost var start := State();
      for i := 0 to |killQueue|
        invariant total == start.total && killQueue == start.killQueue
        invariant KillAll(State(), killQueue[i..]) == KillAll(start, start.killQueue)
      {
        var id := killQueue[i].circuitId;
        if id in quotas {
          inUse := SaturatingSub(inUse, quotas[id].maxMemory);
          quotas := quotas - {id};
        }
        assert killQueue[i..][1..] == killQueue[i + 1..];
      }
      killQueue := [];
    }
  }

  // ---------------------------------------------------------------- sums

  /** The sum of all values of a map. */
  ghost function Sum<K(!new)>(m: map<K, nat>): nat
    decreases m.Keys
  {
    if m == map[] then 0
    else
      var k :| k in m;
      m[k] + Sum(m - {k})
  }

  lemma {:induction false} SumRemove<K(!new)>(m: map<K, nat>, k: K)
    requires k in m
    ensures Sum(m) == m[k] + Sum(m - {k})
    decreases m.Keys
  {
    var j :| j in m && Sum(m) == m[j] + Sum(m - {j});
    if j != k {
      SumRemove(m - {j}, k);
      SumRemove(m - {k}, j);
      assert m - {j} - {k} == m - {k} - {j};
    }
  }

  lemma SumUpdate<K(!new)>(m: map<K, nat>, k: K, v: nat)
    ensures Sum(m[k := v]) == v + Sum(m - {k})
    ensures Sum(m) == (if k in m then m[k] else 0) + Sum(m - {k})
  {
    SumRemove(m[k := v], k);
    assert m[k := v] - {k} == m - {k};
    if k in m { SumRemove(m, k); } else { assert m - {k} == m; }
  }

  // ---------------------------------------------------------------- interleaved tasks

  /**
   Where a task is between two sections: allocating with memory reserved, allocating with its quota stored, or
   releasing with the quota taken out (and its lock held) before and after the memory is freed.
   */
  datatype Task =
    | Idle
    | Reserved(id: U32, difficulty: nat)
    | Stored(id: U32, difficulty: nat)
    | Removed(id: U32, amount: Option<nat>)
    | Freed(id: U32)

  /** The tick: at rest, about to lock after it read the pool under pressure, or holding the lock of the kill queue. */
  datatype Tick = Resting | Armed | Holding

  datatype System = System(shared: Shared, tasks: map<nat, Task>, tick: Tick)

  datatype Step =
    | BeginAllocate(task: nat, id: U32, difficulty: nat)
    | FinishStore(task: nat)
    | FinishEnqueue(task: nat)
    | BeginRelease(task: nat, id: U32)
    | FinishFree(task: nat)
    | FinishRetain(task: nat)
    | OomCheck
    | OomLock
    | OomFire

  function At(sys: System, task: nat): Task {
    if task in sys.tasks then sys.tasks[task] else Idle
  }

  /** A releasing task holds the quota lock from its first section to its last. */
  predicate QuotasLocked(sys: System) {
    exists t :: t in sys.tasks && (sys.tasks[t].Removed? || sys.tasks[t].Freed?)
  }

  predicate Enabled(sys: System, step: Step) {
    match step
    case BeginAllocate(t, _, _) => At(sys, t).Idle?
    case FinishStore(t) => At(sys, t).Reserved? && !QuotasLocked(sys)
    case FinishEnqueue(t) => At(sys, t).Stored? && !sys.tick.Holding?
    case BeginRelease(t, _) => At(sys, t).Idle? && !QuotasLocked(sys)
    case FinishFree(t) => At(sys, t).Removed?
    case FinishRetain(t) => At(sys, t).Freed? && !sys.tick.Holding?
    case OomCheck => sys.tick.Resting?
    case OomLock => sys.tick.Armed?
    case OomFire => sys.tick.Holding? && !QuotasLocked(sys)
  }

  function Take(sys: System, step: Step): System
    requires Enabled(sys, step)
  {
    var s := sys.shared;
    match step
    case BeginAllocate(t, id, d) =>
      (match Reserve(s, MemoryQuota(d))
       case None => sys
       case Some(next) => sys.(shared := next, tasks := sys.tasks[t := Reserved(id, d)]))
    case FinishStore(t) =>
      var Reserved(id, d) := sys.tasks[t];
      sys.(shared := Store(s, id, d), tasks := sys.tasks[t := Stored(id, d)])
    case FinishEnqueue(t) =>
      var Stored(id, d) := sys.tasks[t];
      sys.(shared := Enqueue(s, id, d), tasks := sys.tasks[t := Idle])
    case BeginRelease(t, id) =>
      var amount := if id in s.quotas then Some(s.quotas[id].maxMemory) else None;
      sys.(shared := s.(quotas := s.quotas - {id}), tasks := sys.tasks[t := Removed(id, amount)])
    case FinishFree(t) =>
      var Removed(id, amount) := sys.tasks[t];
      sys.(shared := if amount.Some? then Free(s, amount.value) else s, tasks := sys.tasks[t := Freed(id)])
    case FinishRetain(t) => sys.(shared := Retain(s, sys.tasks[t].id), tasks := sys.tasks[t := Idle])
    case OomCheck => sys.(tick := if UnderPressure(s) then Armed else Resting)
    case OomLock => sys.(tick := Holding)
    case OomFire => sys.(shared := OomKill(s), tick := Resting)
  }

  /** What a task has taken from the pool that no stored quota accounts for. */
  function InFlight(t: Task): nat {
    match t
    case Reserved(_, d) => MemoryQuota(d)
    case Removed(_, Some(amount)) => amount
    case _ => 0
  }

  function MaxMemory(quotas: map<U32, CircuitQuota>): map<U32, nat> {
    map id | id in quotas :: quotas[id].maxMemory
  }

  function Owed(tasks: map<nat, Task>): map<nat, nat> {
    map t | t in tasks :: InFlight(tasks[t])
  }

  ghost function StoredMemory(s: Shared): nat {
    Sum(MaxMemory(s.quotas))
  }

  ghost function InFlightMemory(tasks: map<nat, Task>): nat {
    Sum(Owed(tasks))
  }

  ghost predicate Conserved(sys: System) {
    sys.shared.inUse == StoredMemory(sys.shared) + InFlightMemory(sys.tasks)
  }

  /** The account with `lost` bytes in use that nothing stored or in flight stands for. */
  ghost predicate Ledger(sys: System, lost: nat) {
    && sys.shared.inUse == StoredMemory(sys.shared) + InFlightMemory(sys.tasks) + lost
    && sys.shared.inUse <= sys.shared.total
    && Sorted(sys.shared.killQueue)
    && forall id :: id in sys.shared.quotas ==> sys.shared.quotas[id].maxMemory >= BASE_QUOTA
  }

  ghost predicate Inv(sys: System) {
    Ledger(sys, 0)
  }

  /** What a store overwrites: the quota of a circuit that already has the identifier. */
  function Overwritten(sys: System, step: Step): nat
    requires Enabled(sys, step)
  {
    if step.FinishStore? && sys.tasks[step.task].id in sys.shared.quotas
    then sys.shared.quotas[sys.tasks[step.task].id].maxMemory
    else 0
  }

  /** The identifier that a store is about to use is not in use. */
  predicate FreshId(sys: System, step: Step)
    requires Enabled(sys, step)
  {
    step.FinishStore? ==> sys.tasks[step.task].id !in sys.shared.quotas
  }

  lemma TaskMoves(tasks: map<nat, Task>, t: nat, next: Task)
    ensures InFlightMemory(tasks[t := next])
         == InFlightMemory(tasks) + InFlight(next) - InFlight(if t in tasks then tasks[t] else Idle)
  {
    SumUpdate(Owed(tasks), t, InFlight(next));
    assert Owed(tasks[t := next]) == Owed(tasks)[t := InFlight(next)];
  }

  lemma QuotaStored(s: Shared, id: U32, d: nat)
    ensures StoredMemory(Store(s, id, d))
         == StoredMemory(s) + MemoryQuota(d) - if id in s.quotas then s.quotas[id].maxMemory else 0
  {
    SumUpdate(MaxMemory(s.quotas), id, MemoryQuota(d));
    assert MaxMemory(Store(s, id, d).quotas) == MaxMemory(s.quotas)[id := MemoryQuota(d)];
  }

  lemma QuotaRemoved(s: Shared, id: U32)
    ensures StoredMemory(s)
         == StoredMemory(s.(quotas := s.quotas - {id})) + if id in s.quotas then s.quotas[id].maxMemory else 0
  {
    SumUpdate(MaxMemory(s.quotas), id, 0);
    assert MaxMemory(s.quotas - {id}) == MaxMemory(s.quotas) - {id};
  }

  /**
   A tick kills every queued circuit, whatever its place in the queue, and nothing else; it gives back exactly what
   the killed circuits had stored, so no subtraction saturates.
   */
  lemma {:induction false} KillAllConserves(s: Shared, queue: seq<KillEntry>, inFlight: nat)
    requires s.inUse == StoredMemory(s) + inFlight
    ensures KillAll(s, queue).inUse == StoredMemory(KillAll(s, queue)) + inFlight
    ensures KillAll(s, queue).inUse <= s.inUse && KillAll(s, queue).total == s.total
    ensures forall id :: id in KillAll(s, queue).quotas <==> id in s.quotas && forall e :: e in queue ==> e.circuitId != id
    ensures forall id :: id in KillAll(s, queue).quotas ==> KillAll(s, queue).quotas[id] == s.quotas[id]
    decreases |queue|
  {
    if queue != [] {
      var id := queue[0].circuitId;
      if id in s.quotas {
        QuotaRemoved(s, id);
        KillAllConserves(s.(inUse := s.inUse - s.quotas[id].maxMemory, quotas := s.quotas - {id}), queue[1..], inFlight);
      } else {
        KillAllConserves(s, queue[1..], inFlight);
      }
    }
  }

  lemma AllocateKeepsLedger(sys: System, step: Step, lost: nat)
    requires Ledger(sys, lost) && Enabled(sys, step)
    requires step.BeginAllocate? || step.FinishStore?
    ensures Ledger(Take(sys, step), lost + Overwritten(sys, step))
  {
    match step
    case BeginAllocate(t, id, d) => TaskMoves(sys.tasks, t, Reserved(id, d));
    case FinishStore(t) =>
      var Reserved(id, d) := sys.tasks[t];
      TaskMoves(sys.tasks, t, Stored(id, d));
      QuotaStored(sys.shared, id, d);
  }

  lemma EnqueueKeepsLedger(sys: System, t: nat, lost: nat)
    requires Ledger(sys, lost) && Enabled(sys, FinishEnqueue(t))
    ensures Ledger(Take(sys, FinishEnqueue(t)), lost)
  {
    var Stored(id, d) := sys.tasks[t];
    TaskMoves(sys.tasks, t, Idle);
    StableSortSorts(sys.shared.killQueue + [KillEntry(id, d)], d);
  }

  lemma ReleaseKeepsLedger(sys: System, step: Step, lost: nat)
    requires Ledger(sys, lost) && Enabled(sys, step)
    requires step.BeginRelease? || step.FinishFree? || step.FinishRetain?
    ensures Ledger(Take(sys, step), lost)
  {
    var s := sys.shared;
    match step
    case BeginRelease(t, id) =>
      TaskMoves(sys.tasks, t, Removed(id, if id in s.quotas then Some(s.quotas[id].maxMemory) else None));
      QuotaRemoved(s, id);
    case FinishFree(t) =>
      TaskMoves(sys.tasks, t, Freed(sys.tasks[t].id));
    case FinishRetain(t) =>
      TaskMoves(sys.tasks, t, Idle);
      WithoutKeepsSorted(s.killQueue, sys.tasks[t].id);
  }

  /** Whatever the step, the loss grows by exactly what it overwrites. */
  lemma StepKeepsLedger(sys: System, step: Step, lost: nat)
    requires Ledger(sys, lost) && Enabled(sys, step)
    ensures Ledger(Take(sys, step), lost + Overwritten(sys, step))
  {
    match step
    case BeginAllocate(_, _, _) => AllocateKeepsLedger(sys, step, lost);
    case FinishStore(_) => AllocateKeepsLedger(sys, step, lost);
    case FinishEnqueue(t) => EnqueueKeepsLedger(sys, t, lost);
    case BeginRelease(_, _) => ReleaseKeepsLedger(sys, step, lost);
    case FinishFree(_) => ReleaseKeepsLedger(sys, step, lost);
    case FinishRetain(_) => ReleaseKeepsLedger(sys, step, lost);
    case OomCheck =>
    case OomLock =>
    case OomFire => KillAllConserves(sys.shared, sys.shared.killQueue, InFlightMemory(sys.tasks) + lost);
  }

  /** Steps that their locks allow. */
  predicate Legal(sys: System, steps: seq<Step>)
    decreases |steps|
  {
    steps != [] ==> Enabled(sys, steps[0]) && Legal(Take(sys, steps[0]), steps[1..])
  }

  /** No store meets an identifier in use. */
  predicate AllFresh(sys: System, steps: seq<Step>)
    requires Legal(sys, steps)
    decreases |steps|
  {
    steps != [] ==> FreshId(sys, steps[0]) && AllFresh(Take(sys, steps[0]), steps[1..])
  }

  function Execute(sys: System, steps: seq<Step>): System
    requires Legal(sys, steps)
    decreases |steps|
  {
    if steps == [] then sys else Execute(Take(sys, steps[0]), steps[1..])
  }

  /** All quotas overwritten in the course of an execution. */
  function Lost(sys: System, steps: seq<Step>): nat
    requires Legal(sys, steps)
    decreases |steps|
  {
    if steps == [] then 0 else Overwritten(sys, steps[0]) + Lost(Take(sys, steps[0]), steps[1..])
  }

  function NewSystem(total: nat): System {
    System(Shared(total, 0, map[], []), map[], Resting)
  }

  /**
   In every interleaving of the sections, what the pool counts as in use is exactly what is stored, what is in flight
   and all that was ever overwritten; it never exceeds the total, and the kill queue stays sorted by difficulty.
   */
  lemma {:induction false} ExecutionKeepsLedger(sys: System, steps: seq<Step>, lost: nat)
    requires Ledger(sys, lost) && Legal(sys, steps)
    ensures Ledger(Execute(sys, steps), lost + Lost(sys, steps))
    decreases |steps|
  {
    if steps != [] {
      StepKeepsLedger(sys, steps[0], lost);
      ExecutionKeepsLedger(Take(sys, steps[0]), steps[1..], lost + Overwritten(sys, steps[0]));
    }
  }

  lemma {:induction false} NothingLostIffFresh(sys: System, steps: seq<Step>, lost: nat)
    requires Ledger(sys, lost) && Legal(sys, steps)
    ensures Lost(sys, steps) == 0 <==> AllFresh(sys, steps)
    decreases |steps|
  {
    if steps != [] {
      StepKeepsLedger(sys, steps[0], lost);
      NothingLostIffFresh(Take(sys, steps[0]), steps[1..], lost + Overwritten(sys, steps[0]));
    }
  }

  /** Conservation: with fresh identifiers the pool counts exactly what is stored and in flight. */
  lemma ExecutionKeepsInv(sys: System, steps: seq<Step>)
    requires Inv(sys) && Legal(sys, steps) && AllFresh(sys, steps)
    ensures Inv(Execute(sys, steps))
  {
    ExecutionKeepsLedger(sys, steps, 0);
    NothingLostIffFresh(sys, steps, 0);
  }

  lemma NewSystemInv(total: nat)
    ensures Inv(NewSystem(total))
  {
    assert MaxMemory(map[]) == map[] && Owed(map[]) == map[];
  }

  /**
   From a new guard on: the loss is never made good, so memory is conserved at the end of an execution exactly if no
   store in it met an identifier in use.
   */
  lemma ConservedIffFresh(total: nat, steps: seq<Step>)
    requires Legal(NewSystem(total), steps)
    ensures var end := Execute(NewSystem(total), steps);
            && Ledger(end, Lost(NewSystem(total), steps))
            && (Conserved(end) <==> AllFresh(NewSystem(total), steps))
  {
    NewSystemInv(total);
    ExecutionKeepsLedger(NewSystem(total), steps, 0);
    NothingLostIffFresh(NewSystem(total), steps, 0);
  }

  /** No subtraction ever saturates: a task about to free memory frees no more than is in use. */
  lemma FreeNeverSaturates(sys: System, t: nat, amount: nat, lost: nat)
    requires Ledger(sys, lost) && t in sys.tasks && sys.tasks[t].Removed? && sys.tasks[t].amount == Some(amount)
    ensures amount <= sys.shared.inUse
  {
    TaskMoves(sys.tasks, t, Idle);
  }

  /** When no task is between sections, the pool counts exactly the stored quotas. */
  lemma QuiescentPoolIsStored(sys: System)
    requires Inv(sys) && forall t :: t in sys.tasks ==> InFlight(sys.tasks[t]) == 0
    ensures sys.shared.inUse == StoredMemory(sys.shared)
  {
    AllZero(Owed(sys.tasks));
  }

  lemma {:induction false} AllZero<K(!new)>(m: map<K, nat>)
    requires forall k :: k in m ==> m[k] == 0
    ensures Sum(m) == 0
    decreases m.Keys
  {
    if m != map[] {
      var k :| k in m && Sum(m) == m[k] + Sum(m - {k});
      AllZero(m - {k});
    }
  }

  /**
   Freshness is exactly what a store needs: circuit identifiers are drawn at random, and storing under one in use
   loses the quota stored there from the account.
   */
  lemma StoreConservesIffFresh(sys: System, t: nat)
    requires Inv(sys) && Enabled(sys, FinishStore(t))
    ensures Conserved(Take(sys, FinishStore(t))) <==> sys.tasks[t].id !in sys.shared.quotas
  {
    var Reserved(id, d) := sys.tasks[t];
    TaskMoves(sys.tasks, t, Stored(id, d));
    QuotaStored(sys.shared, id, d);
  }

  // ---------------------------------------------------------------- no circuit escapes the kill queue

  ghost predicate Queued(q: seq<KillEntry>, id: U32) {
    exists e :: e in q && e.circuitId == id
  }

  /** Some task has stored the quota and is about to queue the circuit. */
  predicate BeingQueued(tasks: map<nat, Task>, id: U32) {
    exists t :: t in tasks && tasks[t].Stored? && tasks[t].id == id
  }

  predicate UnderRelease(t: Task) {
    t.Removed? || t.Freed?
  }

  /** Every stored circuit is queued or about to be, and none is stored that is under release. */
  ghost predicate Killable(sys: System) {
    && (forall id :: id in sys.shared.quotas ==> Queued(sys.shared.killQueue, id) || BeingQueued(sys.tasks, id))
    && (forall t :: t in sys.tasks && UnderRelease(sys.tasks[t]) ==> sys.tasks[t].id !in sys.shared.quotas)
  }

  lemma {:induction false} WithoutKeepsOthers(q: seq<KillEntry>, id: U32, other: U32)
    requires id != other
    ensures Queued(Without(q, id), other) <==> Queued(q, other)
  {
    if q != [] {
      WithoutKeepsOthers(q[1..], id, other);
      if Queued(q, other) {
        var e :| e in q && e.circuitId == other;
        if e == q[0] {
          assert e == Without(q, id)[0];
        } else {
          assert e in q[1..];
          var r :| r in Without(q[1..], id) && r.circuitId == other;
          assert r in Without(q, id);
        }
      }
      if Queued(Without(q, id), other) {
        var e :| e in Without(q, id) && e.circuitId == other;
        if e != q[0] {
          assert e in Without(q[1..], id);
          var r :| r in q[1..] && r.circuitId == other;
          assert r in q;
        }
      }
    }
  }

  /** A task that moves on from anywhere but the gap before queueing leaves the gaps of all others. */
  lemma StillBeingQueued(tasks: map<nat, Task>, t: nat, next: Task, id: U32)
    requires BeingQueued(tasks, id) && (t in tasks ==> !tasks[t].Stored? || tasks[t].id != id)
    ensures BeingQueued(tasks[t := next], id)
  {
    var k :| k in tasks && tasks[k].Stored? && tasks[k].id == id;
    assert tasks[t := next][k] == tasks[k];
  }

  lemma StoreKeepsKillable(sys: System, t: nat)
    requires Killable(sys) && Enabled(sys, FinishStore(t))
    ensures Killable(Take(sys, FinishStore(t)))
  {
    var next := Take(sys, FinishStore(t));
    var Reserved(id, d) := sys.tasks[t];
    assert next.tasks[t] == Stored(id, d);
    forall other | other in next.shared.quotas && other != id
      ensures Queued(next.shared.killQueue, other) || BeingQueued(next.tasks, other)
    {
      if BeingQueued(sys.tasks, other) { StillBeingQueued(sys.tasks, t, Stored(id, d), other); }
    }
  }

  lemma EnqueueKeepsKillable(sys: System, t: nat)
    requires Killable(sys) && Enabled(sys, FinishEnqueue(t))
    ensures Killable(Take(sys, FinishEnqueue(t)))
  {
    var next := Take(sys, FinishEnqueue(t));
    var Stored(id, d) := sys.tasks[t];
    var longer := sys.shared.killQueue + [KillEntry(id, d)];
    StableSortPermutes(longer);
    SameEntries(StableSort(longer), longer);
    assert longer[|longer| - 1] in StableSort(longer);
    forall other | other in next.shared.quotas
      ensures Queued(next.shared.killQueue, other) || BeingQueued(next.tasks, other)
    {
      if Queued(sys.shared.killQueue, other) {
        var e :| e in sys.shared.killQueue && e.circuitId == other;
        assert e in longer;
      } else if other != id {
        StillBeingQueued(sys.tasks, t, Idle, other);
      }
    }
  }

  lemma SameEntries(a: seq<KillEntry>, b: seq<KillEntry>)
    requires multiset(a) == multiset(b)
    ensures forall e :: e in a <==> e in b
  {
    assert forall e :: e in a <==> e in multiset(a);
    assert forall e :: e in b <==> e in multiset(b);
  }

  lemma ReleaseKeepsKillable(sys: System, step: Step)
    requires Killable(sys) && Enabled(sys, step)
    requires step.BeginRelease? || step.FinishFree? || step.FinishRetain?
    ensures Killable(Take(sys, step))
  {
    var next := Take(sys, step);
    var t := step.task;
    forall other | other in next.shared.quotas
      ensures Queued(next.shared.killQueue, other) || BeingQueued(next.tasks, other)
    {
      if Queued(sys.shared.killQueue, other) {
        if step.FinishRetain? { WithoutKeepsOthers(sys.shared.killQueue, sys.tasks[t].id, other); }
      } else {
        StillBeingQueued(sys.tasks, t, next.tasks[t], other);
      }
    }
  }

  lemma BeginKeepsKillable(sys: System, t: nat, id: U32, d: nat)
    requires Killable(sys) && Enabled(sys, BeginAllocate(t, id, d))
    ensures Killable(Take(sys, BeginAllocate(t, id, d)))
  {
    var next := Take(sys, BeginAllocate(t, id, d));
    forall other | other in next.shared.quotas
      ensures Queued(next.shared.killQueue, other) || BeingQueued(next.tasks, other)
    {
      if BeingQueued(sys.tasks, other) && next != sys { StillBeingQueued(sys.tasks, t, Reserved(id, d), other); }
    }
  }

  lemma StepKeepsKillable(sys: System, step: Step, lost: nat)
    requires Killable(sys) && Ledger(sys, lost) && Enabled(sys, step)
    ensures Killable(Take(sys, step))
  {
    match step
    case BeginAllocate(t, id, d) => BeginKeepsKillable(sys, t, id, d);
    case FinishStore(t) => StoreKeepsKillable(sys, t);
    case FinishEnqueue(t) => EnqueueKeepsKillable(sys, t);
    case BeginRelease(_, _) => ReleaseKeepsKillable(sys, step);
    case FinishFree(_) => ReleaseKeepsKillable(sys, step);
    case FinishRetain(_) => ReleaseKeepsKillable(sys, step);
    case OomCheck =>
    case OomLock =>
    case OomFire => KillAllConserves(sys.shared, sys.shared.killQueue, InFlightMemory(sys.tasks) + lost);
  }

  lemma {:induction false} ExecutionKeepsKillable(sys: System, steps: seq<Step>, lost: nat)
    requires Killable(sys) && Ledger(sys, lost) && Legal(sys, steps)
    ensures Killable(Execute(sys, steps))
    decreases |steps|
  {
    if steps != [] {
      StepKeepsKillable(sys, steps[0], lost);
      StepKeepsLedger(sys, steps[0], lost);
      ExecutionKeepsKillable(Take(sys, steps[0]), steps[1..], lost + Overwritten(sys, steps[0]));
    }
  }

  /**
   In every interleaving, fresh identifiers or not, no stored circuit escapes the kill queue. So a tick that meets no
   task between storing and queueing leaves nothing stored, and in use only what is in flight or lost.
   */
  lemma NoCircuitEscapes(total: nat, steps: seq<Step>)
    requires Legal(NewSystem(total), steps)
    ensures var end := Execute(NewSystem(total), steps);
            && Killable(end)
            && (Enabled(end, OomFire) && (forall t :: t in end.tasks ==> !end.tasks[t].Stored?) ==>
                  var after := Take(end, OomFire);
                  && after.shared.quotas == map[]
                  && after.shared.inUse == InFlightMemory(end.tasks) + Lost(NewSystem(total), steps))
  {
    NewSystemInv(total);
    ExecutionKeepsKillable(NewSystem(total), steps, 0);
    ExecutionKeepsLedger(NewSystem(total), steps, 0);
    var end, lost := Execute(NewSystem(total), steps), Lost(NewSystem(total), steps);
    if Enabled(end, OomFire) && forall t :: t in end.tasks ==> !end.tasks[t].Stored? {
      TickClears(end, lost);
    }
  }

  lemma TickClears(sys: System, lost: nat)
    requires Killable(sys) && Ledger(sys, lost) && Enabled(sys, OomFire)
    requires forall t :: t in sys.tasks ==> !sys.tasks[t].Stored?
    ensures Take(sys, OomFire).shared.quotas == map[]
    ensures Take(sys, OomFire).shared.inUse == InFlightMemory(sys.tasks) + lost
  {
    var after := Take(sys, OomFire).shared;
    KillAllConserves(sys.shared, sys.shared.killQueue, InFlightMemory(sys.tasks) + lost);
    forall id: U32 ensures id !in after.quotas {
      if id in sys.shared.quotas { assert Queued(sys.shared.killQueue, id); }
    }
    assert after.quotas.Keys == {};
    assert after.quotas == map[];
    assert MaxMemory(after.quotas) == map[];
  }
}
