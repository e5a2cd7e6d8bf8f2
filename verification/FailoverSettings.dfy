/** Which settings keep failover whole, over every run of the manager's calls (gptl-routing, failover.rs). */
module FailoverSettings {
  import opened Bytes
  import opened RelaySelector
  import opened Selection
  import opened Failover
  import opened FailoverRuns

  // ---------------------------------------------------------------- every announced failure ends

  /** Retries are configured and the score of any usable relay is a number, whatever bandwidth it reports. */
  predicate ReportsEnd(cfg: Config) {
    cfg.maxRetries > 0 && cfg.strategy != Hybrid && (cfg.strategy == Geographic ==> !cfg.located)
  }

  /** No run from any selector state and registry cuts a report off. */
  ghost predicate NeverCutOff(s: Settings) {
    forall sel, relays, calls :: DistinctIds(relays) && Execution(s, Start(sel, relays), calls) ==>
      Abortions(Run(s, Start(sel, relays), calls).trace) == 0
  }

  lemma ReportIsNotCut(s: Settings, w: World, id: U32, reason: FailureType, now: nat, draws: nat -> nat)
    requires ReportsEnd(s.selector) && Inv(w) && id in w.circuits
    ensures ReportedFailure(s, w, id, reason, now, draws).1 != Err(SelectorPanic)
  {
    if HasBackup(w.circuits[id]) {
      BackupOutcome(s, w, id, reason, now, draws);
      SafeAssignment(s, Started(s, w, id, reason, now), id, now, draws);
    } else {
      SelectorOutcome(s, w, id, reason, now, draws);
    }
  }

  /** Only the report of a failure can be cut off. */
  lemma StepAborts(s: Settings, w: World, q: Request)
    requires Inv(w) && Enabled(w, q) && ReportsEnd(s.selector)
    ensures Abortions(Step(s, w, q).trace) == Abortions(w.trace)
  {
    match q.call
    case Register(id, relay) =>
      var added := w.(circuits := w.circuits[id := Circuit(relay, None, q.now, q.now, 0, Active)]);
      AssignedKeeps(s, added, id, q.now, q.draws);
      TraceNext(Assigned(s, added, id, q.now, q.draws).0.trace, Sent(CircuitCreated(id, relay.id)));
    case Fail(id, reason) =>
      if id in w.circuits {
        ReportedFailureLog(s, w, id, reason, q.now, q.draws);
        ReportIsNotCut(s, w, id, reason, q.now, q.draws);
      }
    case Refill => RefilledKeeps(s, w, q.now, q.draws);
    case Recover(relay) => TraceNext(w.trace, Sent(RelayRecovered(relay)));
    case _ =>
  }

  lemma {:induction false} RunAborts(s: Settings, w: World, calls: seq<Request>)
    requires Inv(w) && Execution(s, w, calls) && ReportsEnd(s.selector)
    ensures Abortions(Run(s, w, calls).trace) == Abortions(w.trace)
    decreases |calls|
  {
    if calls != [] {
      StepAborts(s, w, calls[0]);
      StepKeepsInv(s, w, calls[0]);
      RunAborts(s, Step(s, w, calls[0]), calls[1..]);
    }
  }

  function Zero(): nat -> nat {
    (i: nat) => 0
  }

  /** A usable relay without bandwidth at an immeasurable distance. */
  function Idle(id: string): Relay {
    Relay(id, 0, None, Standard, Healthy, false, false, 0, false)
  }

  function OneFailed(): State {
    State(map["a" := FailureRecord(0, 0)], map[], [])
  }

  /** A circuit over relay "p", the one other relay listed, and a report that "p" failed. */
  function OneCircuit(): (w: World)
    ensures Inv(w)
  {
    var w := Start(OneFailed(), [Idle("a")]);
    TraceNext([], Sent(CircuitCreated(0, "p")));
    Send(w.(circuits := map[0 := Circuit(Idle("p"), None, 0, 0, 0, Active)]), CircuitCreated(0, "p"))
  }

  lemma IdleIsUndefined(cfg: Config)
    requires !ReportsEnd(cfg)
    ensures PickPanics(cfg, OneFailed(), [Idle("a")], AnyBut("p"), 0)
  {
    var a, c := Idle("a"), AnyBut("p");
    assert a in [a] && Meets(a, c, 0);
    OneRelay(a, c, 0);
    OnlyChoice(cfg, OneFailed(), a, 0);
    assert Choices(cfg, OneFailed(), [a], c, 0) == [a];
    assert [a][0].bandwidth == 0 && !AllMeasurable([a]);
  }

  lemma OneCircuitIsCut(s: Settings)
    requires !ReportsEnd(s.selector)
    ensures Abortions(ReportedFailure(s, OneCircuit(), 0, Timeout, 0, Zero()).0.trace) == 1
  {
    var w := OneCircuit();
    IdleIsUndefined(s.selector);
    assert [Idle("a")][0].id != "p";
    assert AnotherUsable(w.relays, "p");
    SelectorOutcome(s, w, 0, Timeout, 0, Zero());
    ReportedFailureLog(s, w, 0, Timeout, 0, Zero());
    TraceNext([], Sent(CircuitCreated(0, "p")));
  }

  lemma RunCons(s: Settings, w: World, q: Request, rest: seq<Request>)
    requires Enabled(w, q) && Execution(s, Step(s, w, q), rest)
    ensures Execution(s, w, [q] + rest) && Run(s, w, [q] + rest) == Run(s, Step(s, w, q), rest)
  {
    assert ([q] + rest)[1..] == rest;
  }

  lemma TwoCalls(s: Settings, w: World, a: Request, b: Request)
    requires Enabled(w, a) && Enabled(Step(s, w, a), b)
    ensures Execution(s, w, [a, b]) && Run(s, w, [a, b]) == Step(s, Step(s, w, a), b)
  {
    var mid := Step(s, w, a);
    assert Execution(s, Step(s, mid, b), []) && Run(s, Step(s, mid, b), []) == Step(s, mid, b);
    RunCons(s, mid, b, []);
    RunCons(s, w, a, [b] + []);
    assert [a, b] == [a] + ([b] + []);
  }

  /** Two calls, the second of them cut off. */
  function CutRun(): seq<Request> {
    [Request(Register(0, Idle("p")), 0, Zero()), Request(Fail(0, Timeout), 0, Zero())]
  }

  lemma CutRunIsCut(s: Settings)
    requires !ReportsEnd(s.selector)
    ensures var start := Start(OneFailed(), [Idle("a")]);
            Execution(s, start, CutRun()) && Abortions(Run(s, start, CutRun()).trace) == 1
  {
    var start, calls := Start(OneFailed(), [Idle("a")]), CutRun();
    assert Step(s, start, calls[0]) == OneCircuit();
    TwoCalls(s, start, calls[0], calls[1]);
    OneCircuitIsCut(s);
  }

  /** Every failure announced in any run ends, exactly under settings that leave no choice among usable relays undefined. */
  lemma ReportsAlwaysEndIff(s: Settings)
    ensures NeverCutOff(s) <==> ReportsEnd(s.selector)
  {
    if ReportsEnd(s.selector) {
      forall sel, relays, calls | DistinctIds(relays) && Execution(s, Start(sel, relays), calls)
        ensures Abortions(Run(s, Start(sel, relays), calls).trace) == 0
      {
        RunAborts(s, Start(sel, relays), calls);
      }
    } else {
      CutRunIsCut(s);
      assert DistinctIds([Idle("a")]);
    }
  }

  /** Then announcements and endings are as many as each other. */
  lemma EveryFailureEnds(s: Settings, sel: State, relays: seq<Relay>, calls: seq<Request>)
    requires ReportsEnd(s.selector) && Execution(s, Start(sel, relays), calls)
    ensures var w := Run(s, Start(sel, relays), calls); Announced(w.trace) == Ended(w.trace)
  {
    EveryRun(s, sel, relays, calls);
    RunAborts(s, Start(sel, relays), calls);
  }

  // ---------------------------------------------------------------- a failover to a backup

  /** No report of a circuit with a backup ends in a panic, in any state that keeps the invariant. */
  ghost predicate BackupsNeverCutOff(s: Settings) {
    forall w, id, reason, now, draws ::
      Inv(w) && DistinctIds(w.relays) && id in w.circuits && HasBackup(w.circuits[id]) ==>
        ReportedFailure(s, w, id, reason, now, draws).1 != Err(SelectorPanic)
  }

  /** The relay whose choice the settings leave undefined. */
  function Undefined(cfg: Config): (r: Relay)
    ensures MeetsBase(r, cfg.criteria, 0) || SafeSettings(cfg)
    ensures r.id == "a" && r.country == cfg.criteria.region
  {
    var best := Ideal(cfg.criteria, "a", 0);
    var idle := cfg.strategy == Hybrid && !(cfg.criteria.minBandwidth.Some? && cfg.criteria.minBandwidth.value > 0);
    if idle then best.(bandwidth := 0) else best.(measurable := false)
  }

  /** The first hop already panics, however many are asked for. */
  lemma FirstHopPanics(cfg: Config, st: State, n: nat)
    requires !SafeSettings(cfg) && !NoFirstHop(cfg.criteria) && n > 0 && "a" in st.failures
    ensures IsPanic(SelectedMany(cfg, st, [Undefined(cfg)], true, 0, FirstDraws(n, Zero()), []).1)
  {
    var r, c := Undefined(cfg), HopCriteria(cfg.criteria, [], true);
    OneRelay(r, c, 0);
    OnlyMatch(cfg, st, [r], c, r, 0);
    assert [r][0].bandwidth == r.bandwidth && [r][0].measurable == r.measurable;
    assert IsPanic(Selected(cfg, st, [r], c, 0, 0).1);
    assert FirstDraws(n, Zero()) == [0] + FirstDraws(n - 1, Zero());
    NextHop(cfg, st, [r], true, 0, FirstDraws(n - 1, Zero()), []);
  }

  /** A circuit over "p" with backup "b", and one more backup in the pool. */
  function OneBackup(cfg: Config): (w: World)
    ensures Inv(w)
  {
    World(map[0 := Circuit(Idle("p"), Some(Idle("b")), 0, 0, 0, Active)], map[], [Idle("b")], OneFailed(),
          [Undefined(cfg)], [], [], [Idle("b")], [])
  }

  lemma StartedWorld(s: Settings, w: World, id: U32, r: Relay)
    requires Inv(w) && id in w.circuits && w.relays == [r] && r.id != w.circuits[id].primary.id && r.id in w.sel.failures
    ensures var next := Started(s, w, id, Timeout, 0);
            next.relays == [r] && r.id in next.sel.failures && next.pool == w.pool && id in next.circuits
  {
    StartedOutcome(s, w, id, Timeout, 0);
    var next := Started(s, w, id, Timeout, 0);
    assert next.relays[0] == r;
  }

  lemma OneBackupIsCut(s: Settings)
    requires !SafeSettings(s.selector) && !NoFirstHop(s.selector.criteria) && s.minPool > 1
    ensures ReportedFailure(s, OneBackup(s.selector), 0, Timeout, 0, Zero()).1 == Err(SelectorPanic)
  {
    var w := OneBackup(s.selector);
    BackupOutcome(s, w, 0, Timeout, 0, Zero());
    StartedWorld(s, w, 0, Undefined(s.selector));
    var popped := Popped(Started(s, w, 0, Timeout, 0), 0);
    assert popped.pool == [];
    FirstHopPanics(s.selector, popped.sel, s.minPool);
  }

  /**
   A failover to a backup never ends in a panic of the refill behind it, exactly if no refill follows, the settings
   are safe, or no relay can be a first hop.
   */
  lemma BackupsNeverCutOffIff(s: Settings)
    ensures BackupsNeverCutOff(s) <==> s.minPool < 2 || SafeSettings(s.selector) || NoFirstHop(s.selector.criteria)
  {
    if s.minPool < 2 || SafeSettings(s.selector) || NoFirstHop(s.selector.criteria) {
      forall w, id, reason, now, draws |
        Inv(w) && DistinctIds(w.relays) && id in w.circuits && HasBackup(w.circuits[id])
        ensures ReportedFailure(s, w, id, reason, now, draws).1 != Err(SelectorPanic)
      {
        BackupOutcome(s, w, id, reason, now, draws);
        NoPanicBehind(s, Started(s, w, id, reason, now), id, now, draws);
      }
    } else {
      OneBackupIsCut(s);
      assert DistinctIds(OneBackup(s.selector).relays) && HasBackup(OneBackup(s.selector).circuits[0]);
    }
  }

  lemma NoPanicBehind(s: Settings, w: World, id: U32, now: nat, draws: nat -> nat)
    requires s.minPool < 2 || SafeSettings(s.selector) || NoFirstHop(s.selector.criteria)
    ensures !AssignPanics(s, w, id, now, draws)
  {
    if SafeSettings(s.selector) {
      SafeAssignment(s, w, id, now, draws);
    } else if NoFirstHop(s.selector.criteria) && w.pool != [] {
      var p := Popped(w, id);
      NothingMeets(p.relays, HopCriteria(s.selector.criteria, [], true), now);
    }
  }

  // ---------------------------------------------------------------- whether a refill fills the pool

  /**
   A refill that does not panic fills the pool exactly if it is full already, or there is a first hop and as many known
   countries and relays of unknown country as backups are lacking; else, or when it panics, it leaves the pool alone.
   */
  lemma RefillFillsIff(s: Settings, w: World, now: nat, draws: nat -> nat)
    requires DistinctIds(w.relays)
    ensures var (next, panicked) := Refilled(s, w, now, draws);
            var lacking := Lacking(s, w.pool);
            && (panicked ==> next.pool == w.pool)
            && (!panicked ==>
                  if lacking == 0 || HopsPossible(w.relays, s.selector.criteria, true, now, lacking)
                  then |next.pool| == |w.pool| + lacking else next.pool == w.pool)
  {
    var sel, r := RefilledIsStocked(s, w, now, draws);
    SelectedManySucceedsIff(s.selector, w.sel, w.relays, true, now, FirstDraws(Lacking(s, w.pool), draws));
    if r.Ok? { RefillSelectionIsSafe(s, w, now, draws); }
  }

  // ---------------------------------------------------------------- the selector knows every failed relay

  ghost predicate Known(w: World) {
    w.failures.Keys <= w.sel.failures.Keys
  }

  lemma {:induction false} ManyKeepsFailures(cfg: Config, st: State, relays: seq<Relay>, spread: bool, now: nat,
                                             draws: seq<nat>, chosen: seq<Relay>)
    ensures SelectedMany(cfg, st, relays, spread, now, draws, chosen).0.failures == st.failures
    decreases |draws|
  {
    if draws != [] {
      var (next, r) := Selected(cfg, st, relays, HopCriteria(cfg.criteria, chosen, spread), now, draws[0]);
      if r.Ok? { ManyKeepsFailures(cfg, next, relays, spread, now, draws[1..], chosen + [r.value]); }
    }
  }

  /** Both records of failures stay as they are. */
  ghost predicate SameFailures(w: World, next: World) {
    next.failures == w.failures && next.sel.failures == w.sel.failures
  }

  lemma RefilledKeepsFailures(s: Settings, w: World, now: nat, draws: nat -> nat)
    ensures SameFailures(w, Refilled(s, w, now, draws).0)
  {
    var sel, r := RefilledIsStocked(s, w, now, draws);
    ManyKeepsFailures(s.selector, w.sel, w.relays, true, now, FirstDraws(Lacking(s, w.pool), draws), []);
  }

  lemma AssignedKeepsFailures(s: Settings, w: World, id: U32, now: nat, draws: nat -> nat)
    ensures SameFailures(w, Assigned(s, w, id, now, draws).0)
  {
    if w.pool != [] { RefilledKeepsFailures(s, Popped(w, id), now, draws); }
  }

  lemma FailedOverKeepsFailures(s: Settings, w: World, id: U32, failed: string, now: nat, draws: nat -> nat)
    requires id in w.circuits
    ensures SameFailures(w, FailedOver(s, w, id, failed, now, draws).0)
  {
    var backup := w.circuits[id].backup;
    if backup.Some? && backup.value.id != failed {
      var taken := w.(circuits := w.circuits[id := w.circuits[id].(backup := None)]);
      AssignedKeepsFailures(s, Moved(taken, id, backup.value), id, now, draws);
    }
  }

  /** A reported failure enters both records. */
  lemma StartedKnown(s: Settings, w: World, id: U32, reason: FailureType, now: nat)
    requires Known(w) && id in w.circuits
    ensures var next := Started(s, w, id, reason, now);
            && Known(next) && w.circuits[id].primary.id in next.failures && w.failures.Keys <= next.failures.Keys
  {
  }

  lemma StepKeepsKnown(s: Settings, w: World, q: Request)
    requires Known(w) && Enabled(w, q)
    ensures Known(Step(s, w, q))
  {
    match q.call
    case Register(id, relay) =>
      AssignedKeepsFailures(s, w.(circuits := w.circuits[id := Circuit(relay, None, q.now, q.now, 0, Active)]), id,
                            q.now, q.draws);
    case Fail(id, reason) =>
      if id in w.circuits {
        StartedKnown(s, w, id, reason, q.now);
        FailedOverKeepsFailures(s, Started(s, w, id, reason, q.now), id, w.circuits[id].primary.id, q.now, q.draws);
        var started, moved, r := ReportedIs(s, w, id, reason, q.now, q.draws);
      }
    case Refill => RefilledKeepsFailures(s, w, q.now, q.draws);
    case Recover(relay) => assert Recovered(w, relay).failures.Keys == w.failures.Keys;
    case _ =>
  }

  /** Over any run the selector has a failure record of every relay the manager has one of. */
  lemma {:induction false} RunKeepsKnown(s: Settings, w: World, calls: seq<Request>)
    requires Known(w) && Execution(s, w, calls)
    ensures Known(Run(s, w, calls))
    decreases |calls|
  {
    if calls != [] {
      StepKeepsKnown(s, w, calls[0]);
      RunKeepsKnown(s, Step(s, w, calls[0]), calls[1..]);
    }
  }

  // ---------------------------------------------------------------- whether a refill adds a failed relay

  /** No relay that a refill adds has a failure record. */
  ghost predicate AddsNoFailed(s: Settings, w: World, now: nat, draws: nat -> nat) {
    forall k :: |w.pool| <= k < |Refilled(s, w, now, draws).0.pool| ==>
      Refilled(s, w, now, draws).0.pool[k].id !in w.failures
  }

  predicate NoneFailed(rs: seq<Relay>, failed: set<string>) {
    forall i :: 0 <= i < |rs| ==> rs[i].id !in failed
  }

  /** Without retries a failed relay makes the selection panic, so it is never picked. */
  lemma {:induction false} PicksNoFailed(cfg: Config, st: State, relays: seq<Relay>, spread: bool, now: nat,
                                         draws: seq<nat>, chosen: seq<Relay>)
    requires cfg.maxRetries == 0 && NoneFailed(chosen, st.failures.Keys)
    ensures var r := SelectedMany(cfg, st, relays, spread, now, draws, chosen).1;
            r.Ok? ==> NoneFailed(r.value, st.failures.Keys)
    decreases |draws|
  {
    if draws != [] {
      var c := HopCriteria(cfg.criteria, chosen, spread);
      var (next, r) := Selected(cfg, st, relays, c, now, draws[0]);
      SelectionSucceedsIff(cfg, st, relays, c, now, draws[0]);
      if r.Ok? {
        SelectionIsSafe(cfg, st, relays, c, now, draws[0]);
        assert r.value.id !in st.failures;
        PicksNoFailed(cfg, next, relays, spread, now, draws[1..], chosen + [r.value]);
      }
    }
  }

  lemma RefillSkipsFailed(s: Settings, w: World, now: nat, draws: nat -> nat)
    requires Known(w)
    requires s.minPool == 0 || s.selector.maxRetries == 0 || NoFirstHop(s.selector.criteria)
    ensures AddsNoFailed(s, w, now, draws)
  {
    var sel, r := RefilledIsStocked(s, w, now, draws);
    SelectsNoFailed(s, w, now, draws);
    if r.Ok? { AppendedSkips(w.pool, r.value, w.failures.Keys); }
  }

  lemma SelectsNoFailed(s: Settings, w: World, now: nat, draws: nat -> nat)
    requires Known(w)
    requires s.minPool == 0 || s.selector.maxRetries == 0 || NoFirstHop(s.selector.criteria)
    ensures var r := RefillSelection(s, w, now, draws).1; r.Ok? ==> NoneFailed(r.value, w.failures.Keys)
  {
    var ds := FirstDraws(Lacking(s, w.pool), draws);
    if s.selector.maxRetries == 0 {
      PicksNoFailed(s.selector, w.sel, w.relays, true, now, ds, []);
      var r := RefillSelection(s, w, now, draws).1;
      if r.Ok? { FewerFailed(r.value, w.failures.Keys, w.sel.failures.Keys); }
    } else if NoFirstHop(s.selector.criteria) && ds != [] {
      NothingMeets(w.relays, HopCriteria(s.selector.criteria, [], true), now);
    }
  }

  lemma FewerFailed(rs: seq<Relay>, few: set<string>, many: set<string>)
    requires NoneFailed(rs, many) && few <= many
    ensures NoneFailed(rs, few)
  {
  }

  lemma AppendedSkips(pool: seq<Relay>, rs: seq<Relay>, failed: set<string>)
    requires NoneFailed(rs, failed)
    ensures forall k :: |pool| <= k < |pool + rs| ==> (pool + rs)[k].id !in failed
  {
  }

  /** In no state that keeps the invariants a refill adds a failed relay. */
  ghost predicate NeverAddsFailed(s: Settings) {
    forall w, now, draws :: Inv(w) && Known(w) && DistinctIds(w.relays) ==> AddsNoFailed(s, w, now, draws)
  }

  /** One relay is listed; it has failed; and the pool is one short. */
  function OneShort(s: Settings): (w: World)
    requires s.minPool > 0
  {
    var r := Ideal(s.selector.criteria, "a", 0);
    var pool := seq(s.minPool - 1, _ => r);
    World(map[], map["a" := FailureInfo(1, 0, [Timeout], 1)], pool, OneFailed(), [r], [], [], pool,
          [Report("a", Timeout)])
  }

  lemma OneShortInv(s: Settings)
    requires s.minPool > 0
    ensures Inv(OneShort(s)) && Known(OneShort(s))
  {
    var w := OneShort(s);
    assert w.popped + w.pool == w.refilled;
    forall relay: string ensures RecordOk(w.failures, w.reports, relay) {
      ReasonsNext([], Report("a", Timeout), relay);
      assert [] + [Report("a", Timeout)] == w.reports;
    }
  }

  lemma OneShortAddsFailed(s: Settings)
    requires s.minPool > 0 && s.selector.maxRetries > 0 && !NoFirstHop(s.selector.criteria)
    ensures !AddsNoFailed(s, OneShort(s), 0, Zero())
  {
    var w, r := OneShort(s), Ideal(s.selector.criteria, "a", 0);
    SingleHop(s.selector, w.sel, r, true, 0);
    assert !AllIdle([r]) by { assert [r][0].bandwidth > 0; }
    assert FirstDraws(Lacking(s, w.pool), Zero()) == [0];
    assert Refilled(s, w, 0, Zero()).0.pool == w.pool + [r];
    assert (w.pool + [r])[|w.pool|].id in w.failures;
  }

  /**
   The refill collects the ids of the failed relays and does not exclude them. It never adds one of them exactly if it
   never adds a relay at all, or without retries, where such a relay makes the selection panic instead.
   */
  lemma NeverAddsFailedIff(s: Settings)
    ensures NeverAddsFailed(s)
       <==> s.minPool == 0 || s.selector.maxRetries == 0 || NoFirstHop(s.selector.criteria)
  {
    if s.minPool == 0 || s.selector.maxRetries == 0 || NoFirstHop(s.selector.criteria) {
      forall w, now, draws | Inv(w) && Known(w) && DistinctIds(w.relays) ensures AddsNoFailed(s, w, now, draws) {
        RefillSkipsFailed(s, w, now, draws);
      }
    } else {
      OneShortInv(s);
      OneShortAddsFailed(s);
      assert DistinctIds(OneShort(s).relays);
    }
  }

  // ---------------------------------------------------------------- the same over runs that start empty

  /** With one region required, no second hop is left when spreading: such a pool is never stocked. */
  lemma OneRegionKeepsEmpty(s: Settings, w: World, q: Request)
    requires s.selector.criteria.region.Some? && s.minPool > 1 && w.pool == [] && Enabled(w, q)
    ensures Step(s, w, q).pool == []
  {
    match q.call
    case Register(id, relay) =>
      assert Assigned(s, w.(circuits := w.circuits[id := Circuit(relay, None, q.now, q.now, 0, Active)]), id, q.now,
                      q.draws).0.pool == [];
    case Fail(id, reason) => if id in w.circuits { ReportKeepsEmpty(s, w, id, reason, q.now, q.draws); }
    case Refill => OneRegionStocksNothing(s, w, q.now, q.draws);
    case _ =>
  }

  lemma ReportKeepsEmpty(s: Settings, w: World, id: U32, reason: FailureType, now: nat, draws: nat -> nat)
    requires w.pool == [] && id in w.circuits
    ensures ReportedFailure(s, w, id, reason, now, draws).0.pool == []
  {
    var started, moved, r := ReportedIs(s, w, id, reason, now, draws);
    StartedPool(s, w, id, reason, now);
    FailedOverPool(s, started, id, w.circuits[id].primary.id, now, draws);
  }

  lemma StartedPool(s: Settings, w: World, id: U32, reason: FailureType, now: nat)
    requires id in w.circuits
    ensures Started(s, w, id, reason, now).pool == w.pool
  {
  }

  lemma FailedOverPool(s: Settings, w: World, id: U32, failed: string, now: nat, draws: nat -> nat)
    requires w.pool == []
    ensures FailedOver(s, w, id, failed, now, draws).0.pool == []
  {
  }

  lemma OneRegionStocksNothing(s: Settings, w: World, now: nat, draws: nat -> nat)
    requires s.selector.criteria.region.Some? && s.minPool > 1 && w.pool == []
    ensures Refilled(s, w, now, draws).0.pool == []
  {
    var sel, r := RefilledIsStocked(s, w, now, draws);
    OneRegionSelectsNothing(s, w, now, draws);
  }

  lemma OneRegionSelectsNothing(s: Settings, w: World, now: nat, draws: nat -> nat)
    requires s.selector.criteria.region.Some? && s.minPool > 1 && w.pool == []
    ensures !RefillSelection(s, w, now, draws).1.Ok?
  {
    OneRegionOneHop(s.selector, w.sel, w.relays, now, FirstDraws(Lacking(s, w.pool), draws));
  }

  lemma {:induction false} OneRegionNeverStocks(s: Settings, w: World, calls: seq<Request>)
    requires s.selector.criteria.region.Some? && s.minPool > 1 && w.pool == [] && Execution(s, w, calls)
    ensures Run(s, w, calls).pool == []
    decreases |calls|
  {
    if calls != [] {
      OneRegionKeepsEmpty(s, w, calls[0]);
      OneRegionNeverStocks(s, Step(s, w, calls[0]), calls[1..]);
    }
  }

  function Name(k: nat): string {
    seq(k + 1, _ => 'r')
  }

  /** As many relays as the pool is to hold, all of the best kind. */
  function Fleet(c: Criteria, n: nat): (rs: seq<Relay>)
    ensures |rs| == n && DistinctIds(rs)
  {
    var rs := seq(n, (k: nat) => Ideal(c, Name(k), 0));
    assert forall i, j :: 0 <= i < j < n ==> |rs[i].id| != |rs[j].id|;
    rs
  }

  /** What a fleet is still like when some of it has been marked degraded. */
  predicate LikeFleet(rs: seq<Relay>, c: Criteria, n: nat) {
    && |rs| == n && DistinctIds(rs)
    && forall i :: 0 <= i < n ==>
         MeetsBase(rs[i], c, 0) && rs[i].country == c.region && rs[i].bandwidth > 0 && rs[i].measurable
  }

  lemma {:induction false} SoundRelaysDoNotPanic(cfg: Config, st: State, relays: seq<Relay>, spread: bool,
                                                 draws: seq<nat>, chosen: seq<Relay>)
    requires cfg.maxRetries > 0
    requires forall i :: 0 <= i < |relays| ==> relays[i].bandwidth > 0 && relays[i].measurable
    ensures !IsPanic(SelectedMany(cfg, st, relays, spread, 0, draws, chosen).1)
    decreases |draws|
  {
    if draws != [] {
      var c := HopCriteria(cfg.criteria, chosen, spread);
      SelectionSucceedsIff(cfg, st, relays, c, 0, draws[0]);
      SoundChoices(cfg, st, relays, c);
      var (next, r) := Selected(cfg, st, relays, c, 0, draws[0]);
      if r.Ok? { SoundRelaysDoNotPanic(cfg, next, relays, spread, draws[1..], chosen + [r.value]); }
    }
  }

  lemma SoundChoices(cfg: Config, st: State, relays: seq<Relay>, c: Criteria)
    requires forall i :: 0 <= i < |relays| ==> relays[i].bandwidth > 0 && relays[i].measurable
    ensures !ScorePanics(cfg, Choices(cfg, st, relays, c, 0))
  {
    ChoicesMatch(cfg, st, relays, c, 0);
    var choices := Choices(cfg, st, relays, c, 0);
    forall i | 0 <= i < |choices| ensures choices[i].bandwidth > 0 && choices[i].measurable {
      assert choices[i] in choices && choices[i] in relays;
    }
    assert choices == [] || choices[0].bandwidth > 0;
  }

  lemma {:induction false} MatchingAll(rs: seq<Relay>, c: Criteria, now: nat)
    requires forall i :: 0 <= i < |rs| ==> Meets(rs[i], c, now)
    ensures Matching(rs, c, now) == rs
  {
    if rs != [] { MatchingAll(rs[1..], c, now); }
  }

  /** Relays of unknown country take one slot each. */
  lemma {:induction false} SlotsOfAll(rs: seq<Relay>)
    requires DistinctIds(rs) && (|rs| > 1 ==> forall i :: 0 <= i < |rs| ==> rs[i].country.None?)
    ensures |Slots(rs, true)| == |rs|
  {
    if rs == [] {
      assert Slots(rs, true) == {};
    } else {
      var n := |rs| - 1;
      SlotsOfAll(rs[..n]);
      OneMoreSlot(rs[..n], rs[n]);
      assert rs == rs[..n] + [rs[n]];
    }
  }

  lemma OneMoreSlot(rs: seq<Relay>, r: Relay)
    requires forall i :: 0 <= i < |rs| ==> rs[i].id != r.id && rs[i].country.None?
    requires r.country.None? || rs == []
    ensures |Slots(rs + [r], true)| == |Slots(rs, true)| + 1
  {
    SlotsNext(rs, r);
    var before, slot := Slots(rs, true), SlotOf(r, true);
    assert slot !in before;
  }

  lemma SlotsNext(rs: seq<Relay>, r: Relay)
    ensures Slots(rs + [r], true) == Slots(rs, true) + {SlotOf(r, true)}
  {
    var all := rs + [r];
    assert all[|rs|] == r;
    assert forall i :: 0 <= i < |rs| ==> all[i] == rs[i];
  }

  lemma FleetHasRoom(c: Criteria, rs: seq<Relay>, n: nat)
    requires LikeFleet(rs, c, n) && n > 0 && !NoFirstHop(c) && (n > 1 ==> c.region.None?)
    ensures HopsPossible(rs, c, true, 0, n)
  {
    assert rs[0] in rs && Meets(rs[0], c.(excludedIds := {}), 0);
    MatchingAll(rs, LaterCriteria(c, [], true), 0);
    SlotsOfAll(rs);
  }

  lemma {:induction false} SubsetSize(a: set<string>, b: set<string>)
    requires a <= b
    ensures |a| <= |b| && (|a| == |b| ==> a == b)
    decreases |a|
  {
    if a != {} {
      var x :| x in a;
      SubsetSize(a - {x}, b - {x});
      assert a == (a - {x}) + {x} && b == (b - {x}) + {x};
    }
  }

  lemma {:induction false} IdsSize(rs: seq<Relay>)
    requires DistinctIds(rs)
    ensures |Ids(rs)| == |rs|
  {
    if rs != [] {
      var n := |rs| - 1;
      var before, last := rs[..n], rs[n];
      IdsSize(before);
      AddedHop(before, last);
      assert rs == before + [last];
      NewId(before, last);
    }
  }

  lemma NewId(rs: seq<Relay>, r: Relay)
    requires forall i :: 0 <= i < |rs| ==> rs[i].id != r.id
    ensures r.id !in Ids(rs)
  {
  }

  /** As many different listed relays as there are: all of them. */
  lemma AllArePicked(picked: seq<Relay>, relays: seq<Relay>, k: nat)
    requires DistinctIds(picked) && DistinctIds(relays) && |picked| == |relays| && AllListed(picked, relays)
    requires k < |relays|
    ensures relays[k].id in Ids(picked)
  {
    IdsSize(picked);
    IdsSize(relays);
    forall id | id in Ids(picked) ensures id in Ids(relays) {
      var i :| 0 <= i < |picked| && picked[i].id == id;
      assert picked[i] in relays;
    }
    SubsetSize(Ids(picked), Ids(relays));
  }

  /** An empty pool is refilled from a fleet with all of it. */
  lemma FleetIsPooled(s: Settings, w: World, k: nat)
    requires LikeFleet(w.relays, s.selector.criteria, s.minPool) && w.pool == [] && k < s.minPool
    requires s.selector.maxRetries > 0 && !NoFirstHop(s.selector.criteria)
    requires s.minPool > 1 ==> s.selector.criteria.region.None?
    ensures var pool := Refilled(s, w, 0, Zero()).0.pool;
            exists i :: 0 <= i < |pool| && pool[i].id == w.relays[k].id
  {
    FleetHasRoom(s.selector.criteria, w.relays, s.minPool);
    RefillFillsIff(s, w, 0, Zero());
    SoundRelaysDoNotPanic(s.selector, w.sel, w.relays, true, FirstDraws(s.minPool, Zero()), []);
    var sel, r := RefilledIsStocked(s, w, 0, Zero());
    RefillSelectionIsSafe(s, w, 0, Zero());
    AllArePicked(r.value, w.relays, k);
    assert [] + r.value == r.value;
  }

  /** A circuit over the fleet's first relay, and a report that this relay failed. */
  function FleetRun(c: Criteria): seq<Request> {
    [Request(Register(0, Ideal(c, Name(0), 0)), 0, Zero()), Request(Fail(0, Timeout), 0, Zero())]
  }

  lemma DegradedFleet(rs: seq<Relay>, c: Criteria, n: nat, id: string)
    requires LikeFleet(rs, c, n)
    ensures LikeFleet(WithHealth(rs, id, Health.Degraded), c, n)
  {
    var ws := WithHealth(rs, id, Health.Degraded);
    assert forall i :: 0 <= i < n ==> ws[i].id == rs[i].id && ws[i].bandwidth == rs[i].bandwidth;
  }

  lemma RecordedFleet(s: Settings, w: World, id: string)
    requires LikeFleet(w.relays, s.selector.criteria, s.minPool)
    ensures LikeFleet(Recorded(s, w, id, Timeout, 0).relays, s.selector.criteria, s.minPool)
  {
    var told := ToldSelector(s, Counted(w, id, Timeout, 0), id, 0);
    DegradedFleet(w.relays, s.selector.criteria, s.minPool, id);
    DegradedFleet(told.relays, s.selector.criteria, s.minPool, id);
  }

  lemma FleetRunFails(s: Settings)
    requires s.minPool > 0
    ensures var c := s.selector.criteria;
            var start, calls := Start(Nothing(), Fleet(c, s.minPool)), FleetRun(c);
            && Execution(s, start, calls)
            && var w := Run(s, start, calls);
               w.pool == [] && LikeFleet(w.relays, c, s.minPool) && w.relays[0].id in w.failures
  {
    var c := s.selector.criteria;
    var start, calls := Start(Nothing(), Fleet(c, s.minPool)), FleetRun(c);
    var w := Step(s, start, calls[0]);
    TwoCalls(s, start, calls[0], calls[1]);
    FleetRegistered(s);
    FleetReported(s, w);
  }

  lemma FleetRegistered(s: Settings)
    requires s.minPool > 0
    ensures var c := s.selector.criteria;
            var w := Registered(s, Start(Nothing(), Fleet(c, s.minPool)), 0, Ideal(c, Name(0), 0), 0, Zero()).0;
            && LikeFleet(w.relays, c, s.minPool) && w.pool == [] && Known(w)
            && 0 in w.circuits && w.circuits[0].backup.None? && w.circuits[0].primary.id == w.relays[0].id
  {
  }

  lemma FleetReported(s: Settings, w: World)
    requires s.minPool > 0 && LikeFleet(w.relays, s.selector.criteria, s.minPool) && w.pool == [] && Known(w)
    requires 0 in w.circuits && w.circuits[0].backup.None? && w.circuits[0].primary.id == w.relays[0].id
    ensures var next := ReportedFailure(s, w, 0, Timeout, 0, Zero()).0;
            && next.pool == [] && LikeFleet(next.relays, s.selector.criteria, s.minPool)
            && next.relays[0].id in next.failures
  {
    var failed := w.relays[0].id;
    RecordedFleet(s, Marked(w, 0), failed);
    var started, moved, r := ReportedIs(s, w, 0, Timeout, 0, Zero());
    StartedKnown(s, w, 0, Timeout, 0);
    FailedOverKeepsFailures(s, started, 0, failed, 0, Zero());
    SelectorLeavesTables(s, started, failed);
    SameIds(s, w, failed);
  }

  lemma SelectorLeavesTables(s: Settings, w: World, failed: string)
    requires 0 in w.circuits && w.circuits[0].backup.None?
    ensures var next := FailedOver(s, w, 0, failed, 0, Zero()).0; next.pool == w.pool && next.relays == w.relays
  {
  }

  lemma SameIds(s: Settings, w: World, failed: string)
    requires 0 in w.circuits && w.relays != [] && w.circuits[0].primary.id == failed
    ensures var next := Started(s, w, 0, Timeout, 0);
            next.pool == w.pool && |next.relays| == |w.relays| && next.relays[0].id == w.relays[0].id
            && 0 in next.circuits && next.circuits[0].backup == w.circuits[0].backup
            && next.relays == Recorded(s, Marked(w, 0), failed, Timeout, 0).relays
  {
    var told := ToldSelector(s, Counted(Marked(w, 0), failed, Timeout, 0), failed, 0);
    assert told.relays[0].id == w.relays[0].id;
  }

  /** After no run a refill adds a failed relay. */
  ghost predicate NoRunAddsFailed(s: Settings) {
    forall sel, relays, calls, now, draws :: DistinctIds(relays) && Execution(s, Start(sel, relays), calls) ==>
      AddsNoFailed(s, Run(s, Start(sel, relays), calls), now, draws)
  }

  /**
   Over runs that start with an empty pool: a refill adds a failed relay after some run, unless the conditions above
   hold or the criteria require one region for a pool of several, which is never stocked.
   */
  lemma NoRunAddsFailedIff(s: Settings)
    ensures NoRunAddsFailed(s)
       <==> || s.minPool == 0 || s.selector.maxRetries == 0 || NoFirstHop(s.selector.criteria)
            || (s.minPool > 1 && s.selector.criteria.region.Some?)
  {
    var c := s.selector.criteria;
    if s.minPool == 0 || s.selector.maxRetries == 0 || NoFirstHop(c) || (s.minPool > 1 && c.region.Some?) {
      forall sel, relays, calls, now, draws | DistinctIds(relays) && Execution(s, Start(sel, relays), calls)
        ensures AddsNoFailed(s, Run(s, Start(sel, relays), calls), now, draws)
      {
        var w := Run(s, Start(sel, relays), calls);
        if s.minPool > 1 && c.region.Some? {
          OneRegionNeverStocks(s, Start(sel, relays), calls);
          OneRegionStocksNothing(s, w, now, draws);
        } else {
          RunKeepsKnown(s, Start(sel, relays), calls);
          RefillSkipsFailed(s, w, now, draws);
        }
      }
    } else {
      FleetRunFails(s);
      var start, calls := Start(Nothing(), Fleet(c, s.minPool)), FleetRun(c);
      var w := Run(s, start, calls);
      FleetIsPooled(s, w, 0);
      assert !AddsNoFailed(s, w, 0, Zero());
    }
  }
}
