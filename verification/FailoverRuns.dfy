/** What holds of failover over any run of the manager's calls (gptl-routing, failover.rs). */
module FailoverRuns {
  import opened Bytes
  import opened RelaySelector
  import opened Selection
  import opened Failover

  // ---------------------------------------------------------------- reading the trace

  /** Where the trace stands: between reports, inside the report of one circuit's failure, or out of order. */
  datatype Phase = Idle | Failing(circuit: U32) | OutOfOrder

  function After(p: Phase, m: Mark): Phase {
    match m
    case Sent(CircuitFailed(id, _, _)) => if p == Idle then Failing(id) else OutOfOrder
    case Sent(FailoverStarted(id, _, _)) => if p == Failing(id) then p else OutOfOrder
    case Sent(FailoverCompleted(id, _)) => if p == Failing(id) then Idle else OutOfOrder
    case Sent(FailoverFailed(id, _)) => if p == Failing(id) then Idle else OutOfOrder
    case Aborted(id) => if p == Failing(id) then Idle else OutOfOrder
    case _ => p
  }

  function Scan(trace: seq<Mark>): Phase {
    if trace == [] then Idle else After(Scan(trace[..|trace| - 1]), trace[|trace| - 1])
  }

  predicate IsAnnouncement(m: Mark) {
    m.Sent? && m.event.CircuitFailed?
  }

  predicate IsEnding(m: Mark) {
    m.Sent? && (m.event.FailoverCompleted? || m.event.FailoverFailed?)
  }

  function Announced(trace: seq<Mark>): nat {
    if trace == [] then 0
    else Announced(trace[..|trace| - 1]) + (if IsAnnouncement(trace[|trace| - 1]) then 1 else 0)
  }

  function Ended(trace: seq<Mark>): nat {
    if trace == [] then 0 else Ended(trace[..|trace| - 1]) + (if IsEnding(trace[|trace| - 1]) then 1 else 0)
  }

  function Abortions(trace: seq<Mark>): nat {
    if trace == [] then 0 else Abortions(trace[..|trace| - 1]) + (if trace[|trace| - 1].Aborted? then 1 else 0)
  }

  lemma TraceNext(trace: seq<Mark>, m: Mark)
    ensures Scan(trace + [m]) == After(Scan(trace), m)
    ensures Announced(trace + [m]) == Announced(trace) + (if IsAnnouncement(m) then 1 else 0)
    ensures Ended(trace + [m]) == Ended(trace) + (if IsEnding(m) then 1 else 0)
    ensures Abortions(trace + [m]) == Abortions(trace) + (if m.Aborted? then 1 else 0)
  {
    assert (trace + [m])[..|trace|] == trace;
  }

  /** In an orderly trace every announced failure but one still under way ended once or was cut off by a panic. */
  lemma {:induction false} OrderlyTraceIsPaired(trace: seq<Mark>)
    requires Scan(trace) != OutOfOrder
    ensures Announced(trace) == Ended(trace) + Abortions(trace) + (if Scan(trace).Failing? then 1 else 0)
  {
    if trace != [] {
      OrderlyTraceIsPaired(trace[..|trace| - 1]);
    }
  }

  // ---------------------------------------------------------------- what each failure record remembers

  function ReasonsOf(reports: seq<Report>, relay: string): seq<FailureType> {
    if reports == [] then []
    else
      var last := reports[|reports| - 1];
      ReasonsOf(reports[..|reports| - 1], relay) + (if last.Report? && last.relay == relay then [last.reason] else [])
  }

  /** The failures of a relay since its last recovery. */
  function StreakOf(reports: seq<Report>, relay: string): nat {
    if reports == [] then 0
    else
      var last, before := reports[|reports| - 1], StreakOf(reports[..|reports| - 1], relay);
      if last.relay != relay then before else if last.Report? then before + 1 else 0
  }

  lemma ReasonsNext(reports: seq<Report>, r: Report, relay: string)
    ensures ReasonsOf(reports + [r], relay)
         == ReasonsOf(reports, relay) + (if r.Report? && r.relay == relay then [r.reason] else [])
    ensures StreakOf(reports + [r], relay)
         == if r.relay != relay then StreakOf(reports, relay) else if r.Report? then StreakOf(reports, relay) + 1 else 0
  {
    assert (reports + [r])[..|reports|] == reports;
  }

  const TWO_32 := 0x1_0000_0000

  /**
   A record holds the number of all failures reported for its relay, the last ten of their reasons in order, and the
   number of failures since the last recovery, both numbers in 32 bits. A relay without a record has none.
   */
  predicate RecordOk(failures: map<string, FailureInfo>, reports: seq<Report>, relay: string) {
    if relay in failures then
      && EndsIn(ReasonsOf(reports, relay), failures[relay].types, 10)
      && failures[relay].count == |ReasonsOf(reports, relay)| % TWO_32
      && failures[relay].consecutive == StreakOf(reports, relay) % TWO_32
    else
      ReasonsOf(reports, relay) == [] && StreakOf(reports, relay) == 0
  }

  ghost predicate RecordsOk(failures: map<string, FailureInfo>, reports: seq<Report>) {
    forall relay :: RecordOk(failures, reports, relay)
  }

  predicate BackupsInOrder(w: World) {
    w.popped + w.pool == w.refilled
  }

  ghost predicate Inv(w: World) {
    Scan(w.trace) == Idle && BackupsInOrder(w) && RecordsOk(w.failures, w.reports)
  }

  // ---------------------------------------------------------------- what the parts of a call keep

  /** What the parts of a call that announce nothing keep. */
  ghost predicate Keeps(w: World, next: World) {
    && Scan(next.trace) == Scan(w.trace) && Announced(next.trace) == Announced(w.trace)
    && Ended(next.trace) == Ended(w.trace) && Abortions(next.trace) == Abortions(w.trace)
    && (BackupsInOrder(w) ==> BackupsInOrder(next))
  }

  ghost predicate SameRecords(w: World, next: World) {
    next.failures == w.failures && next.reports == w.reports
  }

  ghost predicate SameTables(w: World, next: World) {
    SameRecords(w, next) && next.circuits == w.circuits && next.relays == w.relays
  }

  /** A refill either has nothing to do or stocks what one selection returns. */
  lemma RefilledIsStocked(s: Settings, w: World, now: nat, draws: nat -> nat)
    returns (sel: State, r: Result<seq<Relay>, SelectorError>)
    ensures (sel, r) == RefillSelection(s, w, now, draws)
    ensures Refilled(s, w, now, draws).0 == if Lacking(s, w.pool) == 0 then w else Stocked(w, sel, r)
    ensures Refilled(s, w, now, draws).1 <==> Lacking(s, w.pool) > 0 && IsPanic(r)
  {
    var selected := RefillSelection(s, w, now, draws);
    return selected.0, selected.1;
  }

  lemma RefilledKeeps(s: Settings, w: World, now: nat, draws: nat -> nat)
    ensures Keeps(w, Refilled(s, w, now, draws).0) && SameTables(w, Refilled(s, w, now, draws).0)
  {
    var sel, r := RefilledIsStocked(s, w, now, draws);
    StockedKeeps(w, sel, r);
  }

  lemma StockedKeeps(w: World, sel: State, r: Result<seq<Relay>, SelectorError>)
    ensures Keeps(w, Stocked(w, sel, r)) && SameTables(w, Stocked(w, sel, r))
  {
    if r.Ok? {
      TraceNext(w.trace, Sent(BackupPoolRefilled(|r.value|)));
      assert w.popped + (w.pool + r.value) == (w.popped + w.pool) + r.value;
    }
  }

  /** A refill adds as many different listed relays as were lacking, or nothing at all. */
  lemma RefillFillsOrLeaves(s: Settings, w: World, now: nat, draws: nat -> nat)
    ensures var next := Refilled(s, w, now, draws).0;
            && w.pool <= next.pool
            && (|next.pool| == |w.pool| || |next.pool| == s.minPool)
            && GoodBackups(s, w.relays, next.pool[|w.pool|..], now)
  {
    var sel, r := RefilledIsStocked(s, w, now, draws);
    if Lacking(s, w.pool) > 0 && r.Ok? {
      RefillSelectionIsSafe(s, w, now, draws);
      assert (w.pool + r.value)[|w.pool|..] == r.value;
    }
  }

  /** Different listed relays of different known countries that meet the default criteria apart from its exclusions. */
  ghost predicate GoodBackups(s: Settings, relays: seq<Relay>, rs: seq<Relay>, now: nat) {
    && DistinctIds(rs) && DistinctKnownCountries(rs)
    && AllMeet(rs, s.selector.criteria, true, now) && AllListed(rs, relays)
  }

  lemma RefillSelectionIsSafe(s: Settings, w: World, now: nat, draws: nat -> nat)
    requires RefillSelection(s, w, now, draws).1.Ok?
    ensures |RefillSelection(s, w, now, draws).1.value| == Lacking(s, w.pool)
    ensures GoodBackups(s, w.relays, RefillSelection(s, w, now, draws).1.value, now)
  {
    SelectedManyIsSafe(s.selector, w.sel, w.relays, true, now, FirstDraws(Lacking(s, w.pool), draws), []);
  }

  predicate OthersSame(before: map<U32, Circuit>, after: map<U32, Circuit>, id: U32) {
    after.Keys == before.Keys && forall other :: other in before && other != id ==> after[other] == before[other]
  }

  lemma OthersSameTwice(a: map<U32, Circuit>, b: map<U32, Circuit>, c: map<U32, Circuit>, id: U32)
    requires OthersSame(a, b, id) && OthersSame(b, c, id)
    ensures OthersSame(a, c, id)
  {
  }

  /** The pool falls below half its minimum with the next backup popped, and the refill then panics. */
  predicate AssignPanics(s: Settings, w: World, id: U32, now: nat, draws: nat -> nat) {
    && w.pool != [] && |w.pool| - 1 < s.minPool / 2
    && IsPanic(RefillSelection(s, Popped(w, id), now, draws).1)
  }

  /** Under safe settings no refill panics. */
  lemma SafeAssignment(s: Settings, w: World, id: U32, now: nat, draws: nat -> nat)
    requires SafeSettings(s.selector)
    ensures !AssignPanics(s, w, id, now, draws)
  {
    if w.pool != [] {
      var p := Popped(w, id);
      SafeSettingsDoNotPanic(s.selector, p.sel, p.relays, true, now, FirstDraws(Lacking(s, p.pool), draws), []);
    }
  }

  lemma AssignedKeeps(s: Settings, w: World, id: U32, now: nat, draws: nat -> nat)
    ensures var (next, panicked) := Assigned(s, w, id, now, draws);
            && Keeps(w, next) && SameRecords(w, next) && next.relays == w.relays
            && OthersSame(w.circuits, next.circuits, id)
            && (id in w.circuits ==>
                  next.circuits[id] == if w.pool == [] then w.circuits[id] else w.circuits[id].(backup := Some(w.pool[0])))
            && (panicked <==> AssignPanics(s, w, id, now, draws))
  {
    if w.pool != [] {
      var popped := Popped(w, id);
      assert w.popped + w.pool == popped.popped + popped.pool;
      if |popped.pool| < s.minPool / 2 {
        RefilledKeeps(s, popped, now, draws);
        var sel, r := RefilledIsStocked(s, popped, now, draws);
      }
    }
  }

  lemma Next32Wraps(n: nat)
    ensures Next32(n % TWO_32) == (n + 1) % TWO_32
  {
  }

  lemma ReasonKept(reasons: seq<FailureType>, types: seq<FailureType>, reason: FailureType)
    requires EndsIn(reasons, types, 10)
    ensures EndsIn(reasons + [reason], Last(types + [reason], KEPT_TYPES), 10)
  {
    EndsInLast(reasons, types, 10);
    LastOfLast(reasons, reason, 10);
    EndsInLast(reasons + [reason], Last(reasons + [reason], 10), 10);
  }

  /** The failed relay's own record. */
  lemma CountedRecord(w: World, relay: string, reason: FailureType, now: nat)
    requires RecordOk(w.failures, w.reports, relay)
    ensures var next := Counted(w, relay, reason, now);
            && RecordOk(next.failures, next.reports, relay)
            && next.failures[relay].consecutive == (StreakOf(w.reports, relay) + 1) % TWO_32
  {
    ReasonsNext(w.reports, Report(relay, reason), relay);
    ReasonKept(ReasonsOf(w.reports, relay), InfoOf(w, relay, now).types, reason);
    Next32Wraps(|ReasonsOf(w.reports, relay)|);
    Next32Wraps(StreakOf(w.reports, relay));
  }

  lemma CountedKeepsRecords(w: World, relay: string, reason: FailureType, now: nat)
    requires RecordsOk(w.failures, w.reports)
    ensures var next := Counted(w, relay, reason, now); RecordsOk(next.failures, next.reports)
  {
    var next := Counted(w, relay, reason, now);
    forall other: string ensures RecordOk(next.failures, next.reports, other) {
      assert RecordOk(w.failures, w.reports, other);
      if other == relay {
        CountedRecord(w, relay, reason, now);
      } else {
        ReasonsNext(w.reports, Report(relay, reason), other);
      }
    }
  }

  predicate OnlyChanges(before: seq<Relay>, after: seq<Relay>, relay: string) {
    && |after| == |before|
    && (forall i :: 0 <= i < |before| ==> after[i].id == before[i].id)
    && (forall i :: 0 <= i < |before| && before[i].id != relay ==> after[i] == before[i])
  }

  /** Failure records differ for this relay only; counts and history are the same. */
  ghost predicate OnlyBlames(before: State, after: State, relay: string) {
    && after.history == before.history && after.counts == before.counts
    && (forall id :: id != relay ==> (id in after.failures <==> id in before.failures))
    && (forall id :: id != relay && id in before.failures ==> after.failures[id] == before.failures[id])
  }

  /** Recording blames no relay but the failed one: all others stay as they are in registry and selector. */
  lemma RecordedKeeps(s: Settings, w: World, relay: string, reason: FailureType, now: nat)
    requires RecordsOk(w.failures, w.reports)
    ensures var next := Recorded(s, w, relay, reason, now);
            && Keeps(w, next) && RecordsOk(next.failures, next.reports) && next.circuits == w.circuits
            && OnlyChanges(w.relays, next.relays, relay) && OnlyBlames(w.sel, next.sel, relay)
  {
    CountedKeepsRecords(w, relay, reason, now);
    TraceNext(w.trace, Sent(RelayUnhealthy(relay)));
    var told := ToldSelector(s, Counted(w, relay, reason, now), relay, now);
    assert OnlyChanges(w.relays, told.relays, relay);
  }

  /**
   The relay is announced as unhealthy, and marked degraded, exactly from its third failure since a recovery on, save
   that the 32-bit count starts anew after 2^32 of them.
   */
  lemma UnhealthyFromThird(s: Settings, w: World, relay: string, reason: FailureType, now: nat)
    requires RecordsOk(w.failures, w.reports)
    ensures var next, third := Recorded(s, w, relay, reason, now), (StreakOf(w.reports, relay) + 1) % TWO_32 >= 3;
            && next.trace == w.trace + (if third then [Sent(RelayUnhealthy(relay))] else [])
            && (third ==> forall i :: 0 <= i < |next.relays| && next.relays[i].id == relay ==>
                            next.relays[i].health == Health.Degraded)
  {
    assert RecordOk(w.failures, w.reports, relay);
    CountedRecord(w, relay, reason, now);
  }

  // ---------------------------------------------------------------- one reported failure

  /** Some listed relay is usable and not the failed one. */
  ghost predicate AnotherUsable(relays: seq<Relay>, failed: string) {
    exists i :: 0 <= i < |relays| && relays[i].id != failed && IsUsable(relays[i].health)
  }

  lemma AnotherUsableMeets(relays: seq<Relay>, failed: string, now: nat)
    ensures AnotherUsable(relays, failed) <==> SomeMeets(relays, AnyBut(failed), now)
  {
    if SomeMeets(relays, AnyBut(failed), now) {
      var r :| r in relays && Meets(r, AnyBut(failed), now);
      var i :| 0 <= i < |relays| && relays[i] == r;
      assert relays[i].id != failed && IsUsable(relays[i].health);
    }
    if AnotherUsable(relays, failed) {
      var i :| 0 <= i < |relays| && relays[i].id != failed && IsUsable(relays[i].health);
      assert Meets(relays[i], AnyBut(failed), now);
    }
  }

  /** Blaming one relay changes nothing about a choice among the others. */
  lemma {:induction false} SameMatching(before: seq<Relay>, after: seq<Relay>, failed: string, now: nat)
    requires OnlyChanges(before, after, failed)
    ensures Matching(after, AnyBut(failed), now) == Matching(before, AnyBut(failed), now)
  {
    if before != [] {
      SameMatching(before[1..], after[1..], failed, now);
    }
  }

  lemma {:induction false} SameRested(cfg: Config, before: State, after: State, failed: string, rs: seq<Relay>, now: nat)
    requires OnlyBlames(before, after, failed) && forall i :: 0 <= i < |rs| ==> rs[i].id != failed
    ensures RestedRelays(cfg, after, rs, now) == RestedRelays(cfg, before, rs, now)
  {
    if rs != [] {
      SameRested(cfg, before, after, failed, rs[1..], now);
    }
  }

  lemma SameChoice(cfg: Config, before: State, after: State, was: seq<Relay>, relays: seq<Relay>, failed: string, now: nat)
    requires OnlyChanges(was, relays, failed) && OnlyBlames(before, after, failed)
    ensures SomeMeets(relays, AnyBut(failed), now) <==> SomeMeets(was, AnyBut(failed), now)
    ensures PickPanics(cfg, after, relays, AnyBut(failed), now) <==> PickPanics(cfg, before, was, AnyBut(failed), now)
  {
    var c, m := AnyBut(failed), Matching(was, AnyBut(failed), now);
    SameMatching(was, relays, failed, now);
    SomeMeetsIffMatching(was, c, now);
    SomeMeetsIffMatching(relays, c, now);
    ClampPanicsIff(cfg, before, was, c, now);
    ClampPanicsIff(cfg, after, relays, c, now);
    forall i | 0 <= i < |m| ensures m[i].id != failed { assert m[i] in m; }
    SameRested(cfg, before, after, failed, m, now);
  }

  /** The failover comes from the backup: what it does to this circuit, to the others and to the trace. */
  lemma FromBackup(s: Settings, w: World, id: U32, failed: string, now: nat, draws: nat -> nat)
    requires id in w.circuits && w.circuits[id].backup.Some? && w.circuits[id].backup.value.id != failed
    ensures var (next, r) := FailedOver(s, w, id, failed, now, draws);
            var backup := w.circuits[id].backup.value;
            && Keeps(w, next) && SameRecords(w, next) && OthersSame(w.circuits, next.circuits, id)
            && next.circuits[id].primary == backup && next.circuits[id].status == Recovering
            && r == if AssignPanics(s, w, id, now, draws) then Err(SelectorPanic) else Ok(backup)
  {
    var backup := w.circuits[id].backup.value;
    var taken := w.(circuits := w.circuits[id := w.circuits[id].(backup := None)]);
    var moved := Moved(taken, id, backup);
    AssignedKeeps(s, moved, id, now, draws);
    if w.pool != [] {
      assert RefillSelection(s, Popped(moved, id), now, draws) == RefillSelection(s, Popped(w, id), now, draws);
    }
    OthersSameTwice(w.circuits, moved.circuits, FailedOver(s, w, id, failed, now, draws).0.circuits, id);
  }

  /** The failover comes from the selector. */
  lemma FromSelector(s: Settings, w: World, id: U32, failed: string, now: nat, draws: nat -> nat)
    requires id in w.circuits && Scan(w.trace) == Failing(id)
    requires w.circuits[id].backup.Some? ==> w.circuits[id].backup.value.id == failed
    ensures var (next, r) := FailedOver(s, w, id, failed, now, draws);
            var found, undefined := SomeMeets(w.relays, AnyBut(failed), now),
                                    PickPanics(s.selector, w.sel, w.relays, AnyBut(failed), now);
            && Keeps(w, next) && SameRecords(w, next) && OthersSame(w.circuits, next.circuits, id)
            && (r.Ok? <==> found && !undefined)
            && (r.Err? ==> r.error == (if found then SelectorPanic else NoHealthyRelays)
                           && next.circuits[id] == w.circuits[id].(backup := None))
            && (r.Ok? ==> r.value in w.relays && r.value.id != failed && next.circuits[id].primary == r.value
                          && next.circuits[id].status == Recovering)
  {
    var c := AnyBut(failed);
    SelectionSucceedsIff(s.selector, w.sel, w.relays, c, now, draws(0));
    var (sel, r) := Selected(s.selector, w.sel, w.relays, c, now, draws(0));
    if r.Ok? {
      SelectionIsSafe(s.selector, w.sel, w.relays, c, now, draws(0));
      TraceNext(w.trace, Sent(FailoverStarted(id, failed, r.value.id)));
    }
  }

  lemma StartedOutcome(s: Settings, w: World, id: U32, reason: FailureType, now: nat)
    requires Inv(w) && id in w.circuits
    ensures var next, failed := Started(s, w, id, reason, now), w.circuits[id].primary.id;
            && Scan(next.trace) == Failing(id) && Announced(next.trace) == Announced(w.trace) + 1
            && Ended(next.trace) == Ended(w.trace) && Abortions(next.trace) == Abortions(w.trace)
            && BackupsInOrder(next) && RecordsOk(next.failures, next.reports)
            && next.circuits == Marked(w, id).circuits
            && OnlyChanges(w.relays, next.relays, failed) && OnlyBlames(w.sel, next.sel, failed)
  {
    var failed := w.circuits[id].primary.id;
    RecordedKeeps(s, Marked(w, id), failed, reason, now);
    TraceNext(Recorded(s, Marked(w, id), failed, reason, now).trace, Sent(CircuitFailed(id, failed, reason)));
  }

  /** The circuit has a backup other than its failed primary. */
  predicate HasBackup(c: Circuit) {
    c.backup.Some? && c.backup.value.id != c.primary.id
  }

  /** A report is a start, a failover and a mark behind it. */
  lemma ReportedIs(s: Settings, w: World, id: U32, reason: FailureType, now: nat, draws: nat -> nat)
    returns (started: World, moved: World, r: Result<Relay, FailoverError>)
    requires id in w.circuits
    ensures started == Started(s, w, id, reason, now)
    ensures (moved, r) == FailedOver(s, started, id, w.circuits[id].primary.id, now, draws)
    ensures ReportedFailure(s, w, id, reason, now, draws) == (moved.(trace := moved.trace + [EndingOf(id, r)]), r)
  {
    started := Started(s, w, id, reason, now);
    var out := FailedOver(s, started, id, w.circuits[id].primary.id, now, draws);
    moved, r := out.0, out.1;
  }

  lemma FailedOverKeeps(s: Settings, w: World, id: U32, failed: string, now: nat, draws: nat -> nat)
    requires id in w.circuits && Scan(w.trace) == Failing(id)
    ensures Keeps(w, FailedOver(s, w, id, failed, now, draws).0)
    ensures SameRecords(w, FailedOver(s, w, id, failed, now, draws).0)
  {
    if w.circuits[id].backup.Some? && w.circuits[id].backup.value.id != failed {
      FromBackup(s, w, id, failed, now, draws);
    } else {
      FromSelector(s, w, id, failed, now, draws);
    }
  }

  /** What one reported failure adds to the trace: its announcement, and one ending or one cut. */
  ghost predicate OneMoreReport(w: World, next: World, id: U32, r: Result<Relay, FailoverError>) {
    && Announced(next.trace) == Announced(w.trace) + 1
    && Ended(next.trace) == Ended(w.trace) + (if r == Err(SelectorPanic) then 0 else 1)
    && Abortions(next.trace) == Abortions(w.trace) + (if r == Err(SelectorPanic) then 1 else 0)
    && next.trace != [] && next.trace[|next.trace| - 1] == EndingOf(id, r)
  }

  lemma EndingLog(w: World, started: World, moved: World, id: U32, r: Result<Relay, FailoverError>)
    requires Scan(started.trace) == Failing(id) && Announced(started.trace) == Announced(w.trace) + 1
    requires Ended(started.trace) == Ended(w.trace) && Abortions(started.trace) == Abortions(w.trace)
    requires BackupsInOrder(started) && RecordsOk(started.failures, started.reports)
    requires Keeps(started, moved) && SameRecords(started, moved)
    ensures var next := moved.(trace := moved.trace + [EndingOf(id, r)]); OneMoreReport(w, next, id, r) && Inv(next)
  {
    TraceNext(moved.trace, EndingOf(id, r));
  }

  /**
   A failure reported for a known circuit is announced once. It then ends once, the ending last, unless a panic cuts
   the report off; the invariant stays.
   */
  lemma ReportedFailureLog(s: Settings, w: World, id: U32, reason: FailureType, now: nat, draws: nat -> nat)
    requires Inv(w) && id in w.circuits
    ensures var (next, r) := ReportedFailure(s, w, id, reason, now, draws); OneMoreReport(w, next, id, r) && Inv(next)
  {
    StartedOutcome(s, w, id, reason, now);
    var started, moved, r := ReportedIs(s, w, id, reason, now, draws);
    FailedOverKeeps(s, started, id, w.circuits[id].primary.id, now, draws);
    EndingLog(w, started, moved, id, r);
  }

  predicate MovedToBackup(was: Circuit, after: Circuit, panics: bool, r: Result<Relay, FailoverError>)
    requires was.backup.Some?
  {
    && after.primary == was.backup.value && after.status == Recovering
    && r == if panics then Err(SelectorPanic) else Ok(was.backup.value)
  }

  predicate MovedBySelector(was: Circuit, after: Circuit, found: bool, panics: bool, r: Result<Relay, FailoverError>) {
    && (r.Ok? <==> found && !panics)
    && (r.Ok? ==> r.value.id != was.primary.id && after.primary == r.value && after.status == Recovering)
    && (r.Err? ==> && r.error == (if found then SelectorPanic else NoHealthyRelays)
                   && after == was.(status := Failed, backup := None))
  }

  /**
   With a backup other than the failed relay the circuit moves to it and recovers; the report succeeds unless the
   refill that follows panics. No other circuit changes.
   */
  lemma BackupOutcome(s: Settings, w: World, id: U32, reason: FailureType, now: nat, draws: nat -> nat)
    requires Inv(w) && id in w.circuits && HasBackup(w.circuits[id])
    ensures var (next, r) := ReportedFailure(s, w, id, reason, now, draws);
            && OthersSame(w.circuits, next.circuits, id)
            && MovedToBackup(w.circuits[id], next.circuits[id],
                             AssignPanics(s, Started(s, w, id, reason, now), id, now, draws), r)
  {
    StartedOutcome(s, w, id, reason, now);
    var started, moved, r := ReportedIs(s, w, id, reason, now, draws);
    FromBackup(s, started, id, w.circuits[id].primary.id, now, draws);
    OthersSameTwice(w.circuits, started.circuits, moved.circuits, id);
  }

  /**
   Without one the report succeeds exactly when another listed relay is usable and the pick among those is defined:
   then the circuit moves to the returned relay, not the failed one, and recovers. Else its primary stays and it is
   failed, with an error if no other relay is usable, by a panic if the pick is undefined. No other circuit changes.
   */
  lemma SelectorOutcome(s: Settings, w: World, id: U32, reason: FailureType, now: nat, draws: nat -> nat)
    requires Inv(w) && id in w.circuits && !HasBackup(w.circuits[id])
    ensures var (next, r) := ReportedFailure(s, w, id, reason, now, draws);
            var failed := w.circuits[id].primary.id;
            && OthersSame(w.circuits, next.circuits, id)
            && MovedBySelector(w.circuits[id], next.circuits[id], AnotherUsable(w.relays, failed),
                               PickPanics(s.selector, w.sel, w.relays, AnyBut(failed), now), r)
  {
    var failed := w.circuits[id].primary.id;
    StartedOutcome(s, w, id, reason, now);
    var started, moved, r := ReportedIs(s, w, id, reason, now, draws);
    FromSelector(s, started, id, failed, now, draws);
    SameChoice(s.selector, w.sel, started.sel, w.relays, started.relays, failed, now);
    AnotherUsableMeets(w.relays, failed, now);
    OthersSameTwice(w.circuits, started.circuits, moved.circuits, id);
  }

  // ---------------------------------------------------------------- the events of a report, one by one

  /** What a report has sent once its failure is announced: an alarm from the third failure on, and the announcement. */
  function Opening(w: World, id: U32, reason: FailureType): seq<Mark>
    requires id in w.circuits
  {
    var failed := w.circuits[id].primary.id;
    (if (StreakOf(w.reports, failed) + 1) % TWO_32 >= 3 then [Sent(RelayUnhealthy(failed))] else [])
    + [Sent(CircuitFailed(id, failed, reason))]
  }

  lemma StartedTrace(s: Settings, w: World, id: U32, reason: FailureType, now: nat)
    requires Inv(w) && id in w.circuits
    ensures Started(s, w, id, reason, now).trace == w.trace + Opening(w, id, reason)
  {
    var failed := w.circuits[id].primary.id;
    UnhealthyFromThird(s, Marked(w, id), failed, reason, now);
    var alarm: seq<Mark> := if (StreakOf(w.reports, failed) + 1) % TWO_32 >= 3 then [Sent(RelayUnhealthy(failed))] else [];
    assert w.trace + alarm + [Sent(CircuitFailed(id, failed, reason))] == w.trace + Opening(w, id, reason);
  }

  /** A refill that adds to the pool says by how much, and sends nothing else. */
  lemma RefilledTrace(s: Settings, w: World, now: nat, draws: nat -> nat)
    ensures var next := Refilled(s, w, now, draws).0;
            && |next.pool| >= |w.pool|
            && next.trace == w.trace + if |next.pool| > |w.pool| then [Sent(BackupPoolRefilled(|next.pool| - |w.pool|))] else []
  {
    var sel, r := RefilledIsStocked(s, w, now, draws);
  }

  /** Without a backup: the move from the failed relay to the new one and its completion, or the failure, or a cut. */
  lemma SelectorTrace(s: Settings, w: World, id: U32, reason: FailureType, now: nat, draws: nat -> nat)
    requires Inv(w) && id in w.circuits && !HasBackup(w.circuits[id])
    ensures var (next, r) := ReportedFailure(s, w, id, reason, now, draws);
            next.trace == w.trace + Opening(w, id, reason)
                          + match r
                            case Ok(relay) => [Sent(FailoverStarted(id, w.circuits[id].primary.id, relay.id)),
                                               Sent(FailoverCompleted(id, relay.id))]
                            case Err(SelectorPanic) => [Aborted(id)]
                            case Err(e) => [Sent(FailoverFailed(id, e))]
  {
    StartedTrace(s, w, id, reason, now);
    StartedOutcome(s, w, id, reason, now);
    var started, moved, r := ReportedIs(s, w, id, reason, now, draws);
    SelectedTrace(s, started, id, w.circuits[id].primary.id, now, draws);
  }

  lemma SelectedTrace(s: Settings, w: World, id: U32, failed: string, now: nat, draws: nat -> nat)
    requires id in w.circuits
    requires w.circuits[id].backup.Some? ==> w.circuits[id].backup.value.id == failed
    ensures var (next, r) := FailedOver(s, w, id, failed, now, draws);
            next.trace == if r.Ok? then w.trace + [Sent(FailoverStarted(id, failed, r.value.id))] else w.trace
  {
  }

  /** With a backup: what a refill behind it says, and the completion, or a cut. */
  lemma BackupTrace(s: Settings, w: World, id: U32, reason: FailureType, now: nat, draws: nat -> nat)
    returns (refill: seq<Mark>)
    requires Inv(w) && id in w.circuits && HasBackup(w.circuits[id])
    ensures refill == [] || exists n :: refill == [Sent(BackupPoolRefilled(n))]
    ensures var (next, r) := ReportedFailure(s, w, id, reason, now, draws);
            next.trace == w.trace + Opening(w, id, reason) + refill
                          + match r
                            case Ok(relay) => [Sent(FailoverCompleted(id, relay.id))]
                            case Err(_) => [Aborted(id)]
  {
    StartedTrace(s, w, id, reason, now);
    StartedOutcome(s, w, id, reason, now);
    BackupOutcome(s, w, id, reason, now, draws);
    var started, moved, r := ReportedIs(s, w, id, reason, now, draws);
    refill := MovedTrace(s, started, id, w.circuits[id].primary.id, now, draws);
  }

  lemma MovedTrace(s: Settings, w: World, id: U32, failed: string, now: nat, draws: nat -> nat) returns (refill: seq<Mark>)
    requires id in w.circuits && w.circuits[id].backup.Some? && w.circuits[id].backup.value.id != failed
    ensures refill == [] || exists n :: refill == [Sent(BackupPoolRefilled(n))]
    ensures FailedOver(s, w, id, failed, now, draws).0.trace == w.trace + refill
  {
    var taken := w.(circuits := w.circuits[id := w.circuits[id].(backup := None)]);
    var moved := Moved(taken, id, w.circuits[id].backup.value);
    refill := [];
    if moved.pool != [] && |moved.pool| - 1 < s.minPool / 2 {
      var popped := Popped(moved, id);
      var n := |Refilled(s, popped, now, draws).0.pool| - |popped.pool|;
      RefilledTrace(s, popped, now, draws);
      if n > 0 { refill := [Sent(BackupPoolRefilled(n))]; }
    }
  }

  /** Every usable relay but the failed one is without bandwidth. */
  predicate OthersIdle(relays: seq<Relay>, failed: string) {
    forall i :: 0 <= i < |relays| && relays[i].id != failed && IsUsable(relays[i].health) ==> relays[i].bandwidth == 0
  }

  /** Under hybrid scoring a choice among such relays is undefined, whatever failed or was picked before. */
  lemma IdleRelaysPanic(cfg: Config, st: State, relays: seq<Relay>, failed: string, now: nat)
    requires cfg.strategy == Hybrid && AnotherUsable(relays, failed) && OthersIdle(relays, failed)
    ensures PickPanics(cfg, st, relays, AnyBut(failed), now)
  {
    AnotherUsableMeets(relays, failed, now);
    SomeMeetsIffMatching(relays, AnyBut(failed), now);
    IdleChoices(cfg, st, relays, AnyBut(failed), now);
  }

  /**
   So a report of a circuit without a backup is then cut off behind its announcement: no ending follows, and the
   circuit stays failed.
   */
  lemma IdleRelaysCutReportOff(s: Settings, w: World, id: U32, reason: FailureType, now: nat, draws: nat -> nat)
    requires Inv(w) && id in w.circuits && !HasBackup(w.circuits[id]) && s.selector.strategy == Hybrid
    requires AnotherUsable(w.relays, w.circuits[id].primary.id) && OthersIdle(w.relays, w.circuits[id].primary.id)
    ensures var (next, r) := ReportedFailure(s, w, id, reason, now, draws);
            && r == Err(SelectorPanic) && Ended(next.trace) == Ended(w.trace)
            && id in next.circuits && next.circuits[id] == w.circuits[id].(status := Failed, backup := None)
  {
    IdleRelaysPanic(s.selector, w.sel, w.relays, w.circuits[id].primary.id, now);
    SelectorOutcome(s, w, id, reason, now, draws);
    ReportedFailureLog(s, w, id, reason, now, draws);
  }

  // ---------------------------------------------------------------- the other calls, field by field

  /** A new circuit runs over its relay, active from now on, with the oldest backup if there is one. */
  lemma RegisteredInFields(s: Settings, w: World, id: U32, relay: Relay, now: nat, draws: nat -> nat)
    ensures var (next, panicked) := Registered(s, w, id, relay, now, draws);
            && id in next.circuits
            && next.circuits[id] == Circuit(relay, if w.pool == [] then None else Some(w.pool[0]), now, now, 0, Active)
            && (forall other :: other in w.circuits && other != id ==>
                  other in next.circuits && next.circuits[other] == w.circuits[other])
            && (!panicked ==> next.trace != [] && next.trace[|next.trace| - 1] == Sent(CircuitCreated(id, relay.id)))
  {
    AssignedKeeps(s, w.(circuits := w.circuits[id := Circuit(relay, None, now, now, 0, Active)]), id, now, draws);
  }

  /** The oldest backup goes; a refill follows exactly when the pool had at most half its minimum. */
  lemma AssignedInNumbers(s: Settings, w: World, id: U32, now: nat, draws: nat -> nat)
    requires w.pool != []
    ensures var next := Assigned(s, w, id, now, draws).0;
            && next.popped == w.popped + [w.pool[0]] && w.pool[1..] <= next.pool
            && (2 * |w.pool| > s.minPool ==> next.pool == w.pool[1..] && next.sel == w.sel && next.trace == w.trace)
            && (2 * |w.pool| <= s.minPool ==> next.pool == Refilled(s, Popped(w, id), now, draws).0.pool)
  {
    var popped := Popped(w, id);
    RefillFillsOrLeaves(s, popped, now, draws);
    RefilledTail(s, popped, now, draws);
  }

  lemma RefilledTail(s: Settings, w: World, now: nat, draws: nat -> nat)
    ensures Refilled(s, w, now, draws).0.popped == w.popped
  {
    var sel, r := RefilledIsStocked(s, w, now, draws);
  }

  /** Activity dates the circuit, counts its bytes, and ends a degradation; nothing else changes. */
  lemma ActivityInFields(w: World, id: U32, bytes: nat, now: nat)
    requires id in w.circuits
    ensures var was, next := w.circuits[id], ActivityReported(w, id, bytes, now);
            && next == w.(circuits := next.circuits) && OthersSame(w.circuits, next.circuits, id)
            && next.circuits[id] == was.(lastActivity := now, bytes := was.bytes + bytes,
                                         status := next.circuits[id].status)
            && next.circuits[id].status == match was.status
                                           case Degraded => Active
                                           case other => other
  {
  }

  /** A sweep degrades exactly the active circuits without activity for more than five minutes, in nanoseconds. */
  lemma SweptInNumbers(w: World, now: nat)
    ensures var next := Swept(w, now);
            && next.circuits.Keys == w.circuits.Keys && next == w.(circuits := next.circuits)
            && forall id :: id in w.circuits ==>
                 var was := w.circuits[id];
                 next.circuits[id] == if was.status == Active && was.lastActivity + 300_000_000_000 < now
                                      then was.(status := CircuitStatus.Degraded) else was
  {
  }

  /** So a circuit with activity in the last five minutes is not degraded, even one that was. */
  lemma ActivityKeepsFromSweep(w: World, id: U32, bytes: nat, at: nat, now: nat)
    requires id in w.circuits && now <= at + 300_000_000_000
    requires w.circuits[id].status == Active || w.circuits[id].status == CircuitStatus.Degraded
    ensures var next := Swept(ActivityReported(w, id, bytes, at), now);
            id in next.circuits && next.circuits[id].status == Active
  {
    ActivityInFields(w, id, bytes, at);
    SweptInNumbers(ActivityReported(w, id, bytes, at), now);
  }

  /** A relay recovers once its last failure is more than five minutes ago: healthy, announced, its streak at zero. */
  lemma RecoveredInFields(w: World, relay: string, now: nat)
    ensures Recoverable(w, relay, now) <==>
              relay in w.failures && w.failures[relay].lastFailure + 300_000_000_000 < now
    ensures relay in w.failures ==>
              var next, was := Recovered(w, relay), w.failures[relay];
              && next.failures == w.failures[relay := FailureInfo(was.count, was.lastFailure, was.types, 0)]
              && next.trace == w.trace + [Sent(RelayRecovered(relay))]
              && |next.relays| == |w.relays|
              && (forall i :: 0 <= i < |w.relays| ==>
                    next.relays[i] == if w.relays[i].id == relay then w.relays[i].(health := Healthy) else w.relays[i])
              && next.circuits == w.circuits && next.sel == w.sel && next.pool == w.pool
  {
    HealthEverywhere(w.relays, relay, Healthy);
  }

  /** A failure dates the record and leaves everything about other relays' records as it was. */
  lemma CountedInFields(w: World, relay: string, reason: FailureType, now: nat)
    ensures var next := Counted(w, relay, reason, now);
            && relay in next.failures && next.failures[relay].lastFailure == now
            && next.failures[relay].types != []
            && next.failures[relay].types[|next.failures[relay].types| - 1] == reason
            && forall other :: other in w.failures && other != relay ==>
                 other in next.failures && next.failures[other] == w.failures[other]
  {
  }

  // ---------------------------------------------------------------- runs

  datatype Call =
    | Register(id: U32, relay: Relay)
    | Fail(id: U32, reason: FailureType)
    | Activity(id: U32, bytes: nat)
    | Close(id: U32)
    | Refill
    | Sweep
    | Recover(failed: string)

  /** A call with the time it is made at and the random draws it sees. */
  datatype Request = Request(call: Call, now: nat, draws: nat -> nat)

  predicate Enabled(w: World, q: Request) {
    q.call.Recover? ==> Recoverable(w, q.call.failed, q.now)
  }

  function Step(s: Settings, w: World, q: Request): World
    requires Enabled(w, q)
  {
    match q.call
    case Register(id, relay) => Registered(s, w, id, relay, q.now, q.draws).0
    case Fail(id, reason) => ReportedFailure(s, w, id, reason, q.now, q.draws).0
    case Activity(id, bytes) => ActivityReported(w, id, bytes, q.now)
    case Close(id) => w.(circuits := w.circuits - {id})
    case Refill => Refilled(s, w, q.now, q.draws).0
    case Sweep => Swept(w, q.now)
    case Recover(relay) => Recovered(w, relay)
  }

  ghost predicate Execution(s: Settings, w: World, calls: seq<Request>)
    decreases |calls|
  {
    calls == [] || (Enabled(w, calls[0]) && Execution(s, Step(s, w, calls[0]), calls[1..]))
  }

  ghost function Run(s: Settings, w: World, calls: seq<Request>): World
    requires Execution(s, w, calls)
    decreases |calls|
  {
    if calls == [] then w else Run(s, Step(s, w, calls[0]), calls[1..])
  }

  lemma RegisteredKeepsInv(s: Settings, w: World, id: U32, relay: Relay, now: nat, draws: nat -> nat)
    requires Inv(w)
    ensures Inv(Registered(s, w, id, relay, now, draws).0)
  {
    var added := w.(circuits := w.circuits[id := Circuit(relay, None, now, now, 0, Active)]);
    AssignedKeeps(s, added, id, now, draws);
    TraceNext(Assigned(s, added, id, now, draws).0.trace, Sent(CircuitCreated(id, relay.id)));
  }

  lemma RecoveredKeepsInv(w: World, relay: string)
    requires Inv(w) && relay in w.failures
    ensures Inv(Recovered(w, relay))
  {
    TraceNext(w.trace, Sent(RelayRecovered(relay)));
    var next := Recovered(w, relay);
    forall other: string ensures RecordOk(next.failures, next.reports, other) {
      assert RecordOk(w.failures, w.reports, other);
      ReasonsNext(w.reports, Recovery(relay), other);
    }
  }

  lemma StepKeepsInv(s: Settings, w: World, q: Request)
    requires Inv(w) && Enabled(w, q)
    ensures Inv(Step(s, w, q))
  {
    match q.call
    case Register(id, relay) => RegisteredKeepsInv(s, w, id, relay, q.now, q.draws);
    case Fail(id, reason) => if id in w.circuits { ReportedFailureLog(s, w, id, reason, q.now, q.draws); }
    case Refill => RefilledKeeps(s, w, q.now, q.draws);
    case Recover(relay) => RecoveredKeepsInv(w, relay);
    case _ =>
  }

  /**
   Over any run: each announced failure ends exactly once, for the same circuit and before the next one is announced,
   or is cut off by a panic; the backups popped so far followed by the pool are all refilled relays in order; and every
   failure record holds the last ten reasons reported for its relay and its failures since the last recovery.
   */
  lemma {:induction false} RunKeepsInv(s: Settings, w: World, calls: seq<Request>)
    requires Inv(w) && Execution(s, w, calls)
    ensures Inv(Run(s, w, calls))
    decreases |calls|
  {
    if calls != [] {
      StepKeepsInv(s, w, calls[0]);
      RunKeepsInv(s, Step(s, w, calls[0]), calls[1..]);
    }
  }

  function Start(sel: State, relays: seq<Relay>): World {
    World(map[], map[], [], sel, relays, [], [], [], [])
  }

  lemma EveryRun(s: Settings, sel: State, relays: seq<Relay>, calls: seq<Request>)
    requires Execution(s, Start(sel, relays), calls)
    ensures var w := Run(s, Start(sel, relays), calls);
            && Announced(w.trace) == Ended(w.trace) + Abortions(w.trace)
            && BackupsInOrder(w)
            && forall relay :: RecordOk(w.failures, w.reports, relay)
  {
    assert Inv(Start(sel, relays));
    RunKeepsInv(s, Start(sel, relays), calls);
    OrderlyTraceIsPaired(Run(s, Start(sel, relays), calls).trace);
  }
}
