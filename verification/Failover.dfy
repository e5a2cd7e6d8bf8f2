/**
 Failover of circuits to backup or newly selected relays (gptl-routing, failover.rs), its calls run one at a time. A
 panic of the selector ends the call that asked it, at the point where it asks.
 */
module Failover {
  import opened Bytes
  import opened RelaySelector

  datatype CircuitStatus = Active | Degraded | Failed | Recovering | Closed

  datatype FailureType =
    | ConnectionFailed | Timeout | ProtocolError | AuthenticationFailed | Rejected | HighLatency | PacketLoss | Unhealthy

  datatype Circuit = Circuit(primary: Relay, backup: Option<Relay>, createdAt: nat, lastActivity: nat, bytes: nat,
                             status: CircuitStatus)

  datatype FailureInfo = FailureInfo(count: U32, lastFailure: nat, types: seq<FailureType>, consecutive: U32)

  datatype Event =
    | CircuitCreated(circuit: U32, relay: string)
    | CircuitFailed(circuit: U32, relay: string, reason: FailureType)
    | FailoverStarted(circuit: U32, oldRelay: string, newRelay: string)
    | FailoverCompleted(circuit: U32, newRelay: string)
    | FailoverFailed(circuit: U32, error: FailoverError)
    | RelayUnhealthy(relay: string)
    | RelayRecovered(relay: string)
    | BackupPoolRefilled(count: nat)

  /** `SelectorPanic` is no error value: it stands for a panic that ends the call. */
  datatype FailoverError = CircuitNotFound | NoHealthyRelays | SelectorPanic

  /** What a run leaves behind: the events sent, and where a panic ended the report of a circuit's failure. */
  datatype Mark = Sent(event: Event) | Aborted(circuit: U32)

  function EventsOf(trace: seq<Mark>): seq<Event> {
    if trace == [] then []
    else
      var n := |trace| - 1;
      EventsOf(trace[..n]) + (if trace[n].Sent? then [trace[n].event] else [])
  }

  lemma EventsNext(trace: seq<Mark>, m: Mark)
    ensures EventsOf(trace + [m]) == EventsOf(trace) + (if m.Sent? then [m.event] else [])
  {
    assert (trace + [m])[..|trace|] == trace;
  }

  datatype Report = Report(relay: string, reason: FailureType) | Recovery(relay: string)

  const KEPT_TYPES := 10
  const UNHEALTHY_AFTER := 3
  const QUIET_NANOS: nat := 300_000_000_000

  datatype Settings = Settings(minPool: nat, selector: Config)

  /**
   The manager's tables, its selector's state, the registry, and four histories: the trace, every backup popped,
   every backup refilled, and every failure reported and recovery noticed so far.
   */
  datatype World = World(circuits: map<U32, Circuit>, failures: map<string, FailureInfo>, pool: seq<Relay>,
                         sel: State, relays: seq<Relay>, trace: seq<Mark>,
                         popped: seq<Relay>, refilled: seq<Relay>, reports: seq<Report>)

  // ---------------------------------------------------------------- the operations as functions of the world

  function Send(w: World, e: Event): World {
    w.(trace := w.trace + [Sent(e)])
  }

  function FirstDraws(n: nat, draws: nat -> nat): (ds: seq<nat>)
    ensures |ds| == n && forall i :: 0 <= i < n ==> ds[i] == draws(i)
  {
    seq<nat>(n, (i: nat) => draws(i))
  }

  /** A failed selection leaves the pool as it is. */
  function Stocked(w: World, sel: State, r: Result<seq<Relay>, SelectorError>): World {
    match r
    case Err(_) => w.(sel := sel)
    case Ok(rs) =>
      var next := w.(sel := sel, pool := w.pool + rs, refilled := w.refilled + rs);
      if |rs| > 0 then Send(next, BackupPoolRefilled(|rs|)) else next
  }

  function Lacking(s: Settings, pool: seq<Relay>): nat {
    if s.minPool > |pool| then s.minPool - |pool| else 0
  }

  /** The selection of a refill: as many relays as the pool lacks, spread over regions. */
  function RefillSelection(s: Settings, w: World, now: nat, draws: nat -> nat)
    : (State, Result<seq<Relay>, SelectorError>)
  {
    SelectedMany(s.selector, w.sel, w.relays, true, now, FirstDraws(Lacking(s, w.pool), draws), [])
  }

  /** The world after a refill, and whether it panicked. */
  function Refilled(s: Settings, w: World, now: nat, draws: nat -> nat): (World, bool) {
    if Lacking(s, w.pool) == 0 then (w, false)
    else
      var (sel, r) := RefillSelection(s, w, now, draws);
      (Stocked(w, sel, r), IsPanic(r))
  }

  /** The oldest backup leaves the pool for the circuit, if that still exists. */
  function Popped(w: World, id: U32): World
    requires w.pool != []
  {
    w.(pool := w.pool[1..], popped := w.popped + [w.pool[0]],
       circuits := if id !in w.circuits then w.circuits
                   else w.circuits[id := w.circuits[id].(backup := Some(w.pool[0]))])
  }

  function Assigned(s: Settings, w: World, id: U32, now: nat, draws: nat -> nat): (World, bool) {
    if w.pool == [] then (w, false)
    else if |w.pool| - 1 < s.minPool / 2 then Refilled(s, Popped(w, id), now, draws)
    else (Popped(w, id), false)
  }

  function Registered(s: Settings, w: World, id: U32, relay: Relay, now: nat, draws: nat -> nat): (World, bool) {
    var added := w.(circuits := w.circuits[id := Circuit(relay, None, now, now, 0, Active)]);
    var (next, panicked) := Assigned(s, added, id, now, draws);
    (if panicked then next else Send(next, CircuitCreated(id, relay.id)), panicked)
  }

  function InfoOf(w: World, relay: string, now: nat): FailureInfo {
    if relay in w.failures then w.failures[relay] else FailureInfo(0, now, [], 0)
  }

  /** One more, in 32 bits. */
  function Next32(n: nat): U32 {
    (n + 1) % 0x1_0000_0000
  }

  function Counted(w: World, relay: string, reason: FailureType, now: nat): World {
    var was := InfoOf(w, relay, now);
    var info := FailureInfo(Next32(was.count), now, Last(was.types + [reason], KEPT_TYPES), Next32(was.consecutive));
    w.(failures := w.failures[relay := info], reports := w.reports + [Report(relay, reason)])
  }

  function ToldSelector(s: Settings, w: World, relay: string, now: nat): World {
    var failed := RelaySelector.Failed(w.sel.failures, relay, now);
    w.(sel := w.sel.(failures := failed), relays := Blamed(s.selector, w.relays, failed, relay))
  }

  /** From the third failure in a row on, the relay counts as unhealthy. */
  function Alarmed(w: World, relay: string): World {
    if relay in w.failures && w.failures[relay].consecutive >= UNHEALTHY_AFTER then
      Send(w.(relays := WithHealth(w.relays, relay, Health.Degraded)), RelayUnhealthy(relay))
    else w
  }

  function Recorded(s: Settings, w: World, relay: string, reason: FailureType, now: nat): World {
    Alarmed(ToldSelector(s, Counted(w, relay, reason, now), relay, now), relay)
  }

  /** Any usable relay but the failed one. */
  function AnyBut(failed: string): Criteria {
    Criteria(None, None, None, {}, true, {failed}, false, false, None)
  }

  function Moved(w: World, id: U32, relay: Relay): World
    requires id in w.circuits
  {
    w.(circuits := w.circuits[id := w.circuits[id].(primary := relay, status := Recovering)])
  }

  /** Takes the backup, unless it is the failed relay itself; otherwise asks the selector. */
  function FailedOver(s: Settings, w: World, id: U32, failed: string, now: nat, draws: nat -> nat)
    : (World, Result<Relay, FailoverError>)
  {
    if id !in w.circuits then (w, Err(CircuitNotFound))
    else
      var backup := w.circuits[id].backup;
      var taken := w.(circuits := w.circuits[id := w.circuits[id].(backup := None)]);
      if backup.Some? && backup.value.id != failed then
        var (next, panicked) := Assigned(s, Moved(taken, id, backup.value), id, now, draws);
        (next, if panicked then Err(SelectorPanic) else Ok(backup.value))
      else
        var (sel, r) := Selected(s.selector, taken.sel, taken.relays, AnyBut(failed), now, draws(0));
        if IsPanic(r) then (taken.(sel := sel), Err(SelectorPanic))
        else
          match r
          case Err(_) => (taken.(sel := sel), Err(NoHealthyRelays))
          case Ok(relay) => (Send(Moved(taken.(sel := sel), id, relay), FailoverStarted(id, failed, relay.id)), Ok(relay))
  }

  function Marked(w: World, id: U32): World
    requires id in w.circuits
  {
    w.(circuits := w.circuits[id := w.circuits[id].(status := Failed)])
  }

  function ReportedFailure(s: Settings, w: World, id: U32, reason: FailureType, now: nat, draws: nat -> nat)
    : (World, Result<Relay, FailoverError>)
  {
    if id !in w.circuits then (w, Err(CircuitNotFound))
    else
      var (next, r) := FailedOver(s, Started(s, w, id, reason, now), id, w.circuits[id].primary.id, now, draws);
      (next.(trace := next.trace + [EndingOf(id, r)]), r)
  }

  /** The world once the failure is recorded and announced. */
  function Started(s: Settings, w: World, id: U32, reason: FailureType, now: nat): World
    requires id in w.circuits
  {
    var failed := w.circuits[id].primary.id;
    Send(Recorded(s, Marked(w, id), failed, reason, now), CircuitFailed(id, failed, reason))
  }

  function EndingOf(id: U32, r: Result<Relay, FailoverError>): Mark {
    match r
    case Ok(relay) => Sent(FailoverCompleted(id, relay.id))
    case Err(SelectorPanic) => Aborted(id)
    case Err(e) => Sent(FailoverFailed(id, e))
  }

  function ActivityReported(w: World, id: U32, bytes: nat, now: nat): World {
    if id !in w.circuits then w
    else
      var c := w.circuits[id];
      w.(circuits := w.circuits[id := c.(lastActivity := now, bytes := c.bytes + bytes,
                                         status := if c.status == CircuitStatus.Degraded then Active else c.status)])
  }

  /** Active, but silent for more than five minutes. */
  predicate Silent(c: Circuit, now: nat) {
    c.status == Active && Elapsed(now, c.lastActivity) > QUIET_NANOS
  }

  function Swept(w: World, now: nat): World {
    w.(circuits := map id | id in w.circuits ::
                     if Silent(w.circuits[id], now) then w.circuits[id].(status := CircuitStatus.Degraded) else w.circuits[id])
  }

  predicate Recoverable(w: World, relay: string, now: nat) {
    relay in w.failures && Elapsed(now, w.failures[relay].lastFailure) > QUIET_NANOS
  }

  /** The sweep over the failed relays, one relay of it. */
  function Recovered(w: World, relay: string): World
    requires relay in w.failures
  {
    Send(w.(failures := w.failures[relay := w.failures[relay].(consecutive := 0)],
            reports := w.reports + [Recovery(relay)],
            relays := WithHealth(w.relays, relay, Healthy)),
         RelayRecovered(relay))
  }

  // ---------------------------------------------------------------- the manager

  class FailoverManager {
    const settings: Settings
    const selector: Selector
    const registry: Registry
    var circuits: map<U32, Circuit>
    var failures: map<string, FailureInfo>
    var pool: seq<Relay>
    /** Events sent to the receiver. */
    var events: seq<Event>
    ghost var trace: seq<Mark>
    ghost var popped: seq<Relay>
    ghost var refilled: seq<Relay>
    ghost var reports: seq<Report>

    ghost predicate Valid()
      reads this, registry
    {
      && selector.registry == registry && selector.config == settings.selector
      && DistinctIds(registry.relays) && events == EventsOf(trace)
    }

    ghost function View(): World
      reads this, selector, registry
    {
      World(circuits, failures, pool, selector.Contents(), registry.relays, trace, popped, refilled, reports)
    }

    constructor (settings: Settings, selector: Selector)
      requires selector.config == settings.selector && DistinctIds(selector.registry.relays)
      ensures Valid() && this.settings == settings && this.selector == selector
      ensures View() == World(map[], map[], [], selector.Contents(), registry.relays, [], [], [], [])
    {
      this.settings := settings;
      this.selector := selector;
      registry := selector.registry;
      circuits, failures, pool, events := map[], map[], [], [];
      trace, popped, refilled, reports := [], [], [], [];
    }

    method SendEvent(e: Event)
      requires Valid()
      modifies this`events, this`trace
      ensures Valid() && View() == Send(old(View()), e)
    {
      EventsNext(trace, Sent(e));
      events := events + [e];
      trace := trace + [Sent(e)];
    }

    method RefillBackupPool(now: nat, draws: nat -> nat) returns (panicked: bool)
      requires Valid()
      modifies this, selector
      ensures Valid() && (View(), panicked) == Refilled(settings, old(View()), now, draws)
    {
      var needed := if settings.minPool > |pool| then settings.minPool - |pool| else 0;
      if needed == 0 { return false; }
      var r := SelectBackups(needed, now, draws);
      if IsPanic(r) { return true; }
      if r.Ok? {
        AddBackups(r.value);
      }
      return false;
    }

    method SelectBackups(needed: nat, now: nat, draws: nat -> nat) returns (r: Result<seq<Relay>, SelectorError>)
      requires Valid() && needed == Lacking(settings, pool)
      modifies selector
      ensures Valid() && (selector.Contents(), r) == RefillSelection(settings, old(View()), now, draws)
    {
      r := selector.SelectMultiple(FirstDraws(needed, draws), true, now);
    }

    method AddBackups(found: seq<Relay>)
      requires Valid()
      modifies this`pool, this`refilled, this`events, this`trace
      ensures Valid() && View() == Stocked(old(View()), selector.Contents(), Ok(found))
    {
      var before := |pool|;
      pool := pool + found;
      refilled := refilled + found;
      if |pool| - before > 0 {
        SendEvent(BackupPoolRefilled(|pool| - before));
      }
    }

    method AssignBackupRelay(id: U32, now: nat, draws: nat -> nat) returns (panicked: bool)
      requires Valid()
      modifies this, selector
      ensures Valid() && (View(), panicked) == Assigned(settings, old(View()), id, now, draws)
    {
      if pool == [] { return false; }
      var backup := pool[0];
      pool := pool[1..];
      popped := popped + [backup];
      var needRefill := |pool| < settings.minPool / 2;
      if id in circuits {
        circuits := circuits[id := circuits[id].(backup := Some(backup))];
      }
      panicked := false;
      if needRefill {
        panicked := RefillBackupPool(now, draws);
      }
    }

    method RegisterCircuit(id: U32, relay: Relay, now: nat, draws: nat -> nat) returns (panicked: bool)
      requires Valid()
      modifies this, selector
      ensures Valid() && (View(), panicked) == Registered(settings, old(View()), id, relay, now, draws)
    {
      circuits := circuits[id := Circuit(relay, None, now, now, 0, Active)];
      panicked := AssignBackupRelay(id, now, draws);
      if panicked { return; }
      SendEvent(CircuitCreated(id, relay.id));
    }

    static method KeepLast(all: seq<FailureType>) returns (types: seq<FailureType>)
      ensures types == Last(all, KEPT_TYPES)
    {
      types := all;
      while |types| > KEPT_TYPES
        invariant |types| <= |all| && types == all[|all| - |types|..]
        invariant |types| >= KEPT_TYPES || types == all
      {
        types := types[1..];
      }
    }

    method RecordRelayFailure(relay: string, reason: FailureType, now: nat)
      requires Valid()
      modifies this, selector, registry
      ensures Valid() && View() == Recorded(settings, old(View()), relay, reason, now)
    {
      var info := if relay in failures then failures[relay] else FailureInfo(0, now, [], 0);
      var types := KeepLast(info.types + [reason]);
      info := FailureInfo(Next32(info.count), now, types, Next32(info.consecutive));
      failures := failures[relay := info];
      reports := reports + [Report(relay, reason)];
      ghost var counted := View();
      assert counted == Counted(old(View()), relay, reason, now);
      selector.ReportFailure(relay, now);
      ghost var told := View();
      assert told == ToldSelector(settings, counted, relay, now);
      if info.consecutive >= UNHEALTHY_AFTER {
        var _ := registry.UpdateHealth(relay, Health.Degraded);
        SendEvent(RelayUnhealthy(relay));
      }
      assert View() == Alarmed(told, relay);
    }

    method PerformFailover(id: U32, failed: string, now: nat, draws: nat -> nat)
      returns (r: Result<Relay, FailoverError>)
      requires Valid()
      modifies this, selector
      ensures Valid() && (View(), r) == FailedOver(settings, old(View()), id, failed, now, draws)
    {
      if id !in circuits { return Err(CircuitNotFound); }
      var backup := circuits[id].backup;
      circuits := circuits[id := circuits[id].(backup := None)];
      if backup.Some? && backup.value.id != failed {
        circuits := circuits[id := circuits[id].(primary := backup.value, status := Recovering)];
        var panicked := AssignBackupRelay(id, now, draws);
        return if panicked then Err(SelectorPanic) else Ok(backup.value);
      }
      var selection := selector.SelectWithCriteria(AnyBut(failed), now, draws(0));
      if IsPanic(selection) { return Err(SelectorPanic); }
      match selection {
        case Ok(relay) =>
          circuits := circuits[id := circuits[id].(primary := relay, status := Recovering)];
          SendEvent(FailoverStarted(id, failed, relay.id));
          return Ok(relay);
        case Err(_) =>
          return Err(NoHealthyRelays);
      }
    }

    method ReportFailure(id: U32, reason: FailureType, now: nat, draws: nat -> nat)
      returns (r: Result<Relay, FailoverError>)
      requires Valid()
      modifies this, selector, registry
      ensures Valid() && (View(), r) == ReportedFailure(settings, old(View()), id, reason, now, draws)
    {
      if id !in circuits { return Err(CircuitNotFound); }
      var failed := AnnounceFailure(id, reason, now);
      r := PerformFailover(id, failed, now, draws);
      AnnounceEnding(id, r);
    }

    method AnnounceFailure(id: U32, reason: FailureType, now: nat) returns (failed: string)
      requires Valid() && id in circuits
      modifies this, selector, registry
      ensures Valid() && View() == Started(settings, old(View()), id, reason, now)
      ensures failed == old(circuits)[id].primary.id
    {
      failed := circuits[id].primary.id;
      circuits := circuits[id := circuits[id].(status := Failed)];
      RecordRelayFailure(failed, reason, now);
      SendEvent(CircuitFailed(id, failed, reason));
    }

    /** The event of the outcome; after a panic there is none. */
    method AnnounceEnding(id: U32, r: Result<Relay, FailoverError>)
      requires Valid()
      modifies this`events, this`trace
      ensures Valid() && View() == old(View()).(trace := old(trace) + [EndingOf(id, r)])
    {
      match r {
        case Ok(relay) => SendEvent(FailoverCompleted(id, relay.id));
        case Err(SelectorPanic) =>
          EventsNext(trace, Aborted(id));
          trace := trace + [Aborted(id)];
        case Err(e) => SendEvent(FailoverFailed(id, e));
      }
    }

    method ReportActivity(id: U32, bytes: nat, now: nat)
      requires Valid()
      modifies this
      ensures Valid() && View() == ActivityReported(old(View()), id, bytes, now)
    {
      if id in circuits {
        var c := circuits[id];
        c := c.(lastActivity := now, bytes := c.bytes + bytes);
        if c.status == CircuitStatus.Degraded {
          c := c.(status := Active);
        }
        circuits := circuits[id := c];
      }
    }

    method CloseCircuit(id: U32)
      requires Valid()
      modifies this
      ensures Valid() && View() == old(View()).(circuits := old(circuits) - {id})
    {
      circuits := circuits - {id};
    }

    /** Collects the silent circuits, then degrades them: every other circuit and field stays. */
    method CheckStaleCircuits(now: nat)
      requires Valid()
      modifies this`circuits
      ensures Valid() && View() == Swept(old(View()), now)
      ensures circuits.Keys == old(circuits).Keys
      ensures forall id :: id in circuits ==>
                && circuits[id] == old(circuits)[id].(status := circuits[id].status)
                && (Silent(old(circuits)[id], now) ==> circuits[id].status == CircuitStatus.Degraded)
                && (!Silent(old(circuits)[id], now) ==> circuits[id] == old(circuits)[id])
    {
      var stale, left := [], circuits.Keys;
      while left != {}
        invariant left <= circuits.Keys && circuits == old(circuits)
        invariant forall id :: id in stale <==> id in circuits && id !in left && Silent(circuits[id], now)
        decreases |left|
      {
        var id :| id in left;
        if Silent(circuits[id], now) {
          stale := stale + [id];
        }
        left := left - {id};
      }
      for k := 0 to |stale|
        invariant circuits.Keys == old(circuits).Keys
        invariant forall id :: id in circuits ==>
                    circuits[id] == if id in stale[..k] then old(circuits)[id].(status := CircuitStatus.Degraded)
                                    else old(circuits)[id]
      {
        assert stale[k] in stale && stale[..k + 1] == stale[..k] + [stale[k]];
        circuits := circuits[stale[k] := circuits[stale[k]].(status := CircuitStatus.Degraded)];
      }
      assert stale[..|stale|] == stale;
    }

    method RecoverRelay(relay: string)
      requires Valid() && relay in failures
      modifies this, registry
      ensures Valid() && View() == Recovered(old(View()), relay)
    {
      failures := failures[relay := failures[relay].(consecutive := 0)];
      reports := reports + [Recovery(relay)];
      var _ := registry.UpdateHealth(relay, Healthy);
      SendEvent(RelayRecovered(relay));
    }
  }
}
