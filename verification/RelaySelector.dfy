/** Relay choice over a registry (gptl-core, relay_selector.rs and relay_registry.rs). Times are nanoseconds. */
module RelaySelector {
  import opened Bytes

  // ---------------------------------------------------------------- relays and criteria

  datatype Security = Standard | Enhanced | Maximum

  datatype Health = Healthy | Degraded | Offline | Maintenance | Banned

  /** `measurable`: the computed distance from the client to the relay is a number. */
  datatype Relay = Relay(id: string, bandwidth: U64, country: Option<string>, security: Security, health: Health,
                         ipv6: bool, onion: bool, lastSeen: nat, measurable: bool)

  datatype Criteria = Criteria(minSecurity: Option<Security>, minBandwidth: Option<U64>, region: Option<string>,
                               excludedRegions: set<string>, requireHealthy: bool, excludedIds: set<string>,
                               requireIpv6: bool, requireOnion: bool, maxAge: Option<nat>)

  predicate IsUsable(h: Health) {
    h == Healthy || h == Degraded
  }

  predicate Reaches(have: Security, min: Security) {
    match have
    case Maximum => true
    case Enhanced => min != Maximum
    case Standard => min == Standard
  }

  /** Everything the criteria ask for except the two exclusion lists. */
  predicate MeetsBase(r: Relay, c: Criteria, now: nat) {
    && (c.minSecurity.Some? ==> Reaches(r.security, c.minSecurity.value))
    && (c.minBandwidth.Some? ==> r.bandwidth >= c.minBandwidth.value)
    && (c.region.Some? ==> r.country == c.region)
    && (c.requireHealthy ==> IsUsable(r.health))
    && (c.requireIpv6 ==> r.ipv6)
    && (c.requireOnion ==> r.onion)
    && (c.maxAge.Some? && now >= r.lastSeen ==> now - r.lastSeen <= c.maxAge.value)
  }

  predicate RegionOk(r: Relay, excluded: set<string>) {
    r.country.Some? ==> r.country.value !in excluded
  }

  predicate Meets(r: Relay, c: Criteria, now: nat) {
    MeetsBase(r, c, now) && RegionOk(r, c.excludedRegions) && r.id !in c.excludedIds
  }

  function Matching(rs: seq<Relay>, c: Criteria, now: nat): (m: seq<Relay>)
    ensures forall r :: r in m <==> r in rs && Meets(r, c, now)
  {
    if rs == [] then [] else (if Meets(rs[0], c, now) then [rs[0]] else []) + Matching(rs[1..], c, now)
  }

  lemma MatchingStep(rs: seq<Relay>, i: nat, c: Criteria, now: nat)
    requires i < |rs|
    ensures Matching(rs[i..], c, now) == (if Meets(rs[i], c, now) then [rs[i]] else []) + Matching(rs[i + 1..], c, now)
  {
    assert rs[i..][1..] == rs[i + 1..];
  }

  predicate DistinctIds(rs: seq<Relay>) {
    forall i, j :: 0 <= i < j < |rs| ==> rs[i].id != rs[j].id
  }

  function WithHealth(rs: seq<Relay>, id: string, health: Health): (ws: seq<Relay>)
    ensures |ws| == |rs|
    ensures forall i :: 0 <= i < |rs| ==> ws[i] == rs[i] || (rs[i].id == id && ws[i] == rs[i].(health := health))
    ensures forall i :: 0 <= i < |rs| && rs[i].id == id ==> ws[i].health == health
  {
    if rs == [] then []
    else [if rs[0].id == id then rs[0].(health := health) else rs[0]] + WithHealth(rs[1..], id, health)
  }

  lemma HealthAt(rs: seq<Relay>, i: nat, id: string, health: Health)
    requires DistinctIds(rs) && i <= |rs|
    requires i < |rs| ==> rs[i].id == id
    requires i == |rs| ==> forall k :: 0 <= k < |rs| ==> rs[k].id != id
    ensures WithHealth(rs, id, health) == if i < |rs| then rs[i := rs[i].(health := health)] else rs
    ensures DistinctIds(WithHealth(rs, id, health))
  {
    var ws := WithHealth(rs, id, health);
    forall k | 0 <= k < |rs| ensures ws[k] == if k == i then rs[i].(health := health) else rs[k] {
    }
  }

  /** The in-memory registry; `relays` are its values in the order its table yields them. */
  class Registry {
    var relays: seq<Relay>

    constructor (relays: seq<Relay>)
      ensures this.relays == relays
    {
      this.relays := relays;
    }

    method ListMatching(c: Criteria, now: nat) returns (m: seq<Relay>)
      ensures m == Matching(relays, c, now)
    {
      m := [];
      ghost var all := Matching(relays, c, now);
      for i := 0 to |relays|
        invariant m + Matching(relays[i..], c, now) == all
      {
        MatchingStep(relays, i, c, now);
        if Meets(relays[i], c, now) {
          m := m + [relays[i]];
        }
      }
    }

    method UpdateHealth(id: string, health: Health) returns (found: bool)
      requires DistinctIds(relays)
      modifies this
      ensures relays == WithHealth(old(relays), id, health) && DistinctIds(relays)
      ensures found <==> exists i :: 0 <= i < |relays| && relays[i].id == id
    {
      var i := 0;
      while i < |relays| && relays[i].id != id
        invariant i <= |relays|
        invariant forall k :: 0 <= k < i ==> relays[k].id != id
        invariant relays == old(relays)
      {
        i := i + 1;
      }
      found := i < |relays|;
      if found {
        relays := relays[i := relays[i].(health := health)];
      }
      HealthAt(old(relays), i, id, health);
    }
  }

  // ---------------------------------------------------------------- one selection, as a function of the selector's state

  datatype Strategy = Random | BandwidthWeighted | LatencyWeighted | Geographic | Hybrid

  /** `located`: the client's own location is configured. */
  datatype Config = Config(strategy: Strategy, located: bool, retryCooldown: nat, maxRetries: U32, historyLimit: nat,
                           criteria: Criteria)

  datatype FailureRecord = FailureRecord(at: nat, retries: U32)

  datatype State = State(failures: map<string, FailureRecord>, counts: map<string, nat>, history: seq<string>)

  /**
   `ClampPanic` stands for the assertion inside `clamp(1, 0)`, `ScorePanic` for the one that a random draw below a
   total score makes when the total is no number.
   */
  datatype SelectorError = NoRelaysAvailable | ClampPanic | ScorePanic

  predicate IsPanic<T>(r: Result<T, SelectorError>) {
    r.Err? && r.error != NoRelaysAvailable
  }

  const DURATION_MAX: nat := 0xFFFF_FFFF_FFFF_FFFF * 1_000_000_000 + 999_999_999

  function Elapsed(now: nat, since: nat): nat {
    if now >= since then now - since else 0
  }

  /** The back-off after `retries` failures: linear, but never more than `maxRetries` cooldowns. */
  function Penalty(cfg: Config, retries: U32): nat {
    var multiplier := if retries < 1 then 1 else if retries > cfg.maxRetries then cfg.maxRetries else retries;
    var product := cfg.retryCooldown * multiplier;
    if product > DURATION_MAX then DURATION_MAX else product
  }

  predicate Rested(cfg: Config, st: State, r: Relay, now: nat) {
    r.id in st.failures ==> Elapsed(now, st.failures[r.id].at) >= Penalty(cfg, st.failures[r.id].retries)
  }

  function RestedRelays(cfg: Config, st: State, rs: seq<Relay>, now: nat): seq<Relay> {
    if rs == [] then []
    else (if Rested(cfg, st, rs[0], now) then [rs[0]] else []) + RestedRelays(cfg, st, rs[1..], now)
  }

  lemma RestedStep(cfg: Config, st: State, rs: seq<Relay>, i: nat, now: nat)
    requires i < |rs|
    ensures RestedRelays(cfg, st, rs[i..], now)
         == (if Rested(cfg, st, rs[i], now) then [rs[i]] else []) + RestedRelays(cfg, st, rs[i + 1..], now)
  {
    assert rs[i..][1..] == rs[i + 1..];
  }

  lemma AppendSplit(a: seq<Relay>, b: seq<Relay>, c: seq<Relay>)
    ensures a + b + c == a + (b + c)
  {
  }

  lemma {:induction false} RestedIsPart(cfg: Config, st: State, rs: seq<Relay>, now: nat)
    ensures forall r :: r in RestedRelays(cfg, st, rs, now) <==> r in rs && Rested(cfg, st, r, now)
  {
    if rs != [] {
      RestedIsPart(cfg, st, rs[1..], now);
      assert rs == [rs[0]] + rs[1..];
    }
  }

  /** A configuration without retries makes the back-off undefined for any relay that has failed. */
  predicate ClampPanics(cfg: Config, st: State, rs: seq<Relay>) {
    cfg.maxRetries == 0 && exists i :: 0 <= i < |rs| && rs[i].id in st.failures
  }

  function NotIn(history: seq<string>, rs: seq<Relay>): seq<Relay> {
    if rs == [] then [] else (if rs[0].id !in history then [rs[0]] else []) + NotIn(history, rs[1..])
  }

  lemma {:induction false} NotInIsPart(history: seq<string>, rs: seq<Relay>)
    ensures forall r :: r in NotIn(history, rs) <==> r in rs && r.id !in history
  {
    if rs != [] {
      NotInIsPart(history, rs[1..]);
      assert rs == [rs[0]] + rs[1..];
    }
  }

  function Spare(history: seq<string>, rs: seq<Relay>): (m: seq<Relay>)
    ensures m == [] <==> rs == []
  {
    if NotIn(history, rs) == [] then rs else NotIn(history, rs)
  }

  /** Rested relays if there are any, else all; of these the ones outside the history if there are any, else all. */
  function Candidates(cfg: Config, st: State, matching: seq<Relay>, now: nat): (m: seq<Relay>)
    ensures m == [] <==> matching == []
  {
    var rested := RestedRelays(cfg, st, matching, now);
    Spare(st.history, if rested == [] then matching else rested)
  }

  function Sum(rs: seq<Relay>): nat {
    if rs == [] then 0 else rs[0].bandwidth + Sum(rs[1..])
  }

  /** The total as a 64-bit sum. */
  function Total(rs: seq<Relay>): U64 {
    Sum(rs) % 0x1_0000_0000_0000_0000
  }

  /** Where the subtracting loop stops; the length when it runs through. */
  function PickAt(rs: seq<Relay>, choice: nat): (i: nat)
    ensures i <= |rs|
  {
    if rs == [] || choice < rs[0].bandwidth then 0 else 1 + PickAt(rs[1..], choice - rs[0].bandwidth)
  }

  predicate AllIdle(rs: seq<Relay>) {
    rs != [] && forall i :: 0 <= i < |rs| ==> rs[i].bandwidth == 0
  }

  predicate AllMeasurable(rs: seq<Relay>) {
    forall i :: 0 <= i < |rs| ==> rs[i].measurable
  }

  /**
   Hybrid scoring divides by the largest bandwidth and uses distances if the client is located, geographic scoring
   uses distances then; one score that is no number makes the total none.
   */
  predicate ScorePanics(cfg: Config, rs: seq<Relay>) {
    || (cfg.strategy == Hybrid && AllIdle(rs))
    || ((cfg.strategy == Hybrid || cfg.strategy == Geographic) && cfg.located && !AllMeasurable(rs))
  }

  /** Exact for random and bandwidth-weighted choice; of scored relays any may be picked. */
  function Picked(strategy: Strategy, rs: seq<Relay>, draw: nat): (r: Relay)
    requires rs != []
    ensures r in rs
  {
    if strategy == BandwidthWeighted && Total(rs) > 0 then
      TotalWithinSum(rs);
      PickInRange(rs, draw % Total(rs));
      rs[PickAt(rs, draw % Total(rs))]
    else
      rs[draw % |rs|]
  }

  lemma TotalWithinSum(rs: seq<Relay>)
    ensures Total(rs) <= Sum(rs)
    ensures Total(rs) == Sum(rs) <==> Sum(rs) < 0x1_0000_0000_0000_0000
  {
  }

  lemma WrappedSum(a: nat, b: nat)
    ensures (a % 0x1_0000_0000_0000_0000 + b) % 0x1_0000_0000_0000_0000 == (a + b) % 0x1_0000_0000_0000_0000
  {
  }

  lemma {:induction false} PickInRange(rs: seq<Relay>, choice: nat)
    ensures PickAt(rs, choice) < |rs| <==> choice < Sum(rs)
  {
    if rs != [] && choice >= rs[0].bandwidth {
      PickInRange(rs[1..], choice - rs[0].bandwidth);
    }
  }

  function Last<T>(ids: seq<T>, n: nat): seq<T> {
    if |ids| <= n then ids else ids[|ids| - n..]
  }

  /** `last` is what `s` ends in, and all of it or `n` entries. */
  predicate EndsIn<T(==)>(s: seq<T>, last: seq<T>, n: nat) {
    && |last| == (if |s| < n then |s| else n)
    && forall i :: 0 <= i < |last| ==> last[i] == s[|s| - |last| + i]
  }

  lemma EndsInLast<T>(s: seq<T>, last: seq<T>, n: nat)
    ensures EndsIn(s, last, n) <==> last == Last(s, n)
  {
    if EndsIn(s, last, n) {
      assert last == s[|s| - |last|..];
    }
  }

  lemma LastOfLast<T>(s: seq<T>, x: T, n: nat)
    ensures Last(Last(s, n) + [x], n) == Last(s + [x], n)
  {
  }

  function Count(counts: map<string, nat>, id: string): nat {
    if id in counts then counts[id] else 0
  }

  function Remember(cfg: Config, st: State, id: string): State {
    st.(history := Last(st.history + [id], cfg.historyLimit), counts := st.counts[id := Count(st.counts, id) + 1])
  }

  function Selected(cfg: Config, st: State, relays: seq<Relay>, c: Criteria, now: nat, draw: nat)
    : (State, Result<Relay, SelectorError>)
  {
    var matching := Matching(relays, c, now);
    if matching == [] then (st, Err(NoRelaysAvailable))
    else if ClampPanics(cfg, st, matching) then (st, Err(ClampPanic))
    else if ScorePanics(cfg, Candidates(cfg, st, matching, now)) then (st, Err(ScorePanic))
    else
      var relay := Picked(cfg.strategy, Candidates(cfg, st, matching, now), draw);
      (Remember(cfg, st, relay.id), Ok(relay))
  }

  /** One draw per hop. Each hop excludes the relays already chosen and, if asked, their known countries. */
  function SelectedMany(cfg: Config, st: State, relays: seq<Relay>, spread: bool, now: nat, draws: seq<nat>,
                        chosen: seq<Relay>): (State, Result<seq<Relay>, SelectorError>)
    decreases |draws|
  {
    if draws == [] then (st, Ok(chosen))
    else
      var (next, r) := Selected(cfg, st, relays, HopCriteria(cfg.criteria, chosen, spread), now, draws[0]);
      match r
      case Err(e) => (next, Err(e))
      case Ok(relay) => SelectedMany(cfg, next, relays, spread, now, draws[1..], chosen + [relay])
  }

  function Ids(rs: seq<Relay>): (ids: set<string>)
    ensures forall i :: 0 <= i < |rs| ==> rs[i].id in ids
    ensures forall id :: id in ids ==> exists i :: 0 <= i < |rs| && rs[i].id == id
  {
    set i | 0 <= i < |rs| :: rs[i].id
  }

  function Countries(rs: seq<Relay>): (cs: set<string>)
    ensures forall i :: 0 <= i < |rs| && rs[i].country.Some? ==> rs[i].country.value in cs
  {
    set i | 0 <= i < |rs| && rs[i].country.Some? :: rs[i].country.value
  }

  function HopCriteria(c: Criteria, chosen: seq<Relay>, spread: bool): Criteria {
    c.(excludedIds := Ids(chosen),
       excludedRegions := if spread && chosen != [] then Countries(chosen) else c.excludedRegions)
  }

  // ---------------------------------------------------------------- the selector

  class Selector {
    const config: Config
    const registry: Registry
    var failures: map<string, FailureRecord>
    var counts: map<string, nat>
    var history: seq<string>

    constructor (config: Config, registry: Registry)
      ensures this.config == config && this.registry == registry && Contents() == State(map[], map[], [])
    {
      this.config := config;
      this.registry := registry;
      failures, counts, history := map[], map[], [];
    }

    ghost function Contents(): State
      reads this
    {
      State(failures, counts, history)
    }

    method FilterRecentFailures(rs: seq<Relay>, now: nat) returns (r: Result<seq<Relay>, SelectorError>)
      ensures r == if ClampPanics(config, Contents(), rs) then Err(ClampPanic)
                   else Ok(RestedRelays(config, Contents(), rs, now))
    {
      r := KeepRested(config, State(failures, counts, history), rs, now);
    }

    static method KeepRested(cfg: Config, st: State, rs: seq<Relay>, now: nat)
      returns (r: Result<seq<Relay>, SelectorError>)
      ensures r == if ClampPanics(cfg, st, rs) then Err(ClampPanic) else Ok(RestedRelays(cfg, st, rs, now))
    {
      var kept: seq<Relay> := [];
      ghost var all := RestedRelays(cfg, st, rs, now);
      for i := 0 to |rs|
        invariant kept + RestedRelays(cfg, st, rs[i..], now) == all
        invariant cfg.maxRetries == 0 ==> forall k :: 0 <= k < i ==> rs[k].id !in st.failures
      {
        if rs[i].id in st.failures && cfg.maxRetries < 1 { return Err(ClampPanic); }
        var decided := if Rested(cfg, st, rs[i], now) then [rs[i]] else [];
        RestedStep(cfg, st, rs, i, now);
        AppendSplit(kept, decided, RestedRelays(cfg, st, rs[i + 1..], now));
        kept := kept + decided;
      }
      assert kept == all;
      return Ok(kept);
    }

    method ExcludeFromHistory(rs: seq<Relay>) returns (m: seq<Relay>)
      ensures m == Spare(history, rs)
    {
      var kept: seq<Relay> := [];
      ghost var all := NotIn(history, rs);
      for i := 0 to |rs|
        invariant kept + NotIn(history, rs[i..]) == all
      {
        assert rs[i..][1..] == rs[i + 1..];
        if rs[i].id !in history {
          kept := kept + [rs[i]];
        }
      }
      assert kept == all;
      return if kept == [] then rs else kept;
    }

    method UpdateHistory(id: string)
      modifies this`history
      ensures history == Last(old(history) + [id], config.historyLimit)
      ensures EndsIn(old(history) + [id], history, config.historyLimit)
    {
      EndsInLast(history + [id], Last(history + [id], config.historyLimit), config.historyLimit);
      history := history + [id];
      ghost var all := history;
      while |history| > config.historyLimit
        invariant |history| <= |all| && history == all[|all| - |history|..]
        invariant |history| >= config.historyLimit || history == all
      {
        history := history[1..];
      }
    }

    static method SelectBandwidthWeighted(rs: seq<Relay>, draw: nat) returns (r: Relay)
      requires rs != []
      ensures r == Picked(BandwidthWeighted, rs, draw)
    {
      var total := TotalBandwidth(rs);
      if total == 0 { return rs[draw % |rs|]; }
      TotalWithinSum(rs);
      r := TakeShare(rs, draw % total);
    }

    static method TotalBandwidth(rs: seq<Relay>) returns (total: U64)
      ensures total == Total(rs)
    {
      total := 0;
      ghost var seen: nat := 0;
      for i := 0 to |rs|
        invariant seen + Sum(rs[i..]) == Sum(rs)
        invariant total == seen % 0x1_0000_0000_0000_0000
      {
        WrappedSum(seen, rs[i].bandwidth);
        total := (total as int + rs[i].bandwidth) % 0x1_0000_0000_0000_0000;
        seen := seen + rs[i].bandwidth;
      }
    }

    /** The subtracting loop: it always returns, so its fallback to the last relay is never taken. */
    static method TakeShare(rs: seq<Relay>, start: nat) returns (r: Relay)
      requires start < Sum(rs)
      ensures PickAt(rs, start) < |rs| && r == rs[PickAt(rs, start)]
    {
      PickInRange(rs, start);
      var choice: nat, i := start, 0;
      while i < |rs|
        invariant i <= |rs|
        invariant PickAt(rs, start) == i + PickAt(rs[i..], choice)
        invariant PickAt(rs, start) < |rs|
      {
        if choice < rs[i].bandwidth { return rs[i]; }
        choice := choice - rs[i].bandwidth;
        i := i + 1;
      }
      assert false;
    }

    /** The scoring loops, as far as they decide whether the total score is a number. */
    method ScoresUndefined(rs: seq<Relay>) returns (undefined: bool)
      requires rs != []
      ensures undefined <==> ScorePanics(config, rs)
    {
      if config.strategy != Hybrid && config.strategy != Geographic { return false; }
      var largest: U64, distances := 0, true;
      for i := 0 to |rs|
        invariant largest == 0 <==> forall k :: 0 <= k < i ==> rs[k].bandwidth == 0
        invariant distances <==> forall k :: 0 <= k < i ==> rs[k].measurable
      {
        if rs[i].bandwidth > largest {
          largest := rs[i].bandwidth;
        }
        distances := distances && rs[i].measurable;
      }
      return (config.strategy == Hybrid && largest == 0) || (config.located && !distances);
    }

    method SelectWithCriteria(c: Criteria, now: nat, draw: nat) returns (r: Result<Relay, SelectorError>)
      modifies this
      ensures (Contents(), r) == Selected(config, old(Contents()), registry.relays, c, now, draw)
    {
      var relays := registry.ListMatching(c, now);
      if relays == [] { return Err(NoRelaysAvailable); }
      var rested := FilterRecentFailures(relays, now);
      if rested.Err? { return Err(rested.error); }
      relays := rested.value;
      if relays == [] {
        relays := registry.ListMatching(c, now);
      }
      relays := ExcludeFromHistory(relays);
      if relays == [] {
        // Excluding the history never empties a list, so the history is never cleared here.
        assert false;
      }
      assert relays == Candidates(config, Contents(), Matching(registry.relays, c, now), now);
      r := SelectByStrategy(relays, draw);
      if r.Ok? {
        NoteSelection(r.value.id);
      }
    }

    /** The strategy's pick, or the panic of its scores. */
    method SelectByStrategy(relays: seq<Relay>, draw: nat) returns (r: Result<Relay, SelectorError>)
      requires relays != []
      ensures r == if ScorePanics(config, relays) then Err(ScorePanic) else Ok(Picked(config.strategy, relays, draw))
    {
      var undefined := ScoresUndefined(relays);
      if undefined { return Err(ScorePanic); }
      if config.strategy == BandwidthWeighted {
        var relay := SelectBandwidthWeighted(relays, draw);
        return Ok(relay);
      }
      return Ok(relays[draw % |relays|]);
    }

    method NoteSelection(id: string)
      modifies this`history, this`counts
      ensures Contents() == Remember(config, old(Contents()), id)
    {
      UpdateHistory(id);
      counts := counts[id := Count(counts, id) + 1];
    }

    method SelectMultiple(draws: seq<nat>, spread: bool, now: nat) returns (r: Result<seq<Relay>, SelectorError>)
      modifies this
      ensures (Contents(), r) == SelectedMany(config, old(Contents()), registry.relays, spread, now, draws, [])
    {
      var results: seq<Relay>, regions: set<string>, ids: set<string> := [], {}, {};
      for i := 0 to |draws|
        invariant |results| == i && ids == Ids(results) && regions == Countries(results)
        invariant SelectedMany(config, Contents(), registry.relays, spread, now, draws[i..], results)
               == SelectedMany(config, old(Contents()), registry.relays, spread, now, draws, [])
      {
        var criteria := config.criteria.(excludedIds := ids);
        if spread && i > 0 {
          criteria := criteria.(excludedRegions := regions);
        }
        assert criteria == HopCriteria(config.criteria, results, spread);
        assert draws[i..][1..] == draws[i + 1..];
        var selection := SelectWithCriteria(criteria, now, draws[i]);
        if selection.Err? { return Err(selection.error); }
        AddedHop(results, selection.value);
        if selection.value.country.Some? {
          regions := regions + {selection.value.country.value};
        }
        ids := ids + {selection.value.id};
        results := results + [selection.value];
      }
      return Ok(results);
    }

    method ReportFailure(id: string, now: nat)
      requires DistinctIds(registry.relays)
      modifies this`failures, registry
      ensures failures == Failed(old(failures), id, now) && DistinctIds(registry.relays)
      ensures registry.relays == Blamed(config, old(registry.relays), failures, id)
    {
      var record := if id in failures then failures[id] else FailureRecord(now, 0);
      record := FailureRecord(now, (record.retries as int + 1) % 0x1_0000_0000);
      failures := failures[id := record];
      if record.retries >= config.maxRetries {
        var _ := registry.UpdateHealth(id, Degraded);
      }
    }
  }

  function Failed(failures: map<string, FailureRecord>, id: string, now: nat): map<string, FailureRecord> {
    var retries := if id in failures then failures[id].retries as int else 0;
    failures[id := FailureRecord(now, (retries + 1) % 0x1_0000_0000)]
  }

  function Blamed(cfg: Config, relays: seq<Relay>, failures: map<string, FailureRecord>, id: string): seq<Relay>
    requires id in failures
  {
    if failures[id].retries >= cfg.maxRetries then WithHealth(relays, id, Degraded) else relays
  }

  lemma AddedHop(rs: seq<Relay>, r: Relay)
    ensures Ids(rs + [r]) == Ids(rs) + {r.id}
    ensures Countries(rs + [r]) == if r.country.Some? then Countries(rs) + {r.country.value} else Countries(rs)
  {
    var all := rs + [r];
    assert all[|rs|] == r;
    assert forall i :: 0 <= i < |rs| ==> all[i] == rs[i];
  }
}
