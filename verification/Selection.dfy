/** What selection guarantees, for every registry, selector state and draw (gptl-core, relay_selector.rs). */
module Selection {
  import opened Bytes
  import opened RelaySelector

  // ---------------------------------------------------------------- one selection succeeds, and avoids what it can

  /** Some relay that meets the criteria. */
  ghost predicate SomeMeets(relays: seq<Relay>, c: Criteria, now: nat) {
    exists r :: r in relays && Meets(r, c, now)
  }

  /** Some relay that meets the criteria has a failure record. */
  ghost predicate SomeMeetsAndFailed(st: State, relays: seq<Relay>, c: Criteria, now: nat) {
    exists r :: r in relays && Meets(r, c, now) && r.id in st.failures
  }

  /** The relays the pick is made among. */
  function Choices(cfg: Config, st: State, relays: seq<Relay>, c: Criteria, now: nat): seq<Relay> {
    Candidates(cfg, st, Matching(relays, c, now), now)
  }

  /** No retries are configured and a matching relay has failed, or the scores of the choices do not add up. */
  ghost predicate PickPanics(cfg: Config, st: State, relays: seq<Relay>, c: Criteria, now: nat) {
    || (cfg.maxRetries == 0 && SomeMeetsAndFailed(st, relays, c, now))
    || ScorePanics(cfg, Choices(cfg, st, relays, c, now))
  }

  lemma SomeMeetsIffMatching(relays: seq<Relay>, c: Criteria, now: nat)
    ensures SomeMeets(relays, c, now) <==> Matching(relays, c, now) != []
  {
    var m := Matching(relays, c, now);
    if m != [] {
      assert m[0] in m;
    }
  }

  lemma ClampPanicsIff(cfg: Config, st: State, relays: seq<Relay>, c: Criteria, now: nat)
    ensures ClampPanics(cfg, st, Matching(relays, c, now))
       <==> cfg.maxRetries == 0 && SomeMeetsAndFailed(st, relays, c, now)
  {
    var m := Matching(relays, c, now);
    if i :| 0 <= i < |m| && m[i].id in st.failures {
      assert m[i] in m;
    }
    if SomeMeetsAndFailed(st, relays, c, now) {
      var r :| r in relays && Meets(r, c, now) && r.id in st.failures;
      assert r in m;
    }
  }

  /**
   Whatever the failure records, the history and the draw: a selection fails exactly when no relay meets the criteria,
   panics exactly when one does and the pick is undefined, and succeeds otherwise.
   */
  lemma SelectionSucceedsIff(cfg: Config, st: State, relays: seq<Relay>, c: Criteria, now: nat, draw: nat)
    ensures var r := Selected(cfg, st, relays, c, now, draw).1;
            && (r == Err(NoRelaysAvailable) <==> !SomeMeets(relays, c, now))
            && (IsPanic(r) <==> SomeMeets(relays, c, now) && PickPanics(cfg, st, relays, c, now))
            && (r.Ok? <==> SomeMeets(relays, c, now) && !PickPanics(cfg, st, relays, c, now))
  {
    SomeMeetsIffMatching(relays, c, now);
    ClampPanicsIff(cfg, st, relays, c, now);
  }

  /**
   When a pick is undefined, field by field: a matching relay has failed and no retries are configured; all choices are
   idle under hybrid scoring; or one is at no measurable distance under a scoring that uses distances.
   */
  lemma PickPanicsInFields(cfg: Config, st: State, relays: seq<Relay>, c: Criteria, now: nat)
    requires SomeMeets(relays, c, now)
    ensures var choices := Choices(cfg, st, relays, c, now);
            PickPanics(cfg, st, relays, c, now) <==>
              || (cfg.maxRetries == 0 && exists r :: r in relays && Meets(r, c, now) && r.id in st.failures)
              || (cfg.strategy == Hybrid && forall r :: r in choices ==> r.bandwidth == 0)
              || (cfg.strategy in {Hybrid, Geographic} && cfg.located && exists r :: r in choices && !r.measurable)
  {
    var choices := Choices(cfg, st, relays, c, now);
    SomeMeetsIffMatching(relays, c, now);
    assert choices != [];
    assert AllIdle(choices) <==> forall r :: r in choices ==> r.bandwidth == 0;
    assert AllMeasurable(choices) <==> forall r :: r in choices ==> r.measurable;
  }

  /** Under hybrid scoring no selection succeeds when all matching relays report no bandwidth. */
  lemma HybridPanicsOnIdleRelays(cfg: Config, st: State, relays: seq<Relay>, c: Criteria, now: nat, draw: nat)
    requires cfg.strategy == Hybrid && cfg.maxRetries > 0 && SomeMeets(relays, c, now)
    requires forall r :: r in relays && Meets(r, c, now) ==> r.bandwidth == 0
    ensures Selected(cfg, st, relays, c, now, draw).1 == Err(ScorePanic)
  {
    SomeMeetsIffMatching(relays, c, now);
    IdleChoices(cfg, st, relays, c, now);
    assert !ClampPanics(cfg, st, Matching(relays, c, now));
  }

  lemma IdleChoices(cfg: Config, st: State, relays: seq<Relay>, c: Criteria, now: nat)
    requires Matching(relays, c, now) != []
    requires forall r :: r in relays && Meets(r, c, now) ==> r.bandwidth == 0
    ensures AllIdle(Choices(cfg, st, relays, c, now))
  {
    var choices := Choices(cfg, st, relays, c, now);
    ChoicesMatch(cfg, st, relays, c, now);
    forall i | 0 <= i < |choices| ensures choices[i].bandwidth == 0 {
      assert choices[i] in choices;
    }
  }

  lemma ChoicesMatch(cfg: Config, st: State, relays: seq<Relay>, c: Criteria, now: nat)
    ensures forall r :: r in Choices(cfg, st, relays, c, now) ==> r in relays && Meets(r, c, now)
  {
    var m := Matching(relays, c, now);
    var rested := RestedRelays(cfg, st, m, now);
    RestedIsPart(cfg, st, m, now);
    NotInIsPart(st.history, if rested == [] then m else rested);
  }

  /** The pick meets the criteria; it is resting only if every match is, and in the history only if it has to be. */
  lemma SelectionIsSafe(cfg: Config, st: State, relays: seq<Relay>, c: Criteria, now: nat, draw: nat)
    requires Selected(cfg, st, relays, c, now, draw).1.Ok?
    ensures var picked := Selected(cfg, st, relays, c, now, draw).1.value;
            && picked in relays && Meets(picked, c, now)
            && forall r :: r in relays && Meets(r, c, now) && Rested(cfg, st, r, now) ==>
                 && Rested(cfg, st, picked, now)
                 && (r.id !in st.history ==> picked.id !in st.history)
  {
    var m := Matching(relays, c, now);
    var rested := RestedRelays(cfg, st, m, now);
    RestedIsPart(cfg, st, m, now);
    NotInIsPart(st.history, if rested == [] then m else rested);
    var picked := Selected(cfg, st, relays, c, now, draw).1.value;
    assert picked in Candidates(cfg, st, m, now);
    forall r | r in relays && Meets(r, c, now) && Rested(cfg, st, r, now)
      ensures Rested(cfg, st, picked, now) && (r.id !in st.history ==> picked.id !in st.history)
    {
      assert r in m && r in rested;
      if r.id !in st.history { assert r in NotIn(st.history, rested); }
    }
  }

  // ---------------------------------------------------------------- what the criteria and the back-off are

  function Level(s: Security): nat {
    match s
    case Standard => 1
    case Enhanced => 2
    case Maximum => 3
  }

  function LevelAsked(c: Criteria): nat {
    if c.minSecurity.None? then 0 else Level(c.minSecurity.value)
  }

  function BandwidthAsked(c: Criteria): nat {
    if c.minBandwidth.None? then 0 else c.minBandwidth.value
  }

  /** A pick in numbers: security and bandwidth at least what is asked, seen recently enough, nothing excluded. */
  lemma PickInNumbers(cfg: Config, st: State, relays: seq<Relay>, c: Criteria, now: nat, draw: nat)
    requires Selected(cfg, st, relays, c, now, draw).1.Ok?
    ensures var r := Selected(cfg, st, relays, c, now, draw).1.value;
            && Level(r.security) >= LevelAsked(c) && r.bandwidth >= BandwidthAsked(c)
            && (c.region.Some? ==> r.country == c.region) && r.id !in c.excludedIds
            && (r.country.Some? ==> r.country.value !in c.excludedRegions)
            && (c.requireHealthy ==> r.health !in {Offline, Maintenance, Banned})
            && (c.requireIpv6 ==> r.ipv6) && (c.requireOnion ==> r.onion)
            && (c.maxAge.Some? ==> now <= r.lastSeen + c.maxAge.value)
  {
    SelectionIsSafe(cfg, st, relays, c, now, draw);
  }

  /** And a relay of which all this holds is never left out of the match. */
  lemma MatchInNumbers(r: Relay, c: Criteria, now: nat)
    requires Level(r.security) >= LevelAsked(c) && r.bandwidth >= BandwidthAsked(c)
    requires (c.region.Some? ==> r.country == c.region) && r.id !in c.excludedIds
    requires r.country.Some? ==> r.country.value !in c.excludedRegions
    requires c.requireHealthy ==> r.health !in {Offline, Maintenance, Banned}
    requires (c.requireIpv6 ==> r.ipv6) && (c.requireOnion ==> r.onion)
    requires c.maxAge.Some? ==> now <= r.lastSeen + c.maxAge.value
    ensures Meets(r, c, now)
  {
  }

  function Least(a: nat, b: nat): nat { if a < b then a else b }

  /** The back-off is one cooldown for each failure, at least one and at most `maxRetries`, and fits a duration. */
  lemma BackOffInNumbers(cfg: Config, st: State, r: Relay, now: nat)
    requires cfg.maxRetries > 0 && r.id in st.failures
    ensures var record := st.failures[r.id];
            var factor := if record.retries == 0 then 1 else Least(record.retries, cfg.maxRetries);
            var wait := Least(cfg.retryCooldown * factor, 18_446_744_073_709_551_615_999_999_999);
            Rested(cfg, st, r, now) <==> now >= record.at + wait || wait == 0
  {
  }

  /** A reported failure is one more in 32 bits, dates the record, and from `maxRetries` on degrades that relay alone. */
  lemma BlameInNumbers(cfg: Config, failures: map<string, FailureRecord>, relays: seq<Relay>, id: string, now: nat)
    ensures var next := RelaySelector.Failed(failures, id, now);
            var before: nat := if id in failures then failures[id].retries else 0;
            && id in next && next[id].at == now
            && next[id].retries == (if before == 4_294_967_295 then 0 else before + 1)
            && (forall other :: other != id ==> (other in next <==> other in failures))
            && (forall other :: other != id && other in failures ==> next[other] == failures[other])
            && var after := Blamed(cfg, relays, next, id);
               && |after| == |relays|
               && forall i :: 0 <= i < |relays| ==>
                    after[i] == if relays[i].id == id && next[id].retries >= cfg.maxRetries
                                then relays[i].(health := Health.Degraded) else relays[i]
  {
    HealthEverywhere(relays, id, Health.Degraded);
  }

  lemma {:induction false} HealthEverywhere(relays: seq<Relay>, id: string, health: Health)
    ensures var after := WithHealth(relays, id, health);
            && |after| == |relays|
            && forall i :: 0 <= i < |relays| ==>
                 after[i] == if relays[i].id == id then relays[i].(health := health) else relays[i]
  {
  }

  /** A random pick takes each relay for one of as many draws as there are relays. */
  lemma RandomPicksEach(strategy: Strategy, rs: seq<Relay>, draw: nat)
    requires rs != [] && (strategy == BandwidthWeighted ==> Total(rs) == 0)
    ensures Picked(strategy, rs, draw) == rs[draw % |rs|]
    ensures forall i :: 0 <= i < |rs| ==> Picked(strategy, rs, i) == rs[i]
  {
    forall i | 0 <= i < |rs| ensures i % |rs| == i {
    }
  }

  // ---------------------------------------------------------------- the history over a run

  /** One selection over whatever the registry then lists. */
  datatype Ask = Ask(relays: seq<Relay>, criteria: Criteria, now: nat, draw: nat)

  /** The selector after a run of selections, and the ids picked, oldest first. */
  function AskAll(cfg: Config, st: State, asks: seq<Ask>): (State, seq<string>)
    decreases |asks|
  {
    if asks == [] then (st, [])
    else
      var (before, picks) := AskAll(cfg, st, asks[..|asks| - 1]);
      var a := asks[|asks| - 1];
      var (next, r) := Selected(cfg, before, a.relays, a.criteria, a.now, a.draw);
      (next, if r.Ok? then picks + [r.value.id] else picks)
  }

  lemma OneMorePick(cfg: Config, st: State, all: seq<string>, id: string)
    requires EndsIn(all, st.history, cfg.historyLimit)
    ensures EndsIn(all + [id], Remember(cfg, st, id).history, cfg.historyLimit)
  {
    var n := cfg.historyLimit;
    EndsInLast(all, st.history, n);
    LastOfLast(all, id, n);
    EndsInLast(all + [id], Last(all + [id], n), n);
  }

  /** Over any run the history holds the last picks in order, as many as its limit, and every pick is counted. */
  lemma {:induction false} HistoryIsLastPicks(cfg: Config, st: State, asks: seq<Ask>)
    requires |st.history| <= cfg.historyLimit
    ensures var (end, picks) := AskAll(cfg, st, asks);
            && EndsIn(st.history + picks, end.history, cfg.historyLimit)
            && (forall id :: Count(end.counts, id) == Count(st.counts, id) + multiset(picks)[id])
            && end.failures == st.failures
    decreases |asks|
  {
    if asks == [] {
      assert st.history + [] == st.history;
    } else {
      var a := asks[|asks| - 1];
      HistoryIsLastPicks(cfg, st, asks[..|asks| - 1]);
      var (before, picks) := AskAll(cfg, st, asks[..|asks| - 1]);
      PickRemembered(cfg, before, a);
      var r := Selected(cfg, before, a.relays, a.criteria, a.now, a.draw).1;
      if r.Ok? {
        OneMorePick(cfg, before, st.history + picks, r.value.id);
        assert st.history + picks + [r.value.id] == st.history + (picks + [r.value.id]);
      }
    }
  }

  /** A selection changes the state only when it picks, and then as the pick is remembered. */
  lemma PickRemembered(cfg: Config, st: State, a: Ask)
    ensures var (next, r) := Selected(cfg, st, a.relays, a.criteria, a.now, a.draw);
            && (r.Ok? ==> next == Remember(cfg, st, r.value.id)) && (r.Err? ==> next == st)
            && next.failures == st.failures
  {
  }

  // ---------------------------------------------------------------- exact weighting

  function Prefix(rs: seq<Relay>, i: nat): nat
    requires i <= |rs|
  {
    Sum(rs[..i])
  }

  lemma {:induction false} PickIsInterval(rs: seq<Relay>, i: nat, choice: nat)
    requires i < |rs|
    ensures Prefix(rs, i + 1) == Prefix(rs, i) + rs[i].bandwidth
    ensures PickAt(rs, choice) == i <==> Prefix(rs, i) <= choice < Prefix(rs, i + 1)
  {
    if i > 0 {
      assert rs[..i][1..] == rs[1..][..i - 1] && rs[..i + 1][1..] == rs[1..][..i];
      PickIsInterval(rs[1..], i - 1, if choice < rs[0].bandwidth then 0 else choice - rs[0].bandwidth);
    } else {
      assert rs[..1][1..] == [] && rs[..0] == [];
    }
  }

  /** The draws below `total` for which the loop picks relay `i`. */
  ghost function Draws(rs: seq<Relay>, total: nat, i: nat): set<nat> {
    set c: nat | c < total && PickAt(rs, c) == i
  }

  ghost function Interval(lo: nat, hi: nat): (s: set<nat>)
    requires lo <= hi
    ensures forall c :: c in s <==> lo <= c < hi
    ensures |s| == hi - lo
    decreases hi - lo
  {
    if lo == hi then {} else Interval(lo, hi - 1) + {hi - 1}
  }

  function Min(a: nat, b: nat): nat {
    if a < b then a else b
  }

  lemma ShareOf(rs: seq<Relay>, total: nat, i: nat)
    requires i < |rs|
    ensures Prefix(rs, i) <= Prefix(rs, i + 1)
    ensures |Draws(rs, total, i)| == Min(Prefix(rs, i + 1), total) - Min(Prefix(rs, i), total)
  {
    PickIsInterval(rs, i, 0);
    var lo, hi := Min(Prefix(rs, i), total), Min(Prefix(rs, i + 1), total);
    forall c: nat ensures c in Draws(rs, total, i) <==> lo <= c < hi {
      PickIsInterval(rs, i, c);
    }
    assert Draws(rs, total, i) == Interval(lo, hi);
  }

  lemma {:induction false} PrefixWithinSum(rs: seq<Relay>, i: nat)
    requires i <= |rs|
    ensures Prefix(rs, i) <= Sum(rs)
  {
    if i > 0 {
      PrefixWithinSum(rs[1..], i - 1);
      assert rs[..i][1..] == rs[1..][..i - 1];
    } else {
      assert rs[..0] == [];
    }
  }

  /** Every relay is picked for exactly as many draws as its bandwidth, precisely when the sum fits 64 bits. */
  lemma ExactWeightingIffSumFits(rs: seq<Relay>)
    ensures Sum(rs) <= U64_MAX <==> forall i :: 0 <= i < |rs| ==> |Draws(rs, Total(rs), i)| == rs[i].bandwidth
  {
    var total := Total(rs);
    TotalWithinSum(rs);
    if Sum(rs) <= U64_MAX {
      forall i | 0 <= i < |rs| ensures |Draws(rs, total, i)| == rs[i].bandwidth {
        ShareOf(rs, total, i);
        PickIsInterval(rs, i, 0);
        PrefixWithinSum(rs, i);
        PrefixWithinSum(rs, i + 1);
      }
    } else {
      // The relay at which the wrapped total falls short gets too few draws.
      var i := PickAt(rs, total);
      PickInRange(rs, total);
      PickIsInterval(rs, i, total);
      ShareOf(rs, total, i);
      assert |Draws(rs, total, i)| < rs[i].bandwidth;
    }
  }

  // ---------------------------------------------------------------- selecting several

  predicate DistinctKnownCountries(rs: seq<Relay>) {
    forall i, j :: 0 <= i < j < |rs| && rs[i].country.Some? ==> rs[i].country != rs[j].country
  }

  /** What every hop meets of the default criteria: its id list is overwritten, its region list when spreading. */
  predicate AllMeet(rs: seq<Relay>, c: Criteria, spread: bool, now: nat) {
    forall i :: 0 <= i < |rs| ==> MeetsBase(rs[i], c, now) && (spread || RegionOk(rs[i], c.excludedRegions))
  }

  ghost predicate AllListed(rs: seq<Relay>, relays: seq<Relay>) {
    forall i :: 0 <= i < |rs| ==> rs[i] in relays
  }

  /** One more hop keeps what is asked of a path. */
  lemma HopKeepsPath(c: Criteria, chosen: seq<Relay>, spread: bool, now: nat, r: Relay)
    requires DistinctIds(chosen) && AllMeet(chosen, c, spread, now) && (spread ==> DistinctKnownCountries(chosen))
    requires Meets(r, HopCriteria(c, chosen, spread), now)
    ensures DistinctIds(chosen + [r]) && AllMeet(chosen + [r], c, spread, now)
    ensures spread ==> DistinctKnownCountries(chosen + [r])
  {
    assert MeetsBase(r, c, now);
  }

  /**
   Several relays selected in one call are listed, pairwise different and meet the default criteria apart from its
   exclusion lists; spread over regions, no two share a known country.
   */
  lemma {:induction false} SelectedManyIsSafe(cfg: Config, st: State, relays: seq<Relay>, spread: bool, now: nat,
                                              draws: seq<nat>, chosen: seq<Relay>)
    requires DistinctIds(chosen) && AllMeet(chosen, cfg.criteria, spread, now) && AllListed(chosen, relays)
    requires spread ==> DistinctKnownCountries(chosen)
    requires SelectedMany(cfg, st, relays, spread, now, draws, chosen).1.Ok?
    ensures var rs := SelectedMany(cfg, st, relays, spread, now, draws, chosen).1.value;
            && |rs| == |chosen| + |draws|
            && DistinctIds(rs) && AllMeet(rs, cfg.criteria, spread, now) && AllListed(rs, relays)
            && (spread ==> DistinctKnownCountries(rs))
    decreases |draws|
  {
    if draws != [] {
      var c := HopCriteria(cfg.criteria, chosen, spread);
      var (next, r) := Selected(cfg, st, relays, c, now, draws[0]);
      SelectionIsSafe(cfg, st, relays, c, now, draws[0]);
      HopKeepsPath(cfg.criteria, chosen, spread, now, r.value);
      SelectedManyIsSafe(cfg, next, relays, spread, now, draws[1..], chosen + [r.value]);
    }
  }

  /** With default criteria that exclude nothing a call overwrites, all selected relays meet them. */
  lemma SelectedManyMeetCriteria(cfg: Config, st: State, relays: seq<Relay>, spread: bool, now: nat, draws: seq<nat>)
    requires cfg.criteria.excludedIds == {} && (spread ==> cfg.criteria.excludedRegions == {})
    requires SelectedMany(cfg, st, relays, spread, now, draws, []).1.Ok?
    ensures var rs := SelectedMany(cfg, st, relays, spread, now, draws, []).1.value;
            |rs| == |draws| && forall i :: 0 <= i < |rs| ==> Meets(rs[i], cfg.criteria, now)
  {
    SelectedManyIsSafe(cfg, st, relays, spread, now, draws, []);
  }

  // ---------------------------------------------------------------- how many hops there are

  /** What one hop uses up: a known country when spreading, else the relay alone. */
  datatype Slot = Country(code: string) | Lone(id: string)

  function SlotOf(r: Relay, spread: bool): Slot {
    if spread && r.country.Some? then Country(r.country.value) else Lone(r.id)
  }

  function Slots(rs: seq<Relay>, spread: bool): (slots: set<Slot>)
    ensures forall i :: 0 <= i < |rs| ==> SlotOf(rs[i], spread) in slots
    ensures forall s :: s in slots ==> exists i :: 0 <= i < |rs| && SlotOf(rs[i], spread) == s
  {
    set i | 0 <= i < |rs| :: SlotOf(rs[i], spread)
  }

  /** What is open to any hop but the first: nothing chosen, and when spreading no country chosen. */
  function LaterCriteria(c: Criteria, chosen: seq<Relay>, spread: bool): Criteria {
    c.(excludedIds := Ids(chosen), excludedRegions := if spread then Countries(chosen) else c.excludedRegions)
  }

  function Open(relays: seq<Relay>, c: Criteria, chosen: seq<Relay>, spread: bool, now: nat): set<Slot> {
    Slots(Matching(relays, LaterCriteria(c, chosen, spread), now), spread)
  }

  lemma IsOpen(relays: seq<Relay>, c: Criteria, chosen: seq<Relay>, spread: bool, now: nat, x: Relay)
    requires x in relays && Meets(x, LaterCriteria(c, chosen, spread), now)
    ensures SlotOf(x, spread) in Open(relays, c, chosen, spread, now)
  {
    var m := Matching(relays, LaterCriteria(c, chosen, spread), now);
    assert x in m;
  }

  lemma WhoIsOpen(relays: seq<Relay>, c: Criteria, chosen: seq<Relay>, spread: bool, now: nat, s: Slot) returns (x: Relay)
    requires s in Open(relays, c, chosen, spread, now)
    ensures x in relays && Meets(x, LaterCriteria(c, chosen, spread), now) && SlotOf(x, spread) == s
  {
    var m := Matching(relays, LaterCriteria(c, chosen, spread), now);
    var i :| 0 <= i < |m| && SlotOf(m[i], spread) == s;
    x := m[i];
    assert x in m;
  }

  /** One relay more chosen: another one stays open exactly when it takes a different slot. */
  lemma StaysOpen(relays: seq<Relay>, c: Criteria, chosen: seq<Relay>, spread: bool, now: nat, r: Relay, x: Relay)
    requires DistinctIds(relays) && r in relays && x in relays
    ensures Meets(x, LaterCriteria(c, chosen + [r], spread), now)
       <==> Meets(x, LaterCriteria(c, chosen, spread), now) && SlotOf(x, spread) != SlotOf(r, spread)
  {
    AddedHop(chosen, r);
    assert x.id == r.id ==> x == r;
  }

  /** Each hop uses up exactly its slot. */
  lemma OneSlotLess(relays: seq<Relay>, c: Criteria, chosen: seq<Relay>, spread: bool, now: nat, r: Relay)
    requires DistinctIds(relays) && r in relays && Meets(r, LaterCriteria(c, chosen, spread), now)
    ensures |Open(relays, c, chosen + [r], spread, now)| == |Open(relays, c, chosen, spread, now)| - 1
  {
    var before, after := Open(relays, c, chosen, spread, now), Open(relays, c, chosen + [r], spread, now);
    var used := SlotOf(r, spread);
    IsOpen(relays, c, chosen, spread, now, r);
    forall s | s in after ensures s in before && s != used {
      var x := WhoIsOpen(relays, c, chosen + [r], spread, now, s);
      StaysOpen(relays, c, chosen, spread, now, r, x);
      IsOpen(relays, c, chosen, spread, now, x);
    }
    forall s | s in before && s != used ensures s in after {
      var x := WhoIsOpen(relays, c, chosen, spread, now, s);
      StaysOpen(relays, c, chosen, spread, now, r, x);
      IsOpen(relays, c, chosen + [r], spread, now, x);
    }
    assert after == before - {used};
  }

  lemma NothingOpen(relays: seq<Relay>, c: Criteria, chosen: seq<Relay>, spread: bool, now: nat)
    ensures Matching(relays, LaterCriteria(c, chosen, spread), now) == [] <==> Open(relays, c, chosen, spread, now) == {}
  {
    var m := Matching(relays, LaterCriteria(c, chosen, spread), now);
    if m != [] { assert SlotOf(m[0], spread) in Open(relays, c, chosen, spread, now); }
  }

  /** After the first hop a call that does not panic succeeds exactly when enough slots are open. */
  lemma {:induction false} MoreHopsSucceedIff(cfg: Config, st: State, relays: seq<Relay>, spread: bool, now: nat,
                                              draws: seq<nat>, chosen: seq<Relay>)
    requires DistinctIds(relays) && (chosen != [] || !spread)
    ensures var r := SelectedMany(cfg, st, relays, spread, now, draws, chosen).1;
            IsPanic(r) || (r.Ok? <==> |draws| <= |Open(relays, cfg.criteria, chosen, spread, now)|)
    decreases |draws|
  {
    if draws != [] {
      var c := HopCriteria(cfg.criteria, chosen, spread);
      assert c == LaterCriteria(cfg.criteria, chosen, spread);
      NothingOpen(relays, cfg.criteria, chosen, spread, now);
      SomeMeetsIffMatching(relays, c, now);
      SelectionSucceedsIff(cfg, st, relays, c, now, draws[0]);
      var (next, r) := Selected(cfg, st, relays, c, now, draws[0]);
      if r.Ok? {
        SelectionIsSafe(cfg, st, relays, c, now, draws[0]);
        OneSlotLess(relays, cfg.criteria, chosen, spread, now, r.value);
        MoreHopsSucceedIff(cfg, next, relays, spread, now, draws[1..], chosen + [r.value]);
      }
    }
  }

  ghost predicate HopsPossible(relays: seq<Relay>, c: Criteria, spread: bool, now: nat, n: nat) {
    SomeMeets(relays, c.(excludedIds := {}), now) && n <= |Open(relays, c, [], spread, now)|
  }

  /**
   A call for several relays that does not panic succeeds exactly when some relay meets the first hop's criteria and
   there are as many slots as hops: relays, or when spreading known countries and relays of unknown country. Draws,
   failure records and history do not matter.
   */
  lemma SelectedManySucceedsIff(cfg: Config, st: State, relays: seq<Relay>, spread: bool, now: nat, draws: seq<nat>)
    requires DistinctIds(relays)
    ensures var r := SelectedMany(cfg, st, relays, spread, now, draws, []).1;
            IsPanic(r) || (r.Ok? <==> draws == [] || HopsPossible(relays, cfg.criteria, spread, now, |draws|))
  {
    if draws != [] {
      var c := HopCriteria(cfg.criteria, [], spread);
      assert c == cfg.criteria.(excludedIds := {});
      SelectionSucceedsIff(cfg, st, relays, c, now, draws[0]);
      var (next, r) := Selected(cfg, st, relays, c, now, draws[0]);
      if r.Ok? {
        SelectionIsSafe(cfg, st, relays, c, now, draws[0]);
        assert Meets(r.value, LaterCriteria(cfg.criteria, [], spread), now);
        OneSlotLess(relays, cfg.criteria, [], spread, now, r.value);
        MoreHopsSucceedIff(cfg, next, relays, spread, now, draws[1..], [] + [r.value]);
      }
    }
  }

  // ---------------------------------------------------------------- when a call can panic, and when it keeps its criteria

  /** The best relay that can be offered to these criteria. */
  function Ideal(c: Criteria, id: string, now: nat): (r: Relay)
    ensures MeetsBase(r, c, now)
  {
    Relay(id, U64_MAX, c.region, Maximum, Healthy, true, true, now, true)
  }

  /** The criteria ask for a region they exclude, so no first hop exists. */
  predicate NoFirstHop(c: Criteria) {
    c.region.Some? && c.region.value in c.excludedRegions
  }

  lemma FirstIsMember(rs: seq<Relay>)
    ensures rs == [] || rs[0] in rs
  {
  }

  lemma NothingMeets(relays: seq<Relay>, c: Criteria, now: nat)
    requires NoFirstHop(c)
    ensures Matching(relays, c, now) == []
  {
    FirstIsMember(Matching(relays, c, now));
  }

  /** Settings under which no choice is ever undefined. */
  predicate SafeSettings(cfg: Config) {
    && cfg.maxRetries > 0
    && (cfg.strategy == Hybrid ==> cfg.criteria.minBandwidth.Some? && cfg.criteria.minBandwidth.value > 0)
    && (cfg.strategy == Hybrid || cfg.strategy == Geographic ==> !cfg.located)
  }

  ghost predicate ManyNeverPanics(cfg: Config) {
    forall st, relays, spread, now, draws :: !IsPanic(SelectedMany(cfg, st, relays, spread, now, draws, []).1)
  }

  lemma {:induction false} SafeSettingsDoNotPanic(cfg: Config, st: State, relays: seq<Relay>, spread: bool, now: nat,
                                                  draws: seq<nat>, chosen: seq<Relay>)
    requires SafeSettings(cfg)
    ensures !IsPanic(SelectedMany(cfg, st, relays, spread, now, draws, chosen).1)
    decreases |draws|
  {
    if draws != [] {
      var c := HopCriteria(cfg.criteria, chosen, spread);
      SelectionSucceedsIff(cfg, st, relays, c, now, draws[0]);
      ChoicesMatch(cfg, st, relays, c, now);
      var choices := Choices(cfg, st, relays, c, now);
      if choices != [] {
        assert choices[0] in choices;
      }
      var (next, r) := Selected(cfg, st, relays, c, now, draws[0]);
      if r.Ok? {
        SafeSettingsDoNotPanic(cfg, next, relays, spread, now, draws[1..], chosen + [r.value]);
      }
    }
  }

  lemma OnlyChoice(cfg: Config, st: State, r: Relay, now: nat)
    ensures Candidates(cfg, st, [r], now) == [r]
  {
    assert [r][1..] == [];
    assert RestedRelays(cfg, st, [], now) == [] && NotIn(st.history, []) == [];
  }

  lemma OneRelay(r: Relay, c: Criteria, now: nat)
    ensures Matching([r], c, now) == if Meets(r, c, now) then [r] else []
  {
    assert [r][1..] == [] && Matching([], c, now) == [];
  }

  /** A selection with one match is that relay, unless its pick is undefined. */
  lemma OnlyMatch(cfg: Config, st: State, relays: seq<Relay>, c: Criteria, r: Relay, now: nat)
    requires Matching(relays, c, now) == [r]
    ensures Selected(cfg, st, relays, c, now, 0)
         == if cfg.maxRetries == 0 && r.id in st.failures then (st, Err(ClampPanic))
            else if ScorePanics(cfg, [r]) then (st, Err(ScorePanic))
            else (Remember(cfg, st, r.id), Ok(r))
  {
    OnlyChoice(cfg, st, r, now);
    assert [r][0].id in st.failures <==> r.id in st.failures;
  }

  lemma NextHop(cfg: Config, st: State, relays: seq<Relay>, spread: bool, now: nat, rest: seq<nat>, chosen: seq<Relay>)
    ensures var (next, r) := Selected(cfg, st, relays, HopCriteria(cfg.criteria, chosen, spread), now, 0);
            var many := SelectedMany(cfg, st, relays, spread, now, [0] + rest, chosen);
            && (r.Ok? ==> many == SelectedMany(cfg, next, relays, spread, now, rest, chosen + [r.value]))
            && (r.Err? ==> many == (next, Err(r.error)))
  {
    assert ([0] + rest)[1..] == rest;
  }

  /** One relay, one hop: the call is a single pick of it. */
  lemma SingleHop(cfg: Config, st: State, r: Relay, spread: bool, now: nat)
    requires MeetsBase(r, cfg.criteria, now) && RegionOk(r, cfg.criteria.excludedRegions)
    ensures SelectedMany(cfg, st, [r], spread, now, [0], []).1
         == if cfg.maxRetries == 0 && r.id in st.failures then Err(ClampPanic)
            else if ScorePanics(cfg, [r]) then Err(ScorePanic) else Ok([r])
  {
    var c := HopCriteria(cfg.criteria, [], spread);
    OneRelay(r, c, now);
    OnlyMatch(cfg, st, [r], c, r, now);
    NextHop(cfg, st, [r], spread, now, [], []);
    assert [0] + [] == [0] && [] + [r] == [r];
  }

  function Nothing(): State {
    State(map[], map[], [])
  }

  /** A call for several relays can panic unless the settings are safe or no first hop exists. */
  lemma ManyNeverPanicsIff(cfg: Config)
    ensures ManyNeverPanics(cfg) <==> SafeSettings(cfg) || NoFirstHop(cfg.criteria)
  {
    if SafeSettings(cfg) {
      forall st, relays, spread, now, draws
        ensures !IsPanic(SelectedMany(cfg, st, relays, spread, now, draws, []).1)
      {
        SafeSettingsDoNotPanic(cfg, st, relays, spread, now, draws, []);
      }
    } else if NoFirstHop(cfg.criteria) {
      forall st, relays, spread, now, draws
        ensures !IsPanic(SelectedMany(cfg, st, relays, spread, now, draws, []).1)
      {
        NothingMeets(relays, HopCriteria(cfg.criteria, [], spread), now);
      }
    } else {
      var best := Ideal(cfg.criteria, "r", 0);
      var idle := cfg.strategy == Hybrid && !(cfg.criteria.minBandwidth.Some? && cfg.criteria.minBandwidth.value > 0);
      var r := if idle then best.(bandwidth := 0) else best.(measurable := false);
      var st := State(map["r" := FailureRecord(0, 0)], map[], []);
      SingleHop(cfg, st, r, false, 0);
      assert [r][0].bandwidth == r.bandwidth && [r][0].measurable == r.measurable;
      assert IsPanic(SelectedMany(cfg, st, [r], false, 0, [0], []).1);
    }
  }

  /** Every result of a call for up to `n` relays meets the default criteria in full. */
  ghost predicate AlwaysMeets(cfg: Config, spread: bool, n: nat) {
    forall st, relays, now, draws: seq<nat> :: |draws| <= n ==> ResultMeets(cfg, st, relays, spread, now, draws)
  }

  ghost predicate ResultMeets(cfg: Config, st: State, relays: seq<Relay>, spread: bool, now: nat, draws: seq<nat>) {
    var r := SelectedMany(cfg, st, relays, spread, now, draws, []).1;
    r.Ok? ==> forall i :: 0 <= i < |r.value| ==> Meets(r.value[i], cfg.criteria, now)
  }

  /**
   A call overwrites the id list of the default criteria, and when spreading from the second hop on its region list.
   So its results always meet the criteria exactly if these lists are empty where they are overwritten, or no relay
   can be overwritten into the result: no hop is asked for, no first hop exists, or the criteria ask for one region
   and spreading allows no second hop in it.
   */
  lemma DefaultExclusionsKeptIff(cfg: Config, spread: bool, n: nat)
    ensures AlwaysMeets(cfg, spread, n)
       <==> || n == 0
            || NoFirstHop(cfg.criteria)
            || (cfg.criteria.excludedIds == {}
                && (spread && n > 1 && cfg.criteria.region.None? ==> cfg.criteria.excludedRegions == {}))
  {
    var c := cfg.criteria;
    if n == 0 {
    } else if NoFirstHop(c) {
      forall st, relays, now, draws: seq<nat> | |draws| <= n ensures ResultMeets(cfg, st, relays, spread, now, draws) {
        NothingMeets(relays, HopCriteria(c, [], spread), now);
      }
    } else if c.excludedIds != {} {
      var id :| id in c.excludedIds;
      var r := Ideal(c, id, 0);
      SingleHop(cfg, Nothing(), r, spread, 0);
      assert SelectedMany(cfg, Nothing(), [r], spread, 0, [0], []).1 == Ok([r]);
      assert [r][0] == r && !Meets(r, c, 0);
      assert !ResultMeets(cfg, Nothing(), [r], spread, 0, [0]);
    } else if spread && n > 1 && c.region.None? && c.excludedRegions != {} {
      var code :| code in c.excludedRegions;
      SecondHopOverwrites(cfg, code);
    } else {
      forall st, relays, now, draws: seq<nat> | |draws| <= n ensures ResultMeets(cfg, st, relays, spread, now, draws) {
        KeptExclusions(cfg, st, relays, spread, now, draws);
      }
    }
  }

  lemma KeptExclusions(cfg: Config, st: State, relays: seq<Relay>, spread: bool, now: nat, draws: seq<nat>)
    requires cfg.criteria.excludedIds == {}
    requires spread && |draws| > 1 && cfg.criteria.region.None? ==> cfg.criteria.excludedRegions == {}
    ensures ResultMeets(cfg, st, relays, spread, now, draws)
  {
    if spread && |draws| > 1 && cfg.criteria.region.Some? {
      OneRegionOneHop(cfg, st, relays, now, draws);
    } else if SelectedMany(cfg, st, relays, spread, now, draws, []).1.Ok? {
      SelectedManyIsSafe(cfg, st, relays, spread, now, draws, []);
      if spread && draws != [] { FirstHopMeets(cfg, st, relays, spread, now, draws); }
    }
  }

  /** Criteria that ask for one region allow no second hop when spreading. */
  lemma OneRegionOneHop(cfg: Config, st: State, relays: seq<Relay>, now: nat, draws: seq<nat>)
    requires cfg.criteria.region.Some? && |draws| > 1
    ensures !SelectedMany(cfg, st, relays, true, now, draws, []).1.Ok?
  {
    var c := HopCriteria(cfg.criteria, [], true);
    var (next, r) := Selected(cfg, st, relays, c, now, draws[0]);
    if r.Ok? {
      SelectionIsSafe(cfg, st, relays, c, now, draws[0]);
      OneChosen(r.value);
      NothingMeets(relays, HopCriteria(cfg.criteria, [r.value], true), now);
      assert [] + [r.value] == [r.value];
    }
  }

  lemma OneChosen(r: Relay)
    ensures Ids([r]) == {r.id}
    ensures Countries([r]) == if r.country.Some? then {r.country.value} else {}
  {
    assert [r][0] == r;
  }

  /** The first of the selected relays meets the default region list. */
  lemma FirstHopMeets(cfg: Config, st: State, relays: seq<Relay>, spread: bool, now: nat, draws: seq<nat>)
    requires draws != [] && SelectedMany(cfg, st, relays, spread, now, draws, []).1.Ok?
    ensures SelectedMany(cfg, st, relays, spread, now, draws, []).1.value != []
    ensures RegionOk(SelectedMany(cfg, st, relays, spread, now, draws, []).1.value[0], cfg.criteria.excludedRegions)
  {
    var c := HopCriteria(cfg.criteria, [], spread);
    SelectionIsSafe(cfg, st, relays, c, now, draws[0]);
    var (next, r) := Selected(cfg, st, relays, c, now, draws[0]);
    ChosenStays(cfg, next, relays, spread, now, draws[1..], [] + [r.value]);
  }

  lemma {:induction false} ChosenStays(cfg: Config, st: State, relays: seq<Relay>, spread: bool, now: nat,
                                       draws: seq<nat>, chosen: seq<Relay>)
    requires SelectedMany(cfg, st, relays, spread, now, draws, chosen).1.Ok?
    ensures chosen <= SelectedMany(cfg, st, relays, spread, now, draws, chosen).1.value
    decreases |draws|
  {
    if draws != [] {
      var (next, r) := Selected(cfg, st, relays, HopCriteria(cfg.criteria, chosen, spread), now, draws[0]);
      ChosenStays(cfg, next, relays, spread, now, draws[1..], chosen + [r.value]);
    }
  }

  function Abroad(c: Criteria, code: string): (b: Relay)
    ensures c.region.None? ==> MeetsBase(b, c, 0)
  {
    Ideal(c, "b", 0).(country := Some(code))
  }

  /** Two hops, spread: the second returns a relay of an excluded region. */
  lemma SecondHopOverwrites(cfg: Config, code: string)
    requires code in cfg.criteria.excludedRegions && cfg.criteria.region.None?
    ensures var a, b := Ideal(cfg.criteria, "a", 0), Abroad(cfg.criteria, code);
            && SelectedMany(cfg, Nothing(), [a, b], true, 0, [0, 0], []).1 == Ok([a, b])
            && !ResultMeets(cfg, Nothing(), [a, b], true, 0, [0, 0])
  {
    var a, b := Ideal(cfg.criteria, "a", 0), Abroad(cfg.criteria, code);
    TwoHops(cfg, a, b);
    assert [a, b][1] == b && !Meets(b, cfg.criteria, 0);
  }

  lemma TwoHops(cfg: Config, a: Relay, b: Relay)
    requires MeetsBase(a, cfg.criteria, 0) && MeetsBase(b, cfg.criteria, 0) && a.id != b.id
    requires RegionOk(a, cfg.criteria.excludedRegions) && !RegionOk(b, cfg.criteria.excludedRegions)
    requires a.country.None? && a.bandwidth > 0 && a.measurable && b.bandwidth > 0 && b.measurable
    ensures SelectedMany(cfg, Nothing(), [a, b], true, 0, [0, 0], []).1 == Ok([a, b])
  {
    HopMatches(cfg.criteria, a, b);
    assert [a][0] == a && [b][0] == b;
    var next := Remember(cfg, Nothing(), a.id);
    OnlyMatch(cfg, Nothing(), [a, b], HopCriteria(cfg.criteria, [], true), a, 0);
    OnlyMatch(cfg, next, [a, b], HopCriteria(cfg.criteria, [a], true), b, 0);
    NextHop(cfg, Nothing(), [a, b], true, 0, [0], []);
    NextHop(cfg, next, [a, b], true, 0, [], [a]);
    assert [0] + [0] == [0, 0] && [0] + [] == [0] && [] + [a] == [a] && [a] + [b] == [a, b];
  }

  /** The first hop is left with `a`, the second with `b`. */
  lemma HopMatches(c: Criteria, a: Relay, b: Relay)
    requires MeetsBase(a, c, 0) && MeetsBase(b, c, 0) && a.id != b.id && a.country.None?
    requires RegionOk(a, c.excludedRegions) && !RegionOk(b, c.excludedRegions)
    ensures Matching([a, b], HopCriteria(c, [], true), 0) == [a]
    ensures Matching([a, b], HopCriteria(c, [a], true), 0) == [b]
  {
    OneChosen(a);
    TwoRelays(a, b, HopCriteria(c, [], true), 0);
    TwoRelays(a, b, HopCriteria(c, [a], true), 0);
  }

  lemma TwoRelays(a: Relay, b: Relay, c: Criteria, now: nat)
    ensures Matching([a, b], c, now)
         == (if Meets(a, c, now) then [a] else []) + (if Meets(b, c, now) then [b] else [])
  {
    OneRelay(b, c, now);
    assert [a, b][1..] == [b];
  }
}
