/** Persistent entry guards (gptl-transport, guard.rs). Times are signed ticks of the wall clock. */
module Guards {
  import opened Bytes
  import Bootstrap

  type RelayDescriptor = Bootstrap.RelayDescriptor
  type Key = seq<Byte>

  datatype GuardEntry = GuardEntry(descriptor: RelayDescriptor, selectedAt: int, lastUsed: Option<int>, failures: U32)

  /** `rotation` is the age limit in clock ticks, `persists` whether a state file is configured. */
  datatype Config = Config(numGuards: nat, rotation: int, minGuards: nat, maxFailures: U32, persists: bool)

  // ---------------------------------------------------------------- rotation as a function

  function KeyOf(g: GuardEntry): Key {
    g.descriptor.pubkeyHex
  }

  predicate IsUsable(cfg: Config, g: GuardEntry) {
    g.failures < cfg.maxFailures
  }

  predicate IsExpired(cfg: Config, g: GuardEntry, now: int) {
    now - g.selectedAt >= cfg.rotation
  }

  predicate Listed(rs: seq<RelayDescriptor>, key: Key) {
    exists i :: 0 <= i < |rs| && rs[i].pubkeyHex == key
  }

  predicate Guarded(gs: seq<GuardEntry>, key: Key) {
    exists i :: 0 <= i < |gs| && KeyOf(gs[i]) == key
  }

  predicate Complete(r: RelayDescriptor) {
    r.nickname != [] && r.address != [] && r.pubkeyHex != []
  }

  predicate Stays(cfg: Config, g: GuardEntry, available: seq<RelayDescriptor>, now: int) {
    !IsExpired(cfg, g, now) && Listed(available, KeyOf(g))
  }

  function Kept(cfg: Config, gs: seq<GuardEntry>, available: seq<RelayDescriptor>, now: int): seq<GuardEntry> {
    if gs == [] then []
    else (if Stays(cfg, gs[0], available, now) then [gs[0]] else []) + Kept(cfg, gs[1..], available, now)
  }

  /** Complete relays that are not guards yet, in list order. */
  function Eligible(gs: seq<GuardEntry>, rs: seq<RelayDescriptor>): seq<RelayDescriptor> {
    if rs == [] then []
    else (if Complete(rs[0]) && !Guarded(gs, rs[0].pubkeyHex) then [rs[0]] else []) + Eligible(gs, rs[1..])
  }

  function Fresh(rs: seq<RelayDescriptor>, now: int): seq<GuardEntry> {
    if rs == [] then [] else [GuardEntry(rs[0], now, None, 0)] + Fresh(rs[1..], now)
  }

  lemma {:induction false} FreshAt(rs: seq<RelayDescriptor>, now: int)
    ensures |Fresh(rs, now)| == |rs|
    ensures forall i :: 0 <= i < |rs| ==> Fresh(rs, now)[i] == GuardEntry(rs[i], now, None, 0)
  {
    if rs != [] { FreshAt(rs[1..], now); }
  }

  lemma {:induction false} FreshNext(rs: seq<RelayDescriptor>, i: nat, now: int)
    requires i < |rs|
    ensures Fresh(rs[..i + 1], now) == Fresh(rs[..i], now) + [GuardEntry(rs[i], now, None, 0)]
  {
    FreshAt(rs[..i + 1], now);
    FreshAt(rs[..i], now);
  }

  function Take<T>(s: seq<T>, n: nat): seq<T> {
    if n < |s| then s[..n] else s
  }

  predicate IsShuffleOf(ts: seq<RelayDescriptor>, rs: seq<RelayDescriptor>) {
    multiset(ts) == multiset(rs)
  }

  /** The shuffle is any function that permutes the list it is given. */
  ghost predicate Permutes(shuffle: seq<RelayDescriptor> -> seq<RelayDescriptor>) {
    forall rs :: IsShuffleOf(shuffle(rs), rs)
  }

  /** The relays a rotation adds to the survivors: as many shuffled eligible ones as are lacking. */
  function Added(cfg: Config, kept: seq<GuardEntry>, available: seq<RelayDescriptor>,
                 shuffle: seq<RelayDescriptor> -> seq<RelayDescriptor>): seq<RelayDescriptor>
  {
    if |kept| < cfg.numGuards then Take(shuffle(Eligible(kept, available)), cfg.numGuards - |kept|) else []
  }

  function Rotated(cfg: Config, gs: seq<GuardEntry>, available: seq<RelayDescriptor>, now: int,
                   shuffle: seq<RelayDescriptor> -> seq<RelayDescriptor>): seq<GuardEntry>
  {
    var kept := Kept(cfg, gs, available, now);
    kept + Fresh(Added(cfg, kept, available, shuffle), now)
  }

  /** The state file: not there, there but no saved state, or a saved state. */
  datatype StateFile<+T> = Missing | Unreadable | Saved(state: T)

  /** What initialization starts from; an unreadable file is an error. */
  function Loaded<T>(cfg: Config, file: StateFile<T>, present: T, empty: T): Option<T> {
    if !cfg.persists then Some(present)
    else
      match file
      case Missing => Some(empty)
      case Unreadable => None
      case Saved(state) => Some(state)
  }

  function FirstNamed(gs: seq<GuardEntry>, nickname: seq<Byte>): (i: nat)
    ensures i <= |gs|
    ensures i < |gs| ==> gs[i].descriptor.nickname == nickname
    ensures forall j :: 0 <= j < i ==> gs[j].descriptor.nickname != nickname
  {
    if gs == [] || gs[0].descriptor.nickname == nickname then 0 else 1 + FirstNamed(gs[1..], nickname)
  }

  function Succeeded(g: GuardEntry, now: int): GuardEntry {
    g.(lastUsed := Some(now), failures := 0)
  }

  function Failed(g: GuardEntry): GuardEntry {
    g.(failures := if g.failures == U32_MAX then U32_MAX else g.failures + 1)
  }

  function Reported(gs: seq<GuardEntry>, nickname: seq<Byte>, ok: bool, now: int): seq<GuardEntry> {
    var i := FirstNamed(gs, nickname);
    if i == |gs| then gs else gs[i := if ok then Succeeded(gs[i], now) else Failed(gs[i])]
  }

  // ---------------------------------------------------------------- the manager

  class GuardManager {
    const config: Config
    var guards: seq<GuardEntry>

    constructor (config: Config)
      ensures this.config == config && guards == []
    {
      this.config := config;
      guards := [];
    }

    method RotateIfExpired(available: seq<RelayDescriptor>, now: int,
                           shuffle: seq<RelayDescriptor> -> seq<RelayDescriptor>)
      modifies this
      ensures guards == Rotated(config, old(guards), available, now, shuffle)
    {
      guards := Retain(config, guards, available, now);
      ghost var kept := guards;
      assert Fresh([], now) == [] && kept + [] == kept;
      if |guards| < config.numGuards {
        var candidates := Candidates(guards, available);
        var chosen := Take(shuffle(candidates), config.numGuards - |guards|);
        for i := 0 to |chosen|
          invariant guards == kept + Fresh(chosen[..i], now)
        {
          FreshNext(chosen, i, now);
          guards := guards + [GuardEntry(chosen[i], now, None, 0)];
        }
        assert chosen[..|chosen|] == chosen;
      }
    }

    static method Retain(config: Config, gs: seq<GuardEntry>, available: seq<RelayDescriptor>, now: int)
      returns (kept: seq<GuardEntry>)
      ensures kept == Kept(config, gs, available, now)
    {
      kept := [];
      ghost var all := Kept(config, gs, available, now);
      for i := 0 to |gs|
        invariant kept + Kept(config, gs[i..], available, now) == all
      {
        KeptStep(config, gs, i, available, now);
        var expired := IsExpired(config, gs[i], now);
        var gone := !Listed(available, KeyOf(gs[i]));
        if !expired && !gone {
          kept := kept + [gs[i]];
        }
      }
    }

    static method Candidates(gs: seq<GuardEntry>, available: seq<RelayDescriptor>) returns (cs: seq<RelayDescriptor>)
      ensures cs == Eligible(gs, available)
    {
      cs := [];
      ghost var all := Eligible(gs, available);
      for i := 0 to |available|
        invariant cs + Eligible(gs, available[i..]) == all
      {
        EligibleStep(gs, available, i);
        if Complete(available[i]) && !Guarded(gs, available[i].pubkeyHex) {
          cs := cs + [available[i]];
        }
      }
    }

    /** Loads the saved guards if there are any, rotates, and selects afresh should no guard be left. */
    method Initialize(file: StateFile<seq<GuardEntry>>, available: seq<RelayDescriptor>, now: int,
                      shuffle: seq<RelayDescriptor> -> seq<RelayDescriptor>) returns (ok: bool)
      requires Permutes(shuffle)
      modifies this
      ensures ok <==> !(config.persists && file.Unreadable?)
      ensures !ok ==> guards == old(guards)
      ensures ok && !config.persists ==> guards == Rotated(config, old(guards), available, now, shuffle)
      ensures config.persists && file.Missing? ==> guards == Rotated(config, [], available, now, shuffle)
      ensures config.persists && file.Saved? ==> guards == Rotated(config, file.state, available, now, shuffle)
    {
      if config.persists {
        match file {
          case Missing => guards := [];
          case Unreadable => return false;
          case Saved(state) => guards := state;
        }
      }
      ghost var loaded := guards;
      RotateIfExpired(available, now, shuffle);
      if guards == [] {
        NoGuardsLeft(config, loaded, available, now, shuffle);
        var candidates := Candidates([], available);
        guards := Fresh(Take(shuffle(candidates), config.numGuards), now);
      }
      return true;
    }

    /** An entry relay by an arbitrary draw: from the whole list when too few guards are usable. */
    method SelectEntryRelay(available: seq<RelayDescriptor>, draw: nat) returns (r: Option<RelayDescriptor>)
      ensures r == EntryRelay(config, guards, available, draw)
    {
      var usable, listed: seq<RelayDescriptor> := 0, [];
      for i := 0 to |guards|
        invariant usable + UsableCount(config, guards[i..]) == UsableCount(config, guards)
        invariant listed + UsableListed(config, guards[i..], available) == UsableListed(config, guards, available)
      {
        assert guards[i..][1..] == guards[i + 1..];
        if IsUsable(config, guards[i]) {
          usable := usable + 1;
          if Listed(available, KeyOf(guards[i])) {
            listed := listed + [guards[i].descriptor];
          }
        }
      }
      assert listed == UsableListed(config, guards, available);
      if usable < config.minGuards { return Choose(available, draw); }
      return Choose(listed, draw);
    }

    method Report(nickname: seq<Byte>, ok: bool, now: int)
      modifies this
      ensures guards == Reported(old(guards), nickname, ok, now)
    {
      var i := 0;
      while i < |guards| && guards[i].descriptor.nickname != nickname
        invariant i <= |guards| && guards == old(guards)
        invariant FirstNamed(guards, nickname) == i + FirstNamed(guards[i..], nickname)
      {
        i := i + 1;
      }
      if i < |guards| {
        guards := guards[i := if ok then Succeeded(guards[i], now) else Failed(guards[i])];
      }
    }
  }

  lemma KeptStep(cfg: Config, gs: seq<GuardEntry>, i: nat, available: seq<RelayDescriptor>, now: int)
    requires i < |gs|
    ensures Kept(cfg, gs[i..], available, now)
         == (if Stays(cfg, gs[i], available, now) then [gs[i]] else []) + Kept(cfg, gs[i + 1..], available, now)
  {
    assert gs[i..][1..] == gs[i + 1..];
  }

  lemma EligibleStep(gs: seq<GuardEntry>, rs: seq<RelayDescriptor>, i: nat)
    requires i < |rs|
    ensures Eligible(gs, rs[i..])
         == (if Complete(rs[i]) && !Guarded(gs, rs[i].pubkeyHex) then [rs[i]] else []) + Eligible(gs, rs[i + 1..])
  {
    assert rs[i..][1..] == rs[i + 1..];
  }

  function UsableCount(cfg: Config, gs: seq<GuardEntry>): nat {
    if gs == [] then 0 else (if IsUsable(cfg, gs[0]) then 1 else 0) + UsableCount(cfg, gs[1..])
  }

  function UsableListed(cfg: Config, gs: seq<GuardEntry>, available: seq<RelayDescriptor>): seq<RelayDescriptor> {
    if gs == [] then []
    else
      (if IsUsable(cfg, gs[0]) && Listed(available, KeyOf(gs[0])) then [gs[0].descriptor] else [])
      + UsableListed(cfg, gs[1..], available)
  }

  function Choose<T>(s: seq<T>, draw: nat): Option<T> {
    if s == [] then None else Some(s[draw % |s|])
  }

  function EntryRelay(cfg: Config, gs: seq<GuardEntry>, available: seq<RelayDescriptor>, draw: nat): Option<RelayDescriptor> {
    Choose(if UsableCount(cfg, gs) < cfg.minGuards then available else UsableListed(cfg, gs, available), draw)
  }

  /** When rotation leaves no guard, there is nothing a fresh selection could add. */
  lemma NoGuardsLeft(cfg: Config, gs: seq<GuardEntry>, available: seq<RelayDescriptor>, now: int,
                     shuffle: seq<RelayDescriptor> -> seq<RelayDescriptor>)
    requires Permutes(shuffle) && Rotated(cfg, gs, available, now, shuffle) == []
    ensures Take(shuffle(Eligible([], available)), cfg.numGuards) == []
  {
    assert Kept(cfg, gs, available, now) == [];
    assert IsShuffleOf(shuffle(Eligible([], available)), Eligible([], available));
  }

  // ---------------------------------------------------------------- what one rotation leaves

  predicate DistinctKeys(gs: seq<GuardEntry>) {
    forall i, j :: 0 <= i < j < |gs| ==> KeyOf(gs[i]) != KeyOf(gs[j])
  }

  predicate DistinctRelays(rs: seq<RelayDescriptor>) {
    forall i, j :: 0 <= i < j < |rs| ==> rs[i].pubkeyHex != rs[j].pubkeyHex
  }

  /** Two entries of `all`, the one for `a` before the one for `b`. */
  ghost predicate Before(all: seq<GuardEntry>, a: GuardEntry, b: GuardEntry) {
    exists p, q :: 0 <= p < q < |all| && all[p] == a && all[q] == b
  }

  ghost predicate InOrder(all: seq<GuardEntry>, part: seq<GuardEntry>) {
    forall i, j :: 0 <= i < j < |part| ==> Before(all, part[i], part[j])
  }

  /** The survivors are exactly the unexpired listed guards, unchanged and in their order. */
  lemma {:induction false} KeptIsSurvivors(cfg: Config, gs: seq<GuardEntry>, available: seq<RelayDescriptor>, now: int)
    ensures forall g :: g in Kept(cfg, gs, available, now) <==> g in gs && Stays(cfg, g, available, now)
    ensures InOrder(gs, Kept(cfg, gs, available, now))
  {
    if gs != [] {
      var rest, kept := Kept(cfg, gs[1..], available, now), Kept(cfg, gs, available, now);
      KeptIsSurvivors(cfg, gs[1..], available, now);
      assert gs == [gs[0]] + gs[1..];
      forall i, j | 0 <= i < j < |kept| ensures Before(gs, kept[i], kept[j]) {
        var skip := |kept| - |rest|;
        assert kept[j] == rest[j - skip];
        if i < skip {
          assert rest[j - skip] in gs[1..];
          var q :| 0 <= q < |gs[1..]| && gs[1..][q] == kept[j];
          assert gs[q + 1] == kept[j] && gs[0] == kept[i];
        } else {
          var a, b := i - skip, j - skip;
          assert 0 <= a < b < |rest| && kept[i] == rest[a] && kept[j] == rest[b];
          assert Before(gs[1..], rest[a], rest[b]);
          var p, q :| 0 <= p < q < |gs[1..]| && gs[1..][p] == rest[a] && gs[1..][q] == rest[b];
          assert gs[p + 1] == kept[i] && gs[q + 1] == kept[j];
        }
      }
    }
  }

  lemma KeptDistinct(cfg: Config, gs: seq<GuardEntry>, available: seq<RelayDescriptor>, now: int)
    requires DistinctKeys(gs)
    ensures DistinctKeys(Kept(cfg, gs, available, now))
  {
    var kept := Kept(cfg, gs, available, now);
    KeptIsSurvivors(cfg, gs, available, now);
    forall i, j | 0 <= i < j < |kept| ensures KeyOf(kept[i]) != KeyOf(kept[j]) {
      assert Before(gs, kept[i], kept[j]);
    }
  }

  lemma {:induction false} EligibleIsPart(gs: seq<GuardEntry>, rs: seq<RelayDescriptor>)
    ensures forall r :: r in Eligible(gs, rs) <==> r in rs && Complete(r) && !Guarded(gs, r.pubkeyHex)
    ensures DistinctRelays(rs) ==> DistinctRelays(Eligible(gs, rs))
  {
    if rs != [] {
      EligibleIsPart(gs, rs[1..]);
      assert rs == [rs[0]] + rs[1..];
      var rest := Eligible(gs, rs[1..]);
      if DistinctRelays(rs) {
        forall i | 0 <= i < |rest| ensures rest[i].pubkeyHex != rs[0].pubkeyHex {
          assert rest[i] in rs[1..];
          var k :| 0 <= k < |rs[1..]| && rs[1..][k] == rest[i];
          assert rs[k + 1] == rest[i];
        }
      }
    }
  }

  lemma {:induction false} OnceWhenDistinct(rs: seq<RelayDescriptor>, r: RelayDescriptor)
    requires DistinctRelays(rs)
    ensures multiset(rs)[r] <= 1
  {
    if rs != [] {
      OnceWhenDistinct(rs[1..], r);
      assert rs == [rs[0]] + rs[1..];
      if rs[0] == r {
        forall k | 0 <= k < |rs[1..]| ensures rs[1..][k] != r {
          assert rs[k + 1].pubkeyHex != rs[0].pubkeyHex;
        }
        assert r !in rs[1..];
      }
    }
  }

  /** Shuffling keeps the members and their distinctness. */
  lemma ShuffledDistinct(rs: seq<RelayDescriptor>, ts: seq<RelayDescriptor>)
    requires IsShuffleOf(ts, rs) && DistinctRelays(rs)
    ensures |ts| == |rs| && DistinctRelays(ts)
    ensures forall r :: r in ts <==> r in rs
  {
    assert |ts| == |multiset(ts)| == |multiset(rs)| == |rs|;
    assert forall r :: r in ts <==> r in multiset(ts);
    assert forall r :: r in rs <==> r in multiset(rs);
    forall i, j | 0 <= i < j < |ts| ensures ts[i].pubkeyHex != ts[j].pubkeyHex {
      assert ts[i] in rs && ts[j] in rs;
      var p :| 0 <= p < |rs| && rs[p] == ts[i];
      var q :| 0 <= q < |rs| && rs[q] == ts[j];
      OnceWhenDistinct(rs, ts[i]);
      TwiceCounted(ts, i, j);
      assert p != q;
    }
  }

  lemma TwiceCounted(ts: seq<RelayDescriptor>, i: nat, j: nat)
    requires i < j < |ts|
    ensures ts[i] == ts[j] ==> multiset(ts)[ts[i]] >= 2
  {
    assert ts == ts[..j] + [ts[j]] + ts[j + 1..];
    assert ts[..j][i] == ts[i];
  }

  predicate IsFresh(g: GuardEntry, kept: seq<GuardEntry>, available: seq<RelayDescriptor>, now: int) {
    && g.descriptor in available && Complete(g.descriptor) && !Guarded(kept, KeyOf(g))
    && g == GuardEntry(g.descriptor, now, None, 0)
  }

  /** Behind the survivors there are only fresh entries of complete relays that were no guards. */
  predicate FreshBehind(kept: seq<GuardEntry>, after: seq<GuardEntry>, available: seq<RelayDescriptor>, now: int) {
    kept <= after && forall i :: |kept| <= i < |after| ==> IsFresh(after[i], kept, available, now)
  }

  predicate AllListed(gs: seq<GuardEntry>, available: seq<RelayDescriptor>) {
    forall i :: 0 <= i < |gs| ==> Listed(available, KeyOf(gs[i]))
  }

  function Min(a: nat, b: nat): nat { if a < b then a else b }

  function Max(a: nat, b: nat): nat { if a < b then b else a }

  /** A shuffled choice of eligible relays turns into fresh entries. */
  lemma ChosenIsFresh(kept: seq<GuardEntry>, available: seq<RelayDescriptor>, chosen: seq<RelayDescriptor>, now: int)
    requires forall k :: 0 <= k < |chosen| ==> chosen[k] in Eligible(kept, available)
    ensures FreshBehind(kept, kept + Fresh(chosen, now), available, now)
  {
    EligibleIsPart(kept, available);
    FreshAt(chosen, now);
    var after := kept + Fresh(chosen, now);
    forall i | |kept| <= i < |after| ensures IsFresh(after[i], kept, available, now) {
      assert after[i].descriptor == chosen[i - |kept|];
    }
  }

  lemma FreshIsListed(kept: seq<GuardEntry>, after: seq<GuardEntry>, available: seq<RelayDescriptor>, now: int)
    requires AllListed(kept, available) && FreshBehind(kept, after, available, now)
    ensures AllListed(after, available)
  {
    forall i | 0 <= i < |after| ensures Listed(available, KeyOf(after[i])) {
      if i < |kept| {
        assert after[i] == kept[i];
      } else {
        assert IsFresh(after[i], kept, available, now);
        var p :| 0 <= p < |available| && available[p] == after[i].descriptor;
        assert available[p].pubkeyHex == KeyOf(after[i]);
      }
    }
  }

  lemma FreshIsDistinct(kept: seq<GuardEntry>, chosen: seq<RelayDescriptor>, available: seq<RelayDescriptor>, now: int)
    requires DistinctKeys(kept) && DistinctRelays(chosen)
    requires FreshBehind(kept, kept + Fresh(chosen, now), available, now)
    ensures DistinctKeys(kept + Fresh(chosen, now))
  {
    FreshAt(chosen, now);
    var after := kept + Fresh(chosen, now);
    forall i, j | 0 <= i < j < |after| ensures KeyOf(after[i]) != KeyOf(after[j]) {
      if j >= |kept| {
        assert IsFresh(after[j], kept, available, now);
        if i < |kept| {
          assert KeyOf(kept[i]) == KeyOf(after[i]);
        } else {
          assert after[i].descriptor == chosen[i - |kept|] && after[j].descriptor == chosen[j - |kept|];
        }
      }
    }
  }

  lemma KeptListed(cfg: Config, gs: seq<GuardEntry>, available: seq<RelayDescriptor>, now: int)
    ensures AllListed(Kept(cfg, gs, available, now), available)
  {
    var kept := Kept(cfg, gs, available, now);
    KeptIsSurvivors(cfg, gs, available, now);
    assert forall i :: 0 <= i < |kept| ==> kept[i] in kept;
  }

  /** The relays a rotation adds are distinct and eligible. */
  lemma AddedAreEligible(cfg: Config, kept: seq<GuardEntry>, available: seq<RelayDescriptor>,
                         shuffle: seq<RelayDescriptor> -> seq<RelayDescriptor>)
    requires DistinctRelays(available) && Permutes(shuffle)
    ensures var chosen := Added(cfg, kept, available, shuffle);
            && DistinctRelays(chosen)
            && |chosen| == (if |kept| < cfg.numGuards then Min(cfg.numGuards - |kept|, |Eligible(kept, available)|) else 0)
            && forall k :: 0 <= k < |chosen| ==> chosen[k] in Eligible(kept, available)
  {
    var eligible := Eligible(kept, available);
    EligibleIsPart(kept, available);
    assert IsShuffleOf(shuffle(eligible), eligible);
    ShuffledDistinct(eligible, shuffle(eligible));
  }

  ghost predicate SoundGuards(kept: seq<GuardEntry>, after: seq<GuardEntry>, available: seq<RelayDescriptor>, now: int) {
    FreshBehind(kept, after, available, now) && DistinctKeys(after) && AllListed(after, available)
  }

  lemma AddedAreSound(kept: seq<GuardEntry>, available: seq<RelayDescriptor>, chosen: seq<RelayDescriptor>, now: int)
    requires DistinctKeys(kept) && AllListed(kept, available) && DistinctRelays(chosen)
    requires forall k :: 0 <= k < |chosen| ==> chosen[k] in Eligible(kept, available)
    ensures SoundGuards(kept, kept + Fresh(chosen, now), available, now)
  {
    ChosenIsFresh(kept, available, chosen, now);
    FreshIsDistinct(kept, chosen, available, now);
    FreshIsListed(kept, kept + Fresh(chosen, now), available, now);
  }

  /**
   After a rotation against a list of distinct keys: the survivors come first, unchanged, behind them only fresh
   entries; all keys are distinct and listed; and there are as many guards as configured, unless more survive or fewer
   relays are left.
   */
  lemma RotationOutcome(cfg: Config, gs: seq<GuardEntry>, available: seq<RelayDescriptor>, now: int,
                        shuffle: seq<RelayDescriptor> -> seq<RelayDescriptor>)
    requires Permutes(shuffle) && DistinctKeys(gs) && DistinctRelays(available)
    ensures var kept := Kept(cfg, gs, available, now);
            var after := Rotated(cfg, gs, available, now, shuffle);
            && SoundGuards(kept, after, available, now)
            && |after| == Max(|kept|, Min(cfg.numGuards, |kept| + |Eligible(kept, available)|))
  {
    var kept := Kept(cfg, gs, available, now);
    KeptDistinct(cfg, gs, available, now);
    KeptListed(cfg, gs, available, now);
    AddedAreEligible(cfg, kept, available, shuffle);
    var chosen := Added(cfg, kept, available, shuffle);
    AddedAreSound(kept, available, chosen, now);
    FreshAt(chosen, now);
  }

  /** The relay of a key is listed. */
  ghost predicate KeyListed(available: seq<RelayDescriptor>, key: Key) {
    exists r :: r in available && r.pubkeyHex == key
  }

  /**
   Which guards survive a rotation, in numbers: those selected less than the age limit ago whose key some available
   relay has. They come first, with everything they had.
   */
  lemma SurvivorsInNumbers(cfg: Config, gs: seq<GuardEntry>, available: seq<RelayDescriptor>, now: int,
                           shuffle: seq<RelayDescriptor> -> seq<RelayDescriptor>) returns (n: nat)
    requires Permutes(shuffle) && DistinctKeys(gs) && DistinctRelays(available)
    ensures n <= |Rotated(cfg, gs, available, now, shuffle)|
    ensures forall g :: g in Rotated(cfg, gs, available, now, shuffle)[..n] <==>
              g in gs && now - g.selectedAt < cfg.rotation && KeyListed(available, g.descriptor.pubkeyHex)
    ensures forall g :: g in Rotated(cfg, gs, available, now, shuffle)[n..] ==>
              && g.selectedAt == now && g.lastUsed == None && g.failures == 0 && g.descriptor in available
              && g.descriptor.nickname != [] && g.descriptor.address != [] && g.descriptor.pubkeyHex != []
  {
    var kept, after := Kept(cfg, gs, available, now), Rotated(cfg, gs, available, now, shuffle);
    RotationOutcome(cfg, gs, available, now, shuffle);
    KeptIsSurvivors(cfg, gs, available, now);
    n := |kept|;
    assert after[..n] == kept;
    forall g: GuardEntry ensures Listed(available, KeyOf(g)) <==> KeyListed(available, g.descriptor.pubkeyHex) {
      if r :| r in available && r.pubkeyHex == KeyOf(g) {
        var i :| 0 <= i < |available| && available[i] == r;
      }
    }
    forall g | g in after[n..] ensures IsFresh(g, kept, available, now) {
      var i :| 0 <= i < |after[n..]| && after[n..][i] == g;
      assert after[n + i] == g;
    }
  }

  /**
   Right after a rotation no guard is expired, exactly if the age limit is positive, or there is nothing to add: enough
   guards survive or no other relay is eligible.
   */
  lemma UnexpiredAfterRotation(cfg: Config, gs: seq<GuardEntry>, available: seq<RelayDescriptor>, now: int,
                               shuffle: seq<RelayDescriptor> -> seq<RelayDescriptor>)
    requires Permutes(shuffle) && DistinctKeys(gs) && DistinctRelays(available)
    ensures var kept, after := Kept(cfg, gs, available, now), Rotated(cfg, gs, available, now, shuffle);
            (forall i :: 0 <= i < |after| ==> now - after[i].selectedAt < cfg.rotation)
              <==> cfg.rotation > 0 || |kept| >= cfg.numGuards || Eligible(kept, available) == []
  {
    var kept := Kept(cfg, gs, available, now);
    var after := Rotated(cfg, gs, available, now, shuffle);
    RotationOutcome(cfg, gs, available, now, shuffle);
    KeptIsSurvivors(cfg, gs, available, now);
    forall i | 0 <= i < |kept| ensures after[i] == kept[i] && !IsExpired(cfg, after[i], now) {
      assert kept[i] in kept;
    }
    if |after| > |kept| {
      assert IsFresh(after[|kept|], kept, available, now);
    }
  }

  // ---------------------------------------------------------------- the entry relay

  /** All have failed as often as is allowed. */
  predicate NoneUsable(cfg: Config, gs: seq<GuardEntry>) {
    forall i :: 0 <= i < |gs| ==> gs[i].failures >= cfg.maxFailures
  }

  lemma {:induction false} UsableCountNext(cfg: Config, gs: seq<GuardEntry>, g: GuardEntry)
    ensures UsableCount(cfg, gs + [g]) == UsableCount(cfg, gs) + if g.failures < cfg.maxFailures then 1 else 0
  {
    if gs == [] {
      assert [] + [g] == [g] && [g][1..] == [];
    } else {
      UsableCountNext(cfg, gs[1..], g);
      assert (gs + [g])[1..] == gs[1..] + [g];
    }
  }

  /** The usable guards are those with fewer failures than allowed. */
  lemma {:induction false} UsableInNumbers(cfg: Config, gs: seq<GuardEntry>)
    ensures UsableCount(cfg, gs) == |set i | 0 <= i < |gs| && gs[i].failures < cfg.maxFailures|
  {
    if gs != [] {
      var n := |gs| - 1;
      UsableInNumbers(cfg, gs[..n]);
      UsableCountNext(cfg, gs[..n], gs[n]);
      assert gs == gs[..n] + [gs[n]];
      var before := set i | 0 <= i < n && gs[..n][i].failures < cfg.maxFailures;
      var all := set i | 0 <= i < |gs| && gs[i].failures < cfg.maxFailures;
      assert all == if gs[n].failures < cfg.maxFailures then before + {n} else before;
    }
  }

  lemma {:induction false} UsableCountIsZeroIff(cfg: Config, gs: seq<GuardEntry>)
    ensures UsableCount(cfg, gs) == 0 <==> NoneUsable(cfg, gs)
  {
    if gs != [] {
      UsableCountIsZeroIff(cfg, gs[1..]);
      assert NoneUsable(cfg, gs) <==> gs[0].failures >= cfg.maxFailures && NoneUsable(cfg, gs[1..]);
    }
  }

  /** The choice is among the descriptors, as saved, of the usable guards that are listed. */
  lemma {:induction false} UsableListedAre(cfg: Config, gs: seq<GuardEntry>, available: seq<RelayDescriptor>)
    ensures forall r :: r in UsableListed(cfg, gs, available) <==>
              exists g :: g in gs && g.descriptor == r && g.failures < cfg.maxFailures && Listed(available, KeyOf(g))
  {
    if gs != [] {
      UsableListedAre(cfg, gs[1..], available);
      assert gs == [gs[0]] + gs[1..];
    }
  }

  /** An entry relay is a usable listed guard, or a listed relay while too few guards are usable. */
  lemma EntryIsGuard(cfg: Config, gs: seq<GuardEntry>, available: seq<RelayDescriptor>, draw: nat)
    requires EntryRelay(cfg, gs, available, draw).Some?
    ensures var r := EntryRelay(cfg, gs, available, draw).value;
            if UsableCount(cfg, gs) < cfg.minGuards then r in available
            else exists g :: g in gs && g.descriptor == r && g.failures < cfg.maxFailures && Listed(available, KeyOf(g))
  {
    UsableListedAre(cfg, gs, available);
    var r := EntryRelay(cfg, gs, available, draw).value;
    assert UsableCount(cfg, gs) >= cfg.minGuards ==> r in UsableListed(cfg, gs, available);
  }

  /** Every relay of the whole list, or every usable listed guard, is chosen by some draw. */
  lemma EntryReachesEach(cfg: Config, gs: seq<GuardEntry>, available: seq<RelayDescriptor>, r: RelayDescriptor)
    returns (draw: nat)
    requires if UsableCount(cfg, gs) < cfg.minGuards then r in available
             else exists g :: g in gs && g.descriptor == r && g.failures < cfg.maxFailures && Listed(available, KeyOf(g))
    ensures EntryRelay(cfg, gs, available, draw) == Some(r)
  {
    UsableListedAre(cfg, gs, available);
    var all := if UsableCount(cfg, gs) < cfg.minGuards then available else UsableListed(cfg, gs, available);
    draw := EachIsChosen(all, r);
  }

  lemma EachIsChosen<T(!new)>(s: seq<T>, x: T) returns (draw: nat)
    requires x in s
    ensures Choose(s, draw) == Some(x)
  {
    var i :| 0 <= i < |s| && s[i] == x;
    draw := i;
    assert draw % |s| == draw;
  }

  lemma NoEntryIff(cfg: Config, gs: seq<GuardEntry>, available: seq<RelayDescriptor>, draw: nat)
    requires AllListed(gs, available)
    ensures EntryRelay(cfg, gs, available, draw).None?
       <==> if cfg.minGuards == 0 then NoneUsable(cfg, gs) else available == []
  {
    var listed := UsableListed(cfg, gs, available);
    UsableCountIsZeroIff(cfg, gs);
    UsableListedAre(cfg, gs, available);
    assert listed == [] || listed[0] in listed;
    if !NoneUsable(cfg, gs) {
      var i :| 0 <= i < |gs| && gs[i].failures < cfg.maxFailures;
      assert gs[i] in gs && gs[i].descriptor in listed;
    }
  }

  /**
   Right after a rotation against the same list there is no entry relay exactly if the list is empty; or, where no
   guard is demanded, if all survivors have failed too often and no fresh guard is added or allowed a single failure.
   */
  lemma NoEntryAfterRotationIff(cfg: Config, gs: seq<GuardEntry>, available: seq<RelayDescriptor>, now: int,
                                shuffle: seq<RelayDescriptor> -> seq<RelayDescriptor>, draw: nat)
    requires Permutes(shuffle) && DistinctKeys(gs) && DistinctRelays(available)
    ensures var kept, after := Kept(cfg, gs, available, now), Rotated(cfg, gs, available, now, shuffle);
            EntryRelay(cfg, after, available, draw).None?
            <==> if cfg.minGuards > 0 then available == []
                 else && NoneUsable(cfg, kept)
                      && (cfg.maxFailures == 0 || |kept| >= cfg.numGuards || Eligible(kept, available) == [])
  {
    var kept, after := Kept(cfg, gs, available, now), Rotated(cfg, gs, available, now, shuffle);
    RotationOutcome(cfg, gs, available, now, shuffle);
    NoEntryIff(cfg, after, available, draw);
    FreshAreUsable(cfg, kept, after, available, now);
  }

  lemma FreshAreUsable(cfg: Config, kept: seq<GuardEntry>, after: seq<GuardEntry>, available: seq<RelayDescriptor>,
                       now: int)
    requires FreshBehind(kept, after, available, now)
    ensures NoneUsable(cfg, after) <==> NoneUsable(cfg, kept) && (cfg.maxFailures == 0 || |after| == |kept|)
  {
    assert forall i :: 0 <= i < |kept| ==> after[i] == kept[i];
    if |after| > |kept| {
      assert IsFresh(after[|kept|], kept, available, now);
    }
  }

  // ---------------------------------------------------------------- failure counts over a run

  /** The guards, and for each key every report its present guard received, oldest first. */
  datatype Book = Book(guards: seq<GuardEntry>, logs: map<Key, seq<bool>>)

  datatype World = World(book: Book, file: StateFile<Book>)

  datatype Op =
    | Initialize(available: seq<RelayDescriptor>, shuffle: seq<RelayDescriptor> -> seq<RelayDescriptor>)
    | Rotate(available: seq<RelayDescriptor>, shuffle: seq<RelayDescriptor> -> seq<RelayDescriptor>)
    | Report(nickname: seq<Byte>, ok: bool)
    | Save
    | Garble

  datatype Request = Request(op: Op, now: int)

  /** Failures after the last success. */
  function FailStreak(log: seq<bool>): nat {
    if log == [] || log[|log| - 1] then 0 else FailStreak(log[..|log| - 1]) + 1
  }

  lemma FailStreakNext(log: seq<bool>, ok: bool)
    ensures FailStreak(log + [ok]) == if ok then 0 else FailStreak(log) + 1
  {
    assert (log + [ok])[..|log|] == log;
  }

  function Keys(gs: seq<GuardEntry>): (ks: set<Key>)
    ensures forall k :: k in ks <==> Guarded(gs, k)
  {
    set i | 0 <= i < |gs| :: KeyOf(gs[i])
  }

  function RotatedBook(cfg: Config, b: Book, available: seq<RelayDescriptor>, now: int,
                       shuffle: seq<RelayDescriptor> -> seq<RelayDescriptor>): Book
  {
    var kept := Kept(cfg, b.guards, available, now);
    var after := Rotated(cfg, b.guards, available, now, shuffle);
    Book(after, map k | k in Keys(after) :: if Guarded(kept, k) && k in b.logs then b.logs[k] else [])
  }

  /** Some guard with this key goes by this nickname. */
  predicate Named(gs: seq<GuardEntry>, key: Key, nickname: seq<Byte>) {
    exists i :: 0 <= i < |gs| && KeyOf(gs[i]) == key && gs[i].descriptor.nickname == nickname
  }

  function ReportedBook(b: Book, nickname: seq<Byte>, ok: bool, now: int): Book {
    Book(Reported(b.guards, nickname, ok, now),
         map k | k in b.logs :: if Named(b.guards, k, nickname) then b.logs[k] + [ok] else b.logs[k])
  }

  /** What a start makes of its state file, on the guards alone. */
  lemma LoadedInFields<T>(cfg: Config, file: StateFile<T>, present: T, empty: T)
    ensures !cfg.persists ==> Loaded(cfg, file, present, empty) == Some(present)
    ensures cfg.persists && file.Missing? ==> Loaded(cfg, file, present, empty) == Some(empty)
    ensures cfg.persists && file.Unreadable? ==> Loaded(cfg, file, present, empty) == None
    ensures cfg.persists && file.Saved? ==> Loaded(cfg, file, present, empty) == Some(file.state)
  {
  }

  function Start(): World {
    World(Book([], map[]), Missing)
  }

  function Step(cfg: Config, w: World, q: Request): World {
    match q.op
    case Initialize(available, shuffle) => (
      match Loaded(cfg, w.file, w.book, Book([], map[]))
      case None => w
      case Some(b) => w.(book := RotatedBook(cfg, b, available, q.now, shuffle)))
    case Rotate(available, shuffle) => w.(book := RotatedBook(cfg, w.book, available, q.now, shuffle))
    case Report(nickname, ok) => w.(book := ReportedBook(w.book, nickname, ok, q.now))
    case Save => if cfg.persists then w.(file := Saved(w.book)) else w
    case Garble => w.(file := Unreadable)
  }

  ghost predicate RequestOk(q: Request) {
    match q.op
    case Initialize(available, shuffle) => DistinctRelays(available) && Permutes(shuffle)
    case Rotate(available, shuffle) => DistinctRelays(available) && Permutes(shuffle)
    case _ => true
  }

  predicate CountOk(g: GuardEntry, logs: map<Key, seq<bool>>) {
    KeyOf(g) in logs && g.failures == Min(FailStreak(logs[KeyOf(g)]), U32_MAX)
  }

  /** Distinct keys, and every failure count the number of failures since the last success, cut at 32 bits. */
  predicate BookOk(b: Book) {
    DistinctKeys(b.guards) && forall i :: 0 <= i < |b.guards| ==> CountOk(b.guards[i], b.logs)
  }

  predicate Inv(w: World) {
    BookOk(w.book) && (w.file.Saved? ==> BookOk(w.file.state))
  }

  lemma RotationKeepsBook(cfg: Config, b: Book, available: seq<RelayDescriptor>, now: int,
                          shuffle: seq<RelayDescriptor> -> seq<RelayDescriptor>)
    requires BookOk(b) && DistinctRelays(available) && Permutes(shuffle)
    ensures BookOk(RotatedBook(cfg, b, available, now, shuffle))
  {
    var kept := Kept(cfg, b.guards, available, now);
    var next := RotatedBook(cfg, b, available, now, shuffle);
    RotationOutcome(cfg, b.guards, available, now, shuffle);
    KeptIsSurvivors(cfg, b.guards, available, now);
    forall i | 0 <= i < |next.guards| ensures CountOk(next.guards[i], next.logs) {
      var g := next.guards[i];
      assert Guarded(next.guards, KeyOf(g));
      if i < |kept| {
        assert g == kept[i] && kept[i] in kept && g in b.guards;
        assert Guarded(kept, KeyOf(g));
      } else {
        assert IsFresh(g, kept, available, now);
      }
    }
  }

  /** A report reaches the first guard of its nickname alone: a success resets it, a failure is one more, up to the cap. */
  lemma ReportInFields(gs: seq<GuardEntry>, nickname: seq<Byte>, ok: bool, now: int)
    ensures var after := Reported(gs, nickname, ok, now);
            && |after| == |gs|
            && forall i :: 0 <= i < |gs| ==>
                 var first := gs[i].descriptor.nickname == nickname
                              && forall j :: 0 <= j < i ==> gs[j].descriptor.nickname != nickname;
                 if !first then after[i] == gs[i]
                 else if ok then after[i] == gs[i].(lastUsed := Some(now), failures := 0)
                 else after[i] == gs[i].(failures := Min(gs[i].failures + 1, 4_294_967_295))
  {
  }

  /** Such a report would not change this guard's count. */
  predicate Deaf(g: GuardEntry, ok: bool) {
    if ok then g.failures == 0 else g.failures == U32_MAX
  }

  /** A report goes to the first guard of its nickname; it is missed by none if it would not change the others. */
  predicate MissedByNone(gs: seq<GuardEntry>, nickname: seq<Byte>, ok: bool) {
    forall k :: FirstNamed(gs, nickname) < k < |gs| && gs[k].descriptor.nickname == nickname ==> Deaf(gs[k], ok)
  }

  /** What a report does to one guard's count. */
  lemma CountAfterReport(b: Book, nickname: seq<Byte>, ok: bool, now: int, k: nat)
    requires BookOk(b) && k < |b.guards|
    ensures var next := ReportedBook(b, nickname, ok, now);
            && |next.guards| == |b.guards| && KeyOf(next.guards[k]) == KeyOf(b.guards[k])
            && (CountOk(next.guards[k], next.logs)
                <==> b.guards[k].descriptor.nickname != nickname || k == FirstNamed(b.guards, nickname)
                     || Deaf(b.guards[k], ok))
  {
    var next, key := ReportedBook(b, nickname, ok, now), KeyOf(b.guards[k]);
    assert CountOk(b.guards[k], b.logs);
    FailStreakNext(b.logs[key], ok);
    OnlyNamedHear(b.guards, k, nickname);
    assert next.logs[key] == if b.guards[k].descriptor.nickname == nickname then b.logs[key] + [ok] else b.logs[key];
  }

  lemma OnlyNamedHear(gs: seq<GuardEntry>, k: nat, nickname: seq<Byte>)
    requires DistinctKeys(gs) && k < |gs|
    ensures Named(gs, KeyOf(gs[k]), nickname) <==> gs[k].descriptor.nickname == nickname
  {
    if Named(gs, KeyOf(gs[k]), nickname) {
      var j :| 0 <= j < |gs| && KeyOf(gs[j]) == KeyOf(gs[k]) && gs[j].descriptor.nickname == nickname;
      assert j == k;
    }
  }

  /**
   From any right counts, a report keeps all counts right exactly if it is missed by none: each guard of the nickname
   after the first has count zero when a success is reported, and the largest count when a failure is.
   */
  lemma ReportKeepsBookIff(b: Book, nickname: seq<Byte>, ok: bool, now: int)
    requires BookOk(b)
    ensures BookOk(ReportedBook(b, nickname, ok, now)) <==> MissedByNone(b.guards, nickname, ok)
  {
    var next, gs := ReportedBook(b, nickname, ok, now), b.guards;
    forall k | 0 <= k < |gs|
      ensures |next.guards| == |gs| && KeyOf(next.guards[k]) == KeyOf(gs[k])
      ensures CountOk(next.guards[k], next.logs)
         <==> gs[k].descriptor.nickname != nickname || k == FirstNamed(gs, nickname) || Deaf(gs[k], ok)
    {
      CountAfterReport(b, nickname, ok, now, k);
    }
    if MissedByNone(gs, nickname, ok) {
      assert forall k :: 0 <= k < |gs| ==> CountOk(next.guards[k], next.logs);
    } else {
      var k :| FirstNamed(gs, nickname) < k < |gs| && gs[k].descriptor.nickname == nickname && !Deaf(gs[k], ok);
      assert !CountOk(next.guards[k], next.logs);
    }
  }

  /** No report of the run is missed by a guard of its nickname. */
  predicate NothingMissed(cfg: Config, w: World, ops: seq<Request>)
    decreases |ops|
  {
    ops != [] ==>
      && (ops[0].op.Report? ==> MissedByNone(w.book.guards, ops[0].op.nickname, ops[0].op.ok))
      && NothingMissed(cfg, Step(cfg, w, ops[0]), ops[1..])
  }

  /** All counts are right before, during and after the run. */
  predicate AlwaysRight(cfg: Config, w: World, ops: seq<Request>)
    decreases |ops|
  {
    BookOk(w.book) && (ops != [] ==> AlwaysRight(cfg, Step(cfg, w, ops[0]), ops[1..]))
  }

  lemma StepKeepsInvIff(cfg: Config, w: World, q: Request)
    requires Inv(w) && RequestOk(q)
    ensures BookOk(Step(cfg, w, q).book)
       <==> (q.op.Report? ==> MissedByNone(w.book.guards, q.op.nickname, q.op.ok))
    ensures Inv(Step(cfg, w, q)) <==> BookOk(Step(cfg, w, q).book)
  {
    match q.op
    case Initialize(available, shuffle) =>
      var loaded := Loaded(cfg, w.file, w.book, Book([], map[]));
      if loaded.Some? { RotationKeepsBook(cfg, loaded.value, available, q.now, shuffle); }
    case Rotate(available, shuffle) => RotationKeepsBook(cfg, w.book, available, q.now, shuffle);
    case Report(nickname, ok) => ReportKeepsBookIff(w.book, nickname, ok, q.now);
    case Save =>
    case Garble =>
  }

  /**
   Over any run against lists of distinct keys, with saves, reloads and unreadable files: every failure count is
   always the number of failures since the last success, exactly if no report is missed by a guard of its nickname.
   */
  lemma {:induction false} CountsAlwaysRightIff(cfg: Config, w: World, ops: seq<Request>)
    requires Inv(w) && forall i :: 0 <= i < |ops| ==> RequestOk(ops[i])
    ensures AlwaysRight(cfg, w, ops) <==> NothingMissed(cfg, w, ops)
    decreases |ops|
  {
    if ops != [] {
      var next := Step(cfg, w, ops[0]);
      StepKeepsInvIff(cfg, w, ops[0]);
      if BookOk(next.book) {
        CountsAlwaysRightIff(cfg, next, ops[1..]);
      }
    }
  }

  /** From the first start on. */
  lemma CountsFromStart(cfg: Config, ops: seq<Request>)
    requires forall i :: 0 <= i < |ops| ==> RequestOk(ops[i])
    ensures AlwaysRight(cfg, Start(), ops) <==> NothingMissed(cfg, Start(), ops)
  {
    assert Inv(Start());
    CountsAlwaysRightIff(cfg, Start(), ops);
  }

  // ---------------------------------------------------------------- one nickname, one relay

  /** All relays ever listed, one nickname and one key each. */
  ghost predicate Directory(all: seq<RelayDescriptor>) {
    && DistinctRelays(all)
    && forall i, j :: 0 <= i < j < |all| ==> all[i].nickname != all[j].nickname
  }

  ghost predicate From(all: seq<RelayDescriptor>, gs: seq<GuardEntry>) {
    DistinctKeys(gs) && forall i :: 0 <= i < |gs| ==> gs[i].descriptor in all
  }

  ghost predicate AllFrom(all: seq<RelayDescriptor>, w: World) {
    From(all, w.book.guards) && (w.file.Saved? ==> From(all, w.file.state.guards))
  }

  ghost predicate Lists(all: seq<RelayDescriptor>, q: Request) {
    && RequestOk(q)
    && match q.op
       case Initialize(available, _) => forall r :: r in available ==> r in all
       case Rotate(available, _) => forall r :: r in available ==> r in all
       case _ => true
  }

  /** Guards with distinct keys out of one directory have distinct nicknames. */
  lemma NicknamesDistinct(all: seq<RelayDescriptor>, gs: seq<GuardEntry>, i: nat, j: nat)
    requires Directory(all) && From(all, gs)
    requires i < |gs| && j < |gs| && gs[i].descriptor.nickname == gs[j].descriptor.nickname
    ensures i == j
  {
    assert gs[i].descriptor in all && gs[j].descriptor in all;
    var p :| 0 <= p < |all| && all[p] == gs[i].descriptor;
    var q :| 0 <= q < |all| && all[q] == gs[j].descriptor;
    assert p == q;
  }

  lemma RotationStaysFrom(cfg: Config, all: seq<RelayDescriptor>, gs: seq<GuardEntry>, available: seq<RelayDescriptor>,
                          now: int, shuffle: seq<RelayDescriptor> -> seq<RelayDescriptor>)
    requires From(all, gs) && DistinctRelays(available) && Permutes(shuffle) && forall r :: r in available ==> r in all
    ensures From(all, Rotated(cfg, gs, available, now, shuffle))
  {
    var kept, after := Kept(cfg, gs, available, now), Rotated(cfg, gs, available, now, shuffle);
    RotationOutcome(cfg, gs, available, now, shuffle);
    KeptIsSurvivors(cfg, gs, available, now);
    forall i | 0 <= i < |after| ensures after[i].descriptor in all {
      if i < |kept| {
        assert after[i] == kept[i] && kept[i] in kept && after[i] in gs;
      } else {
        assert IsFresh(after[i], kept, available, now);
      }
    }
  }

  lemma StepStaysFrom(cfg: Config, all: seq<RelayDescriptor>, w: World, q: Request)
    requires AllFrom(all, w) && Lists(all, q)
    ensures AllFrom(all, Step(cfg, w, q))
  {
    match q.op
    case Initialize(available, shuffle) =>
      var loaded := Loaded(cfg, w.file, w.book, Book([], map[]));
      if loaded.Some? { RotationStaysFrom(cfg, all, loaded.value.guards, available, q.now, shuffle); }
    case Rotate(available, shuffle) => RotationStaysFrom(cfg, all, w.book.guards, available, q.now, shuffle);
    case Report(nickname, ok) =>
      var i, gs := FirstNamed(w.book.guards, nickname), w.book.guards;
      var after := Reported(gs, nickname, ok, q.now);
      assert forall k :: 0 <= k < |gs| ==> after[k].descriptor == gs[k].descriptor;
    case Save =>
    case Garble =>
  }

  /** So with lists out of one directory of distinct keys and nicknames every count is always right. */
  lemma {:induction false} FailureCountsAreStreaks(cfg: Config, all: seq<RelayDescriptor>, w: World, ops: seq<Request>)
    requires Directory(all) && Inv(w) && AllFrom(all, w) && forall i :: 0 <= i < |ops| ==> Lists(all, ops[i])
    ensures AlwaysRight(cfg, w, ops)
    decreases |ops|
  {
    if ops != [] {
      var q, gs := ops[0], w.book.guards;
      assert Lists(all, q);
      if q.op.Report? {
        var first := FirstNamed(gs, q.op.nickname);
        forall k | first < k < |gs| ensures gs[k].descriptor.nickname != q.op.nickname {
          if gs[k].descriptor.nickname == q.op.nickname { NicknamesDistinct(all, gs, first, k); }
        }
      }
      StepKeepsInvIff(cfg, w, q);
      StepStaysFrom(cfg, all, w, q);
      FailureCountsAreStreaks(cfg, all, Step(cfg, w, q), ops[1..]);
    }
  }

  lemma StreaksFromStart(cfg: Config, all: seq<RelayDescriptor>, ops: seq<Request>)
    requires Directory(all) && forall i :: 0 <= i < |ops| ==> Lists(all, ops[i])
    ensures AlwaysRight(cfg, Start(), ops)
  {
    assert Inv(Start()) && AllFrom(all, Start());
    FailureCountsAreStreaks(cfg, all, Start(), ops);
  }

  /**
   Without such a directory reports can be missed: once a relay is renamed and another takes its name, both can be
   guards under one nickname, and a failure reported under it reaches only the first.
   */
  lemma RenamedGuardTakesReports(cfg: Config, g: GuardEntry, other: RelayDescriptor, renamed: RelayDescriptor, now: int)
    requires cfg.numGuards == 2 && cfg.rotation > now - g.selectedAt
    requires Complete(other) && other.pubkeyHex != KeyOf(g) && other.nickname == g.descriptor.nickname
    requires renamed.pubkeyHex == KeyOf(g)
    ensures var after := Rotated(cfg, [g], [renamed, other], now, s => s);
            && after == [g, GuardEntry(other, now, None, 0)]
            && !MissedByNone(after, other.nickname, false)
  {
    var kept := Kept(cfg, [g], [renamed, other], now);
    assert [renamed, other][0].pubkeyHex == KeyOf(g);
    assert Listed([renamed, other], KeyOf(g));
    assert [g][1..] == [] && Kept(cfg, [g][1..], [renamed, other], now) == [];
    assert kept == [g];
    assert Guarded(kept, renamed.pubkeyHex) by { assert KeyOf(kept[0]) == renamed.pubkeyHex; }
    assert [renamed, other][1..] == [other] && [other][1..] == [];
    assert Eligible(kept, [other]) == [other];
    assert Eligible(kept, [renamed, other]) == [other];
    assert Added(cfg, kept, [renamed, other], s => s) == [other];
    FreshAt([other], now);
    var after := [g, GuardEntry(other, now, None, 0)];
    assert FirstNamed(after, other.nickname) == 0;
    assert after[1].descriptor.nickname == other.nickname && !Deaf(after[1], false);
  }
}
