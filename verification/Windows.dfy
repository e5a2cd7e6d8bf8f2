/**
 Sliding windows that prune their history: the per-client request limiter (gptl-core, relay_registry.rs) and the
 replay cache of the proof-of-work verifier (gptl-routing, resource_protection.rs). Time is a clock that never
 runs backwards, in nanoseconds.
 */
module Windows {
  import opened Bytes

  type Time = nat

  /** A clock that has run backwards past `t` counts as infinitely later. */
  predicate Recent(now: Time, t: Time, window: nat) {
    t <= now && now - t < window
  }

  function KeepRecent(times: seq<Time>, now: Time, window: nat): seq<Time> {
    if times == [] then []
    else (if Recent(now, times[0], window) then [times[0]] else []) + KeepRecent(times[1..], now, window)
  }

  /** What is recent later was recent before, so pruning early changes nothing that a later check looks at. */
  lemma {:induction false} PruneEarly(times: seq<Time>, early: Time, now: Time, window: nat)
    requires early <= now && forall t :: t in times ==> t <= early
    ensures KeepRecent(KeepRecent(times, early, window), now, window) == KeepRecent(times, now, window)
  {
    if times != [] {
      PruneEarly(times[1..], early, now, window) by {
        assert forall t :: t in times[1..] ==> t in times;
      }
      assert times[0] in times;
      var kept := KeepRecent(times, early, window);
      if Recent(early, times[0], window) {
        assert kept[1..] == KeepRecent(times[1..], early, window);
      } else {
        assert kept == KeepRecent(times[1..], early, window);
      }
    }
  }

  lemma {:induction false} KeptFrom(times: seq<Time>, now: Time, window: nat)
    ensures forall t :: t in KeepRecent(times, now, window) <==> t in times && Recent(now, t, window)
  {
    if times != [] {
      KeptFrom(times[1..], now, window);
      assert forall t :: t in times <==> t == times[0] || t in times[1..];
    }
  }

  lemma {:induction false} KeepRecentSnoc(times: seq<Time>, t: Time, now: Time, window: nat)
    ensures KeepRecent(times + [t], now, window)
         == KeepRecent(times, now, window) + if Recent(now, t, window) then [t] else []
  {
    if times == [] {
      OneTime(t, now, window);
      assert times + [t] == [t];
    } else {
      var first := if Recent(now, times[0], window) then [times[0]] else [];
      var last := if Recent(now, t, window) then [t] else [];
      KeepRecentSnoc(times[1..], t, now, window);
      assert (times + [t])[1..] == times[1..] + [t];
      assert first + (KeepRecent(times[1..], now, window) + last) == first + KeepRecent(times[1..], now, window) + last;
    }
  }

  lemma OneTime(t: Time, now: Time, window: nat)
    ensures KeepRecent([t], now, window) == if Recent(now, t, window) then [t] else []
  {
    assert [t][1..] == [];
  }

  // ---------------------------------------------------------------- the request limiter

  type Client = nat

  type History = map<Client, seq<Time>>

  function TimesOf(h: History, c: Client): seq<Time> {
    if c in h then h[c] else []
  }

  datatype Limit = Limit(maxRequests: nat, window: nat)

  /** The limiter's decision, and its table afterwards. */
  function Check(limit: Limit, requests: History, c: Client, now: Time): (History, bool) {
    var kept := KeepRecent(TimesOf(requests, c), now, limit.window);
    if |kept| >= limit.maxRequests then (requests[c := kept], false) else (requests[c := kept + [now]], true)
  }

  function Cleanup(limit: Limit, requests: History, now: Time): History {
    map c | c in requests && KeepRecent(requests[c], now, limit.window) != []
      :: KeepRecent(requests[c], now, limit.window)
  }

  class RegistryRateLimiter {
    const limit: Limit
    var requests: History

    constructor (maxRequests: nat, window: nat)
      ensures limit == Limit(maxRequests, window) && requests == map[]
    {
      limit := Limit(maxRequests, window);
      requests := map[];
    }

    method CheckRequest(c: Client, now: Time) returns (ok: bool)
      modifies this
      ensures (requests, ok) == Check(limit, old(requests), c, now)
    {
      ghost var before := requests;
      var times := if c in requests then requests[c] else [];
      var kept := Prune(times, now, limit.window);
      requests := requests[c := kept];
      if |requests[c]| >= limit.maxRequests { return false; }
      requests := requests[c := requests[c] + [now]];
      assert requests == before[c := requests[c]];
      return true;
    }

    static method Prune(times: seq<Time>, now: Time, window: nat) returns (kept: seq<Time>)
      ensures kept == KeepRecent(times, now, window)
    {
      kept := [];
      for i := 0 to |times|
        invariant kept + KeepRecent(times[i..], now, window) == KeepRecent(times, now, window)
      {
        PruneStep(times, i, now, window);
        if Recent(now, times[i], window) {
          kept := kept + [times[i]];
        }
      }
    }

    /** Exactly the clients with a recent request stay, each with its recent requests in order and no others. */
    method CleanUp(now: Time)
      modifies this`requests
      ensures forall c :: c in requests <==>
                c in old(requests) && exists t :: t in old(requests)[c] && t <= now && now - t < limit.window
      ensures forall c :: c in requests ==> requests[c] == KeepRecent(old(requests)[c], now, limit.window) != []
      ensures requests == Cleanup(limit, old(requests), now)
    {
      var before, left := requests, requests.Keys;
      while left != {}
        invariant left <= before.Keys && requests.Keys <= before.Keys
        invariant forall c :: c in left ==> c in requests && requests[c] == before[c]
        invariant forall c :: c in before.Keys - left ==>
                    var kept := KeepRecent(before[c], now, limit.window);
                    (c in requests <==> kept != []) && (c in requests ==> requests[c] == kept)
        decreases |left|
      {
        var c :| c in left;
        var kept := Prune(before[c], now, limit.window);
        requests := if kept == [] then requests - {c} else requests[c := kept];
        left := left - {c};
      }
      forall c | c in before
        ensures KeepRecent(before[c], now, limit.window) != [] <==> exists t :: t in before[c] && Recent(now, t, limit.window)
      {
        SomeKept(before[c], now, limit.window);
      }
    }
  }

  lemma PruneStep(times: seq<Time>, i: nat, now: Time, window: nat)
    requires i < |times|
    ensures KeepRecent(times[i..], now, window)
         == (if Recent(now, times[i], window) then [times[i]] else []) + KeepRecent(times[i + 1..], now, window)
  {
    assert times[i..][1..] == times[i + 1..];
  }

  lemma SomeKept(times: seq<Time>, now: Time, window: nat)
    ensures KeepRecent(times, now, window) != [] <==> exists t :: t in times && Recent(now, t, window)
  {
    var kept := KeepRecent(times, now, window);
    KeptFrom(times, now, window);
    if kept != [] { assert kept[0] in kept; }
    if t :| t in times && Recent(now, t, window) { assert t in kept; }
  }

  datatype LimiterEvent = Request(client: Client, now: Time) | Tidy(now: Time)

  /** The pruning limiter beside one that forgets nothing, and whether they have agreed so far. */
  datatype Limiters = Limiters(pruned: History, full: History, clock: Time, agreed: bool)

  /** The limiter that forgets nothing: all accepts of a client, counted over the window. */
  function FullCheck(limit: Limit, full: History, c: Client, now: Time): (History, bool) {
    var all := TimesOf(full, c);
    if |KeepRecent(all, now, limit.window)| >= limit.maxRequests then (full, false) else (full[c := all + [now]], true)
  }

  function LimiterStep(limit: Limit, l: Limiters, e: LimiterEvent): Limiters {
    match e
    case Request(c, now) =>
      var (pruned, ok) := Check(limit, l.pruned, c, now);
      var (full, fullOk) := FullCheck(limit, l.full, c, now);
      Limiters(pruned, full, now, l.agreed && ok == fullOk)
    case Tidy(now) => l.(pruned := Cleanup(limit, l.pruned, now), clock := now)
  }

  function LimiterRun(limit: Limit, l: Limiters, events: seq<LimiterEvent>): Limiters
    decreases |events|
  {
    if events == [] then l else LimiterRun(limit, LimiterStep(limit, l, events[0]), events[1..])
  }

  predicate Forward(clock: Time, events: seq<LimiterEvent>)
    decreases |events|
  {
    events != [] ==> clock <= events[0].now && Forward(events[0].now, events[1..])
  }

  ghost predicate InOrder(times: seq<Time>, clock: Time) {
    && (forall i, j :: 0 <= i < j < |times| ==> times[i] <= times[j])
    && (forall t :: t in times ==> t <= clock)
  }

  /** Any `maxRequests` + 1 consecutive accepts span at least a window. */
  ghost predicate Spaced(limit: Limit, times: seq<Time>) {
    forall i :: 0 <= i < |times| - limit.maxRequests ==> times[i] + limit.window <= times[i + limit.maxRequests]
  }

  ghost predicate LimitersInv(limit: Limit, l: Limiters) {
    && l.agreed
    && forall c :: ClientInv(limit, l.clock, TimesOf(l.pruned, c), TimesOf(l.full, c))
  }

  ghost predicate AllBy(times: seq<Time>, clock: Time) {
    forall t :: t in times ==> t <= clock
  }

  ghost predicate ClientInv(limit: Limit, clock: Time, pruned: seq<Time>, full: seq<Time>) {
    && InOrder(full, clock) && AllBy(pruned, clock)
    && KeepRecent(pruned, clock, limit.window) == KeepRecent(full, clock, limit.window)
    && Spaced(limit, full)
  }

  /** Later on, pruned and full history still agree on what is recent, and pruning now keeps it so. */
  lemma LaterAgrees(limit: Limit, clock: Time, now: Time, pruned: seq<Time>, full: seq<Time>)
    requires ClientInv(limit, clock, pruned, full) && clock <= now
    ensures ClientInv(limit, now, pruned, full)
    ensures ClientInv(limit, now, KeepRecent(pruned, now, limit.window), full)
  {
    PruneEarly(pruned, clock, now, limit.window);
    PruneEarly(full, clock, now, limit.window);
    PruneEarly(pruned, now, now, limit.window);
    KeptFrom(pruned, now, limit.window);
  }

  /** In an ordered history the recent entries are its tail. */
  lemma {:induction false} RecentIsTail(times: seq<Time>, k: nat, now: Time, window: nat)
    requires InOrder(times, now) && k < |times| && Recent(now, times[k], window)
    ensures |KeepRecent(times, now, window)| >= |times| - k
  {
    assert forall t :: t in times[1..] ==> t in times;
    if k > 0 {
      RecentIsTail(times[1..], k - 1, now, window);
    } else if |times| > 1 {
      assert times[1] in times;
      RecentIsTail(times[1..], 0, now, window);
    }
  }

  /** An accept with fewer than `maxRequests` recent ones before it keeps the history spaced. */
  lemma StaysSpaced(limit: Limit, full: seq<Time>, now: Time)
    requires InOrder(full, now) && Spaced(limit, full) && |KeepRecent(full, now, limit.window)| < limit.maxRequests
    ensures Spaced(limit, full + [now])
  {
    var next := full + [now];
    forall i | 0 <= i < |next| - limit.maxRequests ensures next[i] + limit.window <= next[i + limit.maxRequests] {
      if i + limit.maxRequests == |full| {
        assert full[i] in full;
        if Recent(now, full[i], limit.window) { RecentIsTail(full, i, now, limit.window); }
      }
    }
  }

  lemma AppendNow(times: seq<Time>, now: Time)
    ensures AllBy(times, now) ==> AllBy(times + [now], now)
    ensures InOrder(times, now) ==> InOrder(times + [now], now)
  {
    if InOrder(times, now) {
      forall i | 0 <= i < |times| ensures times[i] <= now { assert times[i] in times; }
    }
  }

  lemma AcceptKeepsInv(limit: Limit, now: Time, pruned: seq<Time>, full: seq<Time>)
    requires ClientInv(limit, now, pruned, full)
    requires |KeepRecent(full, now, limit.window)| < limit.maxRequests
    ensures ClientInv(limit, now, KeepRecent(pruned, now, limit.window) + [now], full + [now])
  {
    var kept := KeepRecent(pruned, now, limit.window);
    StaysSpaced(limit, full, now);
    LaterAgrees(limit, now, now, pruned, full);
    AppendNow(full, now);
    AppendNow(kept, now);
    KeepRecentSnoc(full, now, now, limit.window);
    KeepRecentSnoc(kept, now, now, limit.window);
  }

  lemma LimiterStepKeepsInv(limit: Limit, l: Limiters, e: LimiterEvent)
    requires LimitersInv(limit, l) && l.clock <= e.now
    ensures LimitersInv(limit, LimiterStep(limit, l, e))
  {
    var next := LimiterStep(limit, l, e);
    forall c ensures ClientInv(limit, e.now, TimesOf(next.pruned, c), TimesOf(next.full, c)) {
      LaterAgrees(limit, l.clock, e.now, TimesOf(l.pruned, c), TimesOf(l.full, c));
      if e.Request? && e.client == c && |KeepRecent(TimesOf(l.full, c), e.now, limit.window)| < limit.maxRequests {
        AcceptKeepsInv(limit, e.now, TimesOf(l.pruned, c), TimesOf(l.full, c));
      }
    }
    if e.Request? {
      LaterAgrees(limit, l.clock, e.now, TimesOf(l.pruned, e.client), TimesOf(l.full, e.client));
    }
  }

  lemma {:induction false} LimiterRunKeepsInv(limit: Limit, l: Limiters, events: seq<LimiterEvent>)
    requires LimitersInv(limit, l) && Forward(l.clock, events)
    ensures LimitersInv(limit, LimiterRun(limit, l, events))
    decreases |events|
  {
    if events != [] {
      LimiterStepKeepsInv(limit, l, events[0]);
      LimiterRunKeepsInv(limit, LimiterStep(limit, l, events[0]), events[1..]);
    }
  }

  /**
   Over any run of requests and clean-ups the pruning limiter decides exactly as one that forgets nothing, and so
   no interval of window length holds more than `maxRequests` accepts of one client.
   */
  lemma PrunedLimiterIsFull(limit: Limit, events: seq<LimiterEvent>, c: Client, i: nat, j: nat)
    requires Forward(0, events)
    ensures var end := LimiterRun(limit, Limiters(map[], map[], 0, true), events);
            && end.agreed
            && var accepts := TimesOf(end.full, c);
               i <= j < |accepts| && accepts[j] - accepts[i] < limit.window ==> j - i + 1 <= limit.maxRequests
  {
    LimiterRunKeepsInv(limit, Limiters(map[], map[], 0, true), events);
    var end := LimiterRun(limit, Limiters(map[], map[], 0, true), events);
    var accepts := TimesOf(end.full, c);
    assert ClientInv(limit, end.clock, TimesOf(end.pruned, c), accepts);
    if i <= j < |accepts| && j - i >= limit.maxRequests {
      assert accepts[i] + limit.window <= accepts[i + limit.maxRequests] <= accepts[j];
    }
  }

  lemma {:induction false} AllKept(times: seq<Time>, now: Time, window: nat)
    requires forall i :: 0 <= i < |times| ==> times[i] <= now < times[i] + window
    ensures KeepRecent(times, now, window) == times
  {
    if times != [] { AllKept(times[1..], now, window); }
  }

  lemma {:induction false} StaleFront(times: seq<Time>, k: nat, now: Time, window: nat)
    requires k <= |times| && forall i :: 0 <= i < k ==> times[i] + window <= now
    ensures KeepRecent(times, now, window) == KeepRecent(times[k..], now, window)
  {
    if k == 0 {
      assert times[0..] == times;
    } else {
      StaleFront(times[1..], k - 1, now, window);
      assert times[1..][k - 1..] == times[k..];
    }
  }

  /** How many entries of an ordered history are a window old. */
  function StaleCount(times: seq<Time>, now: Time, window: nat): (k: nat)
    ensures k <= |times|
    ensures forall i :: 0 <= i < k ==> times[i] + window <= now
    ensures k < |times| ==> now < times[k] + window
  {
    if times == [] || now < times[0] + window then 0 else 1 + StaleCount(times[1..], now, window)
  }

  /** In an ordered history what is recent is the tail of those less than a window old. */
  lemma KeptIsTail(times: seq<Time>, now: Time, window: nat)
    requires InOrder(times, now)
    ensures var k := StaleCount(times, now, window); KeepRecent(times, now, window) == times[k..]
  {
    var k := StaleCount(times, now, window);
    StaleFront(times, k, now, window);
    forall i | 0 <= i < |times[k..]| ensures times[k..][i] <= now < times[k..][i] + window {
      assert times[k + i] in times;
    }
    AllKept(times[k..], now, window);
  }

  /**
   The decision in numbers: in any state a run can reach, a request is accepted exactly when its client has had fewer
   than `maxRequests` accepts, or the one that many accepts ago is at least a window old; with a limit of none, never.
   */
  lemma DecisionInNumbers(limit: Limit, l: Limiters, c: Client, now: Time)
    requires LimitersInv(limit, l) && l.clock <= now
    ensures var accepts, n := TimesOf(l.full, c), limit.maxRequests;
            Check(limit, l.pruned, c, now).1 <==>
              n > 0 && (|accepts| < n || accepts[|accepts| - n] + limit.window <= now)
  {
    var accepts := TimesOf(l.full, c);
    assert ClientInv(limit, l.clock, TimesOf(l.pruned, c), accepts);
    LaterAgrees(limit, l.clock, now, TimesOf(l.pruned, c), accepts);
    KeptIsTail(accepts, now, limit.window);
  }

  // ---------------------------------------------------------------- the replay cache

  const REPLAY_WINDOW := 300_000_000_000

  datatype ProofOfWork = ProofOfWork(circuitId: U32, nonce: U64, hash: seq<Byte>)

  function LeadingZeroBytes(b: seq<Byte>): nat {
    if b == [] || b[0] != 0 then 0 else 1 + LeadingZeroBytes(b[1..])
  }

  /** The submitted hash is the real one and meets the server's difficulty. */
  predicate ValidWork(digest: (U32, U64) -> seq<Byte>, difficulty: nat, pow: ProofOfWork) {
    pow.hash == digest(pow.circuitId, pow.nonce) && LeadingZeroBytes(pow.hash) * 8 >= difficulty
  }

  type Cache = map<seq<Byte>, Time>

  /** The verifier reads the clock twice: to check for a replay, and then to record the work and prune. */
  function Verify(digest: (U32, U64) -> seq<Byte>, difficulty: nat, cache: Cache, pow: ProofOfWork,
                  checkedAt: Time, recordedAt: Time): (Cache, bool) {
    if !ValidWork(digest, difficulty, pow) then (cache, false)
    else if pow.hash in cache && Recent(checkedAt, cache[pow.hash], REPLAY_WINDOW) then (cache, false)
    else ((map h | h in cache && Recent(recordedAt, cache[h], REPLAY_WINDOW) :: cache[h])[pow.hash := recordedAt], true)
  }

  class PowVerifier {
    const digest: (U32, U64) -> seq<Byte>
    var difficulty: nat
    var verifiedCache: Cache

    constructor (digest: (U32, U64) -> seq<Byte>, difficulty: nat)
      ensures this.digest == digest && this.difficulty == difficulty && verifiedCache == map[]
    {
      this.digest := digest;
      this.difficulty := difficulty;
      verifiedCache := map[];
    }

    method VerifyWork(pow: ProofOfWork, checkedAt: Time, recordedAt: Time) returns (ok: bool)
      modifies this`verifiedCache
      ensures (verifiedCache, ok) == Verify(digest, difficulty, old(verifiedCache), pow, checkedAt, recordedAt)
    {
      var computed := digest(pow.circuitId, pow.nonce);
      if |pow.hash| != |computed| || pow.hash != computed { return false; }
      var zeros := 0;
      while zeros < |computed| && computed[zeros] == 0
        invariant zeros <= |computed|
        invariant LeadingZeroBytes(computed) == zeros + LeadingZeroBytes(computed[zeros..])
      {
        assert computed[zeros..][1..] == computed[zeros + 1..];
        zeros := zeros + 1;
      }
      if zeros * 8 < difficulty { return false; }
      if pow.hash in verifiedCache && Recent(checkedAt, verifiedCache[pow.hash], REPLAY_WINDOW) { return false; }
      verifiedCache := map h | h in verifiedCache && Recent(recordedAt, verifiedCache[h], REPLAY_WINDOW)
                         :: verifiedCache[h];
      verifiedCache := verifiedCache[pow.hash := recordedAt];
      return true;
    }
  }

  datatype Attempt = Attempt(pow: ProofOfWork, checkedAt: Time, recordedAt: Time)

  datatype Accepted = Accepted(hash: seq<Byte>, at: Time)

  /** The cache beside the list of everything ever accepted. */
  datatype Verifier = Verifier(cache: Cache, accepted: seq<Accepted>, clock: Time)

  function Try(digest: (U32, U64) -> seq<Byte>, difficulty: nat, v: Verifier, a: Attempt): Verifier {
    var (cache, ok) := Verify(digest, difficulty, v.cache, a.pow, a.checkedAt, a.recordedAt);
    Verifier(cache, if ok then v.accepted + [Accepted(a.pow.hash, a.recordedAt)] else v.accepted, a.recordedAt)
  }

  function TryAll(digest: (U32, U64) -> seq<Byte>, difficulty: nat, v: Verifier, attempts: seq<Attempt>): Verifier
    decreases |attempts|
  {
    if attempts == [] then v else TryAll(digest, difficulty, Try(digest, difficulty, v, attempts[0]), attempts[1..])
  }

  predicate ForwardAttempts(clock: Time, attempts: seq<Attempt>)
    decreases |attempts|
  {
    attempts != [] ==>
      && clock <= attempts[0].checkedAt <= attempts[0].recordedAt
      && ForwardAttempts(attempts[0].recordedAt, attempts[1..])
  }

  /** Some earlier accept of this hash is less than the replay window old. */
  ghost predicate Replayed(accepted: seq<Accepted>, hash: seq<Byte>, now: Time) {
    exists i :: 0 <= i < |accepted| && accepted[i].hash == hash && Recent(now, accepted[i].at, REPLAY_WINDOW)
  }

  ghost predicate CacheListed(v: Verifier) {
    forall h :: h in v.cache ==> v.cache[h] <= v.clock && Accepted(h, v.cache[h]) in v.accepted
  }

  predicate RecentCached(v: Verifier) {
    forall i :: 0 <= i < |v.accepted| && Recent(v.clock, v.accepted[i].at, REPLAY_WINDOW) ==>
      v.accepted[i].hash in v.cache && v.accepted[i].at <= v.cache[v.accepted[i].hash]
  }

  predicate Apart(accepted: seq<Accepted>) {
    forall i, j :: 0 <= i < j < |accepted| && accepted[i].hash == accepted[j].hash ==>
      accepted[i].at + REPLAY_WINDOW <= accepted[j].at
  }

  ghost predicate VerifierInv(v: Verifier) {
    && (forall i :: 0 <= i < |v.accepted| ==> v.accepted[i].at <= v.clock)
    && CacheListed(v) && RecentCached(v) && Apart(v.accepted)
  }

  /** The pruned cache decides exactly as the full list of accepts would. */
  lemma VerifyIsFull(digest: (U32, U64) -> seq<Byte>, difficulty: nat, v: Verifier, a: Attempt)
    requires VerifierInv(v) && v.clock <= a.checkedAt
    ensures Verify(digest, difficulty, v.cache, a.pow, a.checkedAt, a.recordedAt).1
       <==> ValidWork(digest, difficulty, a.pow) && !Replayed(v.accepted, a.pow.hash, a.checkedAt)
  {
    var h := a.pow.hash;
    if h in v.cache {
      var i :| 0 <= i < |v.accepted| && v.accepted[i] == Accepted(h, v.cache[h]);
    }
  }

  lemma {:induction false} LeadingZeros(b: seq<Byte>, n: nat)
    ensures LeadingZeroBytes(b) >= n <==> n <= |b| && forall i :: 0 <= i < n ==> b[i] == 0
  {
    if b != [] && b[0] == 0 && n > 0 {
      LeadingZeros(b[1..], n - 1);
      assert forall i :: 0 < i < n <= |b| ==> b[i] == b[1..][i - 1];
    }
  }

  /**
   Acceptance in numbers: the hash is the digest, as many of its leading bytes are zero as the difficulty asks for in
   bits, and no accept of that hash is less than 300 seconds old.
   */
  lemma AcceptedInNumbers(digest: (U32, U64) -> seq<Byte>, difficulty: nat, v: Verifier, a: Attempt)
    requires VerifierInv(v) && v.clock <= a.checkedAt
    ensures var hash := a.pow.hash;
            Verify(digest, difficulty, v.cache, a.pow, a.checkedAt, a.recordedAt).1 <==>
              && hash == digest(a.pow.circuitId, a.pow.nonce)
              && difficulty <= 8 * |hash| && (forall i :: 0 <= i < |hash| && 8 * i < difficulty ==> hash[i] == 0)
              && (forall i :: 0 <= i < |v.accepted| && v.accepted[i].hash == hash ==>
                    v.accepted[i].at + 300_000_000_000 <= a.checkedAt)
  {
    VerifyIsFull(digest, difficulty, v, a);
    var n := (difficulty + 7) / 8;
    LeadingZeros(a.pow.hash, n);
  }

  /** An accept keeps its cache entry and the entries still recent. */
  lemma AcceptKeepsCache(v: Verifier, cache: Cache, hash: seq<Byte>, now: Time)
    requires VerifierInv(v) && v.clock <= now
    requires cache == (map h | h in v.cache && Recent(now, v.cache[h], REPLAY_WINDOW) :: v.cache[h])[hash := now]
    ensures var next := Verifier(cache, v.accepted + [Accepted(hash, now)], now); CacheListed(next) && RecentCached(next)
  {
    var next := Verifier(cache, v.accepted + [Accepted(hash, now)], now);
    var n := |v.accepted|;
    assert next.accepted[n] == Accepted(hash, now) && next.accepted[n] in next.accepted;
    forall h | h in cache ensures cache[h] <= now && Accepted(h, cache[h]) in next.accepted {
      if h != hash { assert Accepted(h, v.cache[h]) in v.accepted; }
    }
    forall i | 0 <= i < |next.accepted| && Recent(now, next.accepted[i].at, REPLAY_WINDOW)
      ensures next.accepted[i].hash in cache && next.accepted[i].at <= cache[next.accepted[i].hash]
    {
      if i < n { assert next.accepted[i] == v.accepted[i]; }
    }
  }

  /** An accept of a hash with no recent accept keeps equal hashes a window apart. */
  lemma AcceptKeepsApart(accepted: seq<Accepted>, hash: seq<Byte>, checkedAt: Time, now: Time)
    requires Apart(accepted) && !Replayed(accepted, hash, checkedAt) && checkedAt <= now
    requires forall i :: 0 <= i < |accepted| ==> accepted[i].at <= checkedAt
    ensures Apart(accepted + [Accepted(hash, now)])
  {
  }

  lemma TryKeepsInv(digest: (U32, U64) -> seq<Byte>, difficulty: nat, v: Verifier, a: Attempt)
    requires VerifierInv(v) && v.clock <= a.checkedAt <= a.recordedAt
    ensures VerifierInv(Try(digest, difficulty, v, a))
  {
    VerifyIsFull(digest, difficulty, v, a);
    var (cache, ok) := Verify(digest, difficulty, v.cache, a.pow, a.checkedAt, a.recordedAt);
    if ok {
      AcceptKeepsCache(v, cache, a.pow.hash, a.recordedAt);
      AcceptKeepsApart(v.accepted, a.pow.hash, a.checkedAt, a.recordedAt);
    }
  }

  /** Over any run of attempts no hash is accepted twice within 300 seconds. */
  lemma {:induction false} NoReplayWithinWindow(digest: (U32, U64) -> seq<Byte>, difficulty: nat, v: Verifier,
                                                attempts: seq<Attempt>)
    requires VerifierInv(v) && ForwardAttempts(v.clock, attempts)
    ensures var end := TryAll(digest, difficulty, v, attempts);
            && VerifierInv(end)
            && forall i, j :: 0 <= i < j < |end.accepted| && end.accepted[i].hash == end.accepted[j].hash ==>
                 end.accepted[j].at - end.accepted[i].at >= REPLAY_WINDOW
    decreases |attempts|
  {
    if attempts != [] {
      TryKeepsInv(digest, difficulty, v, attempts[0]);
      NoReplayWithinWindow(digest, difficulty, Try(digest, difficulty, v, attempts[0]), attempts[1..]);
    }
  }
}
