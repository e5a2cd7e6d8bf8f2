/** The pool of pre-built circuits and its leases (gptl-transport, circuit_pool.rs). Times are ticks of one clock. */
module CircuitPool {
  import opened Bytes

  type Path = seq<string>

  /** A circuit and the path it was built along, as they are handed out and given back together. */
  datatype Handle = Handle(id: U32, path: Path)

  datatype Pooled = Pooled(handle: Handle, createdAt: nat, streams: nat)

  datatype Lease = Lease(createdAt: nat, streams: nat)

  datatype Config = Config(size: nat, maxStreams: nat, maxAge: nat)

  datatype Pool = Pool(circuits: seq<Pooled>, leased: map<U32, Lease>)

  // ---------------------------------------------------------------- what the operations do to the pool's contents

  function Elapsed(now: nat, since: nat): nat {
    if now >= since then now - since else 0
  }

  predicate Usable(cfg: Config, now: nat, c: Pooled) {
    Elapsed(now, c.createdAt) < cfg.maxAge && c.streams < cfg.maxStreams
  }

  /** The time at which a call comes to look at each circuit. */
  type Clock = Pooled -> nat

  /** Usable: younger than the age limit, and lent out less often than the stream limit. */
  lemma UsableInNumbers(cfg: Config, now: nat, c: Pooled)
    ensures Usable(cfg, now, c) <==> c.streams < cfg.maxStreams && cfg.maxAge > 0 && now < c.createdAt + cfg.maxAge
  {
  }

  /** Index of the first usable circuit, or the length when there is none. */
  function FirstUsable(cfg: Config, clock: Clock, cs: seq<Pooled>): (i: nat)
    ensures i <= |cs|
    ensures i < |cs| ==> Usable(cfg, clock(cs[i]), cs[i])
    ensures forall j :: 0 <= j < i ==> !Usable(cfg, clock(cs[j]), cs[j])
  {
    if cs == [] || Usable(cfg, clock(cs[0]), cs[0]) then 0 else 1 + FirstUsable(cfg, clock, cs[1..])
  }

  function Without(cs: seq<Pooled>, i: nat): seq<Pooled>
    requires i < |cs|
  {
    cs[..i] + cs[i + 1..]
  }

  function Acquired(cfg: Config, clock: Clock, p: Pool): (Pool, Option<Handle>) {
    var i := FirstUsable(cfg, clock, p.circuits);
    if i == |p.circuits| then (p, None)
    else
      var c := p.circuits[i];
      (Pool(Without(p.circuits, i), p.leased[c.handle.id := Lease(c.createdAt, c.streams)]), Some(c.handle))
  }

  /** The circuit as it comes back: with the age and usage its lease remembers, or as new, and one more stream. */
  function ComeBack(now: nat, p: Pool, h: Handle): Pooled {
    if h.id in p.leased then Pooled(h, p.leased[h.id].createdAt, p.leased[h.id].streams + 1) else Pooled(h, now, 1)
  }

  function Released(cfg: Config, now: nat, p: Pool, h: Handle): Pool {
    var c := ComeBack(now, p, h);
    Pool(if Usable(cfg, now, c) then p.circuits + [c] else p.circuits, p.leased - {h.id})
  }

  function Retained(cfg: Config, clock: Clock, cs: seq<Pooled>): seq<Pooled> {
    if cs == [] then []
    else (if Usable(cfg, clock(cs[0]), cs[0]) then [cs[0]] else []) + Retained(cfg, clock, cs[1..])
  }

  /** A circuit built at some time, or a failed path selection or build. */
  datatype Attempt = Built(handle: Handle, at: nat) | NotBuilt

  function Refilled(cfg: Config, cs: seq<Pooled>, attempts: seq<Attempt>): seq<Pooled>
    decreases |attempts|
  {
    if |cs| >= cfg.size || attempts == [] || attempts[0].NotBuilt? then cs
    else Refilled(cfg, cs + [Pooled(attempts[0].handle, attempts[0].at, 0)], attempts[1..])
  }

  // ---------------------------------------------------------------- the pool itself

  class CircuitPool {
    const config: Config
    var circuits: seq<Pooled>
    var leased: map<U32, Lease>

    constructor (config: Config)
      ensures this.config == config && Contents() == Pool([], map[])
    {
      this.config := config;
      circuits := [];
      leased := map[];
    }

    ghost function Contents(): Pool
      reads this
    {
      Pool(circuits, leased)
    }

    method Acquire(clock: Clock) returns (h: Option<Handle>)
      modifies this
      ensures (Contents(), h) == Acquired(config, clock, old(Contents()))
    {
      var i := 0;
      while i < |circuits| && !Usable(config, clock(circuits[i]), circuits[i])
        invariant i <= |circuits|
        invariant FirstUsable(config, clock, circuits) == i + FirstUsable(config, clock, circuits[i..])
        invariant circuits == old(circuits) && leased == old(leased)
      {
        i := i + 1;
      }
      if i < |circuits| {
        var c := circuits[i];
        circuits := circuits[..i] + circuits[i + 1..];
        leased := leased[c.handle.id := Lease(c.createdAt, c.streams)];
        return Some(c.handle);
      } else {
        return None;
      }
    }

    method Release(now: nat, h: Handle)
      modifies this
      ensures Contents() == Released(config, now, old(Contents()), h)
    {
      var createdAt, prior := now, 0;
      if h.id in leased {
        createdAt, prior := leased[h.id].createdAt, leased[h.id].streams;
      }
      leased := leased - {h.id};
      var c := Pooled(h, createdAt, prior + 1);
      if !Usable(config, now, c) { return; }
      circuits := circuits + [c];
    }

    method Refill(attempts: seq<Attempt>)
      modifies this
      ensures Contents() == Pool(Refilled(config, old(circuits), attempts), old(leased))
    {
      var k := 0;
      while |circuits| < config.size && k < |attempts|
        invariant k <= |attempts|
        invariant Refilled(config, circuits, attempts[k..]) == Refilled(config, old(circuits), attempts)
        invariant leased == old(leased)
        decreases |attempts| - k
      {
        if attempts[k].NotBuilt? { break; }
        circuits := circuits + [Pooled(attempts[k].handle, attempts[k].at, 0)];
        k := k + 1;
      }
    }

    method Retain(clock: Clock)
      modifies this`circuits
      ensures circuits == Retained(config, clock, old(circuits))
    {
      var kept, rest := [], circuits;
      while rest != []
        invariant kept + Retained(config, clock, rest) == Retained(config, clock, circuits)
        invariant circuits == old(circuits)
        decreases |rest|
      {
        if Usable(config, clock(rest[0]), rest[0]) {
          kept := kept + [rest[0]];
        }
        rest := rest[1..];
      }
      circuits := kept;
    }

    /** Removes the circuits found unusable one by one, then refills. */
    method Maintain(clock: Clock, attempts: seq<Attempt>)
      modifies this
      ensures Contents() == Pool(Refilled(config, Retained(config, clock, old(circuits)), attempts), old(leased))
    {
      Retain(clock);
      Refill(attempts);
    }
  }

  // ---------------------------------------------------------------- a pool and everything that happened to its circuits

  /**
   One circuit's history: built by the pool or on demand, when, its hand-outs, its returns and the first of these. A
   hand-out counts at the time the circuit was looked at.
   */
  datatype Life = Life(pooled: bool, path: Path, birth: nat, outs: seq<nat>, returned: nat, firstBack: Option<nat>)

  /** `gone` are the circuits dropped by their user, discarded on return or evicted. */
  datatype World = World(pool: Pool, held: set<U32>, lives: map<U32, Life>, gone: set<U32>, now: nat)

  datatype Op =
    | Take(clock: Clock)
    | Demand(built: Handle)
    | Return(id: U32)
    | Drop(id: U32)
    | Evict(clock: Clock)
    | Build(built: Handle)

  datatype Event = Event(at: nat, op: Op)

  function Start(now: nat): World {
    World(Pool([], map[]), {}, map[], {}, now)
  }

  /** The clock is read while the call runs. */
  predicate ReadWithin(clock: Clock, cs: seq<Pooled>, start: nat, end: nat) {
    forall i :: 0 <= i < |cs| ==> start <= clock(cs[i]) <= end
  }

  /** Time never runs back, ids of new circuits are new, and only a circuit in use is returned or dropped. */
  predicate Enabled(cfg: Config, w: World, e: Event) {
    && e.at >= w.now
    && match e.op
       case Take(clock) => ReadWithin(clock, w.pool.circuits, w.now, e.at)
       case Demand(h) => h.id !in w.lives
       case Return(id) => id in w.held && id in w.lives
       case Drop(id) => id in w.held
       case Evict(clock) => ReadWithin(clock, w.pool.circuits, w.now, e.at)
       case Build(h) => h.id !in w.lives && |w.pool.circuits| < cfg.size
  }

  function HandedOut(l: Life, at: nat): Life {
    l.(outs := l.outs + [at])
  }

  function CameBack(l: Life, at: nat): Life {
    l.(returned := l.returned + 1, firstBack := if l.firstBack.None? then Some(at) else l.firstBack)
  }

  /** What the pool counts a circuit's age from: its birth, or the first return of one built on demand. */
  function AgeFrom(l: Life): Option<nat> {
    if l.pooled then Some(l.birth) else l.firstBack
  }

  function Stale(cfg: Config, clock: Clock, cs: seq<Pooled>): set<U32> {
    if cs == [] then {}
    else (if Usable(cfg, clock(cs[0]), cs[0]) then {} else {cs[0].handle.id}) + Stale(cfg, clock, cs[1..])
  }

  function Step(cfg: Config, w: World, e: Event): World
    requires Enabled(cfg, w, e)
  {
    var next := w.(now := e.at);
    match e.op
    case Take(clock) => (
      var (pool, got) := Acquired(cfg, clock, w.pool);
      if got.None? || got.value.id !in w.lives then next
      else
        var id, looked := got.value.id, clock(w.pool.circuits[FirstUsable(cfg, clock, w.pool.circuits)]);
        next.(pool := pool, held := w.held + {id}, lives := w.lives[id := HandedOut(w.lives[id], looked)]))
    case Demand(h) =>
      next.(held := w.held + {h.id}, lives := w.lives[h.id := Life(false, h.path, e.at, [e.at], 0, None)])
    case Return(id) => (
      var l := w.lives[id];
      var h := Handle(id, l.path);
      var discarded := !Usable(cfg, e.at, ComeBack(e.at, w.pool, h));
      next.(pool := Released(cfg, e.at, w.pool, h), held := w.held - {id},
            lives := w.lives[id := CameBack(l, e.at)],
            gone := if discarded then w.gone + {id} else w.gone))
    case Drop(id) => next.(held := w.held - {id}, gone := w.gone + {id})
    case Evict(clock) =>
      next.(pool := w.pool.(circuits := Retained(cfg, clock, w.pool.circuits)),
            gone := w.gone + Stale(cfg, clock, w.pool.circuits))
    case Build(h) =>
      next.(pool := w.pool.(circuits := w.pool.circuits + [Pooled(h, e.at, 0)]),
            lives := w.lives[h.id := Life(true, h.path, e.at, [], 0, None)])
  }

  predicate Execution(cfg: Config, w: World, events: seq<Event>)
    decreases |events|
  {
    events == [] || (Enabled(cfg, w, events[0]) && Execution(cfg, Step(cfg, w, events[0]), events[1..]))
  }

  function Run(cfg: Config, w: World, events: seq<Event>): World
    requires Execution(cfg, w, events)
    decreases |events|
  {
    if events == [] then w else Run(cfg, Step(cfg, w, events[0]), events[1..])
  }

  // ---------------------------------------------------------------- the invariant

  ghost predicate InPool(cs: seq<Pooled>, id: U32) {
    exists i :: 0 <= i < |cs| && cs[i].handle.id == id
  }

  predicate Distinct(cs: seq<Pooled>) {
    forall i, j :: 0 <= i < j < |cs| ==> cs[i].handle.id != cs[j].handle.id
  }

  /** A circuit in the pool has its real path, age and number of completed leases. */
  predicate PooledOk(c: Pooled, lives: map<U32, Life>) {
    && c.handle.id in lives
    && var l := lives[c.handle.id];
    && c.handle.path == l.path
    && c.streams == |l.outs| == l.returned
    && l.birth <= c.createdAt && AgeFrom(l) == Some(c.createdAt)
    && (!l.pooled ==> l.outs != [])
  }

  /** A circuit in use has its real age and number of completed leases in the lease map, or is on its first lease. */
  predicate HeldOk(id: U32, leased: map<U32, Lease>, lives: map<U32, Life>) {
    && id in lives
    && var l := lives[id];
    && |l.outs| == l.returned + 1
    && if id in leased then
         && leased[id].streams == l.returned
         && l.birth <= leased[id].createdAt && AgeFrom(l) == Some(leased[id].createdAt)
       else !l.pooled && l.returned == 0 && l.firstBack == None
  }

  /** Every hand-out, but the first of a circuit built on demand, is within the age the pool counts. */
  predicate InAge(cfg: Config, l: Life) {
    var unchecked := if l.pooled then 0 else 1;
    && (|l.outs| > unchecked ==> AgeFrom(l).Some?)
    && forall k :: unchecked <= k < |l.outs| ==> l.outs[k] < AgeFrom(l).value + cfg.maxAge
  }

  /** Hand-outs are capped and in age. */
  predicate LifeOk(cfg: Config, l: Life) {
    && |l.outs| <= cfg.maxStreams + (if l.pooled then 0 else 1)
    && (!l.pooled && |l.outs| > 1 ==> |l.outs| <= cfg.maxStreams)
    && InAge(cfg, l)
  }

  ghost predicate PoolInv(w: World) {
    && Distinct(w.pool.circuits)
    && forall i :: 0 <= i < |w.pool.circuits| ==>
         && PooledOk(w.pool.circuits[i], w.lives)
         && w.pool.circuits[i].createdAt <= w.now
         && w.pool.circuits[i].handle.id !in w.held
         && w.pool.circuits[i].handle.id !in w.pool.leased
         && w.pool.circuits[i].handle.id !in w.gone
  }

  ghost predicate HeldInv(w: World) {
    && (forall id :: id in w.held ==> HeldOk(id, w.pool.leased, w.lives) && id !in w.gone)
    && (forall id :: id in w.pool.leased ==> w.pool.leased[id].createdAt <= w.now && (id in w.held || id in w.gone))
    && (forall id :: id in w.gone ==> id in w.lives)
  }

  ghost predicate LivesInv(cfg: Config, w: World) {
    forall id :: id in w.lives ==>
      && LifeOk(cfg, w.lives[id])
      && w.lives[id].birth <= w.now
      && (id in w.held || id in w.gone || InPool(w.pool.circuits, id))
  }

  ghost predicate Inv(cfg: Config, w: World) {
    PoolInv(w) && HeldInv(w) && LivesInv(cfg, w)
  }

  // ---------------------------------------------------------------- each step keeps it

  lemma InPoolWithout(cs: seq<Pooled>, i: nat, id: U32)
    requires i < |cs| && InPool(cs, id) && id != cs[i].handle.id
    ensures InPool(Without(cs, i), id)
  {
    var k :| 0 <= k < |cs| && cs[k].handle.id == id;
    assert Without(cs, i)[if k < i then k else k - 1].handle.id == id;
  }

  lemma InPoolGrows(cs: seq<Pooled>, c: Pooled, id: U32)
    requires InPool(cs, id) || c.handle.id == id
    ensures InPool(cs + [c], id)
  {
    if c.handle.id == id {
      assert (cs + [c])[|cs|].handle.id == id;
    } else {
      var k :| 0 <= k < |cs| && cs[k].handle.id == id;
      assert (cs + [c])[k].handle.id == id;
    }
  }

  lemma WithoutIsDistinct(cs: seq<Pooled>, i: nat)
    requires i < |cs| && Distinct(cs)
    ensures Distinct(Without(cs, i))
    ensures forall k :: 0 <= k < |Without(cs, i)| ==>
              Without(cs, i)[k] in cs && Without(cs, i)[k].handle.id != cs[i].handle.id
  {
    assert forall k :: 0 <= k < |Without(cs, i)| ==> Without(cs, i)[k] == cs[if k < i then k else k + 1];
  }

  /** The world after handing out the circuit at place `i`. */
  function Took(w: World, i: nat, looked: nat, at: nat): World
    requires i < |w.pool.circuits| && w.pool.circuits[i].handle.id in w.lives
  {
    var c := w.pool.circuits[i];
    var id := c.handle.id;
    World(Pool(Without(w.pool.circuits, i), w.pool.leased[id := Lease(c.createdAt, c.streams)]), w.held + {id},
          w.lives[id := HandedOut(w.lives[id], looked)], w.gone, at)
  }

  lemma TookKeepsPool(w: World, i: nat, looked: nat, at: nat)
    requires PoolInv(w) && i < |w.pool.circuits| && at >= w.now
    ensures PooledOk(w.pool.circuits[i], w.lives) && PoolInv(Took(w, i, looked, at))
  {
    var cs := w.pool.circuits;
    assert PooledOk(cs[i], w.lives);
    WithoutIsDistinct(cs, i);
  }

  lemma TookKeepsHeld(w: World, i: nat, looked: nat, at: nat)
    requires HeldInv(w) && i < |w.pool.circuits| && at >= w.now
    requires PooledOk(w.pool.circuits[i], w.lives) && w.pool.circuits[i].createdAt <= w.now
    requires w.pool.circuits[i].handle.id !in w.held && w.pool.circuits[i].handle.id !in w.gone
    ensures HeldInv(Took(w, i, looked, at))
  {
    var next := Took(w, i, looked, at);
    forall id | id in next.held ensures HeldOk(id, next.pool.leased, next.lives) {
      if id in w.held { assert HeldOk(id, w.pool.leased, w.lives); }
    }
  }

  lemma OutInAge(cfg: Config, l: Life, at: nat)
    requires InAge(cfg, l) && AgeFrom(l).Some? && at < AgeFrom(l).value + cfg.maxAge
    ensures InAge(cfg, HandedOut(l, at))
  {
    var next := HandedOut(l, at);
    forall k | 0 <= k < |next.outs| ensures next.outs[k] == if k < |l.outs| then l.outs[k] else at {
    }
  }

  lemma TookKeepsLives(cfg: Config, w: World, i: nat, looked: nat, at: nat)
    requires LivesInv(cfg, w) && i < |w.pool.circuits| && w.now <= looked <= at
    requires PooledOk(w.pool.circuits[i], w.lives) && Usable(cfg, looked, w.pool.circuits[i])
    requires w.pool.circuits[i].createdAt <= w.now
    ensures LivesInv(cfg, Took(w, i, looked, at))
  {
    var next, cs := Took(w, i, looked, at), w.pool.circuits;
    OutInAge(cfg, w.lives[cs[i].handle.id], looked);
    forall id | id in next.lives
      ensures id in next.held || id in next.gone || InPool(next.pool.circuits, id)
    {
      if id !in next.held && id !in w.gone { InPoolWithout(cs, i, id); }
    }
  }

  lemma TakeKeepsInv(cfg: Config, w: World, e: Event)
    requires Inv(cfg, w) && Enabled(cfg, w, e) && e.op.Take?
    ensures Inv(cfg, Step(cfg, w, e))
  {
    var i := FirstUsable(cfg, e.op.clock, w.pool.circuits);
    if i < |w.pool.circuits| {
      var looked := e.op.clock(w.pool.circuits[i]);
      TookKeepsPool(w, i, looked, e.at);
      TookKeepsHeld(w, i, looked, e.at);
      TookKeepsLives(cfg, w, i, looked, e.at);
      assert Step(cfg, w, e) == Took(w, i, looked, e.at);
    }
  }

  lemma DemandKeepsInv(cfg: Config, w: World, e: Event)
    requires Inv(cfg, w) && Enabled(cfg, w, e) && e.op.Demand?
    ensures Inv(cfg, Step(cfg, w, e))
  {
    var next := Step(cfg, w, e);
    assert next.pool == w.pool;
  }

  /** What comes back has its own age and usage, counting this return. */
  lemma ComesBackOk(cfg: Config, w: World, e: Event)
    requires Inv(cfg, w) && Enabled(cfg, w, e) && e.op.Return?
    ensures var c := ComeBack(e.at, w.pool, Handle(e.op.id, w.lives[e.op.id].path));
            PooledOk(c, Step(cfg, w, e).lives) && c.createdAt <= e.at && c.handle.id == e.op.id
  {
    assert HeldOk(e.op.id, w.pool.leased, w.lives);
  }

  lemma ReturnKeepsPool(cfg: Config, w: World, e: Event)
    requires Inv(cfg, w) && Enabled(cfg, w, e) && e.op.Return?
    ensures PoolInv(Step(cfg, w, e))
  {
    ComesBackOk(cfg, w, e);
  }

  lemma ReturnKeepsHeld(cfg: Config, w: World, e: Event)
    requires Inv(cfg, w) && Enabled(cfg, w, e) && e.op.Return?
    ensures HeldInv(Step(cfg, w, e))
  {
  }

  lemma ReturnKeepsInv(cfg: Config, w: World, e: Event)
    requires Inv(cfg, w) && Enabled(cfg, w, e) && e.op.Return?
    ensures Inv(cfg, Step(cfg, w, e))
  {
    ReturnKeepsPool(cfg, w, e);
    ReturnKeepsHeld(cfg, w, e);
    ReturnKeepsLives(cfg, w, e);
  }

  lemma ReturnKeepsLives(cfg: Config, w: World, e: Event)
    requires Inv(cfg, w) && Enabled(cfg, w, e) && e.op.Return?
    ensures LivesInv(cfg, Step(cfg, w, e))
  {
    var next, id := Step(cfg, w, e), e.op.id;
    var c := ComeBack(e.at, w.pool, Handle(id, w.lives[id].path));
    assert HeldOk(id, w.pool.leased, w.lives);
    forall other | other in next.lives
      ensures other in next.held || other in next.gone || InPool(next.pool.circuits, other)
    {
      if Usable(cfg, e.at, c) && other !in next.held && other !in next.gone {
        InPoolGrows(w.pool.circuits, c, other);
      }
    }
  }

  lemma DropKeepsInv(cfg: Config, w: World, e: Event)
    requires Inv(cfg, w) && Enabled(cfg, w, e) && e.op.Drop?
    ensures Inv(cfg, Step(cfg, w, e))
  {
    assert HeldOk(e.op.id, w.pool.leased, w.lives);
  }

  /** Retaining keeps exactly the usable circuits, each once. */
  lemma {:induction false} RetainedIsUsablePart(cfg: Config, clock: Clock, cs: seq<Pooled>)
    ensures forall c :: c in Retained(cfg, clock, cs) <==> c in cs && Usable(cfg, clock(c), c)
  {
    if cs != [] {
      RetainedIsUsablePart(cfg, clock, cs[1..]);
      assert cs == [cs[0]] + cs[1..];
    }
  }

  lemma {:induction false} RetainedDistinct(cfg: Config, clock: Clock, cs: seq<Pooled>)
    requires Distinct(cs)
    ensures Distinct(Retained(cfg, clock, cs))
  {
    if cs != [] {
      RetainedDistinct(cfg, clock, cs[1..]);
      RetainedIsUsablePart(cfg, clock, cs[1..]);
      var rest := Retained(cfg, clock, cs[1..]);
      forall k | 0 <= k < |rest| ensures rest[k].handle.id != cs[0].handle.id {
        assert rest[k] in cs[1..];
        var i :| 0 <= i < |cs[1..]| && cs[1..][i] == rest[k];
        assert cs[i + 1] == rest[k];
      }
    }
  }

  lemma {:induction false} StaleIsUnusablePart(cfg: Config, clock: Clock, cs: seq<Pooled>)
    ensures forall i :: 0 <= i < |cs| && !Usable(cfg, clock(cs[i]), cs[i]) ==> cs[i].handle.id in Stale(cfg, clock, cs)
    ensures forall id :: id in Stale(cfg, clock, cs) ==>
              exists i :: 0 <= i < |cs| && !Usable(cfg, clock(cs[i]), cs[i]) && cs[i].handle.id == id
  {
    if cs != [] {
      StaleIsUnusablePart(cfg, clock, cs[1..]);
      forall i | 0 <= i < |cs| && !Usable(cfg, clock(cs[i]), cs[i]) ensures cs[i].handle.id in Stale(cfg, clock, cs) {
        if i > 0 { assert cs[i] == cs[1..][i - 1]; }
      }
      forall id | id in Stale(cfg, clock, cs)
        ensures exists i :: 0 <= i < |cs| && !Usable(cfg, clock(cs[i]), cs[i]) && cs[i].handle.id == id
      {
        if id in Stale(cfg, clock, cs[1..]) {
          var i :| 0 <= i < |cs[1..]| && !Usable(cfg, clock(cs[1..][i]), cs[1..][i]) && cs[1..][i].handle.id == id;
          assert cs[i + 1].handle.id == id;
        }
      }
    }
  }

  lemma EvictKeepsInv(cfg: Config, w: World, e: Event)
    requires Inv(cfg, w) && Enabled(cfg, w, e) && e.op.Evict?
    ensures Inv(cfg, Step(cfg, w, e))
  {
    var next, cs, clock := Step(cfg, w, e), w.pool.circuits, e.op.clock;
    var kept := next.pool.circuits;
    RetainedIsUsablePart(cfg, clock, cs);
    RetainedDistinct(cfg, clock, cs);
    StaleIsUnusablePart(cfg, clock, cs);
    forall k | 0 <= k < |kept|
      ensures kept[k] in cs && kept[k].handle.id !in next.gone
    {
      assert kept[k] in kept;
    }
    forall id | id in next.lives
      ensures id in next.held || id in next.gone || InPool(kept, id)
    {
      if id !in w.held && id !in w.gone {
        var i :| 0 <= i < |cs| && cs[i].handle.id == id;
        if Usable(cfg, clock(cs[i]), cs[i]) {
          assert cs[i] in kept;
        }
      }
    }
  }

  lemma BuildKeepsInv(cfg: Config, w: World, e: Event)
    requires Inv(cfg, w) && Enabled(cfg, w, e) && e.op.Build?
    ensures Inv(cfg, Step(cfg, w, e))
  {
    var next, c := Step(cfg, w, e), Pooled(e.op.built, e.at, 0);
    forall id | id in next.lives
      ensures id in next.held || id in next.gone || InPool(next.pool.circuits, id)
    {
      if id !in w.held && id !in w.gone { InPoolGrows(w.pool.circuits, c, id); }
    }
  }

  lemma StepKeepsInv(cfg: Config, w: World, e: Event)
    requires Inv(cfg, w) && Enabled(cfg, w, e)
    ensures Inv(cfg, Step(cfg, w, e))
  {
    match e.op
    case Take(_) => TakeKeepsInv(cfg, w, e);
    case Demand(_) => DemandKeepsInv(cfg, w, e);
    case Return(_) => ReturnKeepsInv(cfg, w, e);
    case Drop(_) => DropKeepsInv(cfg, w, e);
    case Evict(_) => EvictKeepsInv(cfg, w, e);
    case Build(_) => BuildKeepsInv(cfg, w, e);
  }

  lemma {:induction false} RunKeepsInv(cfg: Config, w: World, events: seq<Event>)
    requires Inv(cfg, w) && Execution(cfg, w, events)
    ensures Inv(cfg, Run(cfg, w, events))
    decreases |events|
  {
    if events != [] {
      StepKeepsInv(cfg, w, events[0]);
      RunKeepsInv(cfg, Step(cfg, w, events[0]), events[1..]);
    }
  }

  // ---------------------------------------------------------------- what it means

  /**
   Over any run, a circuit the pool built that is neither dropped nor retired is in exactly one of the pool and the
   lease map, with its own creation time and the number of its completed leases; and it was handed out at most
   `maxStreams` times, never at or past its age limit.
   */
  lemma LeasesKeepAgeAndUsage(cfg: Config, now: nat, events: seq<Event>, id: U32)
    requires Execution(cfg, Start(now), events)
    requires id in Run(cfg, Start(now), events).lives
    requires Run(cfg, Start(now), events).lives[id].pooled
    ensures var w := Run(cfg, Start(now), events);
            var l := w.lives[id];
            && |l.outs| <= cfg.maxStreams
            && (forall k :: 0 <= k < |l.outs| ==> l.outs[k] < l.birth + cfg.maxAge)
            && (id !in w.gone ==>
                  && (InPool(w.pool.circuits, id) <==> id !in w.pool.leased)
                  && (id in w.pool.leased ==> w.pool.leased[id] == Lease(l.birth, l.returned))
                  && forall c :: c in w.pool.circuits && c.handle.id == id ==>
                       c == Pooled(Handle(id, l.path), l.birth, l.returned))
  {
    RunKeepsInv(cfg, Start(now), events);
    var w := Run(cfg, Start(now), events);
    if id !in w.gone && InPool(w.pool.circuits, id) {
      var i :| 0 <= i < |w.pool.circuits| && w.pool.circuits[i].handle.id == id;
      assert PooledOk(w.pool.circuits[i], w.lives);
    }
  }

  /** No circuit is handed out more than `maxStreams` times, save that one built on demand goes out once in any case. */
  lemma HandOutsAreCapped(cfg: Config, now: nat, events: seq<Event>, id: U32)
    requires Execution(cfg, Start(now), events)
    requires id in Run(cfg, Start(now), events).lives
    ensures |Run(cfg, Start(now), events).lives[id].outs| <= if cfg.maxStreams == 0 then 1 else cfg.maxStreams
  {
    RunKeepsInv(cfg, Start(now), events);
  }

  /** Maintenance is an eviction followed by single builds, so every call the pool serves is part of some run. */
  function Builds(cfg: Config, have: nat, attempts: seq<Attempt>): seq<Event>
    decreases |attempts|
  {
    if have >= cfg.size || attempts == [] || attempts[0].NotBuilt? then []
    else [Event(attempts[0].at, Build(attempts[0].handle))] + Builds(cfg, have + 1, attempts[1..])
  }

  /** A refill takes the circuits built one by one, until the pool has its size or a build fails, behind those it has. */
  lemma {:induction false} RefilledInNumbers(cfg: Config, cs: seq<Pooled>, attempts: seq<Attempt>, built: nat)
    requires built <= |attempts| && forall k :: 0 <= k < built ==> attempts[k].Built?
    requires built == |attempts| || attempts[built].NotBuilt?
    ensures var after := Refilled(cfg, cs, attempts);
            var added := if |cs| >= cfg.size then 0 else if built < cfg.size - |cs| then built else cfg.size - |cs|;
            && |after| == |cs| + added && after[..|cs|] == cs
            && forall k :: 0 <= k < added ==> after[|cs| + k] == Pooled(attempts[k].handle, attempts[k].at, 0)
    decreases |attempts|
  {
    if |cs| < cfg.size && built > 0 {
      var more := cs + [Pooled(attempts[0].handle, attempts[0].at, 0)];
      RefilledInNumbers(cfg, more, attempts[1..], built - 1);
      var after := Refilled(cfg, cs, attempts);
      assert after[..|cs|] == after[..|more|][..|cs|];
      assert after[|cs|] == after[..|more|][|cs|];
      forall k | 1 <= k < |after| - |cs| ensures after[|cs| + k] == Pooled(attempts[k].handle, attempts[k].at, 0) {
        assert after[|more| + (k - 1)] == Pooled(attempts[1..][k - 1].handle, attempts[1..][k - 1].at, 0);
      }
    }
  }

  predicate FreshAttempts(attempts: seq<Attempt>, lives: map<U32, Life>) {
    && (forall k :: 0 <= k < |attempts| && attempts[k].Built? ==> attempts[k].handle.id !in lives)
    && (forall j, k :: 0 <= j < k < |attempts| && attempts[j].Built? && attempts[k].Built? ==>
          attempts[j].handle.id != attempts[k].handle.id)
  }

  /** Built one after the other, from `now` on. */
  predicate Timely(attempts: seq<Attempt>, now: nat) {
    && (forall k :: 0 <= k < |attempts| && attempts[k].Built? ==> now <= attempts[k].at)
    && (forall j, k :: 0 <= j < k < |attempts| && attempts[j].Built? && attempts[k].Built? ==>
          attempts[j].at <= attempts[k].at)
  }

  lemma {:induction false} RefillIsBuilds(cfg: Config, w: World, attempts: seq<Attempt>)
    requires FreshAttempts(attempts, w.lives) && Timely(attempts, w.now)
    ensures var events := Builds(cfg, |w.pool.circuits|, attempts);
            && Execution(cfg, w, events)
            && Run(cfg, w, events).pool == Pool(Refilled(cfg, w.pool.circuits, attempts), w.pool.leased)
    decreases |attempts|
  {
    if |w.pool.circuits| < cfg.size && attempts != [] && attempts[0].Built? {
      var e := Event(attempts[0].at, Build(attempts[0].handle));
      var next, rest := Step(cfg, w, e), attempts[1..];
      assert FreshAttempts(rest, next.lives) && Timely(rest, next.now) by {
        assert forall k :: 0 <= k < |rest| ==> rest[k] == attempts[k + 1];
      }
      RefillIsBuilds(cfg, next, rest);
      assert Builds(cfg, |w.pool.circuits|, attempts)[1..] == Builds(cfg, |w.pool.circuits| + 1, rest);
    }
  }

  /** So is a whole maintenance call. */
  lemma MaintenanceIsRun(cfg: Config, w: World, at: nat, clock: Clock, attempts: seq<Attempt>)
    requires Enabled(cfg, w, Event(at, Evict(clock))) && FreshAttempts(attempts, w.lives) && Timely(attempts, at)
    ensures var kept := Retained(cfg, clock, w.pool.circuits);
            var events := [Event(at, Evict(clock))] + Builds(cfg, |kept|, attempts);
            && Execution(cfg, w, events)
            && Run(cfg, w, events).pool == Pool(Refilled(cfg, kept, attempts), w.pool.leased)
  {
    var e := Event(at, Evict(clock));
    var next := Step(cfg, w, e);
    RefillIsBuilds(cfg, next, attempts);
    RunCons(cfg, w, e, Builds(cfg, |next.pool.circuits|, attempts));
  }

  lemma RunCons(cfg: Config, w: World, e: Event, rest: seq<Event>)
    requires Enabled(cfg, w, e) && Execution(cfg, Step(cfg, w, e), rest)
    ensures Execution(cfg, w, [e] + rest) && Run(cfg, w, [e] + rest) == Run(cfg, Step(cfg, w, e), rest)
  {
    assert ([e] + rest)[1..] == rest;
  }

  /** Over any run, every hand-out of a circuit built on demand but its first is within the age from its first return. */
  lemma OnDemandAgeFromFirstReturn(cfg: Config, now: nat, events: seq<Event>, id: U32)
    requires Execution(cfg, Start(now), events)
    requires id in Run(cfg, Start(now), events).lives
    requires !Run(cfg, Start(now), events).lives[id].pooled
    ensures var l := Run(cfg, Start(now), events).lives[id];
            && (|l.outs| > 1 ==> l.firstBack.Some?)
            && forall k :: 1 <= k < |l.outs| ==> l.outs[k] < l.firstBack.value + cfg.maxAge
  {
    RunKeepsInv(cfg, Start(now), events);
    var l := Run(cfg, Start(now), events).lives[id];
    assert InAge(cfg, l);
  }

  /** At this time the circuit may be handed out, and its true age is over the limit. */
  predicate OverAgeAt(cfg: Config, c: Pooled, birth: nat, at: nat) {
    Usable(cfg, at, c) && at >= birth + cfg.maxAge
  }

  /**
   In any state a run can reach: a circuit in the pool may now or later be handed out over its true age exactly if the
   pool counts its age from after its birth, which it does for circuits built on demand alone, and it is usable now.
   */
  lemma OverAgeIff(cfg: Config, w: World, i: nat)
    requires Inv(cfg, w) && i < |w.pool.circuits|
    ensures var c := w.pool.circuits[i];
            && c.handle.id in w.lives
            && var l := w.lives[c.handle.id];
               && ((exists at :: at >= w.now && OverAgeAt(cfg, c, l.birth, at))
                   <==> c.createdAt > l.birth && c.createdAt + cfg.maxAge > w.now && c.streams < cfg.maxStreams)
               && (c.createdAt > l.birth ==> !l.pooled && l.firstBack == Some(c.createdAt))
  {
    var c := w.pool.circuits[i];
    assert PooledOk(c, w.lives);
    var birth := w.lives[c.handle.id].birth;
    if c.createdAt > birth && c.createdAt + cfg.maxAge > w.now && c.streams < cfg.maxStreams {
      var at := if w.now >= birth + cfg.maxAge then w.now else birth + cfg.maxAge;
      assert OverAgeAt(cfg, c, birth, at);
    }
  }

  /** Taking a circuit now hands one out over its true age. */
  predicate HandsOutOverAge(cfg: Config, w: World, clock: Clock) {
    var i := FirstUsable(cfg, clock, w.pool.circuits);
    && i < |w.pool.circuits| && w.pool.circuits[i].handle.id in w.lives
    && OverAgeAt(cfg, w.pool.circuits[i], w.lives[w.pool.circuits[i].handle.id].birth, clock(w.pool.circuits[i]))
  }

  /** Some run reaches a state that hands out a circuit over its age. */
  ghost predicate OverAgePossible(cfg: Config) {
    exists now, events, clock, at :: OverAgeRun(cfg, now, events, clock, at)
  }

  predicate OverAgeRun(cfg: Config, now: nat, events: seq<Event>, clock: Clock, at: nat) {
    && Execution(cfg, Start(now), events)
    && var w := Run(cfg, Start(now), events);
       Enabled(cfg, w, Event(at, Take(clock))) && HandsOutOverAge(cfg, w, clock)
  }

  /** A circuit built on demand that was out for any length of time and came back is handed out at once. */
  lemma AnyAgeIsHandedOut(cfg: Config, h: Handle, out: nat)
    requires cfg.maxAge > 0 && cfg.maxStreams > 1
    ensures var events := [Event(0, Demand(h)), Event(out, Return(h.id))];
            && Execution(cfg, Start(0), events)
            && Run(cfg, Start(0), events).pool.circuits == [Pooled(h, out, 1)]
            && h.id in Run(cfg, Start(0), events).lives
            && Run(cfg, Start(0), events).lives[h.id] == Life(false, h.path, 0, [0], 1, Some(out))
            && Run(cfg, Start(0), events).now == out
            && FirstUsable(cfg, _ => out, [Pooled(h, out, 1)]) == 0
            && Acquired(cfg, _ => out, Run(cfg, Start(0), events).pool).1 == Some(h)
  {
    var a, b := Event(0, Demand(h)), Event(out, Return(h.id));
    var w := Step(cfg, Step(cfg, Start(0), a), b);
    assert w.pool.circuits == [Pooled(h, out, 1)];
    assert FirstUsable(cfg, _ => out, w.pool.circuits) == 0;
    RunCons(cfg, Step(cfg, Start(0), a), b, []);
    RunCons(cfg, Start(0), a, [b] + []);
    assert [a, b] == [a] + ([b] + []);
  }

  /** The age limit fails circuits built on demand under every setting that lets the pool hand one out at all. */
  lemma OverAgePossibleIff(cfg: Config)
    ensures OverAgePossible(cfg) <==> cfg.maxAge > 0 && cfg.maxStreams > 1
  {
    if cfg.maxAge > 0 && cfg.maxStreams > 1 {
      var h, clock: Clock := Handle(1, []), _ => cfg.maxAge;
      AnyAgeIsHandedOut(cfg, h, cfg.maxAge);
      assert OverAgeRun(cfg, 0, [Event(0, Demand(h)), Event(cfg.maxAge, Return(h.id))], clock, cfg.maxAge);
    }
    if OverAgePossible(cfg) {
      var now, events, clock, at :| OverAgeRun(cfg, now, events, clock, at);
      var w := Run(cfg, Start(now), events);
      RunKeepsInv(cfg, Start(now), events);
      var i := FirstUsable(cfg, clock, w.pool.circuits);
      assert PooledOk(w.pool.circuits[i], w.lives);
    }
  }

  /** The lease map after two circuits of the pool were handed out. */
  function BothLeased(p: Pool, a: Pooled, b: Pooled): Pool {
    p.(leased := p.leased[a.handle.id := Lease(a.createdAt, a.streams)][b.handle.id := Lease(b.createdAt, b.streams)])
  }

  predicate RestoredAt(cfg: Config, p: Pool, a: Pooled, b: Pooled, first: nat, second: nat) {
    var both := BothLeased(p, a, b);
    && ComeBack(first, both, a.handle) == a.(streams := a.streams + 1)
    && ComeBack(second, Released(cfg, first, both, a.handle), b.handle) == b.(streams := b.streams + 1)
  }

  /** Both come back, `a` first, with their own age and usage, whenever they are returned. */
  ghost predicate BothRestored(cfg: Config, p: Pool, a: Pooled, b: Pooled) {
    forall first, second :: RestoredAt(cfg, p, a, b, first, second)
  }

  /** Leases are kept by circuit id, which is drawn at random: two circuits out keep theirs exactly under two ids. */
  lemma LeasesKeptIffDistinctIds(cfg: Config, p: Pool, a: Pooled, b: Pooled)
    ensures BothRestored(cfg, p, a, b) <==> a.handle.id != b.handle.id
  {
    if a.handle.id == b.handle.id {
      assert !RestoredAt(cfg, p, a, b, 0, b.createdAt + 1);
    } else {
      forall first, second ensures RestoredAt(cfg, p, a, b, first, second) {
      }
    }
  }
}
