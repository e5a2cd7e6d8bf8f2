/**
 End-to-end runs of a two-hop circuit: writers, the client, two relays and a network between them that may
 drop, reorder, replay and inject. The relays mirror the client's ciphers (gptl-transport, crypto.rs 160-175)
 and the Forward and RelayInner layouts (cell.rs 60-62 and 197-202).
 */
module Onion {
  import opened Bytes
  import opened Cells
  import opened CellCrypto
  import opened Streams
  import opened Circuit

  function Get(m: map<U16, seq<Byte>>, id: U16): seq<Byte> {
    if id in m then m[id] else []
  }

  /** The plaintexts that the two layers seal for one relay cell. */
  function InnerPlain(c: RelayCell): seq<Byte>
    requires |c.data| <= RELAY_INNER_MAX_DATA
  {
    RelayBytes(c, RELAY_INNER_PLAINTEXT_LEN).value
  }

  function OuterPlain(ct: seq<Byte>): seq<Byte>
    requires |ct| == RELAY_INNER_CT_LEN
  {
    RelayBytes(RelayCell(Forward, 0, ct), RELAY_PLAINTEXT_LEN).value
  }

  // ---------------------------------------------------------------- outbound

  /**
   `written` is what each stream's owner has asked to send, `pending` what its writer has not yet cut into
   cells, `queue` the shared outbound queue, `sent` the cells the client has sealed for the exit, `received`
   the cells the exit has decoded. `outer` is the client's first-hop direction, `inner` the second-hop one.
   */
  datatype World = World(
    circuitId: U32, written: map<U16, seq<Byte>>, pending: map<U16, seq<Byte>>,
    queue: seq<RelayCell>, sent: seq<RelayCell>, closed: bool,
    outer: Link, inner: Link, received: seq<RelayCell>)

  /**
   Writers, the circuit's driver, and whatever the network hands to either relay. `Connect` is the Begin cell
   that opening a stream sends at once, past the queue.
   */
  datatype Event =
    | Write(id: U16, bytes: seq<Byte>)
    | Chunk(id: U16)
    | Enqueue(cell: RelayCell)
    | Flush
    | Connect(id: U16, target: seq<Byte>)
    | ToRelay1(wire: seq<Byte>)
    | ToRelay2(payload: Payload)

  /** A circuit that has just been extended: the first hop may have been in use, the second has not. */
  function NewWorld(circuitId: U32, outer: Link, key2: Key): World {
    World(circuitId, map[], map[], [], [], false, outer, NewLink(key2), [])
  }

  function Outs(w: World): seq<CipherState> {
    [CipherState(w.outer.key, w.outer.sendCounter), CipherState(w.inner.key, w.inner.sendCounter)]
  }

  /** Both layers seal `c`; the inner counter moves even when the outer layer then fails. */
  function SealCell(aead: Aead, w: World, c: RelayCell): (next: World)
    requires aead.Ideal() && |c.data| <= RELAY_INNER_MAX_DATA
    ensures next.queue == w.queue
  {
    var ct := SealAt(aead, w.inner.key, w.inner.sendCounter, InnerPlain(c));
    w.(inner := LinkStep(aead, w.inner, Seal(InnerPlain(c))),
       sent := if ct.Ok? then w.sent + [c] else w.sent,
       outer := if ct.Ok? then LinkStep(aead, w.outer, Seal(OuterPlain(ct.value))) else w.outer)
  }

  /** The head of the queue is taken; an error while it is sent will close the circuit. */
  function Taken(aead: Aead, w: World): (next: World)
    requires aead.Ideal() && w.queue != []
    ensures next.queue == w.queue[1..]
  {
    w.(queue := w.queue[1..], closed := SendRaw(aead, w.circuitId, Outs(w), w.queue[0]).0.Err?)
  }

  function FlushStep(aead: Aead, w: World): (next: World)
    requires aead.Ideal() && Fits(w.queue)
    ensures Fits(next.queue)
  {
    if w.closed || w.queue == [] then w else SealCell(aead, Taken(aead, w), w.queue[0])
  }

  function Step(aead: Aead, w: World, e: Event): (next: World)
    requires aead.Ideal() && Fits(w.queue)
    ensures Fits(next.queue)
  {
    match e
    case Write(id, bytes) =>
      if Get(w.pending, id) != [] then w
      else w.(written := w.written[id := Get(w.written, id) + bytes], pending := w.pending[id := bytes])
    case Chunk(id) =>
      var p := Get(w.pending, id);
      if p == [] then w
      else
        var n := Smaller(|p|, RELAY_INNER_MAX_DATA);
        w.(queue := w.queue + [RelayCell(Data, id, p[..n])], pending := w.pending[id := p[n..]])
    case Enqueue(cell) =>
      if cell.command == Data || |cell.data| > RELAY_INNER_MAX_DATA then w else w.(queue := w.queue + [cell])
    case Flush => FlushStep(aead, w)
    case Connect(id, target) =>
      if |target| > RELAY_INNER_MAX_DATA then w else SealCell(aead, w, RelayCell(Begin, id, target))
    case ToRelay1(wire) =>
      if |wire| != CELL_SIZE then w
      else
        (match ParseCell(wire)
         case Err(_) => w
         case Ok(cell) =>
           if cell.cellType != Relay then w else w.(outer := LinkStep(aead, w.outer, Deliver(cell.payload))))
    case ToRelay2(payload) =>
      var ct := payload[..RELAY_INNER_CT_LEN];
      w.(inner := LinkStep(aead, w.inner, Deliver(ct)), received := w.received + Exit(aead, w.inner, ct))
  }

  /** The cell, if any, that the exit relay decodes from an inner ciphertext. */
  function Exit(aead: Aead, inner: Link, ct: seq<Byte>): seq<RelayCell>
    requires aead.Ideal() && |ct| == RELAY_INNER_CT_LEN
  {
    match OpenAt(aead, inner.key, inner.recvCounter, ct)
    case Err(_) => []
    case Ok(plain) =>
      match ParseRelay(plain)
      case Err(_) => []
      case Ok(c) => [c]
  }

  ghost predicate PlausibleEvent(aead: Aead, w: World, e: Event) {
    match e
    case ToRelay1(wire) => |wire| == CELL_SIZE ==> Unforged(aead, w.outer, wire[5..])
    case ToRelay2(payload) => Unforged(aead, w.inner, payload[..RELAY_INNER_CT_LEN])
    case _ => true
  }

  ghost predicate Inv(w: World) {
    LayersInv(w) && StreamsInv(w)
  }

  ghost predicate LayersInv(w: World) {
    && LinkInv(w.outer)
    && Fits(w.queue)
    && SealsMatch(w.inner, w.sent)
    && w.received == w.sent[..|w.inner.accepted|]
  }

  ghost predicate StreamsInv(w: World) {
    forall id: U16 ::
      && StreamBytes(w.sent, id) <= Get(w.written, id)
      && (!w.closed ==> ConservedOn(id, w.sent, w.queue, Get(w.pending, id), Get(w.written, id)))
  }

  /** The inner layer has sealed exactly the cells sent, one each. */
  ghost predicate SealsMatch(inner: Link, sent: seq<RelayCell>) {
    && LinkInv(inner)
    && Fits(sent)
    && |inner.sealed| == |sent|
    && forall i :: 0 <= i < |sent| ==> inner.sealed[i] == InnerPlain(sent[i])
  }

  /** Every byte written is, in order, in a sent cell, in a queued cell, or still with its writer. */
  ghost predicate ConservedOn(id: U16, sent: seq<RelayCell>, queue: seq<RelayCell>, pending: seq<Byte>,
                              written: seq<Byte>) {
    StreamBytes(sent, id) + StreamBytes(queue, id) + pending == written
  }

  /** Sealing a cell is the circuit's `SendRaw`: same counters, same seals, and it fails only when they do. */
  lemma SealIsSendRaw(aead: Aead, w: World, c: RelayCell)
    requires aead.Ideal() && |c.data| <= RELAY_INNER_MAX_DATA
    ensures var r, next := SendRaw(aead, w.circuitId, Outs(w), c), SealCell(aead, w, c);
            && r.1 == Outs(next)
            && (r.0.Ok? <==> w.inner.sendCounter < U64_MAX && w.outer.sendCounter < U64_MAX)
            && (r.0.Ok? ==>
                  && |next.outer.sealed| == |w.outer.sealed| + 1
                  && r.0.value == Cell(w.circuitId, Relay,
                       aead.seal(w.outer.key, NonceFor(w.outer.sendCounter), next.outer.sealed[|w.outer.sealed|])))
  {
  }

  /** The driver's step is `SendRaw` of the head of the queue, and closes the circuit exactly when that fails. */
  lemma FlushIsSendRaw(aead: Aead, w: World)
    requires aead.Ideal() && Fits(w.queue) && w.queue != [] && !w.closed
    ensures var r, next := SendRaw(aead, w.circuitId, Outs(w), w.queue[0]), FlushStep(aead, w);
            && r.1 == Outs(next) && next.closed == r.0.Err? && next.queue == w.queue[1..]
            && (r.0.Ok? <==> w.inner.sendCounter < U64_MAX && w.outer.sendCounter < U64_MAX)
            && (r.0.Ok? ==>
                  && |next.outer.sealed| == |w.outer.sealed| + 1
                  && r.0.value == Cell(w.circuitId, Relay,
                       aead.seal(w.outer.key, NonceFor(w.outer.sendCounter), next.outer.sealed[|w.outer.sealed|])))
  {
    SealIsSendRaw(aead, Taken(aead, w), w.queue[0]);
  }

  /** Opening a stream moves the circuit's counters as `SendRaw` of its Begin cell does, also when that is refused. */
  lemma ConnectIsSendRaw(aead: Aead, w: World, id: U16, target: seq<Byte>)
    requires aead.Ideal() && Fits(w.queue)
    ensures var r := SendRaw(aead, w.circuitId, Outs(w), RelayCell(Begin, id, target));
            var next := Step(aead, w, Connect(id, target));
            && r.1 == Outs(next) && next.queue == w.queue && next.closed == w.closed
            && (r.0.Ok? <==>
                  (|target| <= RELAY_INNER_MAX_DATA && w.inner.sendCounter < U64_MAX && w.outer.sendCounter < U64_MAX))
            && (r.0.Ok? ==> next.sent == w.sent + [RelayCell(Begin, id, target)])
  {
    if |target| <= RELAY_INNER_MAX_DATA { SealIsSendRaw(aead, w, RelayCell(Begin, id, target)); }
  }

  lemma SealKeepsMatch(aead: Aead, inner: Link, sent: seq<RelayCell>, c: RelayCell)
    requires SealsMatch(inner, sent) && |c.data| <= RELAY_INNER_MAX_DATA
    ensures SealsMatch(LinkStep(aead, inner, Seal(InnerPlain(c))),
                       if inner.sendCounter < U64_MAX then sent + [c] else sent)
  {
  }

  /** Moving the head of the queue to the sent cells leaves the bytes of both together unchanged. */
  lemma MoveToSent(sent: seq<RelayCell>, queue: seq<RelayCell>, pending: seq<Byte>, written: seq<Byte>, id: U16)
    requires queue != [] && ConservedOn(id, sent, queue, pending, written)
    ensures ConservedOn(id, sent + [queue[0]], queue[1..], pending, written)
    ensures StreamBytes(sent + [queue[0]], id) <= written
  {
    var head, tail := [queue[0]], queue[1..];
    assert queue == head + tail;
    StreamBytesConcat(head, tail, id);
    StreamBytesConcat(sent, head, id);
    Associate(StreamBytes(sent, id), StreamBytes(head, id), StreamBytes(tail, id), pending);
  }

  lemma Associate(a: seq<Byte>, b: seq<Byte>, c: seq<Byte>, d: seq<Byte>)
    ensures a + b + c + d == a + (b + c) + d == a + b + (c + d)
  {
  }

  lemma SealKeepsLayers(aead: Aead, w: World, c: RelayCell)
    requires aead.Ideal() && LayersInv(w) && |c.data| <= RELAY_INNER_MAX_DATA
    ensures LayersInv(SealCell(aead, w, c))
  {
    var next := SealCell(aead, w, c);
    SealKeepsMatch(aead, w.inner, w.sent, c);
    assert SealsMatch(next.inner, next.sent);
    var ct := SealAt(aead, w.inner.key, w.inner.sendCounter, InnerPlain(c));
    if ct.Ok? { LinkStepKeepsInv(aead, w.outer, Seal(OuterPlain(ct.value))); }
    assert (w.sent + [c])[..|w.inner.accepted|] == w.sent[..|w.inner.accepted|];
  }

  lemma FlushKeepsInv(aead: Aead, w: World)
    requires aead.Ideal() && Inv(w)
    ensures Inv(FlushStep(aead, w))
  {
    if !w.closed && w.queue != [] {
      SealKeepsLayers(aead, Taken(aead, w), w.queue[0]);
      FlushIsSendRaw(aead, w);
      FlushKeepsStreams(w, FlushStep(aead, w));
    }
  }

  /** A cell that carries no stream bytes may be sealed ahead of the queue. */
  lemma ConnectKeepsInv(aead: Aead, w: World, c: RelayCell)
    requires aead.Ideal() && Inv(w) && c.command != Data && |c.data| <= RELAY_INNER_MAX_DATA
    ensures Inv(SealCell(aead, w, c))
  {
    SealKeepsLayers(aead, w, c);
    var sent := SealCell(aead, w, c).sent;
    forall id: U16 ensures StreamBytes(sent, id) == StreamBytes(w.sent, id) {
      OneCell(c, id);
      StreamBytesConcat(w.sent, [c], id);
    }
  }

  /** Flushing moves one cell from the queue to the sent cells, unless it closes the circuit. */
  lemma FlushKeepsStreams(w: World, next: World)
    requires StreamsInv(w) && w.queue != [] && !w.closed
    requires next.queue == w.queue[1..] && next.pending == w.pending && next.written == w.written
    requires next.sent == w.sent + [w.queue[0]] || (next.closed && next.sent == w.sent)
    ensures StreamsInv(next)
  {
    forall id: U16
      ensures StreamBytes(next.sent, id) <= Get(next.written, id)
      ensures !next.closed ==> ConservedOn(id, next.sent, next.queue, Get(next.pending, id), Get(next.written, id))
    {
      MoveToSent(w.sent, w.queue, Get(w.pending, id), Get(w.written, id), id);
    }
  }

  lemma OneCell(c: RelayCell, id: U16)
    ensures StreamBytes([c], id) == if c.command == Data && c.streamId == id then c.data else []
  {
    assert [c][1..] == [];
  }

  /** Queueing the first `n` bytes a writer holds loses and reorders nothing, on its stream or any other. */
  lemma CutToQueue(sent: seq<RelayCell>, queue: seq<RelayCell>, p: seq<Byte>, n: nat, written: seq<Byte>,
                   cell: RelayCell, id: U16)
    requires ConservedOn(id, sent, queue, p, written) && n <= |p|
    requires n == 0 <== cell.command != Data || cell.streamId != id
    requires cell.command == Data && cell.streamId == id ==> cell.data == p[..n]
    ensures ConservedOn(id, sent, queue + [cell], p[n..], written)
  {
    OneCell(cell, id);
    StreamBytesConcat(queue, [cell], id);
    Associate(StreamBytes(sent, id), StreamBytes(queue, id), StreamBytes([cell], id), p[n..]);
    assert StreamBytes([cell], id) + p[n..] == p;
  }

  lemma QueueKeepsStreams(w: World, next: World, cell: RelayCell, n: nat)
    requires StreamsInv(w)
    requires next.sent == w.sent && next.queue == w.queue + [cell] && next.written == w.written && next.closed == w.closed
    requires cell.command == Data ==>
               && n <= |Get(w.pending, cell.streamId)| && cell.data == Get(w.pending, cell.streamId)[..n]
               && next.pending == w.pending[cell.streamId := Get(w.pending, cell.streamId)[n..]]
    requires cell.command != Data ==> next.pending == w.pending
    ensures StreamsInv(next)
  {
    forall id: U16 | !w.closed
      ensures ConservedOn(id, next.sent, next.queue, Get(next.pending, id), Get(next.written, id))
    {
      var k := if cell.command == Data && cell.streamId == id then n else 0;
      CutToQueue(w.sent, w.queue, Get(w.pending, id), k, Get(w.written, id), cell, id);
    }
  }

  lemma GetUpdated(m: map<U16, seq<Byte>>, id: U16, v: seq<Byte>, any: U16)
    ensures Get(m[id := v], any) == if any == id then v else Get(m, any)
  {
  }

  /** More written and all of that still pending loses nothing. */
  lemma MoreWritten(id: U16, sent: seq<RelayCell>, queue: seq<RelayCell>, written: seq<Byte>, bytes: seq<Byte>)
    ensures ConservedOn(id, sent, queue, [], written) ==> ConservedOn(id, sent, queue, bytes, written + bytes)
    ensures StreamBytes(sent, id) <= written ==> StreamBytes(sent, id) <= written + bytes
  {
    var carried := StreamBytes(sent, id) + StreamBytes(queue, id);
    assert carried + [] == carried;
  }

  lemma WriteKeepsStreams(w: World, next: World, id: U16, bytes: seq<Byte>)
    requires StreamsInv(w) && Get(w.pending, id) == []
    requires next == w.(written := w.written[id := Get(w.written, id) + bytes], pending := w.pending[id := bytes])
    ensures StreamsInv(next)
  {
    forall any: U16
      ensures StreamBytes(next.sent, any) <= Get(next.written, any)
      ensures !next.closed ==> ConservedOn(any, next.sent, next.queue, Get(next.pending, any), Get(next.written, any))
    {
      assert StreamBytes(w.sent, any) <= Get(w.written, any);
      GetUpdated(w.written, id, Get(w.written, id) + bytes, any);
      GetUpdated(w.pending, id, bytes, any);
      MoreWritten(any, w.sent, w.queue, Get(w.written, any), bytes);
    }
  }

  /** Whatever reaches the exit, it decodes either nothing or exactly the next cell the client sent. */
  lemma ExitDecodesTheNext(aead: Aead, w: World, ct: seq<Byte>)
    requires aead.Ideal() && Inv(w) && |ct| == RELAY_INNER_CT_LEN && Unforged(aead, w.inner, ct)
    ensures var next := LinkStep(aead, w.inner, Deliver(ct));
            && SealsMatch(next, w.sent)
            && w.received + Exit(aead, w.inner, ct) == w.sent[..|next.accepted|]
  {
    LinkStepKeepsInv(aead, w.inner, Deliver(ct));
    AcceptsExactlyTheNext(aead, w.inner, ct);
    if OpenAt(aead, w.inner.key, w.inner.recvCounter, ct).Ok? {
      RelayRoundTrip(w.sent[w.inner.recvCounter], RELAY_INNER_PLAINTEXT_LEN);
    }
  }

  lemma StepKeepsInv(aead: Aead, w: World, e: Event)
    requires aead.Ideal() && Inv(w) && PlausibleEvent(aead, w, e)
    ensures Inv(Step(aead, w, e))
  {
    match e
    case Write(id, bytes) =>
      if Get(w.pending, id) == [] { WriteKeepsStreams(w, Step(aead, w, e), id, bytes); }
    case Chunk(id) =>
      var p := Get(w.pending, id);
      if p != [] {
        var n := Smaller(|p|, RELAY_INNER_MAX_DATA);
        QueueKeepsStreams(w, Step(aead, w, e), RelayCell(Data, id, p[..n]), n);
      }
    case Enqueue(cell) =>
      if Step(aead, w, e) != w { QueueKeepsStreams(w, Step(aead, w, e), cell, 0); }
    case Flush => FlushKeepsInv(aead, w);
    case Connect(id, target) =>
      if |target| <= RELAY_INNER_MAX_DATA { ConnectKeepsInv(aead, w, RelayCell(Begin, id, target)); }
    case ToRelay1(wire) =>
      if |wire| == CELL_SIZE && ParseCell(wire).Ok? {
        LinkStepKeepsInv(aead, w.outer, Deliver(wire[5..]));
      }
    case ToRelay2(payload) => ExitDecodesTheNext(aead, w, payload[..RELAY_INNER_CT_LEN]);
  }

  function Run(aead: Aead, w: World, events: seq<Event>): World
    requires aead.Ideal() && Fits(w.queue)
    decreases |events|
  {
    if events == [] then w else Run(aead, Step(aead, w, events[0]), events[1..])
  }

  ghost predicate Plausible(aead: Aead, w: World, events: seq<Event>)
    requires aead.Ideal() && Fits(w.queue)
    decreases |events|
  {
    events != [] ==>
      && PlausibleEvent(aead, w, events[0])
      && Plausible(aead, Step(aead, w, events[0]), events[1..])
  }

  lemma {:induction false} RunKeepsInv(aead: Aead, w: World, events: seq<Event>)
    requires aead.Ideal() && Inv(w) && Plausible(aead, w, events)
    ensures Inv(Run(aead, w, events))
    decreases |events|
  {
    if events != [] {
      StepKeepsInv(aead, w, events[0]);
      RunKeepsInv(aead, Step(aead, w, events[0]), events[1..]);
    }
  }

  function ChunkEvents(id: U16, n: nat): seq<Event> {
    if n == 0 then [] else [Chunk(id)] + ChunkEvents(id, n - 1)
  }

  /** Cutting what a writer holds, step by step, queues the cells of one write of it. */
  lemma {:induction false} ChunkRun(aead: Aead, w: World, id: U16)
    requires aead.Ideal() && Fits(w.queue)
    ensures var p := Get(w.pending, id);
            var end := Run(aead, w, ChunkEvents(id, |Chunks(id, p)|));
            && end.queue == w.queue + Chunks(id, p) && Get(end.pending, id) == []
            && end == w.(queue := end.queue, pending := end.pending)
            && forall other: U16 :: other != id ==> Get(end.pending, other) == Get(w.pending, other)
    decreases |Get(w.pending, id)|
  {
    var p := Get(w.pending, id);
    if p != [] {
      var next, n := Step(aead, w, Chunk(id)), |Chunks(id, p)|;
      ChunksStep(id, p);
      ChunkRun(aead, next, id);
      var cell := [RelayCell(Data, id, p[..Smaller(|p|, RELAY_INNER_MAX_DATA)])];
      var rest := Chunks(id, Get(next.pending, id));
      assert ChunkEvents(id, n)[1..] == ChunkEvents(id, n - 1);
      assert w.queue + cell + rest == w.queue + (cell + rest);
    }
  }

  /** An uninterrupted write puts the cells that `OutboundQueue.Write` sends behind what is queued. */
  lemma WriteIsChunked(aead: Aead, w: World, id: U16, bytes: seq<Byte>)
    requires aead.Ideal() && Fits(w.queue) && Get(w.pending, id) == []
    ensures var end := Run(aead, w, [Write(id, bytes)] + ChunkEvents(id, |Chunks(id, bytes)|));
            && end.queue == w.queue + Chunks(id, bytes)
            && Get(end.pending, id) == [] && Get(end.written, id) == Get(w.written, id) + bytes
  {
    var events := ChunkEvents(id, |Chunks(id, bytes)|);
    assert ([Write(id, bytes)] + events)[1..] == events;
    ChunkRun(aead, Step(aead, w, Write(id, bytes)), id);
  }

  /**
   Safety on two hops: over every interleaving of writes, chunking, flushing, stream openings and any non-forging
   behaviour of the networks and of the first relay, what the exit gets on each stream is a prefix of what was written to it.
   */
  lemma ExitSeesPrefixOfWrites(aead: Aead, circuitId: U32, outer: Link, key2: Key, events: seq<Event>, id: U16)
    requires aead.Ideal() && LinkInv(outer)
    requires Plausible(aead, NewWorld(circuitId, outer, key2), events)
    ensures var end := Run(aead, NewWorld(circuitId, outer, key2), events);
            && end.received <= end.sent
            && StreamBytes(end.received, id) <= Get(end.written, id)
  {
    RunKeepsInv(aead, NewWorld(circuitId, outer, key2), events);
    var end := Run(aead, NewWorld(circuitId, outer, key2), events);
    PrefixCarriesPrefix(end.received, end.sent, id);
  }

  // ---------------------------------------------------------------- a faithful network loses nothing

  /** What an honest first relay forwards for a wire cell: the inner ciphertext in a RelayInner payload. */
  function Relay1Forward(aead: Aead, outer: Link, wire: seq<Byte>): Option<Payload>
    requires aead.Ideal() && |wire| == CELL_SIZE
  {
    match ParseCell(wire)
    case Err(_) => None
    case Ok(cell) =>
      match OpenAt(aead, outer.key, outer.recvCounter, cell.payload)
      case Err(_) => None
      case Ok(plain) =>
        match ParseRelay(plain)
        case Err(_) => None
        case Ok(c) =>
          if c.command == Forward && |c.data| == RELAY_INNER_CT_LEN
          then Some(c.data + Zeros(CELL_PAYLOAD_LEN - RELAY_INNER_CT_LEN))
          else None
  }

  ghost predicate InSync(w: World) {
    w.outer.sendCounter == w.outer.recvCounter && w.inner.sendCounter == w.inner.recvCounter
  }

  /** One cell all the way: seal it, deliver its bytes to the first relay, deliver what that relay forwards. */
  function FaithfulSend(aead: Aead, w: World, c: RelayCell): (next: World)
    requires aead.Ideal() && Fits(w.queue) && |c.data| <= RELAY_INNER_MAX_DATA
    ensures Fits(next.queue)
  {
    var r := SendRaw(aead, w.circuitId, Outs(w), c);
    if r.0.Err? then SealCell(aead, w, c) else Carry(aead, SealCell(aead, w, c), CellBytes(r.0.value))
  }

  function FaithfulFlush(aead: Aead, w: World): (next: World)
    requires aead.Ideal() && Fits(w.queue)
    ensures Fits(next.queue)
  {
    if w.closed || w.queue == [] then w else FaithfulSend(aead, Taken(aead, w), w.queue[0])
  }

  /** A wire cell reaches the first relay, and what that relay forwards reaches the exit. */
  function Carry(aead: Aead, w: World, wire: seq<Byte>): (next: World)
    requires aead.Ideal() && Fits(w.queue) && |wire| == CELL_SIZE
    ensures Fits(next.queue)
  {
    var forwarded := Relay1Forward(aead, w.outer, wire);
    var atRelay1 := Step(aead, w, ToRelay1(wire));
    if forwarded.None? then atRelay1 else Step(aead, atRelay1, ToRelay2(forwarded.value))
  }

  function FaithfulStep(aead: Aead, w: World, e: Event): (next: World)
    requires aead.Ideal() && Fits(w.queue)
    ensures Fits(next.queue)
  {
    match e
    case Flush => FaithfulFlush(aead, w)
    case Connect(id, target) =>
      if |target| > RELAY_INNER_MAX_DATA then w else FaithfulSend(aead, w, RelayCell(Begin, id, target))
    case ToRelay1(_) => w
    case ToRelay2(_) => w
    case _ => Step(aead, w, e)
  }

  function FaithfulRun(aead: Aead, w: World, events: seq<Event>): World
    requires aead.Ideal() && Fits(w.queue)
    decreases |events|
  {
    if events == [] then w else FaithfulRun(aead, FaithfulStep(aead, w, events[0]), events[1..])
  }

  /** An honest first relay recovers the inner ciphertext from the client's wire cell. */
  lemma Relay1Recovers(aead: Aead, outer: Link, circuitId: U32, ct: seq<Byte>)
    requires aead.Ideal() && LinkInv(outer) && |ct| == RELAY_INNER_CT_LEN && outer.recvCounter < U64_MAX
    ensures var payload := aead.seal(outer.key, NonceFor(outer.recvCounter), OuterPlain(ct));
            && |payload| == CELL_PAYLOAD_LEN
            && var wire := CellBytes(Cell(circuitId, Relay, payload));
               && ParseCell(wire) == Ok(Cell(circuitId, Relay, payload))
               && Relay1Forward(aead, outer, wire) == Some(ct + Zeros(CELL_PAYLOAD_LEN - RELAY_INNER_CT_LEN))
  {
    RelayRoundTrip(RelayCell(Forward, 0, ct), RELAY_PLAINTEXT_LEN);
    var payload := aead.seal(outer.key, NonceFor(outer.recvCounter), OuterPlain(ct));
    CellRoundTrip(Cell(circuitId, Relay, payload));
  }

  /** The exit decodes the cell that the client sealed, when its counter matches. */
  lemma ExitRecovers(aead: Aead, inner: Link, c: RelayCell)
    requires aead.Ideal() && inner.recvCounter < U64_MAX && |c.data| <= RELAY_INNER_MAX_DATA
    ensures var ct := aead.seal(inner.key, NonceFor(inner.recvCounter), InnerPlain(c));
            && |ct| == RELAY_INNER_CT_LEN
            && Exit(aead, inner, ct) == [c]
            && LinkStep(aead, inner, Deliver(ct))
               == inner.(recvCounter := inner.recvCounter + 1, accepted := inner.accepted + [InnerPlain(c)])
  {
    RelayRoundTrip(c, RELAY_INNER_PLAINTEXT_LEN);
  }

  /** The world after one cell has gone all the way. */
  function Delivered(w: World, c: RelayCell, outerPlain: seq<Byte>): World
    requires |c.data| <= RELAY_INNER_MAX_DATA
    requires w.outer.sendCounter < U64_MAX && w.inner.sendCounter < U64_MAX
    requires w.outer.recvCounter < U64_MAX && w.inner.recvCounter < U64_MAX
  {
    w.(sent := w.sent + [c], received := w.received + [c],
       outer := Passed(w.outer, outerPlain), inner := Passed(w.inner, InnerPlain(c)))
  }

  /** A link over which one more plaintext has gone from end to end. */
  function Passed(l: Link, plain: seq<Byte>): Link
    requires l.sendCounter < U64_MAX && l.recvCounter < U64_MAX
  {
    l.(sendCounter := l.sendCounter + 1, nonces := l.nonces + [NonceFor(l.sendCounter)],
       sealed := l.sealed + [plain], recvCounter := l.recvCounter + 1, accepted := l.accepted + [plain])
  }

  lemma SealSends(aead: Aead, w: World, c: RelayCell)
    requires aead.Ideal() && |c.data| <= RELAY_INNER_MAX_DATA
    requires w.outer.sendCounter < U64_MAX && w.inner.sendCounter < U64_MAX
    ensures var ct := aead.seal(w.inner.key, NonceFor(w.inner.sendCounter), InnerPlain(c));
            && |ct| == RELAY_INNER_CT_LEN
            && var payload := aead.seal(w.outer.key, NonceFor(w.outer.sendCounter), OuterPlain(ct));
               && |payload| == CELL_PAYLOAD_LEN
               && SendRaw(aead, w.circuitId, Outs(w), c).0 == Ok(Cell(w.circuitId, Relay, payload))
               && SealCell(aead, w, c)
                  == w.(sent := w.sent + [c],
                        inner := LinkStep(aead, w.inner, Seal(InnerPlain(c))),
                        outer := LinkStep(aead, w.outer, Seal(OuterPlain(ct))))
  {
  }

  lemma CarryDelivers(aead: Aead, w: World, c: RelayCell)
    requires aead.Ideal() && LinkInv(w.outer) && Fits(w.queue) && |c.data| <= RELAY_INNER_MAX_DATA
    requires w.outer.recvCounter < U64_MAX && w.inner.recvCounter < U64_MAX
    ensures var ct := aead.seal(w.inner.key, NonceFor(w.inner.recvCounter), InnerPlain(c));
            && |ct| == RELAY_INNER_CT_LEN
            && var payload := aead.seal(w.outer.key, NonceFor(w.outer.recvCounter), OuterPlain(ct));
               && |payload| == CELL_PAYLOAD_LEN
               && Carry(aead, w, CellBytes(Cell(w.circuitId, Relay, payload)))
                  == w.(outer := w.outer.(recvCounter := w.outer.recvCounter + 1,
                                          accepted := w.outer.accepted + [OuterPlain(ct)]),
                        inner := w.inner.(recvCounter := w.inner.recvCounter + 1,
                                          accepted := w.inner.accepted + [InnerPlain(c)]),
                        received := w.received + [c])
  {
    ExitRecovers(aead, w.inner, c);
    var ct := aead.seal(w.inner.key, NonceFor(w.inner.recvCounter), InnerPlain(c));
    Relay1Recovers(aead, w.outer, w.circuitId, ct);
    var forwarded := ct + Zeros(CELL_PAYLOAD_LEN - RELAY_INNER_CT_LEN);
    assert forwarded[..RELAY_INNER_CT_LEN] == ct;
  }

  /** A cell sealed while both hops are in step reaches the exit and leaves them in step. */
  lemma FaithfulSendDelivers(aead: Aead, w: World, c: RelayCell)
    requires aead.Ideal() && LayersInv(w) && InSync(w) && |c.data| <= RELAY_INNER_MAX_DATA
    requires w.outer.sendCounter < U64_MAX && w.inner.sendCounter < U64_MAX
    ensures var ct := aead.seal(w.inner.key, NonceFor(w.inner.sendCounter), InnerPlain(c));
            |ct| == RELAY_INNER_CT_LEN && FaithfulSend(aead, w, c) == Delivered(w, c, OuterPlain(ct))
  {
    SealSends(aead, w, c);
    CarryDelivers(aead, SealCell(aead, w, c), c);
  }

  /** The head of the queue goes all the way and the circuit stays open. */
  lemma FaithfulFlushDelivers(aead: Aead, w: World)
    requires aead.Ideal() && LayersInv(w) && InSync(w) && !w.closed && w.queue != []
    requires w.outer.sendCounter < U64_MAX && w.inner.sendCounter < U64_MAX
    ensures var ct := aead.seal(w.inner.key, NonceFor(w.inner.sendCounter), InnerPlain(w.queue[0]));
            && |ct| == RELAY_INNER_CT_LEN
            && FaithfulFlush(aead, w) == Delivered(w.(queue := w.queue[1..]), w.queue[0], OuterPlain(ct))
  {
    SealIsSendRaw(aead, w, w.queue[0]);
    assert Taken(aead, w) == w.(queue := w.queue[1..]);
    FaithfulSendDelivers(aead, Taken(aead, w), w.queue[0]);
  }

  /** In-order, lossless so far: both hops' counters agree and the exit has every cell the client sent. */
  ghost predicate Caught(w: World) {
    Inv(w) && InSync(w) && !w.closed && w.received == w.sent
  }

  lemma DeliveredKeepsLayers(w: World, c: RelayCell, outerPlain: seq<Byte>)
    requires LayersInv(w) && InSync(w) && w.received == w.sent && |c.data| <= RELAY_INNER_MAX_DATA
    requires w.outer.sendCounter < U64_MAX && w.inner.sendCounter < U64_MAX
    ensures var next := Delivered(w, c, outerPlain);
            LayersInv(next) && InSync(next) && next.received == next.sent
  {
    var next := Delivered(w, c, outerPlain);
    assert next.received == next.sent[..|next.inner.accepted|];
  }

  lemma FlushedKeepsCaught(w: World, outerPlain: seq<Byte>)
    requires Caught(w) && w.queue != []
    requires w.outer.sendCounter < U64_MAX && w.inner.sendCounter < U64_MAX
    ensures Caught(Delivered(w.(queue := w.queue[1..]), w.queue[0], outerPlain))
  {
    DeliveredKeepsLayers(w.(queue := w.queue[1..]), w.queue[0], outerPlain);
    FlushKeepsStreams(w, Delivered(w.(queue := w.queue[1..]), w.queue[0], outerPlain));
  }

  lemma ConnectedKeepsCaught(w: World, c: RelayCell, outerPlain: seq<Byte>)
    requires Caught(w) && c.command != Data && |c.data| <= RELAY_INNER_MAX_DATA
    requires w.outer.sendCounter < U64_MAX && w.inner.sendCounter < U64_MAX
    ensures Caught(Delivered(w, c, outerPlain))
  {
    DeliveredKeepsLayers(w, c, outerPlain);
    forall id: U16 ensures StreamBytes(w.sent + [c], id) == StreamBytes(w.sent, id) {
      OneCell(c, id);
      StreamBytesConcat(w.sent, [c], id);
    }
  }

  lemma FaithfulStepKeepsCaught(aead: Aead, w: World, e: Event)
    requires aead.Ideal() && Caught(w)
    requires w.outer.sendCounter < U64_MAX && w.inner.sendCounter < U64_MAX
    ensures var next := FaithfulStep(aead, w, e);
            && Caught(next)
            && next.outer.sendCounter <= w.outer.sendCounter + 1
            && next.inner.sendCounter <= w.inner.sendCounter + 1
  {
    match e
    case Flush =>
      if w.queue != [] {
        FaithfulFlushDelivers(aead, w);
        var ct := aead.seal(w.inner.key, NonceFor(w.inner.sendCounter), InnerPlain(w.queue[0]));
        FlushedKeepsCaught(w, OuterPlain(ct));
      }
    case Connect(id, target) =>
      if |target| <= RELAY_INNER_MAX_DATA {
        var c := RelayCell(Begin, id, target);
        FaithfulSendDelivers(aead, w, c);
        var ct := aead.seal(w.inner.key, NonceFor(w.inner.sendCounter), InnerPlain(c));
        ConnectedKeepsCaught(w, c, OuterPlain(ct));
      }
    case ToRelay1(_) =>
    case ToRelay2(_) =>
    case _ => StepKeepsInv(aead, w, e);
  }

  lemma {:induction false} FaithfulRunKeepsCaught(aead: Aead, w: World, events: seq<Event>)
    requires aead.Ideal() && Caught(w)
    requires w.outer.sendCounter + |events| <= U64_MAX && w.inner.sendCounter + |events| <= U64_MAX
    ensures Caught(FaithfulRun(aead, w, events))
    decreases |events|
  {
    if events != [] {
      FaithfulStepKeepsCaught(aead, w, events[0]);
      FaithfulRunKeepsCaught(aead, FaithfulStep(aead, w, events[0]), events[1..]);
    }
  }

  /**
   Transparency on two hops: over every interleaving of writes and stream openings, when the network
   delivers, the exit has on every
   stream exactly the bytes written, except those still queued or with their writer; and sender and receiver
   counters are equal at both hops.
   */
  lemma TwoHopTransparency(aead: Aead, circuitId: U32, outer: Link, key2: Key, events: seq<Event>, id: U16)
    requires aead.Ideal() && LinkInv(outer) && outer.sendCounter == outer.recvCounter
    requires outer.sendCounter + |events| <= U64_MAX
    ensures var end := FaithfulRun(aead, NewWorld(circuitId, outer, key2), events);
            && InSync(end)
            && StreamBytes(end.received, id) + StreamBytes(end.queue, id) + Get(end.pending, id)
               == Get(end.written, id)
            && (StreamBytes(end.queue, id) == [] && Get(end.pending, id) == [] ==>
                  StreamBytes(end.received, id) == Get(end.written, id))
  {
    FaithfulRunKeepsCaught(aead, NewWorld(circuitId, outer, key2), events);
    var end := FaithfulRun(aead, NewWorld(circuitId, outer, key2), events);
    assert ConservedOn(id, end.sent, end.queue, Get(end.pending, id), Get(end.written, id));
  }
}
