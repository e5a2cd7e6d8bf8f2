/**
 The return direction of a two-hop circuit: the exit seals the inner layer, the first relay wraps whatever it
 likes in the outer layer, and the client peels and dispatches (gptl-transport, circuit.rs 367-509).
 */
module OnionReturn {
  import opened Bytes
  import opened Cells
  import opened CellCrypto
  import opened Streams
  import opened Circuit
  import opened Onion

  // ---------------------------------------------------------------- a faithful return path

  /** The wire cell for one cell of the exit, sealed by the exit under `ins[1]` and by the first relay under `ins[0]`. */
  function Wrap(aead: Aead, circuitId: U32, ins: seq<CipherState>, c: RelayCell): Cell
    requires aead.Ideal() && |ins| == 2 && |c.data| <= RELAY_INNER_MAX_DATA
  {
    var ct := aead.seal(ins[1].key, NonceFor(ins[1].counter), InnerPlain(c));
    Cell(circuitId, Relay, aead.seal(ins[0].key, NonceFor(ins[0].counter), OuterPlain(ct)))
  }

  function BumpBoth(ins: seq<CipherState>): (next: seq<CipherState>)
    requires |ins| == 2 && ins[0].counter < U64_MAX && ins[1].counter < U64_MAX
    ensures |next| == 2
  {
    [Bump(ins[0]), Bump(ins[1])]
  }

  function WrapAll(aead: Aead, circuitId: U32, ins: seq<CipherState>, cells: seq<RelayCell>): seq<Cell>
    requires aead.Ideal() && |ins| == 2 && Fits(cells)
    requires ins[0].counter + |cells| <= U64_MAX && ins[1].counter + |cells| <= U64_MAX
    decreases |cells|
  {
    if cells == [] then []
    else [Wrap(aead, circuitId, ins, cells[0])] + WrapAll(aead, circuitId, BumpBoth(ins), cells[1..])
  }

  /** Everything the client gets out of a sequence of wire cells, stopping at the first error, and its ciphers then. */
  function PeelAll(aead: Aead, ins: seq<CipherState>, wire: seq<Cell>)
    : (Result<seq<RelayCell>, TransportError>, seq<CipherState>)
    requires aead.Ideal() && ins != []
    decreases |wire|
  {
    if wire == [] then (Ok([]), ins)
    else
      var head := Peel(aead, ins, wire[0]);
      match head.0
      case Err(e) => (Err(e), head.1)
      case Ok(d) =>
        var tail := PeelAll(aead, head.1, wire[1..]);
        (match tail.0
         case Err(e) => (Err(e), tail.1)
         case Ok(cells) => (Ok((if d.Inner? then [d.cell] else []) + cells), tail.1))
  }

  lemma PeelUnwraps(aead: Aead, circuitId: U32, ins: seq<CipherState>, c: RelayCell)
    requires aead.Ideal() && |ins| == 2 && |c.data| <= RELAY_INNER_MAX_DATA
    requires ins[0].counter < U64_MAX && ins[1].counter < U64_MAX
    ensures Peel(aead, ins, Wrap(aead, circuitId, ins, c)) == (Ok(Inner(c)), BumpBoth(ins))
  {
    var ct := aead.seal(ins[1].key, NonceFor(ins[1].counter), InnerPlain(c));
    RelayRoundTrip(c, RELAY_INNER_PLAINTEXT_LEN);
    RelayRoundTrip(RelayCell(Forward, 0, ct), RELAY_PLAINTEXT_LEN);
    assert ins[0 := Bump(ins[0])][1 := Bump(ins[1])] == BumpBoth(ins);
  }

  lemma PeelAllCons(aead: Aead, ins: seq<CipherState>, next: seq<CipherState>, w: Cell, c: RelayCell,
                    rest: seq<Cell>, cells: seq<RelayCell>, end: seq<CipherState>)
    requires aead.Ideal() && ins != [] && next != []
    requires Peel(aead, ins, w) == (Ok(Inner(c)), next)
    requires PeelAll(aead, next, rest) == (Ok(cells), end)
    ensures PeelAll(aead, ins, [w] + rest) == (Ok([c] + cells), end)
  {
    assert ([w] + rest)[1..] == rest;
  }

  /** Both inbound ciphers after `n` more cells. */
  function PlusBoth(ins: seq<CipherState>, n: nat): (next: seq<CipherState>)
    requires |ins| == 2 && ins[0].counter + n <= U64_MAX && ins[1].counter + n <= U64_MAX
    ensures |next| == 2
  {
    [ins[0].(counter := ins[0].counter + n), ins[1].(counter := ins[1].counter + n)]
  }

  lemma PlusBump(ins: seq<CipherState>, n: nat)
    requires |ins| == 2 && ins[0].counter + n <= U64_MAX && ins[1].counter + n <= U64_MAX
    ensures n > 0 ==> PlusBoth(BumpBoth(ins), n - 1) == PlusBoth(ins, n)
    ensures PlusBoth(ins, 0) == ins
  {
  }

  ghost predicate Recovers(aead: Aead, circuitId: U32, ins: seq<CipherState>, cells: seq<RelayCell>)
    requires aead.Ideal() && |ins| == 2 && Fits(cells)
    requires ins[0].counter + |cells| <= U64_MAX && ins[1].counter + |cells| <= U64_MAX
  {
    PeelAll(aead, ins, WrapAll(aead, circuitId, ins, cells)) == (Ok(cells), PlusBoth(ins, |cells|))
  }

  lemma RecoversOneMore(aead: Aead, circuitId: U32, ins: seq<CipherState>, c: RelayCell, rest: seq<RelayCell>)
    requires aead.Ideal() && |ins| == 2 && |c.data| <= RELAY_INNER_MAX_DATA && Fits(rest)
    requires ins[0].counter + |rest| + 1 <= U64_MAX && ins[1].counter + |rest| + 1 <= U64_MAX
    requires Recovers(aead, circuitId, BumpBoth(ins), rest)
    ensures Recovers(aead, circuitId, ins, [c] + rest)
  {
    var cells, next := [c] + rest, BumpBoth(ins);
    PeelUnwraps(aead, circuitId, ins, c);
    PlusBump(ins, |cells|);
    assert cells[1..] == rest;
    var w, ws := Wrap(aead, circuitId, ins, c), WrapAll(aead, circuitId, next, rest);
    PeelAllCons(aead, ins, next, w, c, ws, rest, PlusBoth(next, |rest|));
  }

  /** Transparency of the return path: the client recovers exactly the exit's cells, and both counters keep pace. */
  lemma {:induction false} ReturnTransparency(aead: Aead, circuitId: U32, ins: seq<CipherState>, cells: seq<RelayCell>)
    requires aead.Ideal() && |ins| == 2 && Fits(cells)
    requires ins[0].counter + |cells| <= U64_MAX && ins[1].counter + |cells| <= U64_MAX
    ensures Recovers(aead, circuitId, ins, cells)
    decreases |cells|
  {
    if cells == [] {
      PlusBump(ins, 0);
    } else {
      ReturnTransparency(aead, circuitId, BumpBoth(ins), cells[1..]);
      RecoversOneMore(aead, circuitId, ins, cells[0], cells[1..]);
      assert cells == [cells[0]] + cells[1..];
    }
  }

  /** A queue that was empty holds exactly the messages logged for its stream. */
  lemma QueueFromEmpty(mux: Mux, log: seq<MuxEvent>, id: U16)
    requires MuxInv(mux) && id in mux.streams && mux.channels[mux.streams[id]] == []
    ensures var k, channels := mux.streams[id], MuxRun(mux, log).channels;
            k < |channels| && channels[k] == MessagesFor(log, id)
  {
    QueueGetsItsCells(mux, log, id);
    var messages := MessagesFor(log, id);
    assert [] + messages == messages;
  }

  /**
   Transparency of a delivering return path, per stream: whatever cells the exit sends and whatever streams are
   opened while they arrive, the reader of an open stream gets exactly the bytes sent on it up to its first End.
   */
  lemma StreamTransparency(aead: Aead, circuitId: U32, ins: seq<CipherState>, cells: seq<RelayCell>,
                           mux: Mux, log: seq<MuxEvent>, id: U16)
    requires aead.Ideal() && |ins| == 2 && Fits(cells)
    requires ins[0].counter + |cells| <= U64_MAX && ins[1].counter + |cells| <= U64_MAX
    requires MuxInv(mux) && id in mux.streams && mux.channels[mux.streams[id]] == []
    requires PeelAll(aead, ins, WrapAll(aead, circuitId, ins, cells)).0 == Ok(CellsOf(log))
    ensures var k, channels := mux.streams[id], MuxRun(mux, log).channels;
            k < |channels| && ReadableBytes(channels[k]) == StreamBytes(CutAtEnd(cells, id), id)
  {
    ReturnTransparency(aead, circuitId, ins, cells);
    QueueFromEmpty(mux, log, id);
    ReaderSeesStreamBytes(log, id);
  }

  // ---------------------------------------------------------------- any first relay, any network

  /**
   `outer` and `inner` are the two links towards the client, `sent` what the exit has sealed, `log` everything
   that has happened to the client's stream table, which started as `mux0`.
   */
  datatype Return = Return(outer: Link, inner: Link, sent: seq<RelayCell>, mux0: Mux, log: seq<MuxEvent>)

  datatype ReturnEvent =
    | ExitSends(cell: RelayCell)
    | Relay1Seals(plain: seq<Byte>)
    | ClientOpens(id: U16)
    | ToClient(wire: Cell)

  function Ins(r: Return): seq<CipherState> {
    [CipherState(r.outer.key, r.outer.recvCounter), CipherState(r.inner.key, r.inner.recvCounter)]
  }

  /** The inner ciphertext that the client's first hop uncovers in a wire cell. */
  function Uncovered(aead: Aead, outer: Link, cell: Cell): Option<seq<Byte>>
    requires aead.Ideal()
  {
    if cell.cellType != Relay then None
    else
      match OpenAt(aead, outer.key, outer.recvCounter, cell.payload)
      case Err(_) => None
      case Ok(plain) =>
        match ParseRelay(plain)
        case Err(_) => None
        case Ok(c) => if c.command == Forward && |c.data| == RELAY_INNER_CT_LEN then Some(c.data) else None
  }

  function ReturnStep(aead: Aead, r: Return, e: ReturnEvent): Return
    requires aead.Ideal()
  {
    match e
    case ExitSends(cell) =>
      if |cell.data| > RELAY_INNER_MAX_DATA || r.inner.sendCounter == U64_MAX then r
      else r.(sent := r.sent + [cell], inner := LinkStep(aead, r.inner, Seal(InnerPlain(cell))))
    case Relay1Seals(plain) => r.(outer := LinkStep(aead, r.outer, Seal(plain)))
    case ClientOpens(id) => r.(log := r.log + [Open(id)])
    case ToClient(cell) =>
      var ct := Uncovered(aead, r.outer, cell);
      var peeled := Peel(aead, Ins(r), cell);
      r.(outer := if cell.cellType == Relay then LinkStep(aead, r.outer, Deliver(cell.payload)) else r.outer,
         inner := if ct.Some? then LinkStep(aead, r.inner, Deliver(ct.value)) else r.inner,
         log := if peeled.0.Ok? && peeled.0.value.Inner? then r.log + [Inbound(peeled.0.value.cell)] else r.log)
  }

  ghost predicate PlausibleReturn(aead: Aead, r: Return, e: ReturnEvent)
    requires aead.Ideal()
  {
    e.ToClient? ==>
      && Unforged(aead, r.outer, e.wire.payload)
      && var ct := Uncovered(aead, r.outer, e.wire); ct.Some? ==> Unforged(aead, r.inner, ct.value)
  }

  /** The links follow the client's own counters. */
  lemma ToClientIsPeel(aead: Aead, r: Return, cell: Cell)
    requires aead.Ideal()
    ensures Ins(ReturnStep(aead, r, ToClient(cell))) == Peel(aead, Ins(r), cell).1
  {
    var ins := Ins(r);
    assert forall s: CipherState :: ins[0 := s] == [s, ins[1]];
    assert forall s: CipherState, t: CipherState :: [s, ins[1]][1 := t] == [s, t];
  }

  /** The stream cells among the inbound cells of a log. */
  function StreamCells(log: seq<MuxEvent>): seq<RelayCell> {
    if log == [] then []
    else (if log[0].Inbound? && IsStreamCommand(log[0].cell.command) then [log[0].cell] else [])
         + StreamCells(log[1..])
  }

  function StreamOnly(cells: seq<RelayCell>): seq<RelayCell> {
    if cells == [] then []
    else (if IsStreamCommand(cells[0].command) then [cells[0]] else []) + StreamOnly(cells[1..])
  }

  lemma {:induction false} StreamCellsSnoc(log: seq<MuxEvent>, e: MuxEvent)
    ensures StreamCells(log + [e])
         == StreamCells(log) + if e.Inbound? && IsStreamCommand(e.cell.command) then [e.cell] else []
  {
    if log == [] {
      assert [e][1..] == [];
      assert log + [e] == [e];
    } else {
      assert (log + [e])[1..] == log[1..] + [e];
      StreamCellsSnoc(log[1..], e);
    }
  }

  lemma {:induction false} StreamOnlyConcat(a: seq<RelayCell>, b: seq<RelayCell>)
    ensures StreamOnly(a + b) == StreamOnly(a) + StreamOnly(b)
  {
    if a == [] {
      assert a + b == b;
    } else {
      StreamOnlyConcat(a[1..], b);
      StreamOnlyCons(a[0], a[1..] + b);
      assert [a[0]] + (a[1..] + b) == a + b;
      var one: seq<RelayCell> := if IsStreamCommand(a[0].command) then [a[0]] else [];
      assert one + (StreamOnly(a[1..]) + StreamOnly(b)) == one + StreamOnly(a[1..]) + StreamOnly(b);
    }
  }

  lemma StreamOnlyCons(c: RelayCell, rest: seq<RelayCell>)
    ensures StreamOnly([c] + rest) == (if IsStreamCommand(c.command) then [c] else []) + StreamOnly(rest)
  {
    assert ([c] + rest)[1..] == rest;
  }

  ghost predicate ReturnInv(r: Return) {
    && LinkInv(r.outer)
    && SealsMatch(r.inner, r.sent)
    && StreamCells(r.log) == StreamOnly(r.sent[..|r.inner.accepted|])
  }

  /** A wire cell whose inner layer does not open moves only the outer link, and reaches no stream. */
  lemma WithoutInnerLayer(aead: Aead, r: Return, cell: Cell)
    requires aead.Ideal()
    requires var ct := Uncovered(aead, r.outer, cell);
             ct.Some? ==> OpenAt(aead, r.inner.key, r.inner.recvCounter, ct.value).Err?
    ensures ReturnStep(aead, r, ToClient(cell)).inner == r.inner
    ensures StreamCells(ReturnStep(aead, r, ToClient(cell)).log) == StreamCells(r.log)
  {
    var next := ReturnStep(aead, r, ToClient(cell));
    if next.log != r.log {
      StreamCellsSnoc(r.log, next.log[|r.log|]);
    }
  }

  /** An inner ciphertext that opens is the exit's next cell, and is logged as such. */
  lemma WithInnerLayer(aead: Aead, r: Return, cell: Cell, ct: seq<Byte>)
    requires aead.Ideal() && SealsMatch(r.inner, r.sent) && Unforged(aead, r.inner, ct)
    requires Uncovered(aead, r.outer, cell) == Some(ct)
    requires OpenAt(aead, r.inner.key, r.inner.recvCounter, ct).Ok?
    ensures var next, n := ReturnStep(aead, r, ToClient(cell)), |r.inner.accepted|;
            && n < |r.sent| && next.log == r.log + [Inbound(r.sent[n])]
            && SealsMatch(next.inner, r.sent) && |next.inner.accepted| == n + 1
  {
    AcceptsExactlyTheNext(aead, r.inner, ct);
    RelayRoundTrip(r.sent[|r.inner.accepted|], RELAY_INNER_PLAINTEXT_LEN);
    LinkStepKeepsInv(aead, r.inner, Deliver(ct));
  }

  lemma LogNext(log: seq<MuxEvent>, sent: seq<RelayCell>, n: nat)
    requires n < |sent| && StreamCells(log) == StreamOnly(sent[..n])
    ensures StreamCells(log + [Inbound(sent[n])]) == StreamOnly(sent[..n + 1])
  {
    StreamCellsSnoc(log, Inbound(sent[n]));
    assert sent[..n + 1] == sent[..n] + [sent[n]];
    StreamOnlyConcat(sent[..n], [sent[n]]);
    OneStreamOnly(sent[n]);
  }

  /** Of all that a wire cell can do, only the exit's next cell can reach a stream. */
  lemma ToClientKeepsInv(aead: Aead, r: Return, cell: Cell)
    requires aead.Ideal() && ReturnInv(r) && PlausibleReturn(aead, r, ToClient(cell))
    ensures ReturnInv(ReturnStep(aead, r, ToClient(cell)))
  {
    var ct := Uncovered(aead, r.outer, cell);
    LinkStepKeepsInv(aead, r.outer, Deliver(cell.payload));
    if ct.Some? && OpenAt(aead, r.inner.key, r.inner.recvCounter, ct.value).Ok? {
      WithInnerLayer(aead, r, cell, ct.value);
      LogNext(r.log, r.sent, |r.inner.accepted|);
    } else {
      WithoutInnerLayer(aead, r, cell);
    }
  }

  lemma OneStreamOnly(c: RelayCell)
    ensures StreamOnly([c]) == if IsStreamCommand(c.command) then [c] else []
  {
    assert [c][1..] == [];
  }

  lemma ReturnStepKeepsInv(aead: Aead, r: Return, e: ReturnEvent)
    requires aead.Ideal() && ReturnInv(r) && PlausibleReturn(aead, r, e)
    ensures ReturnInv(ReturnStep(aead, r, e))
  {
    match e
    case ExitSends(cell) =>
      if |cell.data| <= RELAY_INNER_MAX_DATA {
        SealKeepsMatch(aead, r.inner, r.sent, cell);
        assert (r.sent + [cell])[..|r.inner.accepted|] == r.sent[..|r.inner.accepted|];
      }
    case Relay1Seals(plain) => LinkStepKeepsInv(aead, r.outer, Seal(plain));
    case ClientOpens(id) => StreamCellsSnoc(r.log, Open(id));
    case ToClient(cell) => ToClientKeepsInv(aead, r, cell);
  }

  function ReturnRun(aead: Aead, r: Return, events: seq<ReturnEvent>): Return
    requires aead.Ideal()
    decreases |events|
  {
    if events == [] then r else ReturnRun(aead, ReturnStep(aead, r, events[0]), events[1..])
  }

  ghost predicate PlausibleReturns(aead: Aead, r: Return, events: seq<ReturnEvent>)
    requires aead.Ideal()
    decreases |events|
  {
    events != [] ==>
      && PlausibleReturn(aead, r, events[0])
      && PlausibleReturns(aead, ReturnStep(aead, r, events[0]), events[1..])
  }

  lemma {:induction false} ReturnRunKeepsInv(aead: Aead, r: Return, events: seq<ReturnEvent>)
    requires aead.Ideal() && ReturnInv(r) && PlausibleReturns(aead, r, events)
    ensures ReturnInv(ReturnRun(aead, r, events))
    ensures ReturnRun(aead, r, events).mux0 == r.mux0
    decreases |events|
  {
    if events != [] {
      ReturnStepKeepsInv(aead, r, events[0]);
      ReturnRunKeepsInv(aead, ReturnStep(aead, r, events[0]), events[1..]);
    }
  }

  /** The readable part of a queue is carried by the stream cells alone. */
  lemma {:induction false} ReadableWithinStreamCells(log: seq<MuxEvent>, id: U16)
    ensures ReadableBytes(MessagesFor(log, id)) <= StreamBytes(StreamCells(log), id)
  {
    if log != [] {
      ReadableWithinStreamCells(log[1..], id);
      var e := log[0];
      if e.Inbound? && IsStreamCommand(e.cell.command) {
        assert StreamCells(log)[1..] == StreamCells(log[1..]);
        if e.cell.streamId == id && e.cell.command != End {
          assert MessagesFor(log, id)[1..] == MessagesFor(log[1..], id);
        }
      } else {
        assert StreamCells(log) == StreamCells(log[1..]);
      }
    }
  }

  lemma {:induction false} StreamOnlyKeepsBytes(cells: seq<RelayCell>, id: U16)
    ensures StreamBytes(StreamOnly(cells), id) == StreamBytes(cells, id)
  {
    if cells != [] {
      StreamOnlyKeepsBytes(cells[1..], id);
      if IsStreamCommand(cells[0].command) {
        assert StreamOnly(cells)[1..] == StreamOnly(cells[1..]);
      } else {
        assert StreamOnly(cells) == StreamOnly(cells[1..]);
      }
    }
  }

  /**
   Safety of the return path: whatever the network and the first relay do, the queue of a stream holds exactly
   the messages logged for it, and what its reader can get is a prefix of the bytes the exit sent on that stream.
   */
  lemma ReaderSeesPrefixOfExit(aead: Aead, outer: Link, key2: Key, mux: Mux, events: seq<ReturnEvent>, id: U16)
    requires aead.Ideal() && LinkInv(outer) && MuxInv(mux)
    requires id in mux.streams && mux.channels[mux.streams[id]] == []
    requires PlausibleReturns(aead, Return(outer, NewLink(key2), [], mux, []), events)
    ensures var end := ReturnRun(aead, Return(outer, NewLink(key2), [], mux, []), events);
            var queue := MuxRun(mux, end.log).channels;
            && mux.streams[id] < |queue|
            && queue[mux.streams[id]] == MessagesFor(end.log, id)
            && ReadableBytes(queue[mux.streams[id]]) <= StreamBytes(end.sent, id)
  {
    var start := Return(outer, NewLink(key2), [], mux, []);
    var end := ReturnRun(aead, start, events);
    ReturnRunKeepsInv(aead, start, events);
    QueueFromEmpty(mux, end.log, id);
    ReadableWithinStreamCells(end.log, id);
    var delivered := end.sent[..|end.inner.accepted|];
    StreamOnlyKeepsBytes(delivered, id);
    PrefixCarriesPrefix(delivered, end.sent, id);
  }
}
