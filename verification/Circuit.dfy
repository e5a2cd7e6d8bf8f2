/**
 The client end of a one- or two-hop circuit (gptl-transport, circuit.rs): layered sealing of outbound relay
 cells, peeling of inbound cells, hop growth, stream allocation and dispatch.
 */
module Circuit {
  import opened Bytes
  import opened Cells
  import opened CellCrypto
  import opened Streams
  import Bootstrap

  datatype TransportError =
    | Malformed(cell: CellError)
    | Crypto(crypto: CryptoError)
    | NoHops
    | TooManyHops
    | BadRelayKey
    | ForwardSize(len: nat)
    | ExtendTooLarge(len: nat)
    | ExtendReplyShort(len: nat)
    | HandshakeFailed
    | StreamIds(alloc: AllocError)
    | CircuitClosed

  datatype CipherState = CipherState(key: Key, counter: U64)

  datatype DecryptResult = Inner(cell: RelayCell) | DestroySeen | PaddingSeen

  datatype SessionKeys = SessionKeys(forward: Key, backward: Key)

  // ---------------------------------------------------------------- layering, on values

  function Bump(s: CipherState): CipherState
    requires s.counter < U64_MAX
  {
    s.(counter := s.counter + 1)
  }

  /** The wire cell for a relay cell through the given outbound ciphers, and the ciphers afterwards. */
  function SendRaw(aead: Aead, circuitId: U32, outs: seq<CipherState>, inner: RelayCell)
    : (r: (Result<Cell, TransportError>, seq<CipherState>))
    requires aead.Ideal()
    ensures |r.1| == |outs|
  {
    match |outs|
    case 0 => (Err(NoHops), outs)
    case 1 =>
      (match RelayBytes(inner, RELAY_PLAINTEXT_LEN)
       case Err(e) => (Err(Malformed(e)), outs)
       case Ok(plain) => SealOuter(aead, circuitId, outs, plain))
    case 2 =>
      (match RelayBytes(inner, RELAY_INNER_PLAINTEXT_LEN)
       case Err(e) => (Err(Malformed(e)), outs)
       case Ok(plain) =>
         (match SealAt(aead, outs[1].key, outs[1].counter, plain)
          case Err(e) => (Err(Crypto(e)), outs)
          case Ok(ct) =>
            // The inner counter has moved even if the outer layer now fails.
            var advanced := outs[1 := Bump(outs[1])];
            (match RelayBytes(RelayCell(Forward, 0, ct), RELAY_PLAINTEXT_LEN)
             case Err(e) => (Err(Malformed(e)), advanced)
             case Ok(outer) => SealOuter(aead, circuitId, advanced, outer))))
    case _ => (Err(TooManyHops), outs)
  }

  function SealOuter(aead: Aead, circuitId: U32, outs: seq<CipherState>, plain: seq<Byte>)
    : (r: (Result<Cell, TransportError>, seq<CipherState>))
    requires aead.Ideal() && outs != [] && |plain| == RELAY_PLAINTEXT_LEN
    ensures |r.1| == |outs|
  {
    match SealAt(aead, outs[0].key, outs[0].counter, plain)
    case Err(e) => (Err(Crypto(e)), outs)
    case Ok(ct) => (Ok(Cell(circuitId, Relay, ct)), outs[0 := Bump(outs[0])])
  }

  /** The innermost content of an inbound cell, and the inbound ciphers afterwards. */
  function Peel(aead: Aead, ins: seq<CipherState>, cell: Cell)
    : (r: (Result<DecryptResult, TransportError>, seq<CipherState>))
    requires aead.Ideal() && ins != []
    ensures |r.1| == |ins|
  {
    if cell.cellType == Destroy then (Ok(DestroySeen), ins)
    else if cell.cellType != Relay then (Ok(PaddingSeen), ins)
    else
      match OpenAt(aead, ins[0].key, ins[0].counter, cell.payload)
      case Err(e) => (Err(Crypto(e)), ins)
      case Ok(plain) =>
        var advanced := ins[0 := Bump(ins[0])];
        match ParseRelay(plain)
        case Err(e) => (Err(Malformed(e)), advanced)
        case Ok(outer) => if |ins| == 1 then (Ok(Inner(outer)), advanced) else PeelInner(aead, advanced, outer)
  }

  function PeelInner(aead: Aead, ins: seq<CipherState>, outer: RelayCell)
    : (r: (Result<DecryptResult, TransportError>, seq<CipherState>))
    requires aead.Ideal() && |ins| >= 2
    ensures |r.1| == |ins|
  {
    if outer.command == Forward then
      if |outer.data| != RELAY_INNER_CT_LEN then (Err(ForwardSize(|outer.data|)), ins)
      else
        match OpenAt(aead, ins[1].key, ins[1].counter, outer.data)
        case Err(e) => (Err(Crypto(e)), ins)
        case Ok(plain) =>
          var advanced := ins[1 := Bump(ins[1])];
          match ParseRelay(plain)
          case Err(e) => (Err(Malformed(e)), advanced)
          case Ok(inner) => (Ok(Inner(inner)), advanced)
    else if outer.command == Extended || outer.command == ExtendFailed then (Ok(Inner(outer)), ins)
    else (Ok(PaddingSeen), ins)
  }

  /** Destroy, and no other cell, closes the circuit; of the rest all but Relay cells are ignored. */
  lemma PeelByType(aead: Aead, ins: seq<CipherState>, cell: Cell)
    requires aead.Ideal() && ins != []
    ensures var (r, after) := Peel(aead, ins, cell);
            && (r == Ok(DestroySeen) <==> cell.cellType == Destroy)
            && (cell.cellType != Relay && cell.cellType != Destroy ==> r == Ok(PaddingSeen))
            && (cell.cellType != Relay ==> after == ins)
            && r != Err(CircuitClosed)
  {
  }

  /**
   Of what the first of two relays says in its own name only replies to an extension get through; a Forward cell
   opens the second layer, and has to fill it.
   */
  lemma FirstRelayAlone(aead: Aead, ins: seq<CipherState>, outer: RelayCell)
    requires aead.Ideal() && |ins| == 2
    ensures var (r, after) := PeelInner(aead, ins, outer);
            && (outer.command == Extended || outer.command == ExtendFailed ==> r == Ok(Inner(outer)) && after == ins)
            && (outer.command == Forward && |outer.data| != 486 ==> r == Err(ForwardSize(|outer.data|)) && after == ins)
            && (outer.command != Forward && outer.command != Extended && outer.command != ExtendFailed ==>
                  r == Ok(PaddingSeen) && after == ins)
  {
  }

  /**
   One hop: a cell goes out exactly when it fits and the counter is not exhausted, and a mirror of the cipher then
   peels it back to the same cell and ends at the same counter.
   */
  lemma OneHopTransparency(aead: Aead, circuitId: U32, out: CipherState, cell: RelayCell)
    requires aead.Ideal()
    ensures var (sent, after) := SendRaw(aead, circuitId, [out], cell);
            && (sent.Ok? <==> |cell.data| <= RELAY_MAX_DATA && out.counter < U64_MAX)
            && (sent.Ok? ==> Peel(aead, [out], sent.value) == (Ok(Inner(cell)), after))
  {
    if |cell.data| <= RELAY_MAX_DATA {
      RelayRoundTrip(cell, RELAY_PLAINTEXT_LEN);
    }
  }

  predicate Spent(s: CipherState) {
    s.counter == U64_MAX
  }

  /**
   A send succeeds exactly when the cell fits and no counter is spent, and then moves every counter by one. A failed
   send leaves all counters alone, except that on two hops the inner one has moved if just the outer one was spent.
   */
  lemma SendSucceedsIff(aead: Aead, circuitId: U32, outs: seq<CipherState>, cell: RelayCell)
    requires aead.Ideal() && 1 <= |outs| <= 2
    ensures var (sent, after) := SendRaw(aead, circuitId, outs, cell);
            var fits := |cell.data| <= if |outs| == 1 then RELAY_MAX_DATA else RELAY_INNER_MAX_DATA;
            && (sent.Ok? <==> (fits && forall i :: 0 <= i < |outs| ==> !Spent(outs[i])))
            && (sent.Ok? ==> forall i :: 0 <= i < |outs| ==> !Spent(outs[i]) && after[i] == Bump(outs[i]))
            && (sent.Err? ==>
                  after == if |outs| == 2 && fits && !Spent(outs[1]) then [outs[0], Bump(outs[1])] else outs)
  {
    if |outs| == 1 { assert outs == [outs[0]]; } else { assert outs == [outs[0], outs[1]]; }
  }

  /** Why an extension is refused before anything is sent, the first reason first. */
  function ExtendRefused(hops: nat, relay: Bootstrap.RelayDescriptor): Option<TransportError> {
    if hops >= 2 then Some(TooManyHops)
    else if !Bootstrap.PubkeyOk(relay) then Some(BadRelayKey)
    else if |relay.address| > RELAY_MAX_DATA - 100 then Some(ExtendTooLarge(100 + |relay.address|))
    else None
  }

  /** A circuit of fewer than two hops is extended to any relay with a key of 32 bytes and an address that fits. */
  lemma ExtendRefusedIff(hops: nat, relay: Bootstrap.RelayDescriptor)
    ensures ExtendRefused(hops, relay).None? <==> hops < 2 && Bootstrap.PubkeyOk(relay) && |relay.address| <= 386
    ensures hops >= 2 <==> ExtendRefused(hops, relay) == Some(TooManyHops)
    ensures hops < 2 && !Bootstrap.PubkeyOk(relay) <==> ExtendRefused(hops, relay) == Some(BadRelayKey)
  {
  }

  // ---------------------------------------------------------------- the circuit

  ghost function StateOf(c: CellCipher): CipherState
    reads c
  {
    CipherState(c.key, c.counter)
  }

  datatype CircuitCiphers = CircuitCiphers(outbound: CellCipher, inbound: CellCipher)

  class Circuit {
    const aead: Aead
    const circuitId: U32
    var hops: seq<CircuitCiphers>
    /** Cells handed to the connection. */
    var wire: seq<Cell>
    var streams: map<U16, nat>
    var channels: seq<seq<StreamMessage>>
    var nextStreamId: U16
    var pendingExtend: bool
    var extendReply: Option<Result<RelayCell, seq<Byte>>>

    ghost function Ciphers(): set<CellCipher>
      reads this
    {
      (set h | h in hops :: h.outbound) + (set h | h in hops :: h.inbound)
    }

    ghost predicate Valid()
      reads this, Ciphers()
    {
      && aead.Ideal()
      && 1 <= |hops| <= 2
      && (forall h :: h in hops ==> h.outbound.aead == aead && h.inbound.aead == aead)
      && (forall h, g :: h in hops && g in hops ==> h.outbound != g.inbound)
      && (|hops| == 2 ==> hops[0].outbound != hops[1].outbound && hops[0].inbound != hops[1].inbound)
      && nextStreamId % 2 == 1
      && MuxInv(MuxState())
    }

    ghost function Outs(): (s: seq<CipherState>)
      requires 1 <= |hops| <= 2
      reads this, Ciphers()
      ensures |s| == |hops|
    {
      var first := StateOf(hops[0].outbound);
      if |hops| == 1 then [first] else [first, StateOf(hops[1].outbound)]
    }

    ghost function Ins(): (s: seq<CipherState>)
      requires 1 <= |hops| <= 2
      reads this, Ciphers()
      ensures |s| == |hops|
    {
      var first := StateOf(hops[0].inbound);
      if |hops| == 1 then [first] else [first, StateOf(hops[1].inbound)]
    }

    ghost function MuxState(): Mux
      reads this
    {
      Mux(streams, channels, pendingExtend, extendReply)
    }

    constructor (aead: Aead, circuitId: U32, keys: SessionKeys)
      requires aead.Ideal()
      ensures Valid() && fresh(Ciphers())
      ensures this.aead == aead && this.circuitId == circuitId
      ensures Outs() == [CipherState(keys.forward, 0)] && Ins() == [CipherState(keys.backward, 0)]
      ensures wire == [] && MuxState() == Mux(map[], [], false, None) && nextStreamId == 1
    {
      this.aead := aead;
      this.circuitId := circuitId;
      var o := new CellCipher(aead, keys.forward);
      var i := new CellCipher(aead, keys.backward);
      hops := [CircuitCiphers(o, i)];
      wire := [];
      streams, channels := map[], [];
      nextStreamId := 1;
      pendingExtend, extendReply := false, None;
    }

    method SendRelayCellRaw(inner: RelayCell) returns (r: Result<(), TransportError>)
      requires Valid()
      modifies this`wire, Ciphers()
      ensures Valid()
      ensures var sent := SendRaw(aead, circuitId, old(Outs()), inner);
              && Outs() == sent.1 && Ins() == old(Ins())
              && match sent.0
                 case Ok(cell) => r == Ok(()) && wire == old(wire) + [cell]
                 case Err(e) => r == Err(e) && wire == old(wire)
    {
      if |hops| == 1 {
        var buf := Encode(inner);
        if buf.Err? { return Err(Malformed(buf.error)); }
        r := SealAndSend(buf.value[..]);
      } else {
        r := SendTwoHops(inner);
      }
    }

    method SendTwoHops(inner: RelayCell) returns (r: Result<(), TransportError>)
      requires Valid() && |hops| == 2
      modifies this`wire, Ciphers()
      ensures Valid()
      ensures var sent := SendRaw(aead, circuitId, old(Outs()), inner);
              && Outs() == sent.1 && Ins() == old(Ins())
              && match sent.0
                 case Ok(cell) => r == Ok(()) && wire == old(wire) + [cell]
                 case Err(e) => r == Err(e) && wire == old(wire)
    {
      ghost var outs := Outs();
      var buf := EncodeInner(inner);
      if buf.Err? { return Err(Malformed(buf.error)); }
      var ct := hops[1].outbound.EncryptInner(buf.value[..]);
      if ct.Err? { return Err(Crypto(ct.error)); }
      assert Outs() == outs[1 := Bump(outs[1])];
      var outer := Encode(RelayCell(Forward, 0, ct.value));
      r := SealAndSend(outer.value[..]);
    }

    method SealAndSend(plain: seq<Byte>) returns (r: Result<(), TransportError>)
      requires Valid() && |plain| == RELAY_PLAINTEXT_LEN
      modifies this`wire, Ciphers()
      ensures Valid()
      ensures var sent := SealOuter(aead, circuitId, old(Outs()), plain);
              && Outs() == sent.1 && Ins() == old(Ins())
              && match sent.0
                 case Ok(cell) => r == Ok(()) && wire == old(wire) + [cell]
                 case Err(e) => r == Err(e) && wire == old(wire)
    {
      ghost var outs, ins := Outs(), Ins();
      var ct := hops[0].outbound.Encrypt(plain);
      assert Ins() == ins;
      if ct.Err? {
        assert Outs() == outs;
        return Err(Crypto(ct.error));
      }
      assert Outs() == outs[0 := Bump(outs[0])];
      wire := wire + [Cell(circuitId, Relay, ct.value)];
      return Ok(());
    }

    method DecryptToInner(cell: Cell) returns (r: Result<DecryptResult, TransportError>)
      requires Valid()
      modifies Ciphers()
      ensures Valid()
      ensures (r, Ins()) == Peel(aead, old(Ins()), cell) && Outs() == old(Outs())
    {
      ghost var outs, ins := Outs(), Ins();
      match cell.cellType {
        case Relay =>
        case Destroy => return Ok(DestroySeen);
        case _ => return Ok(PaddingSeen);
      }
      var plain := hops[0].inbound.Decrypt(cell.payload);
      assert Outs() == outs;
      if plain.Err? {
        assert Ins() == ins;
        return Err(Crypto(plain.error));
      }
      assert Ins() == ins[0 := Bump(ins[0])];
      var outer := ParseRelay(plain.value);
      if outer.Err? { return Err(Malformed(outer.error)); }
      if |hops| == 1 { return Ok(Inner(outer.value)); }
      r := DecryptForward(outer.value);
    }

    method DecryptForward(outer: RelayCell) returns (r: Result<DecryptResult, TransportError>)
      requires Valid() && |hops| == 2
      modifies Ciphers()
      ensures Valid()
      ensures (r, Ins()) == PeelInner(aead, old(Ins()), outer) && Outs() == old(Outs())
    {
      ghost var outs, ins := Outs(), Ins();
      match outer.command {
        case Forward =>
          if |outer.data| != RELAY_INNER_CT_LEN { return Err(ForwardSize(|outer.data|)); }
          var plain := hops[1].inbound.DecryptInner(outer.data);
          assert Outs() == outs;
          if plain.Err? {
            assert Ins() == ins;
            return Err(Crypto(plain.error));
          }
          assert Ins() == ins[1 := Bump(ins[1])];
          var inner := ParseRelay(plain.value);
          if inner.Err? { return Err(Malformed(inner.error)); }
          return Ok(Inner(inner.value));
        case Extended => return Ok(Inner(outer));
        case ExtendFailed => return Ok(Inner(outer));
        case _ => return Ok(PaddingSeen);
      }
    }

    method DispatchRelayCell(inner: RelayCell)
      requires MuxInv(MuxState())
      modifies this`streams, this`channels, this`pendingExtend, this`extendReply
      ensures MuxState() == Dispatch(old(MuxState()), inner)
      ensures old(pendingExtend) && inner.command == Extended ==>
                extendReply == Some(Ok(inner)) && !pendingExtend
      ensures old(pendingExtend) && inner.command == ExtendFailed ==>
                extendReply == Some(Err(inner.data)) && !pendingExtend
      ensures inner.command == Extended || inner.command == ExtendFailed ==>
                streams == old(streams) && channels == old(channels)
    {
      if inner.command == Extended || inner.command == ExtendFailed {
        if pendingExtend {
          pendingExtend := false;
          extendReply := Some(if inner.command == ExtendFailed then Err(inner.data) else Ok(inner));
        }
      } else if IsStreamCommand(inner.command) && inner.streamId in streams {
        var k := streams[inner.streamId];
        if inner.command == End { streams := streams - {inner.streamId}; }
        channels := channels[k := channels[k] + [MessageOf(inner)]];
      }
    }

    /** One inbound cell: peel it, then route what was inside. */
    method HandleInboundCell(cell: Cell) returns (r: Result<(), TransportError>)
      requires Valid()
      modifies Ciphers(), this`streams, this`channels, this`pendingExtend, this`extendReply
      ensures Valid()
      ensures var peeled := Peel(aead, old(Ins()), cell);
              && Ins() == peeled.1 && Outs() == old(Outs())
              && match peeled.0
                 case Ok(Inner(c)) => r == Ok(()) && MuxState() == Dispatch(old(MuxState()), c)
                 case Ok(DestroySeen) => r == Err(CircuitClosed) && MuxState() == old(MuxState())
                 case Ok(PaddingSeen) => r == Ok(()) && MuxState() == old(MuxState())
                 case Err(e) => r == Err(e) && MuxState() == old(MuxState())
      ensures r == Err(CircuitClosed) <==> cell.cellType == Destroy
      ensures cell.cellType != Relay && cell.cellType != Destroy ==> r == Ok(())
      ensures cell.cellType != Relay ==> Ins() == old(Ins()) && MuxState() == old(MuxState())
    {
      PeelByType(aead, Ins(), cell);
      var d := DecryptToInner(cell);
      match d {
        case Err(e) => return Err(e);
        case Ok(Inner(c)) =>
          ghost var ins, outs := Ins(), Outs();
          MuxStepKeepsInv(MuxState(), Inbound(c));
          DispatchRelayCell(c);
          assert Ins() == ins && Outs() == outs;
          return Ok(());
        case Ok(DestroySeen) => return Err(CircuitClosed);
        case Ok(PaddingSeen) => return Ok(());
      }
    }

    /**
     The first free odd identifier at or after the cursor, found whenever fewer than 32767 streams are open;
     the second error, after a full cycle, is never returned.
     */
    method AllocStreamId() returns (r: Result<U16, AllocError>)
      requires nextStreamId % 2 == 1
      modifies this`nextStreamId
      ensures nextStreamId % 2 == 1
      ensures r.Err? <==> |streams| >= 32767
      ensures r.Err? ==> r.error == AllIdsExhausted && nextStreamId == old(nextStreamId)
      ensures r.Ok? ==>
                && r.value % 2 == 1 && r.value !in streams && nextStreamId == NextOdd(r.value)
                && exists k: nat :: k < ODD_IDS && FirstFree(old(nextStreamId), k, streams.Keys, r.value)
    {
      if |streams| >= 32767 { return Err(AllIdsExhausted); }
      var start := nextStreamId;
      ghost var k: nat := 0;
      while true
        invariant nextStreamId % 2 == 1
        invariant k < ODD_IDS && nextStreamId == NthOdd(start, k)
        invariant forall i: nat :: i < k ==> NthOdd(start, i) in streams
        decreases ODD_IDS - k
      {
        var id := nextStreamId;
        NthOddStep(start, k);
        nextStreamId := NextOdd(nextStreamId);
        if id !in streams {
          assert FirstFree(start, k, streams.Keys, id);
          return Ok(id);
        }
        k := k + 1;
        NthOddInjective(start, 0, k);
        if nextStreamId == start {
          DistinctOdds(start, k, streams.Keys);
          assert false;
          return Err(IdSpaceExhausted);
        }
      }
    }

    /** Allocate an identifier and register a fresh channel under it. */
    method RegisterStream() returns (r: Result<U16, AllocError>)
      requires nextStreamId % 2 == 1 && MuxInv(MuxState())
      modifies this`streams, this`channels, this`nextStreamId
      ensures nextStreamId % 2 == 1 && MuxInv(MuxState())
      ensures |old(streams)| >= 32767 ==> r == Err(AllIdsExhausted) && MuxState() == old(MuxState())
      ensures |old(streams)| < 32767 ==>
                && r.Ok? && r.value !in old(streams) && r.value % 2 == 1
                && MuxState() == Streams.OpenStream(old(MuxState()), r.value)
    {
      r := AllocStreamId();
      if r.Ok? {
        MuxStepKeepsInv(MuxState(), Open(r.value));
        streams := streams[r.value := |channels|];
        channels := channels + [[]];
      }
    }

    /**
     A new stream to `target`. The stream is registered before Begin is sent, and stays registered when
     sending fails.
     */
    method OpenStream(target: seq<Byte>) returns (r: Result<U16, TransportError>)
      requires Valid()
      modifies this`wire, this`streams, this`channels, this`nextStreamId, Ciphers()
      ensures Valid() && Ins() == old(Ins())
      ensures |old(streams)| >= 32767 ==>
                && r == Err(StreamIds(AllIdsExhausted)) && Outs() == old(Outs())
                && wire == old(wire) && MuxState() == old(MuxState())
      ensures |old(streams)| < 32767 ==>
                exists id :: id !in old(streams) && id % 2 == 1
                  && MuxState() == Streams.OpenStream(old(MuxState()), id)
                  && BeginSent(old(Outs()), old(wire), id, target, r)
    {
      var id := RegisterStream();
      if id.Err? { return Err(StreamIds(id.error)); }
      var sent := SendRelayCellRaw(RelayCell(Begin, id.value, target));
      r := if sent.Ok? then Ok(id.value) else Err(sent.error);
      assert BeginSent(old(Outs()), old(wire), id.value, target, r);
    }

    ghost predicate BeginSent(outs: seq<CipherState>, sentBefore: seq<Cell>, id: U16, target: seq<Byte>,
                              r: Result<U16, TransportError>)
      requires aead.Ideal() && 1 <= |hops| <= 2
      reads this, Ciphers()
    {
      var sent := SendRaw(aead, circuitId, outs, RelayCell(Begin, id, target));
      && Outs() == sent.1
      && match sent.0
         case Ok(cell) => r == Ok(id) && wire == sentBefore + [cell]
         case Err(e) => r == Err(e) && wire == sentBefore
    }

    /**
     First half of `extend`: refuse a third hop, a malformed key or an oversized payload, else register the one-shot and
     ask. `material` is what the handshake starts with.
     */
    method BeginExtend(relay: Bootstrap.RelayDescriptor, material: seq<Byte>) returns (r: Result<(), TransportError>)
      requires Valid() && |material| == 96
      modifies this`wire, this`pendingExtend, this`extendReply, Ciphers()
      ensures Valid() && hops == old(hops) && Ins() == old(Ins())
      ensures var refused := ExtendRefused(|hops|, relay);
              && (refused.Some? ==>
                    && r == Err(refused.value) && wire == old(wire) && Outs() == old(Outs())
                    && MuxState() == old(MuxState()))
              && (refused.None? ==>
                    && MuxState() == old(MuxState()).(pendingExtend := true, extendReply := None)
                    && |relay.address| <= RELAY_MAX_DATA - 100
                    && var cell := RelayCell(Extend, 0, U32Bytes(|relay.address|) + relay.address + material);
                       var sent := SendRaw(aead, circuitId, old(Outs()), cell);
                       && Outs() == sent.1
                       && match sent.0
                          case Ok(c) => r == Ok(()) && wire == old(wire) + [c]
                          case Err(e) => r == Err(e) && wire == old(wire))
    {
      if |hops| >= 2 { return Err(TooManyHops); }
      if !Bootstrap.PubkeyOk(relay) { return Err(BadRelayKey); }
      var payloadLen := 4 + |relay.address| + 96;
      if payloadLen > RELAY_MAX_DATA { return Err(ExtendTooLarge(payloadLen)); }
      var payload := U32Bytes(|relay.address|) + relay.address + material;
      ghost var outs, ins := Outs(), Ins();
      pendingExtend, extendReply := true, None;
      assert Outs() == outs && Ins() == ins;
      r := SendRelayCellRaw(RelayCell(Extend, 0, payload));
    }

    /** Second half of `extend`: a long enough reply and a completed handshake add exactly one fresh hop at the end. */
    method FinishExtend(reply: RelayCell, handshake: Option<SessionKeys>) returns (r: Result<(), TransportError>)
      requires Valid() && |hops| == 1
      modifies this`hops
      ensures Valid() && Ciphers() >= old(Ciphers()) && fresh(Ciphers() - old(Ciphers()))
      ensures r.Ok? <==> |reply.data| >= 96 && handshake.Some?
      ensures r.Err? ==> hops == old(hops)
      ensures r.Ok? ==>
                && Outs() == old(Outs()) + [CipherState(handshake.value.forward, 0)]
                && Ins() == old(Ins()) + [CipherState(handshake.value.backward, 0)]
    {
      if |reply.data| < 96 { return Err(ExtendReplyShort(|reply.data|)); }
      if handshake.None? { return Err(HandshakeFailed); }
      ghost var before := hops;
      var o := new CellCipher(aead, handshake.value.forward);
      var i := new CellCipher(aead, handshake.value.backward);
      hops := hops + [CircuitCiphers(o, i)];
      assert hops[0] in before && hops[1] == CircuitCiphers(o, i);
      assert forall h :: h in hops ==> h == before[0] || h == hops[1];
      return Ok(());
    }
  }
}
