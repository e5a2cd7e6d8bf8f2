/** Byte streams over relay cells: chunking, stream identifiers, per-stream queues (gptl-transport, circuit.rs). */
module Streams {
  import opened Bytes
  import opened Cells

  // ---------------------------------------------------------------- chunking

  /** The bytes that Data cells carry for stream `id`, in order. */
  function StreamBytes(cells: seq<RelayCell>, id: U16): seq<Byte> {
    if cells == [] then []
    else (if cells[0].command == Data && cells[0].streamId == id then cells[0].data else [])
         + StreamBytes(cells[1..], id)
  }

  lemma {:induction false} StreamBytesConcat(a: seq<RelayCell>, b: seq<RelayCell>, id: U16)
    ensures StreamBytes(a + b, id) == StreamBytes(a, id) + StreamBytes(b, id)
  {
    if a == [] {
      assert a + b == b;
    } else {
      assert (a + b)[1..] == a[1..] + b;
      StreamBytesConcat(a[1..], b, id);
    }
  }

  /** A prefix of the cells carries a prefix of every stream. */
  lemma PrefixCarriesPrefix(a: seq<RelayCell>, b: seq<RelayCell>, id: U16)
    requires a <= b
    ensures StreamBytes(a, id) <= StreamBytes(b, id)
  {
    assert b == a + b[|a|..];
    StreamBytesConcat(a, b[|a|..], id);
  }

  /** Cells that fit both layers of a two-hop circuit. */
  ghost predicate Fits(cells: seq<RelayCell>) {
    forall c :: c in cells ==> |c.data| <= RELAY_INNER_MAX_DATA
  }

  /** `cells` carry exactly `bytes` on stream `id`, in as few non-empty Data cells as fit, and nothing on any other. */
  ghost predicate ChunksOf(cells: seq<RelayCell>, id: U16, bytes: seq<Byte>) {
    && Fits(cells)
    && (forall c :: c in cells ==> c.command == Data && c.streamId == id && c.data != [])
    && StreamBytes(cells, id) == bytes
    && (forall other: U16 :: other != id ==> StreamBytes(cells, other) == [])
    && |cells| == (|bytes| + RELAY_INNER_MAX_DATA - 1) / RELAY_INNER_MAX_DATA
  }

  function Smaller(n: nat, m: nat): nat {
    if n < m then n else m
  }

  /** The cells of one write: full ones, and a last one with what is left. */
  function Chunks(id: U16, bytes: seq<Byte>): seq<RelayCell> {
    if bytes == [] then []
    else
      var n := Smaller(|bytes|, RELAY_INNER_MAX_DATA);
      [RelayCell(Data, id, bytes[..n])] + Chunks(id, bytes[n..])
  }

  lemma ChunksStep(id: U16, bytes: seq<Byte>)
    requires bytes != []
    ensures var n := Smaller(|bytes|, RELAY_INNER_MAX_DATA);
            && Chunks(id, bytes) == [RelayCell(Data, id, bytes[..n])] + Chunks(id, bytes[n..])
            && |Chunks(id, bytes)| == 1 + |Chunks(id, bytes[n..])|
  {
  }

  /** The cells so far, the next one, and the cells of what is left then. */
  lemma NextChunk(added: seq<RelayCell>, id: U16, data: seq<Byte>)
    requires data != []
    ensures var n := Smaller(|data|, RELAY_INNER_MAX_DATA);
            && added + Chunks(id, data) == added + [RelayCell(Data, id, data[..n])] + Chunks(id, data[n..])
            && |added + Chunks(id, data)| > |added| && (added + Chunks(id, data))[..|added|] == added
  {
    ChunksStep(id, data);
  }

  lemma ChunkInFront(cell: RelayCell, rest: seq<RelayCell>, id: U16, bytes: seq<Byte>)
    requires ChunksOf(rest, id, bytes)
    requires cell.command == Data && cell.streamId == id && 0 < |cell.data| <= RELAY_INNER_MAX_DATA
    requires bytes == [] || |cell.data| == RELAY_INNER_MAX_DATA
    ensures ChunksOf([cell] + rest, id, cell.data + bytes)
  {
    forall any: U16 ensures StreamBytes([cell] + rest, any) == (if any == id then cell.data else []) + StreamBytes(rest, any) {
      FirstCell(cell, rest, any);
    }
  }

  lemma FirstCell(cell: RelayCell, rest: seq<RelayCell>, id: U16)
    ensures StreamBytes([cell] + rest, id)
         == (if cell.command == Data && cell.streamId == id then cell.data else []) + StreamBytes(rest, id)
  {
    assert ([cell] + rest)[1..] == rest;
  }

  /** The cells of a write carry exactly its bytes, in as few cells as fit, and nothing on any other stream. */
  lemma {:induction false} ChunksCarry(id: U16, bytes: seq<Byte>)
    ensures ChunksOf(Chunks(id, bytes), id, bytes)
  {
    if bytes != [] {
      var n := Smaller(|bytes|, RELAY_INNER_MAX_DATA);
      ChunksCarry(id, bytes[n..]);
      ChunkInFront(RelayCell(Data, id, bytes[..n]), Chunks(id, bytes[n..]), id, bytes[n..]);
      assert bytes[..n] + bytes[n..] == bytes;
    }
  }

  /** The first cells of a write are the cells of its first bytes. */
  lemma {:induction false} FirstChunks(id: U16, bytes: seq<Byte>, k: nat)
    requires k * RELAY_INNER_MAX_DATA <= |bytes|
    ensures k <= |Chunks(id, bytes)| && Chunks(id, bytes)[..k] == Chunks(id, bytes[..k * RELAY_INNER_MAX_DATA])
  {
    if k > 0 {
      var n := RELAY_INNER_MAX_DATA;
      var rest, first := bytes[n..], bytes[..k * n];
      ChunksStep(id, bytes);
      ChunksStep(id, first);
      FirstChunks(id, rest, k - 1);
      assert first[..n] == bytes[..n] && first[n..] == rest[..(k - 1) * n];
    }
  }

  /** What a circuit that takes `open` more cells takes of a write: all of it, or the cells of so many full chunks. */
  lemma TakenOfWrite(id: U16, bytes: seq<Byte>, open: nat)
    ensures |Chunks(id, bytes)| <= open <==> |bytes| <= open * RELAY_INNER_MAX_DATA
    ensures |Chunks(id, bytes)| > open ==>
              ChunksOf(Chunks(id, bytes)[..open], id, bytes[..open * RELAY_INNER_MAX_DATA])
  {
    ChunksCarry(id, bytes);
    if |bytes| > open * RELAY_INNER_MAX_DATA {
      FirstChunks(id, bytes, open);
      ChunksCarry(id, bytes[..open * RELAY_INNER_MAX_DATA]);
    }
  }

  /** The circuit that drained the queue is gone. */
  datatype WriteError = QueueClosed

  /** The sending half of a stream: `write` splits its bytes over the shared queue. */
  class OutboundQueue {
    var cells: seq<RelayCell>

    constructor ()
      ensures cells == []
    {
      cells := [];
    }

    /** The circuit takes `open` more cells before it is dropped; the first cell refused ends the call. */
    method Write(streamId: U16, bytes: seq<Byte>, open: nat) returns (r: Result<(), WriteError>)
      modifies this
      ensures r.Ok? <==> |bytes| <= open * RELAY_INNER_MAX_DATA
      ensures r.Ok? ==> cells == old(cells) + Chunks(streamId, bytes)
      ensures r.Err? ==> open < |Chunks(streamId, bytes)| && cells == old(cells) + Chunks(streamId, bytes)[..open]
    {
      TakenOfWrite(streamId, bytes, open);
      var data, room := bytes, open;
      ghost var added: seq<RelayCell> := [];
      while data != []
        invariant 0 <= room <= open && |added| == open - room
        invariant cells == old(cells) + added
        invariant Chunks(streamId, bytes) == added + Chunks(streamId, data)
        decreases |data|
      {
        NextChunk(added, streamId, data);
        if room == 0 {
          return Err(QueueClosed);
        }
        var chunkLen := Smaller(|data|, RELAY_INNER_MAX_DATA);
        var cell := RelayCell(Data, streamId, data[..chunkLen]);
        added := added + [cell];
        cells := cells + [cell];
        data, room := data[chunkLen..], room - 1;
      }
      return Ok(());
    }
  }

  // ---------------------------------------------------------------- reading

  datatype StreamMessage = DataMsg(bytes: seq<Byte>) | EndMsg | ConnectedMsg | FailedMsg(reason: seq<Byte>)

  /** The bytes a reader that keeps calling `read_data` obtains from a queue: Data up to the first End. */
  function ReadableBytes(q: seq<StreamMessage>): seq<Byte> {
    if q == [] || q[0].EndMsg? then []
    else (if q[0].DataMsg? then q[0].bytes else []) + ReadableBytes(q[1..])
  }

  /** Nothing behind an End is read, and before it exactly the Data messages. */
  lemma {:induction false} ReadingStopsAtEnd(before: seq<StreamMessage>, after: seq<StreamMessage>)
    ensures ReadableBytes(before + [EndMsg] + after) == ReadableBytes(before)
  {
    var all := before + [EndMsg] + after;
    if before == [] {
      assert all[0] == EndMsg;
    } else {
      assert all[1..] == before[1..] + [EndMsg] + after;
      ReadingStopsAtEnd(before[1..], after);
    }
  }

  lemma {:induction false} DataIsRead(before: seq<StreamMessage>, m: StreamMessage)
    requires forall i :: 0 <= i < |before| ==> before[i] != EndMsg
    ensures ReadableBytes(before + [m]) == ReadableBytes(before) + if m.DataMsg? then m.bytes else []
  {
    if before == [] {
      assert [m][1..] == [] && [] + [m] == [m];
    } else {
      assert (before + [m])[1..] == before[1..] + [m];
      DataIsRead(before[1..], m);
    }
  }

  /** The receiving half of a stream, over the messages that have arrived. */
  class InboundQueue {
    var messages: seq<StreamMessage>

    constructor (messages: seq<StreamMessage>)
      ensures this.messages == messages
    {
      this.messages := messages;
    }

    /** `None` at End, or when the queue is drained and its sender is gone. */
    method ReadData() returns (r: Option<seq<Byte>>)
      modifies this
      ensures |messages| <= |old(messages)| && messages == old(messages)[|old(messages)| - |messages|..]
      ensures r.Some? ==> |messages| < |old(messages)| && ReadableBytes(old(messages)) == r.value + ReadableBytes(messages)
      ensures r.None? ==> ReadableBytes(old(messages)) == []
    {
      while messages != []
        invariant |messages| <= |old(messages)| && messages == old(messages)[|old(messages)| - |messages|..]
        invariant ReadableBytes(messages) == ReadableBytes(old(messages))
        decreases |messages|
      {
        var m := messages[0];
        messages := messages[1..];
        match m {
          case DataMsg(d) => return Some(d);
          case EndMsg => return None;
          case ConnectedMsg =>
          case FailedMsg(_) =>
        }
      }
      return None;
    }
  }

  // ---------------------------------------------------------------- dispatch

  /**
   The open streams and their channels. A channel outlives its map entry, because its receiver is held by
   the stream object; `pendingExtend` is the one-shot of an extension in progress and `extendReply` what it got.
   */
  datatype Mux = Mux(
    streams: map<U16, nat>, channels: seq<seq<StreamMessage>>,
    pendingExtend: bool, extendReply: Option<Result<RelayCell, seq<Byte>>>)

  ghost predicate MuxInv(m: Mux) {
    && (forall id :: id in m.streams ==> m.streams[id] < |m.channels|)
    && (forall i, j :: i in m.streams && j in m.streams && i != j ==> m.streams[i] != m.streams[j])
  }

  predicate IsStreamCommand(c: Command) {
    c == Data || c == End || c == Connected || c == BeginFailed
  }

  function MessageOf(c: RelayCell): StreamMessage
    requires IsStreamCommand(c.command)
  {
    match c.command
    case Data => DataMsg(c.data)
    case End => EndMsg
    case Connected => ConnectedMsg
    case BeginFailed => FailedMsg(c.data)
  }

  function Dispatch(m: Mux, c: RelayCell): Mux
    requires MuxInv(m)
  {
    if c.command == Extended || c.command == ExtendFailed then
      if m.pendingExtend then
        m.(pendingExtend := false,
           extendReply := Some(if c.command == ExtendFailed then Err(c.data) else Ok(c)))
      else m
    else if IsStreamCommand(c.command) && c.streamId in m.streams then
      var k := m.streams[c.streamId];
      m.(channels := m.channels[k := m.channels[k] + [MessageOf(c)]],
         streams := if c.command == End then m.streams - {c.streamId} else m.streams)
    else m
  }

  /** Registering a stream under an identifier not in use gives it a fresh, empty channel. */
  function OpenStream(m: Mux, id: U16): Mux
    requires id !in m.streams
  {
    m.(streams := m.streams[id := |m.channels|], channels := m.channels + [[]])
  }

  datatype MuxEvent = Open(id: U16) | Inbound(cell: RelayCell)

  function MuxStep(m: Mux, e: MuxEvent): Mux
    requires MuxInv(m)
  {
    match e
    case Open(id) => if id in m.streams then m else OpenStream(m, id)
    case Inbound(c) => Dispatch(m, c)
  }

  lemma MuxStepKeepsInv(m: Mux, e: MuxEvent)
    requires MuxInv(m)
    ensures MuxInv(MuxStep(m, e))
  {
  }

  function MuxRun(m: Mux, events: seq<MuxEvent>): (end: Mux)
    requires MuxInv(m)
    ensures MuxInv(end)
    decreases |events|
  {
    if events == [] then m
    else
      MuxStepKeepsInv(m, events[0]);
      MuxRun(MuxStep(m, events[0]), events[1..])
  }

  predicate EndsStream(c: RelayCell, id: U16) {
    c.command == End && c.streamId == id
  }

  /** The messages for `id` among the inbound cells, up to and including the first End. */
  function MessagesFor(events: seq<MuxEvent>, id: U16): seq<StreamMessage> {
    if events == [] then []
    else match events[0]
      case Open(_) => MessagesFor(events[1..], id)
      case Inbound(c) =>
        if !IsStreamCommand(c.command) || c.streamId != id then MessagesFor(events[1..], id)
        else if c.command == End then [EndMsg]
        else [MessageOf(c)] + MessagesFor(events[1..], id)
  }

  /** A channel that no stream is registered under does not change, now or later. */
  lemma {:induction false} ClosedChannelIsFrozen(m: Mux, events: seq<MuxEvent>, k: nat)
    requires MuxInv(m) && k < |m.channels|
    requires forall id :: id in m.streams ==> m.streams[id] != k
    ensures k < |MuxRun(m, events).channels| && MuxRun(m, events).channels[k] == m.channels[k]
    decreases |events|
  {
    if events != [] {
      var next := MuxStep(m, events[0]);
      MuxStepKeepsInv(m, events[0]);
      ClosedChannelIsFrozen(next, events[1..], k);
    }
  }

  /** One step appends to the channel of an open stream exactly the message meant for it. */
  lemma MuxStepOnChannel(m: Mux, e: MuxEvent, id: U16)
    requires MuxInv(m) && id in m.streams
    ensures var k, next := m.streams[id], MuxStep(m, e);
            && k < |next.channels|
            && next.channels[k] == m.channels[k] + MessagesFor([e], id)
            && (e.Inbound? && EndsStream(e.cell, id) <==> id !in next.streams)
            && (forall other :: other in next.streams && next.streams[other] == k ==> other == id)
            && (id in next.streams ==> next.streams[id] == k)
  {
    assert [e][1..] == [];
    assert m.channels[m.streams[id]] + [] == m.channels[m.streams[id]];
  }

  /**
   From the moment a stream is open its queue receives exactly the inbound stream cells with its id, in order,
   up to the first End, through any later openings, closings and re-use of the same id.
   */
  lemma {:induction false} QueueGetsItsCells(m: Mux, events: seq<MuxEvent>, id: U16)
    requires MuxInv(m) && id in m.streams
    ensures var k := m.streams[id];
            && k < |MuxRun(m, events).channels|
            && MuxRun(m, events).channels[k] == m.channels[k] + MessagesFor(events, id)
    decreases |events|
  {
    var k := m.streams[id];
    if events == [] {
      assert m.channels[k] + [] == m.channels[k];
    } else {
      var next := MuxStep(m, events[0]);
      MuxStepKeepsInv(m, events[0]);
      MuxStepOnChannel(m, events[0], id);
      MessagesSplit(events, id);
      if id in next.streams {
        QueueGetsItsCells(next, events[1..], id);
      } else {
        ClosedChannelIsFrozen(next, events[1..], k);
      }
    }
  }

  lemma MessagesSplit(events: seq<MuxEvent>, id: U16)
    requires events != []
    ensures var e := events[0];
            MessagesFor(events, id) == MessagesFor([e], id)
              + if e.Inbound? && EndsStream(e.cell, id) then [] else MessagesFor(events[1..], id)
  {
    var rest := MessagesFor(events[1..], id);
    assert [events[0]][1..] == [] && [] + rest == rest;
    if events[0].Inbound? && IsStreamCommand(events[0].cell.command) && events[0].cell.streamId == id {
      if events[0].cell.command == End {
        assert MessagesFor([events[0]], id) == [EndMsg];
      } else {
        assert MessagesFor([events[0]], id) == [MessageOf(events[0].cell)];
      }
    } else {
      assert MessagesFor([events[0]], id) == [];
    }
  }

  /** What a stream's owner is told of each command. */
  lemma MessageKinds(m: Mux, c: RelayCell)
    requires MuxInv(m) && c.streamId in m.streams
    ensures var k, next := m.streams[c.streamId], MuxStep(m, Inbound(c));
            && (c.command == Data ==> next.channels[k] == m.channels[k] + [DataMsg(c.data)])
            && (c.command == End ==> next.channels[k] == m.channels[k] + [EndMsg])
            && (c.command == Connected ==> next.channels[k] == m.channels[k] + [ConnectedMsg])
            && (c.command == BeginFailed ==> next.channels[k] == m.channels[k] + [FailedMsg(c.data)])
            && (c.command == Begin || c.command == Extend || c.command == Forward ==> next == m)
  {
  }

  // ---------------------------------------------------------------- the reply to an extension

  predicate IsReply(e: MuxEvent) {
    e.Inbound? && (e.cell.command == Extended || e.cell.command == ExtendFailed)
  }

  /** A reply goes to the extension that waits for one, a refusal as an error; without one it is dropped. */
  lemma ReplyReachesExtension(m: Mux, c: RelayCell)
    requires MuxInv(m) && IsReply(Inbound(c))
    ensures var next := MuxStep(m, Inbound(c));
            && next.streams == m.streams && next.channels == m.channels && !next.pendingExtend
            && (m.pendingExtend && c.command == Extended ==> next.extendReply == Some(Ok(c)))
            && (m.pendingExtend && c.command == ExtendFailed ==> next.extendReply == Some(Err(c.data)))
            && (!m.pendingExtend ==> next == m)
  {
  }

  lemma OtherEventsLeaveReply(m: Mux, e: MuxEvent)
    requires MuxInv(m) && !IsReply(e)
    ensures MuxStep(m, e).pendingExtend == m.pendingExtend && MuxStep(m, e).extendReply == m.extendReply
  {
  }

  /** Once the extension has its reply, or while there is none, no cell changes that. */
  lemma {:induction false} ReplyStays(m: Mux, events: seq<MuxEvent>)
    requires MuxInv(m) && (!m.pendingExtend || forall j :: 0 <= j < |events| ==> !IsReply(events[j]))
    ensures MuxRun(m, events).pendingExtend == m.pendingExtend && MuxRun(m, events).extendReply == m.extendReply
    decreases |events|
  {
    if events != [] {
      MuxStepKeepsInv(m, events[0]);
      if IsReply(events[0]) { ReplyReachesExtension(m, events[0].cell); } else { OtherEventsLeaveReply(m, events[0]); }
      ReplyStays(MuxStep(m, events[0]), events[1..]);
    }
  }

  /** Over any run the first Extended or ExtendFailed cell after arming decides the extension, for good. */
  lemma {:induction false} FirstReplyDecides(m: Mux, events: seq<MuxEvent>, i: nat)
    requires MuxInv(m) && m.pendingExtend && i < |events| && IsReply(events[i])
    requires forall j :: 0 <= j < i ==> !IsReply(events[j])
    ensures var end, c := MuxRun(m, events), events[i].cell;
            && !end.pendingExtend
            && (c.command == Extended ==> end.extendReply == Some(Ok(c)))
            && (c.command == ExtendFailed ==> end.extendReply == Some(Err(c.data)))
    decreases |events|
  {
    var next := MuxStep(m, events[0]);
    MuxStepKeepsInv(m, events[0]);
    if i == 0 {
      ReplyReachesExtension(m, events[0].cell);
      ReplyStays(next, events[1..]);
    } else {
      OtherEventsLeaveReply(m, events[0]);
      FirstReplyDecides(next, events[1..], i - 1);
    }
  }

  function CellsOf(events: seq<MuxEvent>): seq<RelayCell> {
    if events == [] then []
    else (if events[0].Inbound? then [events[0].cell] else []) + CellsOf(events[1..])
  }

  /** The cells before the first End of stream `id`. */
  function CutAtEnd(cells: seq<RelayCell>, id: U16): seq<RelayCell> {
    if cells == [] || EndsStream(cells[0], id) then [] else [cells[0]] + CutAtEnd(cells[1..], id)
  }

  /** The cut is the longest prefix without an End of `id`. */
  lemma {:induction false} CutIsLongest(cells: seq<RelayCell>, id: U16)
    ensures var cut := CutAtEnd(cells, id);
            && cut <= cells
            && (forall c :: c in cut ==> !EndsStream(c, id))
            && (|cut| < |cells| ==> EndsStream(cells[|cut|], id))
  {
    if cells != [] && !EndsStream(cells[0], id) {
      CutIsLongest(cells[1..], id);
    }
  }

  /** What a reader obtains is what Data cells carried, up to the End of its stream. */
  lemma {:induction false} ReaderSeesStreamBytes(events: seq<MuxEvent>, id: U16)
    ensures ReadableBytes(MessagesFor(events, id)) == StreamBytes(CutAtEnd(CellsOf(events), id), id)
  {
    if events != [] {
      ReaderSeesStreamBytes(events[1..], id);
      match events[0] {
        case Open(_) => assert CellsOf(events) == CellsOf(events[1..]);
        case Inbound(c) => ReaderSeesOneMore(c, events, id);
      }
    }
  }

  lemma ReaderSeesOneMore(c: RelayCell, events: seq<MuxEvent>, id: U16)
    requires events != [] && events[0] == Inbound(c)
    requires ReadableBytes(MessagesFor(events[1..], id)) == StreamBytes(CutAtEnd(CellsOf(events[1..]), id), id)
    ensures ReadableBytes(MessagesFor(events, id)) == StreamBytes(CutAtEnd(CellsOf(events), id), id)
  {
    var cells := CellsOf(events);
    assert cells[0] == c && cells[1..] == CellsOf(events[1..]);
    if !EndsStream(c, id) {
      assert CutAtEnd(cells, id)[1..] == CutAtEnd(cells[1..], id);
      if IsStreamCommand(c.command) && c.streamId == id {
        assert MessagesFor(events, id)[1..] == MessagesFor(events[1..], id);
      }
    }
  }

  // ---------------------------------------------------------------- stream identifiers

  const ODD_IDS := 0x8000

  /** The odd identifier that follows `id`, wrapping from 65535 to 1. */
  function NextOdd(id: U16): U16 {
    if id + 2 > 0xFFFF then 1 else id + 2
  }

  /** The `k`-th identifier after `id`. */
  function NthOdd(id: U16, k: nat): (r: U16)
    requires id % 2 == 1
    ensures r % 2 == 1
  {
    ((id as int - 1) / 2 + k) % ODD_IDS * 2 + 1
  }

  lemma NthOddStep(id: U16, k: nat)
    requires id % 2 == 1
    ensures NthOdd(id, 0) == id
    ensures NextOdd(NthOdd(id, k)) == NthOdd(id, k + 1)
  {
  }

  /** Within one cycle no identifier repeats, and after a whole cycle the walk is back at its start. */
  lemma NthOddInjective(id: U16, i: nat, j: nat)
    requires id % 2 == 1 && i < j <= ODD_IDS
    ensures NthOdd(id, i) == NthOdd(id, j) <==> i == 0 && j == ODD_IDS
  {
  }

  /** The first `k` identifiers from `id` on are `k` different ones. */
  lemma {:induction false} DistinctOdds(id: U16, k: nat, s: set<U16>)
    requires id % 2 == 1 && k <= ODD_IDS
    requires forall i: nat :: i < k ==> NthOdd(id, i) in s
    ensures k <= |s|
  {
    if k > 0 {
      var last := NthOdd(id, k - 1);
      forall i: nat | i < k - 1 ensures NthOdd(id, i) in s - {last} {
        NthOddInjective(id, i, k - 1);
      }
      DistinctOdds(id, k - 1, s - {last});
    }
  }

  /** `id` is `k` places after the cursor and every identifier before it is taken. */
  ghost predicate FirstFree(start: U16, k: nat, taken: set<U16>, id: U16)
    requires start % 2 == 1
  {
    && id == NthOdd(start, k) && id !in taken
    && forall i: nat :: i < k ==> NthOdd(start, i) in taken
  }

  datatype AllocError = AllIdsExhausted | IdSpaceExhausted
}
