/**
 The RPKI-to-Router client (gptl-routing, rpki_rtr.rs): a Reset Query answered by one stream of PDUs in the layouts
 of section 5 of RFC 8210.
 */
module Rtr {
  import opened Bytes

  const RESET_QUERY: Byte := 2
  const CACHE_RESPONSE: Byte := 3
  const IPV4_PREFIX: Byte := 4
  const IPV6_PREFIX: Byte := 6
  const END_OF_DATA: Byte := 7
  const CACHE_RESET: Byte := 8
  const ROUTER_KEY: Byte := 9
  const ERROR_REPORT: Byte := 10

  const MAX_PDU := 16 * 1024

  type Quad = b: seq<Byte> | |b| == 4 witness Zeros(4)
  type Sixteen = b: seq<Byte> | |b| == 16 witness Zeros(16)

  datatype Address = V4(octets: Quad) | V6(octets6: Sixteen)

  datatype RoaPrefix = RoaPrefix(prefix: Address, prefixLen: Byte, maxLength: Byte, originAs: U32, announce: bool)

  datatype Snapshot = Snapshot(version: Byte, sessionId: U16, serial: U32, prefixes: seq<RoaPrefix>)

  /** The text of an Error Report, or why there is none. */
  datatype Message = Text(bytes: seq<Byte>) | Unreadable | Truncated

  datatype RtrError =
    | Io
    | TooShort(length: U32)
    | TooLong(length: U32)
    | NoSnapshot
    | Unexpected(typ: Byte)
    | BadPrefixLength(length: U32)
    | MissingSerial
    | ServerError(code: U16, message: Message)

  datatype Header = Header(version: Byte, typ: Byte, sessionOrFlags: U16, length: U32)

  // ---------------------------------------------------------------- the parser, on the bytes still unread

  function ReadBytes(rest: seq<Byte>, n: nat): (r: Result<(seq<Byte>, seq<Byte>), RtrError>)
    ensures r.Ok? <==> n <= |rest|
    ensures r.Ok? ==> |r.value.0| == n && |r.value.1| == |rest| - n
  {
    if |rest| < n then Err(Io) else Ok((rest[..n], rest[n..]))
  }

  function ReadHeader(rest: seq<Byte>): (r: Result<(Header, seq<Byte>), RtrError>)
    ensures r.Ok? ==> |r.value.1| == |rest| - 8 && 8 <= r.value.0.length <= MAX_PDU
  {
    match ReadBytes(rest, 8)
    case Err(e) => Err(e)
    case Ok((b, tail)) =>
      var length := U32From(b[4..]);
      if length < 8 then Err(TooShort(length))
      else if length > MAX_PDU then Err(TooLong(length))
      else Ok((Header(b[0], b[1], U16From(b[2..4]), length), tail))
  }

  /** The error that a PDU ends in, once its payload has been drained. */
  function DrainThen(rest: seq<Byte>, h: Header, e: RtrError): RtrError
    requires h.length >= 8
  {
    match ReadBytes(rest, h.length - 8)
    case Err(io) => io
    case Ok(_) => e
  }

  function ReadPrefix(rest: seq<Byte>, h: Header): (r: Result<(RoaPrefix, seq<Byte>), RtrError>)
    requires h.length >= 8 && (h.typ == IPV4_PREFIX || h.typ == IPV6_PREFIX)
    ensures r.Ok? ==> |r.value.1| <= |rest|
  {
    var size := if h.typ == IPV4_PREFIX then 4 else 16;
    if h.length != 16 + size then Err(DrainThen(rest, h, BadPrefixLength(h.length)))
    else
      match ReadBytes(rest, 8 + size)
      case Err(e) => Err(e)
      case Ok((b, tail)) =>
        var ip := b[4..4 + size];
        Ok((RoaPrefix(if size == 4 then V4(ip) else V6(ip), b[1], b[2], U32From(b[4 + size..]), b[0] % 2 == 1), tail))
  }

  function ReadEndOfData(rest: seq<Byte>, h: Header): Result<U32, RtrError>
    requires h.length >= 8
  {
    if h.length < 12 then Err(DrainThen(rest, h, MissingSerial))
    else
      match ReadBytes(rest, h.length - 8)
      case Err(e) => Err(e)
      case Ok((b, _)) => Ok(U32From(b[..4]))
  }

  /** The text of an Error Report, as far as its payload carries one. */
  function ErrorText(payload: seq<Byte>): Message {
    if |payload| < 4 then Truncated
    else
      var cursor := 4 + U32From(payload[..4]) as int;
      if |payload| < cursor + 4 then Text([])
      else
        var msgLen := U32From(payload[cursor..cursor + 4]) as int;
        var end := if cursor + 4 + msgLen < |payload| then cursor + 4 + msgLen else |payload|;
        Text(payload[cursor + 4..end])
  }

  function ErrorReport(rest: seq<Byte>, h: Header): RtrError
    requires h.length >= 8
  {
    match ReadBytes(rest, h.length - 8)
    case Err(_) => ServerError(h.sessionOrFlags, Unreadable)
    case Ok((payload, _)) => ServerError(h.sessionOrFlags, ErrorText(payload))
  }

  /** The PDUs after the first, up to End of Data. */
  function ReadBody(rest: seq<Byte>, prefixes: seq<RoaPrefix>): Result<(seq<RoaPrefix>, U32), RtrError>
    decreases |rest|
  {
    match ReadHeader(rest)
    case Err(e) => Err(e)
    case Ok((h, tail)) =>
      if h.typ == IPV4_PREFIX || h.typ == IPV6_PREFIX then
        (match ReadPrefix(tail, h)
         case Err(e) => Err(e)
         case Ok((p, next)) => ReadBody(next, prefixes + [p]))
      else if h.typ == ROUTER_KEY then
        (match ReadBytes(tail, h.length - 8)
         case Err(e) => Err(e)
         case Ok((_, next)) => ReadBody(next, prefixes))
      else if h.typ == END_OF_DATA then
        (match ReadEndOfData(tail, h)
         case Err(e) => Err(e)
         case Ok(serial) => Ok((prefixes, serial)))
      else if h.typ == ERROR_REPORT then Err(ErrorReport(tail, h))
      else Err(DrainThen(tail, h, Unexpected(h.typ)))
  }

  function ReadSnapshot(input: seq<Byte>): Result<Snapshot, RtrError> {
    match ReadHeader(input)
    case Err(e) => Err(e)
    case Ok((h, tail)) =>
      if h.typ == CACHE_RESPONSE then
        (match ReadBytes(tail, h.length - 8)
         case Err(e) => Err(e)
         case Ok((_, next)) =>
           match ReadBody(next, [])
           case Err(e) => Err(e)
           case Ok((prefixes, serial)) => Ok(Snapshot(h.version, h.sessionOrFlags, serial, prefixes)))
      else if h.typ == CACHE_RESET then Err(DrainThen(tail, h, NoSnapshot))
      else if h.typ == ERROR_REPORT then Err(ErrorReport(tail, h))
      else Err(DrainThen(tail, h, Unexpected(h.typ)))
  }

  // ---------------------------------------------------------------- the client, on a stream

  class Stream {
    /** Bytes the server has sent and the client has not read. */
    var unread: seq<Byte>
    /** Bytes the client has sent. */
    var sent: seq<Byte>

    constructor (input: seq<Byte>)
      ensures unread == input && sent == []
    {
      unread, sent := input, [];
    }

    method ReadExact(n: nat) returns (r: Result<seq<Byte>, RtrError>)
      modifies this`unread
      ensures match ReadBytes(old(unread), n)
              case Err(e) => r == Err(e)
              case Ok((b, tail)) => r == Ok(b) && unread == tail
    {
      if |unread| < n {
        unread := [];
        return Err(Io);
      }
      r := Ok(unread[..n]);
      unread := unread[n..];
    }

    method ReadPduHeader() returns (r: Result<Header, RtrError>)
      modifies this`unread
      ensures match ReadHeader(old(unread))
              case Err(e) => r == Err(e)
              case Ok((h, tail)) => r == Ok(h) && unread == tail
    {
      var b := ReadExact(8);
      if b.Err? { return Err(b.error); }
      var length := U32From(b.value[4..]);
      if length < 8 { return Err(TooShort(length)); }
      if length > MAX_PDU { return Err(TooLong(length)); }
      return Ok(Header(b.value[0], b.value[1], U16From(b.value[2..4]), length));
    }

    method DrainRemaining(h: Header, then_: RtrError) returns (e: RtrError)
      requires h.length >= 8
      modifies this`unread
      ensures e == DrainThen(old(unread), h, then_)
    {
      var b := ReadExact(h.length - 8);
      e := if b.Err? then b.error else then_;
    }

    method ReadPrefixPdu(h: Header) returns (r: Result<RoaPrefix, RtrError>)
      requires h.length >= 8 && (h.typ == IPV4_PREFIX || h.typ == IPV6_PREFIX)
      modifies this`unread
      ensures match ReadPrefix(old(unread), h)
              case Err(e) => r == Err(e)
              case Ok((p, tail)) => r == Ok(p) && unread == tail
    {
      var size := if h.typ == IPV4_PREFIX then 4 else 16;
      if h.length != 16 + size {
        var e := DrainRemaining(h, BadPrefixLength(h.length));
        return Err(e);
      }
      var b := ReadExact(8 + size);
      if b.Err? { return Err(b.error); }
      var ip := b.value[4..4 + size];
      return Ok(RoaPrefix(if size == 4 then V4(ip) else V6(ip), b.value[1], b.value[2],
                          U32From(b.value[4 + size..]), b.value[0] % 2 == 1));
    }

    method ReadEnd(h: Header) returns (r: Result<U32, RtrError>)
      requires h.length >= 8
      modifies this`unread
      ensures r == ReadEndOfData(old(unread), h)
    {
      if h.length < 12 {
        var e := DrainRemaining(h, MissingSerial);
        return Err(e);
      }
      var b := ReadExact(h.length - 8);
      if b.Err? { return Err(b.error); }
      return Ok(U32From(b.value[..4]));
    }

    method ParseErrorReport(h: Header) returns (e: RtrError)
      requires h.length >= 8
      modifies this`unread
      ensures e == ErrorReport(old(unread), h)
    {
      var payload := ReadExact(h.length - 8);
      if payload.Err? { return ServerError(h.sessionOrFlags, Unreadable); }
      return ServerError(h.sessionOrFlags, ErrorText(payload.value));
    }

    method ReadPrefixes() returns (r: Result<(seq<RoaPrefix>, U32), RtrError>)
      modifies this`unread
      ensures r == ReadBody(old(unread), [])
    {
      var prefixes: seq<RoaPrefix> := [];
      while true
        invariant ReadBody(unread, prefixes) == ReadBody(old(unread), [])
        decreases |unread|
      {
        var h := ReadPduHeader();
        if h.Err? { return Err(h.error); }
        if h.value.typ == IPV4_PREFIX || h.value.typ == IPV6_PREFIX {
          var p := ReadPrefixPdu(h.value);
          if p.Err? { return Err(p.error); }
          prefixes := prefixes + [p.value];
        } else if h.value.typ == ROUTER_KEY {
          var b := ReadExact(h.value.length - 8);
          if b.Err? { return Err(b.error); }
        } else if h.value.typ == END_OF_DATA {
          var serial := ReadEnd(h.value);
          if serial.Err? { return Err(serial.error); }
          return Ok((prefixes, serial.value));
        } else if h.value.typ == ERROR_REPORT {
          var e := ParseErrorReport(h.value);
          return Err(e);
        } else {
          var e := DrainRemaining(h.value, Unexpected(h.value.typ));
          return Err(e);
        }
      }
    }

    /** Send the Reset Query and collect the snapshot. */
    method Exchange() returns (r: Result<Snapshot, RtrError>)
      modifies this
      ensures sent == old(sent) + [1, RESET_QUERY, 0, 0, 0, 0, 0, 8]
      ensures r == ReadSnapshot(old(unread))
    {
      sent := sent + [1, RESET_QUERY, 0, 0] + U32Bytes(8);
      var h := ReadPduHeader();
      if h.Err? { return Err(h.error); }
      if h.value.typ == CACHE_RESPONSE {
        var b := ReadExact(h.value.length - 8);
        if b.Err? { return Err(b.error); }
        var body := ReadPrefixes();
        if body.Err? { return Err(body.error); }
        return Ok(Snapshot(h.value.version, h.value.sessionOrFlags, body.value.1, body.value.0));
      } else if h.value.typ == CACHE_RESET {
        var e := DrainRemaining(h.value, NoSnapshot);
        return Err(e);
      } else if h.value.typ == ERROR_REPORT {
        var e := ParseErrorReport(h.value);
        return Err(e);
      } else {
        var e := DrainRemaining(h.value, Unexpected(h.value.typ));
        return Err(e);
      }
    }
  }

  // ---------------------------------------------------------------- what a server prints

  /** An item of a snapshot; `flags`, `zero` and `reserved` are free, so that any sender's padding is covered. */
  datatype Item =
    | Prefix(zero: U16, flags: Byte, prefixLen: Byte, maxLength: Byte, reserved: Byte, address: Address, originAs: U32)
    | RouterKey(flagsAndZero: U16, body: seq<Byte>)

  predicate ItemOk(i: Item) {
    i.RouterKey? ==> |i.body| <= MAX_PDU - 8
  }

  function PrintHeader(version: Byte, typ: Byte, field: U16, length: U32): (b: seq<Byte>)
    ensures |b| == 8
  {
    [version, typ] + U16Bytes(field) + U32Bytes(length)
  }

  function PrintItem(version: Byte, i: Item): seq<Byte>
    requires ItemOk(i)
  {
    match i
    case Prefix(zero, flags, len, max, reserved, V4(ip), asn) =>
      PrintHeader(version, IPV4_PREFIX, zero, 20) + ([flags, len, max, reserved] + ip + U32Bytes(asn))
    case Prefix(zero, flags, len, max, reserved, V6(ip), asn) =>
      PrintHeader(version, IPV6_PREFIX, zero, 32) + ([flags, len, max, reserved] + ip + U32Bytes(asn))
    case RouterKey(field, body) => PrintHeader(version, ROUTER_KEY, field, 8 + |body|) + body
  }

  function PrintItems(version: Byte, items: seq<Item>): seq<Byte>
    requires forall i :: i in items ==> ItemOk(i)
  {
    if items == [] then [] else PrintItem(version, items[0]) + PrintItems(version, items[1..])
  }

  /** End of Data: the serial, and in version 1 the three intervals after it. */
  function PrintEnd(version: Byte, session: U16, serial: U32, intervals: seq<Byte>): seq<Byte>
    requires |intervals| <= MAX_PDU - 12
  {
    PrintHeader(version, END_OF_DATA, session, 12 + |intervals|) + (U32Bytes(serial) + intervals)
  }

  function Print(version: Byte, session: U16, items: seq<Item>, serial: U32, intervals: seq<Byte>): seq<Byte>
    requires (forall i :: i in items ==> ItemOk(i)) && |intervals| <= MAX_PDU - 12
  {
    PrintHeader(version, CACHE_RESPONSE, session, 8)
    + (PrintItems(version, items) + PrintEnd(version, session, serial, intervals))
  }

  function RoaOf(i: Item): RoaPrefix
    requires i.Prefix?
  {
    RoaPrefix(i.address, i.prefixLen, i.maxLength, i.originAs, i.flags % 2 == 1)
  }

  function Roas(items: seq<Item>): seq<RoaPrefix> {
    if items == [] then [] else (if items[0].Prefix? then [RoaOf(items[0])] else []) + Roas(items[1..])
  }

  lemma HeaderReadBack(version: Byte, typ: Byte, field: U16, length: U32, tail: seq<Byte>)
    requires 8 <= length <= MAX_PDU
    ensures ReadHeader(PrintHeader(version, typ, field, length) + tail)
         == Ok((Header(version, typ, field, length), tail))
  {
    var h := PrintHeader(version, typ, field, length);
    assert (h + tail)[..8] == h && (h + tail)[8..] == tail;
    assert h[2..4] == U16Bytes(field) && h[4..] == U32Bytes(length);
    U16RoundTrip(field);
    U32RoundTrip(length);
  }

  /** A printed prefix is read back as itself, and the reader stops right after it. */
  lemma PrefixReadBack(version: Byte, i: Item, tail: seq<Byte>)
    requires i.Prefix?
    ensures var typ := if i.address.V4? then IPV4_PREFIX else IPV6_PREFIX;
            var h := Header(version, typ, i.zero, if i.address.V4? then 20 else 32);
            && ReadHeader(PrintItem(version, i) + tail) == Ok((h, PrintItem(version, i)[8..] + tail))
            && ReadPrefix(PrintItem(version, i)[8..] + tail, h) == Ok((RoaOf(i), tail))
  {
    var ip: seq<Byte> := if i.address.V4? then i.address.octets else i.address.octets6;
    var payload := [i.flags, i.prefixLen, i.maxLength, i.reserved] + ip + U32Bytes(i.originAs);
    var typ := if i.address.V4? then IPV4_PREFIX else IPV6_PREFIX;
    var header := PrintHeader(version, typ, i.zero, |payload| + 8);
    assert PrintItem(version, i) == header + payload;
    assert PrintItem(version, i)[8..] == payload;
    assert header + payload + tail == header + (payload + tail);
    HeaderReadBack(version, typ, i.zero, |payload| + 8, payload + tail);
    var b := (payload + tail)[..|payload|];
    assert b == payload && (payload + tail)[|payload|..] == tail;
    assert payload[4..4 + |ip|] == ip && payload[4 + |ip|..] == U32Bytes(i.originAs);
    U32RoundTrip(i.originAs);
  }

  lemma EndReadBack(version: Byte, session: U16, serial: U32, intervals: seq<Byte>, tail: seq<Byte>, got: seq<RoaPrefix>)
    requires |intervals| <= MAX_PDU - 12
    ensures ReadBody(PrintEnd(version, session, serial, intervals) + tail, got) == Ok((got, serial))
  {
    var payload := U32Bytes(serial) + intervals;
    var header := PrintHeader(version, END_OF_DATA, session, 12 + |intervals|);
    assert header + payload + tail == header + (payload + tail);
    HeaderReadBack(version, END_OF_DATA, session, 12 + |intervals|, payload + tail);
    assert (payload + tail)[..|payload|][..4] == U32Bytes(serial);
    U32RoundTrip(serial);
  }

  lemma ItemReadBack(version: Byte, i: Item, tail: seq<Byte>, got: seq<RoaPrefix>)
    requires ItemOk(i)
    ensures ReadBody(PrintItem(version, i) + tail, got) == ReadBody(tail, if i.Prefix? then got + [RoaOf(i)] else got)
  {
    if i.Prefix? {
      PrefixReadBack(version, i, tail);
    } else {
      var header := PrintHeader(version, ROUTER_KEY, i.flagsAndZero, 8 + |i.body|);
      assert header + i.body + tail == header + (i.body + tail);
      HeaderReadBack(version, ROUTER_KEY, i.flagsAndZero, 8 + |i.body|, i.body + tail);
      assert (i.body + tail)[|i.body|..] == tail;
    }
  }

  /** Printed items are consumed one by one, whatever follows them. */
  lemma {:induction false} ItemsReadBack(version: Byte, items: seq<Item>, tail: seq<Byte>, got: seq<RoaPrefix>)
    requires forall i :: i in items ==> ItemOk(i)
    ensures ReadBody(PrintItems(version, items) + tail, got) == ReadBody(tail, got + Roas(items))
    decreases |items|
  {
    if items == [] {
      NothingPrinted(version, items, tail, got);
    } else {
      ItemsStep(version, items, tail, got);
      ItemsReadBack(version, items[1..], tail, Extended(got, items[0]));
      ExtendedRoas(got, items);
    }
  }

  lemma NothingPrinted(version: Byte, items: seq<Item>, tail: seq<Byte>, got: seq<RoaPrefix>)
    requires items == []
    ensures PrintItems(version, items) + tail == tail && got + Roas(items) == got
  {
  }

  lemma ExtendedRoas(got: seq<RoaPrefix>, items: seq<Item>)
    requires items != []
    ensures Extended(got, items[0]) + Roas(items[1..]) == got + Roas(items)
  {
    var rest: seq<RoaPrefix> := Roas(items[1..]);
    if items[0].Prefix? {
      var one: seq<RoaPrefix> := [RoaOf(items[0])];
      assert got + one + rest == got + (one + rest);
    } else {
      assert [] + rest == rest;
    }
  }

  /** The prefixes read so far after one more item. */
  function Extended(got: seq<RoaPrefix>, i: Item): seq<RoaPrefix> {
    if i.Prefix? then got + [RoaOf(i)] else got
  }

  lemma ItemsStep(version: Byte, items: seq<Item>, tail: seq<Byte>, got: seq<RoaPrefix>)
    requires items != [] && forall i :: i in items ==> ItemOk(i)
    ensures ReadBody(PrintItems(version, items) + tail, got)
         == ReadBody(PrintItems(version, items[1..]) + tail, Extended(got, items[0]))
  {
    assert items[0] in items;
    var first, more := PrintItem(version, items[0]), PrintItems(version, items[1..]);
    assert first + more + tail == first + (more + tail);
    ItemReadBack(version, items[0], more + tail, got);
  }

  lemma CacheResponseReadBack(version: Byte, session: U16, body: seq<Byte>)
    ensures ReadSnapshot(PrintHeader(version, CACHE_RESPONSE, session, 8) + body)
         == match ReadBody(body, [])
            case Err(e) => Err(e)
            case Ok((prefixes, serial)) => Ok(Snapshot(version, session, serial, prefixes))
  {
    HeaderReadBack(version, CACHE_RESPONSE, session, 8, body);
    assert body[0..] == body;
  }

  lemma BodyReadBack(version: Byte, session: U16, items: seq<Item>, serial: U32, intervals: seq<Byte>, tail: seq<Byte>)
    requires (forall i :: i in items ==> ItemOk(i)) && |intervals| <= MAX_PDU - 12
    ensures ReadBody(PrintItems(version, items) + (PrintEnd(version, session, serial, intervals) + tail), [])
         == Ok((Roas(items), serial))
  {
    var end := PrintEnd(version, session, serial, intervals);
    assert [] + Roas(items) == Roas(items);
    ItemsReadBack(version, items, end + tail, []);
    EndReadBack(version, session, serial, intervals, tail, Roas(items));
  }

  lemma Associate(a: seq<Byte>, b: seq<Byte>, c: seq<Byte>, d: seq<Byte>)
    ensures a + (b + c) + d == a + (b + (c + d))
  {
  }

  /**
   Parsing what a server prints gives exactly its prefixes, in order, with its version, session and serial, and
   nothing after End of Data is looked at.
   */
  lemma ParseOfPrint(version: Byte, session: U16, items: seq<Item>, serial: U32, intervals: seq<Byte>, tail: seq<Byte>)
    requires (forall i :: i in items ==> ItemOk(i)) && |intervals| <= MAX_PDU - 12
    ensures ReadSnapshot(Print(version, session, items, serial, intervals) + tail)
         == Ok(Snapshot(version, session, serial, Roas(items)))
  {
    var header := PrintHeader(version, CACHE_RESPONSE, session, 8);
    var printed, end := PrintItems(version, items), PrintEnd(version, session, serial, intervals);
    Associate(header, printed, end, tail);
    CacheResponseReadBack(version, session, printed + (end + tail));
    BodyReadBack(version, session, items, serial, intervals, tail);
  }

  // ---------------------------------------------------------------- errors

  /** The payload of an Error Report: the PDU it is about and its text, each behind its length, and anything more. */
  function PrintReport(pdu: seq<Byte>, text: seq<Byte>, more: seq<Byte>): seq<Byte>
    requires |pdu| <= U32_MAX && |text| <= U32_MAX
  {
    U32Bytes(|pdu|) + pdu + U32Bytes(|text|) + text + more
  }

  /** The text of an Error Report is read back, whatever PDU it is about. */
  lemma ReportTextReadBack(pdu: seq<Byte>, text: seq<Byte>, more: seq<Byte>)
    requires |pdu| <= U32_MAX && |text| <= U32_MAX
    ensures ErrorText(PrintReport(pdu, text, more)) == Text(text)
  {
    var b, n := PrintReport(pdu, text, more), 4 + |pdu|;
    U32RoundTrip(|pdu|);
    U32RoundTrip(|text|);
    assert b[..4] == U32Bytes(|pdu|) && b[n..n + 4] == U32Bytes(|text|) && b[n + 4..n + 4 + |text|] == text;
  }

  /** Cut short behind its length the text is what is left of it; cut before it is empty, within the first length, none. */
  lemma CutReport(pdu: seq<Byte>, text: seq<Byte>, k: nat)
    requires |pdu| <= U32_MAX && |text| <= U32_MAX && k <= |PrintReport(pdu, text, [])|
    ensures var n := 8 + |pdu|;
            ErrorText(PrintReport(pdu, text, [])[..k])
            == if k < 4 then Truncated else if k < n then Text([]) else Text(text[..k - n])
  {
    var b, n := PrintReport(pdu, text, []), 4 + |pdu|;
    U32RoundTrip(|pdu|);
    U32RoundTrip(|text|);
    if k >= 4 { assert b[..k][..4] == U32Bytes(|pdu|); }
    if k >= n + 4 {
      assert b[..k][n..n + 4] == U32Bytes(|text|);
      assert b[..k][n + 4..k] == text[..k - n - 4];
    }
  }

  /** An Error Report instead of an answer, or among the prefixes, ends the exchange with its code and text. */
  lemma ReportReadBack(version: Byte, code: U16, pdu: seq<Byte>, text: seq<Byte>, tail: seq<Byte>, got: seq<RoaPrefix>)
    requires 16 + |pdu| + |text| <= 16384
    ensures var sent := PrintHeader(version, 10, code, 16 + |pdu| + |text|) + PrintReport(pdu, text, []);
            && ReadSnapshot(sent + tail) == Err(ServerError(code, Text(text)))
            && ReadBody(sent + tail, got) == Err(ServerError(code, Text(text)))
  {
    var payload := PrintReport(pdu, text, []);
    var header := PrintHeader(version, 10, code, 16 + |pdu| + |text|);
    assert header + payload + tail == header + (payload + tail);
    HeaderReadBack(version, 10, code, 16 + |pdu| + |text|, payload + tail);
    assert (payload + tail)[..|payload|] == payload;
    ReportTextReadBack(pdu, text, []);
  }

  /** A length below eight or above 16384 ends the exchange wherever it comes. */
  lemma BadLength(b: seq<Byte>, length: U32, tail: seq<Byte>, got: seq<RoaPrefix>)
    requires |b| == 4 && (length < 8 || length > 16384)
    ensures var e: RtrError := if length < 8 then TooShort(length) else TooLong(length);
            && ReadSnapshot(b + U32Bytes(length) + tail) == Err(e)
            && ReadBody(b + U32Bytes(length) + tail, got) == Err(e)
  {
    var sent := b + U32Bytes(length) + tail;
    assert sent[..8][4..] == U32Bytes(length);
    U32RoundTrip(length);
  }

  /** The first PDU, whole: a Cache Reset has no snapshot, and nothing else but an answer or a report is expected. */
  lemma FirstPduErrors(version: Byte, typ: Byte, field: U16, payload: seq<Byte>, tail: seq<Byte>)
    requires 8 + |payload| <= 16384 && typ != 3 && typ != 10
    ensures ReadSnapshot(PrintHeader(version, typ, field, 8 + |payload|) + payload + tail)
         == Err(if typ == 8 then NoSnapshot else Unexpected(typ))
  {
    var header := PrintHeader(version, typ, field, 8 + |payload|);
    assert header + payload + tail == header + (payload + tail);
    HeaderReadBack(version, typ, field, 8 + |payload|, payload + tail);
  }

  /** A later PDU, whole: a prefix of another length, an End of Data without serial, or a PDU that is none of the list. */
  lemma LaterPduErrors(version: Byte, typ: Byte, field: U16, payload: seq<Byte>, tail: seq<Byte>, got: seq<RoaPrefix>)
    requires 8 + |payload| <= 16384
    ensures var r := ReadBody(PrintHeader(version, typ, field, 8 + |payload|) + payload + tail, got);
            && (typ == 4 && |payload| != 12 ==> r == Err(BadPrefixLength(8 + |payload|)))
            && (typ == 6 && |payload| != 24 ==> r == Err(BadPrefixLength(8 + |payload|)))
            && (typ == 7 && |payload| < 4 ==> r == Err(MissingSerial))
            && (typ !in [4, 6, 7, 9, 10] ==> r == Err(Unexpected(typ)))
            && (typ == 9 ==> r == ReadBody(tail, got))
  {
    var h := Header(version, typ, field, 8 + |payload|);
    PduHeader(version, typ, field, payload, tail);
    BodyStep(PrintHeader(version, typ, field, 8 + |payload|) + payload + tail, h, payload + tail, got);
    assert (payload + tail)[|payload|..] == tail;
  }

  lemma PduHeader(version: Byte, typ: Byte, field: U16, payload: seq<Byte>, tail: seq<Byte>)
    requires 8 + |payload| <= 16384
    ensures ReadHeader(PrintHeader(version, typ, field, 8 + |payload|) + payload + tail)
         == Ok((Header(version, typ, field, 8 + |payload|), payload + tail))
  {
    var header := PrintHeader(version, typ, field, 8 + |payload|);
    assert header + payload + tail == header + (payload + tail);
    HeaderReadBack(version, typ, field, 8 + |payload|, payload + tail);
  }

  /** What a later PDU other than a good prefix, a good End of Data or a report does, behind its header. */
  lemma BodyStep(rest: seq<Byte>, h: Header, tail: seq<Byte>, got: seq<RoaPrefix>)
    requires ReadHeader(rest) == Ok((h, tail)) && h.length - 8 <= |tail|
    ensures h.typ == 4 && h.length != 20 ==> ReadBody(rest, got) == Err(BadPrefixLength(h.length))
    ensures h.typ == 6 && h.length != 32 ==> ReadBody(rest, got) == Err(BadPrefixLength(h.length))
    ensures h.typ == 7 && h.length < 12 ==> ReadBody(rest, got) == Err(MissingSerial)
    ensures h.typ !in [4, 6, 7, 9, 10] ==> ReadBody(rest, got) == Err(Unexpected(h.typ))
    ensures h.typ == 9 ==> ReadBody(rest, got) == ReadBody(tail[h.length - 8..], got)
  {
  }

  /** An unexpected PDU or one of the wrong length that is cut short is an I/O error, whatever else is wrong with it. */
  lemma CutErrorIsIo(version: Byte, typ: Byte, field: U16, payload: seq<Byte>, k: nat, got: seq<RoaPrefix>)
    requires 8 + |payload| <= 16384 && k < 8 + |payload|
    ensures var cut := (PrintHeader(version, typ, field, 8 + |payload|) + payload)[..k];
            && (typ != 10 || k < 8 ==> ReadSnapshot(cut) == Err(Io) && ReadBody(cut, got) == Err(Io))
            && (typ == 10 && k >= 8 ==> ReadSnapshot(cut) == Err(ServerError(field, Unreadable))
                                        && ReadBody(cut, got) == Err(ServerError(field, Unreadable)))
  {
    HeaderCut(version, typ, field, 8 + |payload|, payload, k);
  }

  /** The PDUs of a snapshot by their type and flag bytes, in order: what the printer above writes. */
  lemma PrintedTypes(version: Byte, i: Item)
    requires ItemOk(i)
    ensures var b := PrintItem(version, i);
            && |b| >= 8 && b[0] == version && BigEndian(b[4..8]) == |b|
            && b[1] == (if i.RouterKey? then 9 else if i.address.V4? then 4 else 6)
            && (i.Prefix? ==> b[8..12] == [i.flags, i.prefixLen, i.maxLength, i.reserved] && RoaOf(i).announce == (i.flags % 2 == 1))
  {
    var b := PrintItem(version, i);
    assert b[4..8] == U32Bytes(|b|);
    U32RoundTrip(|b|);
    U32Layout(b[4..8]);
  }

  // ---------------------------------------------------------------- truncation

  /** A printed PDU cut short is an I/O error: within the header, or within the payload that the header announces. */
  lemma HeaderCut(version: Byte, typ: Byte, field: U16, length: U32, payload: seq<Byte>, k: nat)
    requires 8 <= length <= MAX_PDU && |payload| == length - 8 && k < |payload| + 8
    ensures var cut := (PrintHeader(version, typ, field, length) + payload)[..k];
            && (k < 8 ==> ReadHeader(cut) == Err(Io))
            && (k >= 8 ==> ReadHeader(cut) == Ok((Header(version, typ, field, length), payload[..k - 8])))
  {
    var header := PrintHeader(version, typ, field, length);
    if k >= 8 {
      assert (header + payload)[..k] == header + payload[..k - 8];
      HeaderReadBack(version, typ, field, length, payload[..k - 8]);
    }
  }

  lemma PduCut(version: Byte, typ: Byte, field: U16, length: U32, payload: seq<Byte>, k: nat, got: seq<RoaPrefix>)
    requires 8 <= length <= MAX_PDU && |payload| == length - 8 && k < |payload| + 8
    requires (typ == IPV4_PREFIX && length == 20) || (typ == IPV6_PREFIX && length == 32) || typ == ROUTER_KEY
    ensures ReadBody((PrintHeader(version, typ, field, length) + payload)[..k], got) == Err(Io)
  {
    HeaderCut(version, typ, field, length, payload, k);
  }

  lemma ItemCut(version: Byte, i: Item, k: nat, got: seq<RoaPrefix>)
    requires ItemOk(i) && k < |PrintItem(version, i)|
    ensures ReadBody(PrintItem(version, i)[..k], got) == Err(Io)
  {
    match i
    case Prefix(zero, flags, len, max, reserved, V4(ip), asn) =>
      PduCut(version, IPV4_PREFIX, zero, 20, [flags, len, max, reserved] + ip + U32Bytes(asn), k, got);
    case Prefix(zero, flags, len, max, reserved, V6(ip), asn) =>
      PduCut(version, IPV6_PREFIX, zero, 32, [flags, len, max, reserved] + ip + U32Bytes(asn), k, got);
    case RouterKey(field, body) => PduCut(version, ROUTER_KEY, field, 8 + |body|, body, k, got);
  }

  lemma {:induction false} ItemsCut(version: Byte, items: seq<Item>, k: nat, got: seq<RoaPrefix>)
    requires (forall i :: i in items ==> ItemOk(i)) && k < |PrintItems(version, items)|
    ensures ReadBody(PrintItems(version, items)[..k], got) == Err(Io)
    decreases |items|
  {
    assert items[0] in items;
    var i, first, more := items[0], PrintItem(version, items[0]), PrintItems(version, items[1..]);
    if k < |first| {
      assert (first + more)[..k] == first[..k];
      ItemCut(version, i, k, got);
    } else {
      ItemsCut(version, items[1..], k - |first|, if i.Prefix? then got + [RoaOf(i)] else got);
      ItemReadBack(version, i, more[..k - |first|], got);
      assert (first + more)[..k] == first + more[..k - |first|];
    }
  }

  lemma BodyCut(version: Byte, session: U16, items: seq<Item>, serial: U32, intervals: seq<Byte>, k: nat)
    requires (forall i :: i in items ==> ItemOk(i)) && |intervals| <= MAX_PDU - 12
    requires k < |PrintItems(version, items) + PrintEnd(version, session, serial, intervals)|
    ensures ReadBody((PrintItems(version, items) + PrintEnd(version, session, serial, intervals))[..k], []) == Err(Io)
  {
    var printed, end := PrintItems(version, items), PrintEnd(version, session, serial, intervals);
    if k < |printed| {
      assert (printed + end)[..k] == printed[..k];
      ItemsCut(version, items, k, []);
    } else {
      assert (printed + end)[..k] == printed + end[..k - |printed|];
      ItemsReadBack(version, items, end[..k - |printed|], []);
      HeaderCut(version, END_OF_DATA, session, 12 + |intervals|, U32Bytes(serial) + intervals, k - |printed|);
    }
  }

  /** Every proper prefix of a printed snapshot is an I/O error: no cut-off snapshot passes for a shorter one. */
  lemma EveryCutIsIo(version: Byte, session: U16, items: seq<Item>, serial: U32, intervals: seq<Byte>, k: nat)
    requires (forall i :: i in items ==> ItemOk(i)) && |intervals| <= MAX_PDU - 12
    requires k < |Print(version, session, items, serial, intervals)|
    ensures ReadSnapshot(Print(version, session, items, serial, intervals)[..k]) == Err(Io)
  {
    var header := PrintHeader(version, CACHE_RESPONSE, session, 8);
    var body := PrintItems(version, items) + PrintEnd(version, session, serial, intervals);
    if k >= 8 {
      assert (header + body)[..k] == header + body[..k - 8];
      CacheResponseReadBack(version, session, body[..k - 8]);
      BodyCut(version, session, items, serial, intervals, k - 8);
    }
  }
}
