/** Fixed-size wire cells and the relay cells carried inside them (gptl-transport, cell.rs). */
module Cells {
  import opened Bytes

  const CELL_SIZE := 512
  const CELL_PAYLOAD_LEN := 507
  const RELAY_PLAINTEXT_LEN := 491
  const RELAY_HEADER_LEN := 5
  const RELAY_MAX_DATA := RELAY_PLAINTEXT_LEN - RELAY_HEADER_LEN
  const RELAY_INNER_CT_LEN := RELAY_MAX_DATA
  const RELAY_INNER_PLAINTEXT_LEN := RELAY_INNER_CT_LEN - 16
  const RELAY_INNER_MAX_DATA := RELAY_INNER_PLAINTEXT_LEN - RELAY_HEADER_LEN

  datatype CellType = Padding | Create | Created | Relay | Destroy | Netinfo | RelayInner
  {
    function Code(): Byte {
      match this
      case Padding => 0
      case Create => 1
      case Created => 2
      case Relay => 3
      case Destroy => 4
      case Netinfo => 5
      case RelayInner => 6
    }

    static function FromByte(b: Byte): Option<CellType> {
      match b
      case 0 => Some(Padding)
      case 1 => Some(Create)
      case 2 => Some(Created)
      case 3 => Some(Relay)
      case 4 => Some(Destroy)
      case 5 => Some(Netinfo)
      case 6 => Some(RelayInner)
      case _ => None
    }
  }

  datatype Command =
    Begin | Data | End | Connected | BeginFailed | Extend | Extended | ExtendFailed | Forward
  {
    function Code(): Byte {
      match this
      case Begin => 1
      case Data => 2
      case End => 3
      case Connected => 4
      case BeginFailed => 5
      case Extend => 10
      case Extended => 11
      case ExtendFailed => 12
      case Forward => 13
    }

    static function FromByte(b: Byte): Option<Command> {
      match b
      case 1 => Some(Begin)
      case 2 => Some(Data)
      case 3 => Some(End)
      case 4 => Some(Connected)
      case 5 => Some(BeginFailed)
      case 10 => Some(Extend)
      case 11 => Some(Extended)
      case 12 => Some(ExtendFailed)
      case 13 => Some(Forward)
      case _ => None
    }
  }

  type Payload = p: seq<Byte> | |p| == CELL_PAYLOAD_LEN witness Zeros(CELL_PAYLOAD_LEN)

  datatype Cell = Cell(circuitId: U32, cellType: CellType, payload: Payload)

  datatype RelayCell = RelayCell(command: Command, streamId: U16, data: seq<Byte>)

  /** The two errors a decoder reports and the one an encoder reports. */
  datatype CellError = UnknownCellType(code: Byte) | UnknownCommand(code: Byte) | DataTooLarge(len: nat)

  // ---------------------------------------------------------------- wire cells

  /** The 512 bytes of a cell: circuit id, type code, payload. */
  function CellBytes(c: Cell): (b: seq<Byte>)
    ensures |b| == CELL_SIZE
  {
    U32Bytes(c.circuitId) + [c.cellType.Code()] + c.payload
  }

  function ParseCell(b: seq<Byte>): Result<Cell, CellError>
    requires |b| == CELL_SIZE
  {
    match CellType.FromByte(b[4])
    case None => Err(UnknownCellType(b[4]))
    case Some(t) => Ok(Cell(U32From(b[..4]), t, b[5..]))
  }

  method ToBytes(c: Cell) returns (out: array<Byte>)
    ensures fresh(out) && out[..] == CellBytes(c)
  {
    out := new Byte[CELL_SIZE](_ => 0);
    var id := U32Bytes(c.circuitId);
    forall i | 0 <= i < 4 { out[i] := id[i]; }
    out[4] := c.cellType.Code();
    forall i | 5 <= i < CELL_SIZE { out[i] := c.payload[i - 5]; }
    assert out[..] == id + [c.cellType.Code()] + c.payload;
  }

  method FromBytes(buf: array<Byte>) returns (r: Result<Cell, CellError>)
    requires buf.Length == CELL_SIZE
    ensures r == ParseCell(buf[..])
  {
    var circuitId := U32From(buf[..4]);
    assert buf[..][..4] == buf[..4] && buf[..][5..] == buf[5..];
    match CellType.FromByte(buf[4]) {
      case None => return Err(UnknownCellType(buf[4]));
      case Some(t) => return Ok(Cell(circuitId, t, buf[5..]));
    }
  }

  /** What is written is read back, and nothing else is: parsing accepts exactly the images of `CellBytes`. */
  lemma CellRoundTrip(c: Cell)
    ensures ParseCell(CellBytes(c)) == Ok(c)
  {
    var b := CellBytes(c);
    assert b[..4] == U32Bytes(c.circuitId) && b[5..] == c.payload;
    U32RoundTrip(c.circuitId);
  }

  lemma CellCanonical(b: seq<Byte>)
    requires |b| == CELL_SIZE
    ensures ParseCell(b).Ok? <==> b[4] <= 6
    ensures ParseCell(b).Ok? ==> CellBytes(ParseCell(b).value) == b
  {
    U32BytesOfFrom(b[..4]);
    assert b == b[..4] + [b[4]] + b[5..];
  }

  /** Where everything stands on the wire, byte by byte. */
  lemma CellLayout(b: seq<Byte>)
    requires |b| == 512 && ParseCell(b).Ok?
    ensures var c := ParseCell(b).value;
            && c.circuitId == BigEndian(b[0..4])
            && c.payload == b[5..512]
            && (c.cellType == Padding <==> b[4] == 0) && (c.cellType == Create <==> b[4] == 1)
            && (c.cellType == Created <==> b[4] == 2) && (c.cellType == Relay <==> b[4] == 3)
            && (c.cellType == Destroy <==> b[4] == 4) && (c.cellType == Netinfo <==> b[4] == 5)
            && (c.cellType == RelayInner <==> b[4] == 6)
  {
    U32Layout(b[0..4]);
    assert b[0..4] == b[..4];
  }

  // ---------------------------------------------------------------- relay cells

  /** A relay cell in a zero-padded plaintext of `size` bytes; `encode` and `encode_inner` are its two sizes. */
  function RelayBytes(c: RelayCell, size: nat): Result<seq<Byte>, CellError>
    requires RELAY_HEADER_LEN <= size <= RELAY_PLAINTEXT_LEN
  {
    if |c.data| > size - RELAY_HEADER_LEN then Err(DataTooLarge(|c.data|))
    else Ok([c.command.Code()] + U16Bytes(c.streamId) + U16Bytes(|c.data|) + c.data
            + Zeros(size - RELAY_HEADER_LEN - |c.data|))
  }

  function ParseRelay(b: seq<Byte>): Result<RelayCell, CellError>
    requires RELAY_HEADER_LEN <= |b|
  {
    match Command.FromByte(b[0])
    case None => Err(UnknownCommand(b[0]))
    case Some(cmd) =>
      var len := U16From(b[3..5]);
      if len > |b| - RELAY_HEADER_LEN then Err(DataTooLarge(len))
      else Ok(RelayCell(cmd, U16From(b[1..3]), b[5..5 + len]))
  }

  method FillRelay(c: RelayCell, buf: array<Byte>)
    requires RELAY_HEADER_LEN <= buf.Length <= RELAY_PLAINTEXT_LEN
    requires |c.data| <= buf.Length - RELAY_HEADER_LEN
    requires forall i :: 0 <= i < buf.Length ==> buf[i] == 0
    modifies buf
    ensures RelayBytes(c, buf.Length) == Ok(buf[..])
  {
    var id, len := U16Bytes(c.streamId), U16Bytes(|c.data|);
    buf[0] := c.command.Code();
    buf[1], buf[2] := id[0], id[1];
    buf[3], buf[4] := len[0], len[1];
    forall i | 0 <= i < |c.data| { buf[5 + i] := c.data[i]; }
    assert buf[..] == [c.command.Code()] + id + len + c.data + Zeros(buf.Length - RELAY_HEADER_LEN - |c.data|);
  }

  method Encode(c: RelayCell) returns (r: Result<array<Byte>, CellError>)
    ensures r.Ok? ==> fresh(r.value) && RelayBytes(c, RELAY_PLAINTEXT_LEN) == Ok(r.value[..])
    ensures r.Err? ==> RelayBytes(c, RELAY_PLAINTEXT_LEN) == Err(r.error)
  {
    if |c.data| > RELAY_MAX_DATA { return Err(DataTooLarge(|c.data|)); }
    var buf := new Byte[RELAY_PLAINTEXT_LEN](_ => 0);
    FillRelay(c, buf);
    return Ok(buf);
  }

  method EncodeInner(c: RelayCell) returns (r: Result<array<Byte>, CellError>)
    ensures r.Ok? ==> fresh(r.value) && RelayBytes(c, RELAY_INNER_PLAINTEXT_LEN) == Ok(r.value[..])
    ensures r.Err? ==> RelayBytes(c, RELAY_INNER_PLAINTEXT_LEN) == Err(r.error)
  {
    if |c.data| > RELAY_INNER_MAX_DATA { return Err(DataTooLarge(|c.data|)); }
    var buf := new Byte[RELAY_INNER_PLAINTEXT_LEN](_ => 0);
    FillRelay(c, buf);
    return Ok(buf);
  }

  /** Decoding undoes encoding at either size: the zero padding never leaks into the data. */
  lemma RelayRoundTrip(c: RelayCell, size: nat)
    requires RELAY_HEADER_LEN <= size <= RELAY_PLAINTEXT_LEN
    ensures RelayBytes(c, size).Ok? <==> |c.data| <= size - RELAY_HEADER_LEN
    ensures RelayBytes(c, size).Ok? ==>
              && |RelayBytes(c, size).value| == size
              && ParseRelay(RelayBytes(c, size).value) == Ok(c)
  {
    if |c.data| <= size - RELAY_HEADER_LEN {
      var b := RelayBytes(c, size).value;
      assert b[1..3] == U16Bytes(c.streamId);
      assert b[3..5] == U16Bytes(|c.data|);
      assert b[5..5 + |c.data|] == c.data;
      U16RoundTrip(c.streamId);
      U16RoundTrip(|c.data|);
    }
  }

  predicate IsCommandCode(b: Byte) {
    1 <= b <= 5 || 10 <= b <= 13
  }

  /** Where everything stands in a relay plaintext, byte by byte, and which plaintexts decode. */
  lemma RelayLayout(b: seq<Byte>)
    requires |b| >= 5
    ensures ParseRelay(b).Ok? <==> IsCommandCode(b[0]) && BigEndian(b[3..5]) <= |b| - 5
    ensures ParseRelay(b).Err? ==>
              ParseRelay(b).error == if !IsCommandCode(b[0]) then UnknownCommand(b[0]) else DataTooLarge(BigEndian(b[3..5]))
    ensures ParseRelay(b).Ok? ==>
              var c := ParseRelay(b).value;
              && c.streamId == BigEndian(b[1..3])
              && |c.data| == BigEndian(b[3..5]) && c.data == b[5..5 + |c.data|]
              && (c.command == Begin <==> b[0] == 1) && (c.command == Data <==> b[0] == 2)
              && (c.command == End <==> b[0] == 3) && (c.command == Connected <==> b[0] == 4)
              && (c.command == BeginFailed <==> b[0] == 5) && (c.command == Extend <==> b[0] == 10)
              && (c.command == Extended <==> b[0] == 11) && (c.command == ExtendFailed <==> b[0] == 12)
              && (c.command == Forward <==> b[0] == 13)
  {
    U16Layout(b[1..3]);
    U16Layout(b[3..5]);
  }

  /** A plaintext is an encoding exactly when it decodes and everything after its data is zero. */
  lemma RelayCanonical(b: seq<Byte>)
    requires RELAY_HEADER_LEN <= |b| <= RELAY_PLAINTEXT_LEN
    ensures (exists c :: RelayBytes(c, |b|) == Ok(b)) <==>
            && ParseRelay(b).Ok?
            && forall i :: 5 + |ParseRelay(b).value.data| <= i < |b| ==> b[i] == 0
  {
    if ParseRelay(b).Ok? && forall i :: 5 + |ParseRelay(b).value.data| <= i < |b| ==> b[i] == 0 {
      var c := ParseRelay(b).value;
      U16BytesOfFrom(b[1..3]);
      U16BytesOfFrom(b[3..5]);
      assert b == [b[0]] + b[1..3] + b[3..5] + c.data + Zeros(|b| - RELAY_HEADER_LEN - |c.data|);
      assert RelayBytes(c, |b|) == Ok(b);
    }
    if c :| RelayBytes(c, |b|) == Ok(b) {
      RelayRoundTrip(c, |b|);
    }
  }
}
