/** DNS queries and responses (gptl-routing, dns_protection.rs), in the layouts of section 4.1 of RFC 1035. */
module Dns {
  import opened Bytes

  const DOT: Byte := 46
  const MAX_LABEL := 63
  const TYPE_A := 1
  const TYPE_AAAA := 28

  datatype Address = V4(octets: seq<Byte>) | V6(octets6: seq<Byte>)

  datatype DnsError = LabelTooLong | InvalidResponse | MalformedQuestion | NoAddresses

  /** A piece of a domain name between dots. */
  datatype Label = Label(bytes: seq<Byte>)

  // ---------------------------------------------------------------- queries

  function Split(s: seq<Byte>): (labels: seq<Label>)
    ensures labels != []
  {
    if s == [] then [Label([])]
    else
      var rest := Split(s[1..]);
      if s[0] == DOT then [Label([])] + rest else [Label([s[0]] + rest[0].bytes)] + rest[1..]
  }

  function Join(labels: seq<Label>): seq<Byte>
    requires labels != []
  {
    if |labels| == 1 then labels[0].bytes else labels[0].bytes + [DOT] + Join(labels[1..])
  }

  predicate NoDots(labels: seq<Label>) {
    forall i :: 0 <= i < |labels| ==> DOT !in labels[i].bytes
  }

  /** What the first byte of a domain does to its labels. */
  lemma SplitStep(s: seq<Byte>)
    requires s != []
    ensures var rest, labels := Split(s[1..]), Split(s);
            if s[0] == DOT then labels[0] == Label([]) && labels[1..] == rest
            else labels[0] == Label([s[0]] + rest[0].bytes) && labels[1..] == rest[1..]
  {
  }

  lemma {:induction false} NoDotsInSplit(s: seq<Byte>)
    ensures NoDots(Split(s))
  {
    if s != [] {
      NoDotsInSplit(s[1..]);
      SplitStep(s);
      var labels := Split(s);
      assert labels == [labels[0]] + labels[1..];
    }
  }

  /** Splitting loses nothing, and no label keeps a dot. */
  lemma {:induction false} JoinOfSplit(s: seq<Byte>)
    ensures Join(Split(s)) == s
    ensures NoDots(Split(s))
  {
    NoDotsInSplit(s);
    if s != [] {
      JoinOfSplit(s[1..]);
      SplitStep(s);
      var rest, labels := Split(s[1..]), Split(s);
      assert s == [s[0]] + s[1..];
      if s[0] != DOT && |rest| > 1 {
        assert Join(labels) == [s[0]] + rest[0].bytes + [DOT] + Join(rest[1..]);
      }
    }
  }

  predicate LabelsFit(labels: seq<Label>) {
    labels == [] || (|labels[0].bytes| <= MAX_LABEL && LabelsFit(labels[1..]))
  }

  lemma {:induction false} FitIffShort(labels: seq<Label>)
    ensures LabelsFit(labels) <==> forall i :: 0 <= i < |labels| ==> |labels[i].bytes| <= 63
  {
    if labels != [] {
      FitIffShort(labels[1..]);
      assert forall i :: 0 < i < |labels| ==> labels[i] == labels[1..][i - 1];
    }
  }

  /** One length byte, cut to eight bits, and the label itself. */
  function PrintLabel(l: Label): seq<Byte> {
    [|l.bytes| % 0x100] + l.bytes
  }

  function PrintLabels(labels: seq<Label>): seq<Byte> {
    if labels == [] then [] else PrintLabel(labels[0]) + PrintLabels(labels[1..])
  }

  /** Transaction id, recursion desired, one question, nothing else. */
  function QueryHeader(txid: U16): (h: seq<Byte>)
    ensures |h| == 12
  {
    U16Bytes(txid) + [1, 0, 0, 1, 0, 0, 0, 0, 0, 0]
  }

  /** Root label, type A, class IN. */
  const QUESTION_END: seq<Byte> := [0, 0, 1, 0, 1]

  function Query(txid: U16, labels: seq<Label>): seq<Byte> {
    QueryHeader(txid) + (PrintLabels(labels) + QUESTION_END)
  }

  /** The bytes of a query: its id, one question with recursion desired, the labels, the root, type A, class IN. */
  lemma QueryLayout(txid: U16, labels: seq<Label>)
    ensures var q := Query(txid, labels);
            var end := |q| - 5;
            && end >= 12 && BigEndian(q[..2]) == txid && q[2..12] == [1, 0, 0, 1, 0, 0, 0, 0, 0, 0]
            && q[12..end] == PrintLabels(labels) && q[end..] == [0, 0, 1, 0, 1]
  {
    var q := Query(txid, labels);
    assert q[..2] == U16Bytes(txid);
    U16RoundTrip(txid);
    U16Layout(q[..2]);
  }

  method BuildDnsQuery(txid: U16, domain: seq<Byte>) returns (r: Result<seq<Byte>, DnsError>)
    ensures r == if LabelsFit(Split(domain)) then Ok(Query(txid, Split(domain))) else Err(LabelTooLong)
    ensures r.Err? <==> exists i :: 0 <= i < |Split(domain)| && |Split(domain)[i].bytes| > 63
  {
    FitIffShort(Split(domain));
    var query: seq<Byte> := U16Bytes(txid);
    query := query + [1, 0];
    query := query + [0, 1];
    query := query + [0, 0, 0, 0, 0, 0];
    var labels := Split(domain);
    ghost var all := query + PrintLabels(labels);
    assert query == QueryHeader(txid);
    for i := 0 to |labels|
      invariant LabelsFit(labels) <==> LabelsFit(labels[i..])
      invariant query + PrintLabels(labels[i..]) == all
    {
      if |labels[i].bytes| > MAX_LABEL {
        return Err(LabelTooLong);
      }
      NextLabel(labels, i);
      AppendLabel(query, labels[i], PrintLabels(labels[i + 1..]));
      query := query + [|labels[i].bytes|];
      query := query + labels[i].bytes;
    }
    assert query == query + PrintLabels(labels[|labels|..]);
    QuestionEnds(QueryHeader(txid), PrintLabels(labels));
    query := query + [0];
    query := query + [0, 1];
    query := query + [0, 1];
    return Ok(query);
  }

  lemma NextLabel(labels: seq<Label>, i: nat)
    requires i < |labels|
    ensures PrintLabels(labels[i..]) == PrintLabel(labels[i]) + PrintLabels(labels[i + 1..])
    ensures LabelsFit(labels[i..]) <==> |labels[i].bytes| <= MAX_LABEL && LabelsFit(labels[i + 1..])
  {
    assert labels[i..][1..] == labels[i + 1..];
  }

  lemma AppendLabel(query: seq<Byte>, l: Label, more: seq<Byte>)
    requires |l.bytes| <= MAX_LABEL
    ensures query + [|l.bytes|] + l.bytes + more == query + (PrintLabel(l) + more)
  {
  }

  lemma BehindHeader(header: seq<Byte>, name: seq<Byte>)
    requires |header| == 12
    ensures (header + (name + QUESTION_END))[12..] == name + QUESTION_END
    ensures |header + (name + QUESTION_END)| == 17 + |name|
  {
  }

  lemma QuestionEnds(header: seq<Byte>, name: seq<Byte>)
    ensures header + name + [0] + [0, 1] + [0, 1] == header + (name + QUESTION_END)
  {
  }

  lemma Regroup<T>(a: seq<T>, b: seq<T>, c: seq<T>)
    ensures a + (b + c) == (a + b) + c
    ensures (a + b)[|a|..] == b
  {
  }

  // ---------------------------------------------------------------- the parser, on the bytes from an offset on

  /** How far the question's name reaches, without its terminator; `None` when a label runs to the end or past it. */
  function QuestionLen(rest: seq<Byte>): Option<nat>
    decreases |rest|
  {
    if rest == [] || rest[0] == 0 then Some(0)
    else
      var n := rest[0] as int + 1;
      if n >= |rest| then None
      else
        match QuestionLen(rest[n..])
        case None => None
        case Some(m) => Some(n + m)
  }

  /** How far a record's labels reach; the last may run past the end. */
  function LabelsLen(rest: seq<Byte>): nat
    decreases |rest|
  {
    if rest == [] || rest[0] == 0 then 0
    else
      var n := rest[0] as int + 1;
      if n >= |rest| then n else n + LabelsLen(rest[n..])
  }

  /** A pointer is two bytes; anything else is skipped label by label with its terminator. */
  function NameLen(rest: seq<Byte>): (n: nat)
    requires rest != []
    ensures n >= 1
  {
    if rest[0] >= 0xC0 then 2 else LabelsLen(rest) + 1
  }

  function AddressIn(rtype: U16, rdata: seq<Byte>): seq<Address> {
    if rtype == TYPE_A && |rdata| == 4 then [V4(rdata)]
    else if rtype == TYPE_AAAA && |rdata| == 16 then [V6(rdata)]
    else []
  }

  /** A whole record: its length and the address it carries, if any. */
  datatype Entry = Entry(length: nat, found: seq<Address>)

  /** The record body behind a name of `n` bytes: type, class, time to live, data length, data. */
  function BodyAt(rest: seq<Byte>, n: nat): (e: Option<Entry>)
    ensures e.Some? ==> n + 10 <= e.value.length <= |rest|
  {
    if n + 10 > |rest| then None
    else
      var end := n + 10 + U16From(rest[n + 8..n + 10]);
      if end > |rest| then None else Some(Entry(end, AddressIn(U16From(rest[n..n + 2]), rest[n + 10..end])))
  }

  function RecordAt(rest: seq<Byte>): (e: Option<Entry>)
    ensures e.Some? ==> 0 < e.value.length <= |rest|
  {
    if |rest| < 12 then None else BodyAt(rest, NameLen(rest))
  }

  function Answers(rest: seq<Byte>): seq<Address>
    decreases |rest|
  {
    match RecordAt(rest)
    case None => []
    case Some(e) => e.found + Answers(rest[e.length..])
  }

  function From(data: seq<Byte>, offset: nat): seq<Byte> {
    if offset <= |data| then data[offset..] else []
  }

  function ParseResponse(data: seq<Byte>): Result<seq<Address>, DnsError> {
    if |data| < 12 then Err(InvalidResponse)
    else
      match QuestionLen(data[12..])
      case None => Err(MalformedQuestion)
      case Some(q) =>
        var found := Answers(From(data, 12 + q + 5));
        if found == [] then Err(NoAddresses) else Ok(found)
  }

  /** Never reads outside `data` and always ends, for every byte string. */
  method ParseDnsResponse(data: seq<Byte>) returns (r: Result<seq<Address>, DnsError>)
    ensures r == ParseResponse(data)
    ensures |data| < 12 <==> r == Err(InvalidResponse)
    ensures r == Err(MalformedQuestion) <==> |data| >= 12 && QuestionLen(data[12..]).None?
    ensures r.Ok? ==> r.value != []
  {
    if |data| < 12 { return Err(InvalidResponse); }
    var q := SkipQuestion(data);
    if q.None? { return Err(MalformedQuestion); }
    var addresses := ParseAnswers(data, q.value + 5);
    if addresses == [] { return Err(NoAddresses); }
    return Ok(addresses);
  }

  /** The answer loop. */
  method ParseAnswers(data: seq<Byte>, start: nat) returns (addresses: seq<Address>)
    ensures addresses == Answers(From(data, start))
  {
    var offset := start;
    addresses := [];
    ghost var all := Answers(From(data, start));
    while offset + 12 <= |data|
      invariant addresses + Answers(From(data, offset)) == all
      decreases |data| - offset
    {
      var record := ParseRecord(data, offset);
      AnswersStep(data, offset);
      if record.None? {
        assert addresses + [] == addresses;
        return;
      }
      Regroup(addresses, record.value.found, Answers(From(data, offset + record.value.length)));
      addresses := addresses + record.value.found;
      offset := offset + record.value.length;
    }
    AnswersEnd(data, offset);
    assert addresses + [] == addresses;
  }

  lemma AnswersEnd(data: seq<Byte>, offset: nat)
    requires offset + 12 > |data|
    ensures Answers(From(data, offset)) == []
  {
  }

  lemma AnswersStep(data: seq<Byte>, offset: nat)
    requires offset <= |data|
    ensures match RecordAt(data[offset..])
            case None => Answers(From(data, offset)) == []
            case Some(e) => Answers(From(data, offset)) == e.found + Answers(From(data, offset + e.length))
  {
    var e := RecordAt(data[offset..]);
    if e.Some? { assert data[offset..][e.value.length..] == data[offset + e.value.length..]; }
  }

  method SkipQuestion(data: seq<Byte>) returns (r: Option<nat>)
    requires |data| >= 12
    ensures r == match QuestionLen(data[12..]) case None => None case Some(m) => Some(12 + m)
  {
    var offset := 12;
    ghost var all := QuestionLen(data[12..]);
    while offset < |data| && data[offset] != 0
      invariant 12 <= offset <= |data|
      invariant all == Further(offset - 12, QuestionLen(data[offset..]))
      decreases |data| - offset
    {
      var len := data[offset];
      QuestionAhead(data, offset);
      offset := offset + len + 1;
      if offset >= |data| { return None; }
    }
    return Some(offset);
  }

  function Further(n: nat, m: Option<nat>): Option<nat> {
    if m.None? then None else Some(n + m.value)
  }

  lemma QuestionAhead(data: seq<Byte>, offset: nat)
    requires offset < |data| && data[offset] != 0
    ensures var next := offset + data[offset] as int + 1;
            QuestionLen(data[offset..])
              == if next >= |data| then None else Further(data[offset] as int + 1, QuestionLen(data[next..]))
  {
    var next := offset + data[offset] as int + 1;
    if next < |data| { assert data[offset..][data[offset] as int + 1..] == data[next..]; }
  }

  /** From 192 on a byte begins a pointer, of two bytes; below it is the length of a label, whatever a label may be. */
  lemma NameInNumbers(rest: seq<Byte>)
    requires rest != []
    ensures rest[0] >= 192 ==> NameLen(rest) == 2
    ensures rest[0] == 0 ==> NameLen(rest) == 1
    ensures 0 < rest[0] < 192 ==>
              var n := rest[0] as int + 1;
              NameLen(rest) == if n < |rest| then n + LabelsLen(rest[n..]) + 1 else n + 1
  {
  }

  method SkipName(data: seq<Byte>, start: nat) returns (offset: nat)
    requires start < |data|
    ensures offset == start + NameLen(data[start..])
  {
    offset := start;
    if data[offset] >= 0xC0 {
      offset := offset + 2;
    } else {
      offset := SkipLabels(data, start);
      offset := offset + 1;
    }
  }

  lemma LabelAhead(data: seq<Byte>, offset: nat)
    requires offset < |data| && data[offset] != 0
    ensures LabelsLen(data[offset..]) == data[offset] as int + 1 + LabelsLen(From(data, offset + data[offset] as int + 1))
  {
    var n := data[offset] as int + 1;
    if offset + n < |data| {
      assert data[offset..][n..] == data[offset + n..];
    }
  }

  method SkipLabels(data: seq<Byte>, start: nat) returns (offset: nat)
    requires start < |data|
    ensures offset == start + LabelsLen(data[start..])
  {
    offset := start;
    ghost var end := start + LabelsLen(data[start..]);
    while offset < |data| && data[offset] != 0
      invariant offset + LabelsLen(From(data, offset)) == end
      decreases |data| - offset
    {
      LabelAhead(data, offset);
      offset := offset + data[offset] + 1;
    }
  }

  /** One turn of the answer loop: the record that starts here, if it is whole. */
  method ParseRecord(data: seq<Byte>, start: nat) returns (r: Option<Entry>)
    requires start + 12 <= |data|
    ensures r == RecordAt(data[start..])
  {
    var offset := SkipName(data, start);
    ghost var rest, n := data[start..], offset - start;
    if offset + 10 > |data| { return None; }
    SameSlice(data, start, n, n + 2);
    SameSlice(data, start, n + 8, n + 10);
    var rtype := U16From(data[offset..offset + 2]);
    offset := offset + 2;
    offset := offset + 2;
    offset := offset + 4;
    var rdlen := U16From(data[offset..offset + 2]);
    offset := offset + 2;
    if offset + rdlen > |data| { return None; }
    var found := AddressIn(rtype, data[offset..offset + rdlen]);
    SameSlice(data, start, n + 10, n + 10 + rdlen);
    return Some(Entry(offset + rdlen - start, found));
  }

  lemma SameSlice(data: seq<Byte>, start: nat, from: nat, to: nat)
    requires from <= to && start + to <= |data|
    ensures data[start..][from..to] == data[start + from..start + to]
  {
  }

  // ---------------------------------------------------------------- what a resolver prints

  datatype Name = Pointer(hi: Byte, lo: Byte) | Labels(labels: seq<Label>)

  datatype Record = Record(name: Name, rtype: U16, rclass: U16, ttl: U32, rdata: seq<Byte>)

  predicate NameOk(n: Name) {
    match n
    case Pointer(hi, _) => hi >= 0xC0
    case Labels(ls) => LabelsFit(ls) && Nonempty(ls)
  }

  predicate Nonempty(labels: seq<Label>) {
    labels == [] || (labels[0].bytes != [] && Nonempty(labels[1..]))
  }

  predicate RecordOk(r: Record) {
    NameOk(r.name) && |r.rdata| < 0x1_0000
  }

  predicate RecordsOk(records: seq<Record>) {
    records == [] || (RecordOk(records[0]) && RecordsOk(records[1..]))
  }

  function PrintName(n: Name): seq<Byte> {
    match n
    case Pointer(hi, lo) => [hi, lo]
    case Labels(ls) => PrintLabels(ls) + [0]
  }

  function PrintFixed(r: Record): (b: seq<Byte>)
    requires |r.rdata| < 0x1_0000
    ensures |b| == 10
  {
    U16Bytes(r.rtype) + U16Bytes(r.rclass) + U32Bytes(r.ttl) + U16Bytes(|r.rdata|)
  }

  function PrintRecord(r: Record): seq<Byte>
    requires RecordOk(r)
  {
    PrintName(r.name) + (PrintFixed(r) + r.rdata)
  }

  function PrintRecords(records: seq<Record>): seq<Byte>
    requires RecordsOk(records)
  {
    if records == [] then [] else PrintRecord(records[0]) + PrintRecords(records[1..])
  }

  /** What a record says: type 1 with four bytes of data is an A record, type 28 with sixteen an AAAA record. */
  function AddressOf(r: Record): seq<Address> {
    match r.rtype
    case 1 => if |r.rdata| == 4 then [V4(r.rdata)] else []
    case 28 => if |r.rdata| == 16 then [V6(r.rdata)] else []
    case _ => []
  }

  function Addresses(records: seq<Record>): seq<Address> {
    if records == [] then [] else AddressOf(records[0]) + Addresses(records[1..])
  }

  lemma PrintedLabel(l: Label)
    requires |l.bytes| <= MAX_LABEL
    ensures |PrintLabel(l)| == |l.bytes| + 1 && PrintLabel(l)[0] == |l.bytes|
  {
  }

  /** One printed label in front: the question loop steps over it, or stops in it when it is empty. */
  lemma QuestionStep(first: seq<Byte>, more: seq<Byte>)
    requires first != [] && first[0] == |first| - 1 && more != []
    ensures |first| == 1 ==> QuestionLen(first + more) == Some(0)
    ensures |first| > 1 && QuestionLen(more).Some? ==> QuestionLen(first + more) == Some(|first| + QuestionLen(more).value)
  {
    assert (first + more)[|first|..] == more;
  }

  lemma LabelsStep(first: seq<Byte>, more: seq<Byte>)
    requires |first| > 1 && first[0] == |first| - 1 && more != []
    ensures LabelsLen(first + more) == |first| + LabelsLen(more)
  {
    assert (first + more)[|first|..] == more;
  }

  /** The question loop reaches the end of the printed labels exactly when none of them is empty. */
  lemma {:induction false} QuestionReadBack(labels: seq<Label>, tail: seq<Byte>)
    requires LabelsFit(labels) && tail != [] && tail[0] == 0
    ensures QuestionLen(PrintLabels(labels) + tail).Some?
    ensures QuestionLen(PrintLabels(labels) + tail).value <= |PrintLabels(labels)|
    ensures QuestionLen(PrintLabels(labels) + tail).value == |PrintLabels(labels)| <==> Nonempty(labels)
    decreases |labels|
  {
    if labels == [] {
      assert PrintLabels(labels) + tail == tail;
    } else {
      var more := PrintLabels(labels[1..]);
      Regroup(PrintLabel(labels[0]), more, tail);
      QuestionReadBack(labels[1..], tail);
      PrintedLabel(labels[0]);
      QuestionStep(PrintLabel(labels[0]), more + tail);
    }
  }

  /** A question whose last label reaches the end of the bytes, with nothing behind it, is malformed. */
  lemma {:induction false} QuestionRunsOff(labels: seq<Label>)
    requires LabelsFit(labels) && Nonempty(labels) && labels != []
    ensures QuestionLen(PrintLabels(labels)).None?
    decreases |labels|
  {
    var first, more := PrintLabel(labels[0]), PrintLabels(labels[1..]);
    PrintedLabel(labels[0]);
    if |labels| > 1 {
      QuestionRunsOff(labels[1..]);
      assert (first + more)[|first|..] == more;
      PrintedLabel(labels[1]);
    } else {
      assert first + more == first;
    }
  }

  lemma {:induction false} LabelsReadBack(labels: seq<Label>, tail: seq<Byte>)
    requires LabelsFit(labels) && Nonempty(labels) && tail != [] && tail[0] == 0
    ensures LabelsLen(PrintLabels(labels) + tail) == |PrintLabels(labels)|
    ensures (PrintLabels(labels) + tail)[0] <= MAX_LABEL
    decreases |labels|
  {
    if labels == [] {
      assert PrintLabels(labels) + tail == tail;
    } else {
      var more := PrintLabels(labels[1..]);
      Regroup(PrintLabel(labels[0]), more, tail);
      LabelsReadBack(labels[1..], tail);
      PrintedLabel(labels[0]);
      LabelsStep(PrintLabel(labels[0]), more + tail);
    }
  }

  lemma NameReadBack(n: Name, tail: seq<Byte>)
    requires NameOk(n)
    ensures PrintName(n) != [] && NameLen(PrintName(n) + tail) == |PrintName(n)|
  {
    if n.Labels? {
      Regroup(PrintLabels(n.labels), [0], tail);
      LabelsReadBack(n.labels, [0] + tail);
    }
  }

  lemma BodyReadBack(r: Record, name: seq<Byte>, tail: seq<Byte>)
    requires |r.rdata| < 0x1_0000
    ensures BodyAt(name + (PrintFixed(r) + (r.rdata + tail)), |name|)
         == Some(Entry(|name| + 10 + |r.rdata|, AddressOf(r)))
  {
    var fixed, rest, n := PrintFixed(r), name + (PrintFixed(r) + (r.rdata + tail)), |name|;
    assert rest[n..n + 2] == fixed[..2] == U16Bytes(r.rtype);
    assert rest[n + 8..n + 10] == fixed[8..] == U16Bytes(|r.rdata|);
    U16RoundTrip(r.rtype);
    U16RoundTrip(|r.rdata|);
    assert rest[n + 10..n + 10 + |r.rdata|] == r.rdata;
  }

  /** A printed record is consumed whole, and gives its address if it carries one. */
  lemma RecordReadBack(r: Record, tail: seq<Byte>)
    requires RecordOk(r)
    ensures Answers(PrintRecord(r) + tail) == AddressOf(r) + Answers(tail)
  {
    var name, fixed := PrintName(r.name), PrintFixed(r);
    var rest := PrintRecord(r) + tail;
    assert rest == name + (fixed + (r.rdata + tail));
    NameReadBack(r.name, fixed + (r.rdata + tail));
    BodyReadBack(r, name, tail);
    assert rest[|PrintRecord(r)|..] == tail;
    // The loop wants twelve bytes: only an empty record under the root name at the very end is shorter.
    if |rest| < 12 {
      assert RecordAt(rest).None? && RecordAt(tail).None?;
    }
  }

  lemma {:induction false} CutLabels(labels: seq<Label>, k: nat)
    requires LabelsFit(labels) && Nonempty(labels) && k <= |PrintLabels(labels)|
    ensures LabelsLen(PrintLabels(labels)[..k]) >= k
    ensures k > 0 ==> PrintLabels(labels)[0] < 0xC0
    decreases |labels|
  {
    if k > 0 {
      var first, more := PrintLabel(labels[0]), PrintLabels(labels[1..]);
      PrintedLabel(labels[0]);
      if k > |first| {
        CutLabels(labels[1..], k - |first|);
        assert (first + more)[..k] == first + more[..k - |first|];
        assert (first + more)[..k][|first|..] == more[..k - |first|];
      }
    }
  }

  /** A name that is cut short is taken to reach at least to the cut. */
  lemma CutName(n: Name, k: nat)
    requires NameOk(n) && 0 < k < |PrintName(n)|
    ensures NameLen(PrintName(n)[..k]) > k
  {
    if n.Labels? {
      var printed := PrintLabels(n.labels);
      assert (printed + [0])[..k] == printed[..k];
      CutLabels(n.labels, k);
    }
  }

  /** A record that is cut short gives no address. */
  lemma CutRecord(r: Record, k: nat)
    requires RecordOk(r) && k < |PrintRecord(r)|
    ensures Answers(PrintRecord(r)[..k]) == []
  {
    var name, fixed, cut := PrintName(r.name), PrintFixed(r), PrintRecord(r)[..k];
    if k > 0 {
      if k < |name| {
        assert cut == name[..k];
        CutName(r.name, k);
      } else {
        var behind := (fixed + r.rdata)[..k - |name|];
        assert cut == name + behind;
        NameReadBack(r.name, behind);
        CutBody(r, name, k - |name|);
      }
    }
  }

  lemma CutBody(r: Record, name: seq<Byte>, k: nat)
    requires |r.rdata| < 0x1_0000 && k < 10 + |r.rdata|
    ensures BodyAt(name + (PrintFixed(r) + r.rdata)[..k], |name|).None?
  {
    var fixed, n := PrintFixed(r), |name|;
    var rest := name + (fixed + r.rdata)[..k];
    if k >= 10 {
      assert rest[n + 8..n + 10] == fixed[8..] == U16Bytes(|r.rdata|);
      U16RoundTrip(|r.rdata|);
    }
  }

  /** Of an answer section cut short anywhere exactly the whole records count. */
  lemma {:induction false} CutRecordsReadBack(records: seq<Record>, last: Record, k: nat)
    requires RecordsOk(records) && RecordOk(last) && k < |PrintRecord(last)|
    ensures Answers(PrintRecords(records) + PrintRecord(last)[..k]) == Addresses(records)
    decreases |records|
  {
    var cut := PrintRecord(last)[..k];
    if records == [] {
      assert PrintRecords(records) + cut == cut;
      CutRecord(last, k);
    } else {
      var first, more := PrintRecord(records[0]), PrintRecords(records[1..]);
      assert first + more + cut == first + (more + cut);
      RecordReadBack(records[0], more + cut);
      CutRecordsReadBack(records[1..], last, k);
    }
  }

  lemma {:induction false} RecordsReadBack(records: seq<Record>)
    requires RecordsOk(records)
    ensures Answers(PrintRecords(records)) == Addresses(records)
    decreases |records|
  {
    if records == [] {
      assert RecordAt([]).None?;
    } else {
      RecordReadBack(records[0], PrintRecords(records[1..]));
      RecordsReadBack(records[1..]);
    }
  }

  lemma ResponseLayout(header: seq<Byte>, question: seq<Byte>, end: seq<Byte>, answers: seq<Byte>)
    requires |header| == 12 && |end| == 5
    ensures (header + (question + (end + answers)))[12..] == question + (end + answers)
    ensures From(header + (question + (end + answers)), 12 + |question| + 5) == answers
  {
  }

  /** The question loop stops at the end of the name, so the answers start five bytes later. */
  lemma AnswersFollow(header: seq<Byte>, question: seq<Byte>, end: seq<Byte>, answers: seq<Byte>)
    requires |header| == 12 && |end| == 5 && QuestionLen(question + (end + answers)) == Some(|question|)
    ensures ParseResponse(header + (question + (end + answers)))
         == if Answers(answers) == [] then Err(NoAddresses) else Ok(Answers(answers))
  {
    ResponseLayout(header, question, end, answers);
  }

  /**
   On any header, the question of a query with nonempty labels, and any records whose names are a pointer or a full
   label sequence, the parser returns exactly the A and AAAA addresses in order, or an error if there are none.
   */
  lemma ParseOfPrint(header: seq<Byte>, labels: seq<Label>, records: seq<Record>)
    requires |header| == 12 && LabelsFit(labels) && Nonempty(labels) && RecordsOk(records)
    ensures ParseResponse(header + (PrintLabels(labels) + (QUESTION_END + PrintRecords(records))))
         == if Addresses(records) == [] then Err(NoAddresses) else Ok(Addresses(records))
  {
    QuestionReadBack(labels, QUESTION_END + PrintRecords(records));
    RecordsReadBack(records);
    AnswersFollow(header, PrintLabels(labels), QUESTION_END, PrintRecords(records));
  }

  /** A response whose answers are cut short anywhere gives the addresses of its whole records, and no others. */
  lemma ParseOfCut(header: seq<Byte>, labels: seq<Label>, records: seq<Record>, last: Record, k: nat)
    requires |header| == 12 && LabelsFit(labels) && Nonempty(labels)
    requires RecordsOk(records) && RecordOk(last) && k < |PrintRecord(last)|
    ensures var answers := PrintRecords(records) + PrintRecord(last)[..k];
            ParseResponse(header + (PrintLabels(labels) + (QUESTION_END + answers)))
            == if Addresses(records) == [] then Err(NoAddresses) else Ok(Addresses(records))
  {
    var answers := PrintRecords(records) + PrintRecord(last)[..k];
    QuestionReadBack(labels, QUESTION_END + answers);
    CutRecordsReadBack(records, last, k);
    AnswersFollow(header, PrintLabels(labels), QUESTION_END, answers);
  }

  const MAX_NAME := 255

  /** The length of a query's name in octets, all but its header, type and class. */
  function NameOctets(query: seq<Byte>): int {
    |query| - 16
  }

  /** The name ends where the question's type begins, and keeps the limit of section 3.1 of RFC 1035. */
  predicate WellFormed(query: seq<Byte>) {
    |query| >= 17 && QuestionLen(query[12..]) == Some(|query| - 17) && NameOctets(query) <= MAX_NAME
  }

  /** A printed domain has one length byte for each dot, and one more. */
  lemma {:induction false} PrintedLength(s: seq<Byte>)
    ensures |PrintLabels(Split(s))| == |s| + 1
  {
    if s == [] {
      assert Split(s)[1..] == [];
    } else {
      PrintedLength(s[1..]);
      var rest, labels := Split(s[1..]), Split(s);
      assert |PrintLabels(rest)| == 1 + |rest[0].bytes| + |PrintLabels(rest[1..])|;
      if s[0] == DOT {
        assert labels[1..] == rest;
      } else {
        assert labels[1..] == rest[1..];
      }
    }
  }

  /**
   The queries that `BuildDnsQuery` makes are well formed exactly when no label is empty and the domain has at most
   253 bytes: a trailing or doubled dot, or an empty domain, puts a root label in the middle of the name, and labels
   that fit one by one can add up to a name that is too long.
   */
  lemma QueryWellFormedIff(txid: U16, domain: seq<Byte>)
    requires LabelsFit(Split(domain))
    ensures WellFormed(Query(txid, Split(domain))) <==> Nonempty(Split(domain)) && |domain| <= 253
  {
    QuestionReadBack(Split(domain), QUESTION_END);
    NameWellFormed(QueryHeader(txid), PrintLabels(Split(domain)));
    PrintedLength(domain);
  }

  lemma NameWellFormed(header: seq<Byte>, name: seq<Byte>)
    requires |header| == 12
    ensures WellFormed(header + (name + QUESTION_END))
       <==> QuestionLen(name + QUESTION_END) == Some(|name|) && |name| + 1 <= MAX_NAME
  {
    BehindHeader(header, name);
  }
}
