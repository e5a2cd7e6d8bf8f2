/**
 The signed relay directory (gptl-transport, bootstrap.rs): its canonical encoding, signing and verification against
 a pinned authority, and validation. Strings are their UTF-8 bytes.
 */
module Bootstrap {
  import opened Bytes

  datatype RelayDescriptor = RelayDescriptor(nickname: seq<Byte>, address: seq<Byte>, pubkeyHex: seq<Byte>)

  const TWO_32 := 0x1_0000_0000

  /** "gptl-directory-v1" and a newline. */
  const DIRECTORY_SIG_DOMAIN: seq<Byte> :=
    [103, 112, 116, 108, 45, 100, 105, 114, 101, 99, 116, 111, 114, 121, 45, 118, 49, 10]

  // ---------------------------------------------------------------- canonical encoding

  /** A length cast to 32 bits, as the encoder writes it. */
  function LengthPrefix(n: nat): (b: seq<Byte>)
    ensures |b| == 4
  {
    U32Bytes(n % TWO_32)
  }

  function FieldBytes(f: seq<Byte>): seq<Byte> {
    LengthPrefix(|f|) + f
  }

  function DescriptorBytes(r: RelayDescriptor): seq<Byte> {
    FieldBytes(r.nickname) + FieldBytes(r.address) + FieldBytes(r.pubkeyHex)
  }

  function ListBytes(relays: seq<RelayDescriptor>): seq<Byte> {
    if relays == [] then [] else ListBytes(relays[..|relays| - 1]) + DescriptorBytes(relays[|relays| - 1])
  }

  function CanonicalBytes(relays: seq<RelayDescriptor>): seq<Byte> {
    DIRECTORY_SIG_DOMAIN + LengthPrefix(|relays|) + ListBytes(relays)
  }

  function FieldsBytes(fields: seq<seq<Byte>>): seq<Byte> {
    if fields == [] then [] else FieldsBytes(fields[..|fields| - 1]) + FieldBytes(fields[|fields| - 1])
  }

  lemma FieldsOfDescriptor(r: RelayDescriptor)
    ensures FieldsBytes([r.nickname, r.address, r.pubkeyHex]) == DescriptorBytes(r)
  {
    var a, b, c := r.nickname, r.address, r.pubkeyHex;
    assert [a, b, c][..2] == [a, b] && [a, b][..1] == [a];
    assert FieldsBytes([a]) == FieldBytes(a);
  }

  /** The inner loop: each field behind its length. */
  method AppendFields(start: seq<Byte>, fields: seq<seq<Byte>>) returns (msg: seq<Byte>)
    ensures msg == start + FieldsBytes(fields)
  {
    msg := start;
    for j := 0 to |fields|
      invariant msg == start + FieldsBytes(fields[..j])
    {
      assert fields[..j + 1][..j] == fields[..j];
      msg := msg + LengthPrefix(|fields[j]|);
      msg := msg + fields[j];
    }
    assert fields[..|fields|] == fields;
  }

  method CanonicalDirectoryBytes(relays: seq<RelayDescriptor>) returns (msg: seq<Byte>)
    ensures msg == CanonicalBytes(relays)
  {
    msg := DIRECTORY_SIG_DOMAIN;
    msg := msg + LengthPrefix(|relays|);
    ghost var header := msg;
    for i := 0 to |relays|
      invariant msg == header + ListBytes(relays[..i])
    {
      msg := AppendFields(msg, [relays[i].nickname, relays[i].address, relays[i].pubkeyHex]);
      FieldsOfDescriptor(relays[i]);
      assert relays[..i + 1][..i] == relays[..i];
    }
    assert relays[..|relays|] == relays;
  }

  /** Every length fits the 32 bits that the encoding gives it. */
  ghost predicate Fits(relays: seq<RelayDescriptor>) {
    && |relays| < TWO_32
    && forall r :: r in relays ==> FieldsFit(r)
  }

  predicate FieldsFit(r: RelayDescriptor) {
    |r.nickname| < TWO_32 && |r.address| < TWO_32 && |r.pubkeyHex| < TWO_32
  }

  lemma PrefixDetermines(m: nat, n: nat)
    requires m < TWO_32 && n < TWO_32 && LengthPrefix(m) == LengthPrefix(n)
    ensures m == n
  {
    assert m % TWO_32 == m && n % TWO_32 == n;
    U32RoundTrip(m);
    U32RoundTrip(n);
  }

  /** A field is read back from the front of any message. */
  lemma FieldDetermined(f: seq<Byte>, g: seq<Byte>, x: seq<Byte>, y: seq<Byte>)
    requires |f| < TWO_32 && |g| < TWO_32 && FieldBytes(f) + x == FieldBytes(g) + y
    ensures f == g && x == y
  {
    var m := FieldBytes(f) + x;
    assert m[..4] == LengthPrefix(|f|) && m[..4] == LengthPrefix(|g|);
    PrefixDetermines(|f|, |g|);
    assert m[4..4 + |f|] == f && m[4..4 + |f|] == g;
    assert m[4 + |f|..] == x && m[4 + |f|..] == y;
  }

  lemma DescriptorRegroup(r: RelayDescriptor, x: seq<Byte>)
    ensures DescriptorBytes(r) + x
         == FieldBytes(r.nickname) + (FieldBytes(r.address) + (FieldBytes(r.pubkeyHex) + x))
  {
    FourParts(FieldBytes(r.nickname), FieldBytes(r.address), FieldBytes(r.pubkeyHex), x);
  }

  lemma FourParts(a: seq<Byte>, b: seq<Byte>, c: seq<Byte>, d: seq<Byte>)
    ensures a + b + c + d == a + (b + (c + d))
  {
  }

  lemma DescriptorDetermined(r: RelayDescriptor, s: RelayDescriptor, x: seq<Byte>, y: seq<Byte>)
    requires FieldsFit(r) && FieldsFit(s) && DescriptorBytes(r) + x == DescriptorBytes(s) + y
    ensures r == s && x == y
  {
    DescriptorRegroup(r, x);
    DescriptorRegroup(s, y);
    FieldDetermined(r.nickname, s.nickname, FieldBytes(r.address) + (FieldBytes(r.pubkeyHex) + x),
                    FieldBytes(s.address) + (FieldBytes(s.pubkeyHex) + y));
    FieldDetermined(r.address, s.address, FieldBytes(r.pubkeyHex) + x, FieldBytes(s.pubkeyHex) + y);
    FieldDetermined(r.pubkeyHex, s.pubkeyHex, x, y);
  }

  lemma {:induction false} ListBytesCons(relays: seq<RelayDescriptor>)
    requires relays != []
    ensures ListBytes(relays) == DescriptorBytes(relays[0]) + ListBytes(relays[1..])
  {
    var n := |relays| - 1;
    if n > 0 {
      ListBytesCons(relays[..n]);
      assert relays[..n][1..] == relays[1..][..n - 1];
      var (a, b, c) := (DescriptorBytes(relays[0]), ListBytes(relays[..n][1..]), DescriptorBytes(relays[n]));
      assert a + b + c == a + (b + c);
    } else {
      assert relays[..0] == [] && relays[1..] == [];
      assert [] + DescriptorBytes(relays[0]) == DescriptorBytes(relays[0]) + [];
    }
  }

  lemma {:induction false} ListDetermined(a: seq<RelayDescriptor>, b: seq<RelayDescriptor>)
    requires Fits(a) && Fits(b) && |a| == |b| && ListBytes(a) == ListBytes(b)
    ensures a == b
  {
    if a != [] {
      ListBytesCons(a);
      ListBytesCons(b);
      DescriptorDetermined(a[0], b[0], ListBytes(a[1..]), ListBytes(b[1..]));
      ListDetermined(a[1..], b[1..]);
      assert a == [a[0]] + a[1..] && b == [b[0]] + b[1..];
    }
  }

  /** No two directories whose lengths fit in 32 bits have the same message. */
  lemma CanonicalInjective(a: seq<RelayDescriptor>, b: seq<RelayDescriptor>)
    requires Fits(a) && Fits(b) && CanonicalBytes(a) == CanonicalBytes(b)
    ensures a == b
  {
    var m, d := CanonicalBytes(a), |DIRECTORY_SIG_DOMAIN|;
    assert m[d..d + 4] == LengthPrefix(|a|) && m[d..d + 4] == LengthPrefix(|b|);
    PrefixDetermines(|a|, |b|);
    assert m[d + 4..] == ListBytes(a) && m[d + 4..] == ListBytes(b);
    ListDetermined(a, b);
  }

  /** A list is at least twelve bytes a relay, and at least as long as the fields of each. */
  lemma {:induction false} ListLength(relays: seq<RelayDescriptor>)
    ensures |ListBytes(relays)| >= 12 * |relays|
    ensures forall r :: r in relays ==> |ListBytes(relays)| >= 12 + |r.nickname| + |r.address| + |r.pubkeyHex|
  {
    if relays != [] {
      var n := |relays| - 1;
      ListLength(relays[..n]);
      assert forall r :: r in relays <==> r in relays[..n] || r == relays[n];
    }
  }

  /** The length of the shortest message that two lists share. */
  const SHORTEST_COLLISION: nat := |DIRECTORY_SIG_DOMAIN| + 16 + TWO_32

  lemma ShortListFits(a: seq<RelayDescriptor>)
    requires |CanonicalBytes(a)| < SHORTEST_COLLISION
    ensures Fits(a)
  {
    ListLength(a);
  }

  /** One short message suffices: nothing is asked of the other list. */
  lemma ShortIsInjective(a: seq<RelayDescriptor>, b: seq<RelayDescriptor>)
    requires |CanonicalBytes(a)| < SHORTEST_COLLISION && CanonicalBytes(a) == CanonicalBytes(b)
    ensures a == b
  {
    ShortListFits(a);
    ShortListFits(b);
    CanonicalInjective(a, b);
  }

  lemma LongZeroField(before: nat, after: nat)
    ensures Zeros(before) + FieldBytes(Zeros(TWO_32)) + Zeros(after) == Zeros(before + 4 + TWO_32 + after)
  {
    assert LengthPrefix(TWO_32) == Zeros(4);
  }

  lemma OneRelay(r: RelayDescriptor)
    ensures CanonicalBytes([r]) == DIRECTORY_SIG_DOMAIN + LengthPrefix(1) + DescriptorBytes(r)
  {
    assert [r][..0] == [];
    assert ListBytes([r]) == DescriptorBytes(r);
  }

  /** The lengths cast to 32 bits collide: one all-zero field of 2^32 bytes looks like an empty field and vice versa. */
  lemma ShortestCollision()
    ensures var a, b := [RelayDescriptor(Zeros(TWO_32), [], [])], [RelayDescriptor([], Zeros(TWO_32), [])];
            && a != b && CanonicalBytes(a) == CanonicalBytes(b)
            && |CanonicalBytes(a)| == SHORTEST_COLLISION
  {
    var r, s := RelayDescriptor(Zeros(TWO_32), [], []), RelayDescriptor([], Zeros(TWO_32), []);
    var empty := FieldBytes([]);
    assert empty == Zeros(4);
    LongZeroField(0, 8);
    LongZeroField(4, 4);
    assert DescriptorBytes(r) == Zeros(0) + FieldBytes(Zeros(TWO_32)) + Zeros(8);
    assert DescriptorBytes(s) == Zeros(4) + FieldBytes(Zeros(TWO_32)) + Zeros(4);
    OneRelay(r);
    OneRelay(s);
    assert |r.nickname| != |s.nickname| && [r][0] == r && [s][0] == s;
  }

  ghost predicate InjectiveBelow(n: nat) {
    forall a, b :: |CanonicalBytes(a)| < n && CanonicalBytes(a) == CanonicalBytes(b) ==> a == b
  }

  /** Messages below a length determine their list exactly up to the length of the shortest collision. */
  lemma InjectiveBelowIff(n: nat)
    ensures InjectiveBelow(n) <==> n <= SHORTEST_COLLISION
  {
    if n <= SHORTEST_COLLISION {
      forall a, b | |CanonicalBytes(a)| < n && CanonicalBytes(a) == CanonicalBytes(b) ensures a == b {
        ShortIsInjective(a, b);
      }
    } else {
      ShortestCollision();
    }
  }

  // ---------------------------------------------------------------- the layout, byte by byte

  lemma PrefixLayout(n: nat)
    requires n < TWO_32
    ensures BigEndian(LengthPrefix(n)) == n
  {
    assert n % TWO_32 == n;
    var b := U32Bytes(n);
    U32RoundTrip(n);
    U32Layout(b);
  }

  /** Nickname, address and key string, each behind its length. */
  lemma DescriptorLayout(r: RelayDescriptor)
    requires FieldsFit(r)
    ensures var b, n, a, k := DescriptorBytes(r), |r.nickname|, |r.address|, |r.pubkeyHex|;
            && |b| == 12 + n + a + k
            && BigEndian(b[..4]) == n && b[4..4 + n] == r.nickname
            && BigEndian(b[4 + n..8 + n]) == a && b[8 + n..8 + n + a] == r.address
            && BigEndian(b[8 + n + a..12 + n + a]) == k && b[12 + n + a..] == r.pubkeyHex
  {
    var b, n, a, k := DescriptorBytes(r), |r.nickname|, |r.address|, |r.pubkeyHex|;
    PrefixLayout(n);
    PrefixLayout(a);
    PrefixLayout(k);
    assert b == LengthPrefix(n) + r.nickname + LengthPrefix(a) + r.address + LengthPrefix(k) + r.pubkeyHex;
    assert b[..4] == LengthPrefix(n) && b[4 + n..8 + n] == LengthPrefix(a);
    assert b[8 + n + a..12 + n + a] == LengthPrefix(k);
  }

  /** The domain tag, the number of relays, and the descriptors one behind the other. */
  lemma CanonicalLayout(relays: seq<RelayDescriptor>)
    requires |relays| < TWO_32
    ensures var b := CanonicalBytes(relays);
            && b[..18] == [103, 112, 116, 108, 45, 100, 105, 114, 101, 99, 116, 111, 114, 121, 45, 118, 49, 10]
            && BigEndian(b[18..22]) == |relays| && b[22..] == ListBytes(relays)
            && (relays == [] ==> ListBytes(relays) == [])
            && (relays != [] ==> ListBytes(relays) == DescriptorBytes(relays[0]) + ListBytes(relays[1..]))
  {
    PrefixLayout(|relays|);
    ThreeParts(DIRECTORY_SIG_DOMAIN, LengthPrefix(|relays|), ListBytes(relays));
    if relays != [] { ListBytesCons(relays); }
  }

  lemma ThreeParts(domain: seq<Byte>, count: seq<Byte>, list: seq<Byte>)
    requires |domain| == 18 && |count| == 4
    ensures var b := domain + count + list; b[..18] == domain && b[18..22] == count && b[22..] == list
  {
  }

  // ---------------------------------------------------------------- hexadecimal

  function Nibble(c: Byte): Option<Byte> {
    if 48 <= c <= 57 then Some(c - 48)
    else if 97 <= c <= 102 then Some(c - 87)
    else if 65 <= c <= 70 then Some(c - 55)
    else None
  }

  function HexDigit(v: Byte): Byte
    requires v < 16
  {
    if v < 10 then v + 48 else v + 87
  }

  function HexEncode(b: seq<Byte>): seq<Byte> {
    if b == [] then [] else [HexDigit(b[0] / 16), HexDigit(b[0] % 16)] + HexEncode(b[1..])
  }

  function HexDecode(s: seq<Byte>): Option<seq<Byte>> {
    if s == [] then Some([])
    else if |s| == 1 then None
    else
      match (Nibble(s[0]), Nibble(s[1]), HexDecode(s[2..]))
      case (Some(hi), Some(lo), Some(rest)) => if hi < 16 && lo < 16 then Some([hi * 16 + lo] + rest) else None
      case _ => None
  }

  predicate IsSpace(c: Byte) {
    c == 32 || 9 <= c <= 13
  }

  function TrimStart(s: seq<Byte>): seq<Byte> {
    if s != [] && IsSpace(s[0]) then TrimStart(s[1..]) else s
  }

  function TrimEnd(s: seq<Byte>): seq<Byte> {
    if s != [] && IsSpace(s[|s| - 1]) then TrimEnd(s[..|s| - 1]) else s
  }

  function Trim(s: seq<Byte>): seq<Byte> {
    TrimEnd(TrimStart(s))
  }

  lemma {:induction false} HexRoundTrip(b: seq<Byte>)
    ensures HexDecode(HexEncode(b)) == Some(b)
    ensures forall c :: c in HexEncode(b) ==> !IsSpace(c)
    ensures forall c :: c in HexEncode(b) ==> 48 <= c <= 57 || 97 <= c <= 102
    ensures |HexEncode(b)| == 2 * |b|
  {
    if b != [] {
      HexRoundTrip(b[1..]);
      var e := HexEncode(b);
      assert e[2..] == HexEncode(b[1..]);
      assert b == [b[0]] + b[1..];
    }
  }

  predicate IsHexDigit(c: Byte) {
    48 <= c <= 57 || 65 <= c <= 70 || 97 <= c <= 102
  }

  predicate AllDigits(s: seq<Byte>) {
    forall i :: 0 <= i < |s| ==> IsHexDigit(s[i])
  }

  /** What decodes: digits of either case, an even number of them, and two to a byte. */
  lemma {:induction false} HexDecodesIff(s: seq<Byte>)
    ensures HexDecode(s).Some? <==> |s| % 2 == 0 && AllDigits(s)
    ensures HexDecode(s).Some? ==> 2 * |HexDecode(s).value| == |s|
  {
    if |s| < 2 {
      ShortHex(s);
    } else {
      HexDecodesIff(s[2..]);
      HexFront(s);
      DigitsSplit(s);
      SameParity(|s|);
    }
  }

  lemma ShortHex(s: seq<Byte>)
    requires |s| < 2
    ensures HexDecode(s) == if s == [] then Some([]) else None
  {
  }

  lemma SameParity(n: nat)
    requires n >= 2
    ensures n % 2 == (n - 2) % 2
  {
  }

  lemma HexFront(s: seq<Byte>)
    requires |s| >= 2
    ensures HexDecode(s).Some? <==> IsHexDigit(s[0]) && IsHexDigit(s[1]) && HexDecode(s[2..]).Some?
    ensures HexDecode(s).Some? ==> |HexDecode(s).value| == 1 + |HexDecode(s[2..]).value|
  {
    assert forall c: Byte :: Nibble(c).Some? <==> IsHexDigit(c);
    assert forall c: Byte :: Nibble(c).Some? ==> Nibble(c).value < 16;
  }

  lemma DigitsSplit(s: seq<Byte>)
    requires |s| >= 2
    ensures AllDigits(s) <==> IsHexDigit(s[0]) && IsHexDigit(s[1]) && AllDigits(s[2..])
  {
    assert s == [s[0], s[1]] + s[2..];
    assert forall i :: 2 <= i < |s| ==> s[i] == s[2..][i - 2];
  }

  lemma HexIsTrimmed(b: seq<Byte>)
    ensures Trim(HexEncode(b)) == HexEncode(b)
  {
    HexRoundTrip(b);
    var e := HexEncode(b);
    if e != [] { assert e[0] in e && e[|e| - 1] in e; }
  }

  // ---------------------------------------------------------------- validation

  datatype DirectoryError =
    | EmptyDirectory
    | BadPubkey(index: nat)
    | BadAddress(index: nat)
    | DuplicateNickname(index: nat)
    | DuplicatePubkey(index: nat)
    | BadAuthorityKey
    | WrongAuthority
    | InvalidAuthorityPoint
    | BadSignatureEncoding
    | BadSignature

  predicate PubkeyOk(r: RelayDescriptor) {
    var key := HexDecode(r.pubkeyHex);
    key.Some? && |key.value| == 32
  }

  /** A key string is 64 hexadecimal digits. */
  lemma PubkeyOkIff(r: RelayDescriptor)
    ensures PubkeyOk(r) <==> |r.pubkeyHex| == 64 && AllDigits(r.pubkeyHex)
  {
    HexDecodesIff(r.pubkeyHex);
    SizedIff(HexDecode(r.pubkeyHex), AllDigits(r.pubkeyHex), |r.pubkeyHex|, 32);
  }

  /** Entry `i` is well formed and repeats no nickname and no key of an earlier entry. */
  predicate EntryOk(parses: seq<Byte> -> bool, relays: seq<RelayDescriptor>, i: nat)
    requires i < |relays|
  {
    && PubkeyOk(relays[i]) && parses(relays[i].address)
    && forall j :: 0 <= j < i ==>
         relays[j].nickname != relays[i].nickname && relays[j].pubkeyHex != relays[i].pubkeyHex
  }

  /** What is wrong with entry `i`, in the order the checks are made. */
  predicate Explains(e: DirectoryError, parses: seq<Byte> -> bool, relays: seq<RelayDescriptor>, i: nat)
    requires i < |relays|
  {
    var r := relays[i];
    if !PubkeyOk(r) then e == BadPubkey(i)
    else if !parses(r.address) then e == BadAddress(i)
    else if exists j :: 0 <= j < i && relays[j].nickname == r.nickname then e == DuplicateNickname(i)
    else e == DuplicatePubkey(i)
  }

  /** What each error says about its entry. */
  lemma ErrorMeans(e: DirectoryError, parses: seq<Byte> -> bool, relays: seq<RelayDescriptor>, i: nat)
    requires i < |relays| && !EntryOk(parses, relays, i) && Explains(e, parses, relays, i)
    ensures var r := relays[i];
            && (e == BadPubkey(i) <==> !PubkeyOk(r))
            && (e == BadAddress(i) <==> PubkeyOk(r) && !parses(r.address))
            && (e == DuplicateNickname(i) <==> PubkeyOk(r) && parses(r.address)
                                               && exists j :: 0 <= j < i && relays[j].nickname == r.nickname)
            && (e == DuplicatePubkey(i) ==> exists j :: 0 <= j < i && relays[j].pubkeyHex == r.pubkeyHex)
  {
  }

  ghost predicate Valid(parses: seq<Byte> -> bool, relays: seq<RelayDescriptor>) {
    relays != [] && forall i :: 0 <= i < |relays| ==> EntryOk(parses, relays, i)
  }

  /** The error is that of the first bad entry. */
  ghost predicate FirstError(e: DirectoryError, parses: seq<Byte> -> bool, relays: seq<RelayDescriptor>) {
    if relays == [] then e == EmptyDirectory
    else exists i :: 0 <= i < |relays| && FirstBad(parses, relays, i) && Explains(e, parses, relays, i)
  }

  ghost predicate FirstBad(parses: seq<Byte> -> bool, relays: seq<RelayDescriptor>, i: nat)
    requires i < |relays|
  {
    !EntryOk(parses, relays, i) && forall j :: 0 <= j < i ==> EntryOk(parses, relays, j)
  }

  method Validate(parses: seq<Byte> -> bool, relays: seq<RelayDescriptor>) returns (r: Result<(), DirectoryError>)
    ensures r.Ok? <==> Valid(parses, relays)
    ensures r.Err? ==> FirstError(r.error, parses, relays)
  {
    if relays == [] { return Err(EmptyDirectory); }
    var seenNicknames: set<seq<Byte>>, seenPubkeys: set<seq<Byte>> := {}, {};
    for i := 0 to |relays|
      invariant forall j :: 0 <= j < i ==> EntryOk(parses, relays, j)
      invariant forall n :: n in seenNicknames <==> exists j :: 0 <= j < i && relays[j].nickname == n
      invariant forall k :: k in seenPubkeys <==> exists j :: 0 <= j < i && relays[j].pubkeyHex == k
    {
      var d := relays[i];
      if !PubkeyOk(d) {
        assert FirstBad(parses, relays, i);
        return Err(BadPubkey(i));
      }
      if !parses(d.address) {
        assert FirstBad(parses, relays, i);
        return Err(BadAddress(i));
      }
      if d.nickname in seenNicknames {
        assert FirstBad(parses, relays, i);
        return Err(DuplicateNickname(i));
      }
      seenNicknames := seenNicknames + {d.nickname};
      if d.pubkeyHex in seenPubkeys {
        assert FirstBad(parses, relays, i);
        return Err(DuplicatePubkey(i));
      }
      seenPubkeys := seenPubkeys + {d.pubkeyHex};
    }
    return Ok(());
  }

  function LowerByte(c: Byte): Byte {
    if 65 <= c <= 90 then c + 32 else c
  }

  predicate SameUpToCase(a: seq<Byte>, b: seq<Byte>) {
    |a| == |b| && forall i :: 0 <= i < |a| ==> LowerByte(a[i]) == LowerByte(b[i])
  }

  lemma SameUpToCaseSplit(a: seq<Byte>, b: seq<Byte>)
    requires |a| >= 2 && |b| >= 2
    ensures SameUpToCase(a, b)
       <==> LowerByte(a[0]) == LowerByte(b[0]) && LowerByte(a[1]) == LowerByte(b[1]) && SameUpToCase(a[2..], b[2..])
  {
    assert a == [a[0], a[1]] + a[2..] && b == [b[0], b[1]] + b[2..];
  }

  lemma SameNibble(a: Byte, b: Byte)
    requires Nibble(a).Some? && Nibble(b).Some?
    ensures Nibble(a) == Nibble(b) <==> LowerByte(a) == LowerByte(b)
  {
  }

  lemma SamePair(hi: Byte, lo: Byte, hi2: Byte, lo2: Byte)
    requires hi < 16 && lo < 16 && hi2 < 16 && lo2 < 16
    ensures hi as int * 16 + lo == hi2 as int * 16 + lo2 <==> hi == hi2 && lo == lo2
  {
  }

  /** A decoded string is its first two digits' byte in front of what the rest decodes to. */
  lemma DecodedFront(s: seq<Byte>)
    requires s != [] && HexDecode(s).Some?
    ensures |s| >= 2 && Nibble(s[0]).Some? && Nibble(s[1]).Some? && HexDecode(s[2..]).Some?
    ensures Nibble(s[0]).value < 16 && Nibble(s[1]).value < 16
    ensures HexDecode(s).value == [Nibble(s[0]).value as int * 16 + Nibble(s[1]).value] + HexDecode(s[2..]).value
  {
  }

  lemma SameFront(x: Byte, xs: seq<Byte>, y: Byte, ys: seq<Byte>)
    ensures [x] + xs == [y] + ys <==> x == y && xs == ys
  {
    assert ([x] + xs)[0] == x && ([x] + xs)[1..] == xs;
    assert ([y] + ys)[0] == y && ([y] + ys)[1..] == ys;
  }

  /** Two key strings stand for one key exactly when they differ at most in the case of their letters. */
  lemma {:induction false} SameKeyIffSameUpToCase(a: seq<Byte>, b: seq<Byte>)
    requires HexDecode(a).Some? && HexDecode(b).Some?
    ensures HexDecode(a) == HexDecode(b) <==> SameUpToCase(a, b)
  {
    if a == [] || b == [] {
      if a != [] { DecodedFront(a); }
      if b != [] { DecodedFront(b); }
    } else {
      DecodedFront(a);
      DecodedFront(b);
      SameKeyIffSameUpToCase(a[2..], b[2..]);
      SameNibble(a[0], b[0]);
      SameNibble(a[1], b[1]);
      SamePair(Nibble(a[0]).value, Nibble(a[1]).value, Nibble(b[0]).value, Nibble(b[1]).value);
      SameFront(HexDecode(a).value[0], HexDecode(a[2..]).value, HexDecode(b).value[0], HexDecode(b[2..]).value);
      SameUpToCaseSplit(a, b);
    }
  }

  /** So validation, which compares the strings, accepts one key listed twice in two spellings. */
  lemma SpellingsHideDuplicate(parses: seq<Byte> -> bool, r: RelayDescriptor, other: RelayDescriptor)
    requires PubkeyOk(r) && PubkeyOk(other) && parses(r.address) && parses(other.address)
    requires r.nickname != other.nickname && r.pubkeyHex != other.pubkeyHex && SameUpToCase(r.pubkeyHex, other.pubkeyHex)
    ensures Valid(parses, [r, other]) && HexDecode(r.pubkeyHex) == HexDecode(other.pubkeyHex)
  {
    SameKeyIffSameUpToCase(r.pubkeyHex, other.pubkeyHex);
    assert EntryOk(parses, [r, other], 0) && EntryOk(parses, [r, other], 1);
  }

  /** No two entries stand for one key. */
  predicate KeysDistinct(relays: seq<RelayDescriptor>) {
    forall i, j :: 0 <= i < j < |relays| ==> HexDecode(relays[i].pubkeyHex) != HexDecode(relays[j].pubkeyHex)
  }

  /** A validated list names every key once exactly when no two of its key strings differ in letter case alone. */
  lemma KeysDistinctIff(parses: seq<Byte> -> bool, relays: seq<RelayDescriptor>)
    requires Valid(parses, relays)
    ensures KeysDistinct(relays)
       <==> forall i, j :: 0 <= i < j < |relays| ==> !SameUpToCase(relays[i].pubkeyHex, relays[j].pubkeyHex)
  {
    forall i, j | 0 <= i < j < |relays|
      ensures HexDecode(relays[i].pubkeyHex) == HexDecode(relays[j].pubkeyHex)
         <==> SameUpToCase(relays[i].pubkeyHex, relays[j].pubkeyHex)
    {
      assert EntryOk(parses, relays, i) && EntryOk(parses, relays, j);
      SameKeyIffSameUpToCase(relays[i].pubkeyHex, relays[j].pubkeyHex);
    }
  }

  // ---------------------------------------------------------------- signed directories

  /** A signature scheme with 32-byte public keys and 64-byte signatures. */
  datatype Scheme = Scheme(
    publicKey: nat -> seq<Byte>,
    sign: (nat, seq<Byte>) -> seq<Byte>,
    isKey: seq<Byte> -> bool,
    verify: (seq<Byte>, seq<Byte>, seq<Byte>) -> bool)
  {
    ghost predicate Correct() {
      forall sk, m ::
        && |publicKey(sk)| == 32 && isKey(publicKey(sk))
        && |sign(sk, m)| == 64 && verify(publicKey(sk), m, sign(sk, m))
    }

    /** The pair is no forgery: if it verifies under `key`, its message is that of a list the key's owner signed. */
    ghost predicate Unforged(key: seq<Byte>, m: seq<Byte>, s: seq<Byte>, lists: set<seq<RelayDescriptor>>) {
      verify(key, m, s) ==> exists l :: l in lists && m == CanonicalBytes(l)
    }
  }

  datatype SignedDirectory = SignedDirectory(relays: seq<RelayDescriptor>, signature: seq<Byte>, authorityKey: seq<Byte>)

  function DecodeKey(hex: seq<Byte>): Option<seq<Byte>> {
    match HexDecode(Trim(hex))
    case None => None
    case Some(b) => if |b| == 32 then Some(b) else None
  }

  function DecodeSignature(hex: seq<Byte>): Option<seq<Byte>> {
    match HexDecode(Trim(hex))
    case None => None
    case Some(b) => if |b| == 64 then Some(b) else None
  }

  function SignedBy(scheme: Scheme, relays: seq<RelayDescriptor>, sk: nat): SignedDirectory {
    SignedDirectory(relays, HexEncode(scheme.sign(sk, CanonicalBytes(relays))), HexEncode(scheme.publicKey(sk)))
  }

  predicate AllSpace(s: seq<Byte>) {
    forall i :: 0 <= i < |s| ==> s[i] in {9, 10, 11, 12, 13, 32}
  }

  lemma {:induction false} TrimLeft(left: seq<Byte>, s: seq<Byte>)
    requires AllSpace(left) && (s != [] ==> s[0] !in {9, 10, 11, 12, 13, 32})
    ensures TrimStart(left + s) == s
  {
    if left == [] {
      assert left + s == s;
    } else {
      assert (left + s)[1..] == left[1..] + s;
      TrimLeft(left[1..], s);
    }
  }

  lemma {:induction false} TrimRight(s: seq<Byte>, right: seq<Byte>)
    requires AllSpace(right) && (s != [] ==> s[|s| - 1] !in {9, 10, 11, 12, 13, 32})
    ensures TrimEnd(s + right) == s
    decreases |right|
  {
    if right == [] {
      assert s + right == s;
    } else {
      var n := |right| - 1;
      assert (s + right)[..|s| + n] == s + right[..n];
      TrimRight(s, right[..n]);
    }
  }

  /** White space around it aside, a key is 64 hexadecimal digits and a signature 128. */
  lemma DecodedIff(left: seq<Byte>, hex: seq<Byte>, right: seq<Byte>)
    requires AllSpace(left) && AllSpace(right) && hex != []
    requires hex[0] !in {9, 10, 11, 12, 13, 32} && hex[|hex| - 1] !in {9, 10, 11, 12, 13, 32}
    ensures var padded := left + hex + right;
            && (DecodeKey(padded).Some? <==> |hex| == 64 && AllDigits(hex))
            && (DecodeSignature(padded).Some? <==> |hex| == 128 && AllDigits(hex))
            && (DecodeKey(padded).Some? ==> HexDecode(hex) == DecodeKey(padded))
            && (DecodeSignature(padded).Some? ==> HexDecode(hex) == DecodeSignature(padded))
  {
    TrimPadded(left, hex, right);
    BareDecodedIff(hex);
    assert DecodeKey(left + hex + right) == DecodeKey(hex) by { TrimPadded([], hex, []); assert [] + hex + [] == hex; }
    assert DecodeSignature(left + hex + right) == DecodeSignature(hex) by {
      TrimPadded([], hex, []);
      assert [] + hex + [] == hex;
    }
  }

  lemma BareDecodedIff(hex: seq<Byte>)
    requires Trim(hex) == hex
    ensures DecodeKey(hex).Some? <==> |hex| == 64 && AllDigits(hex)
    ensures DecodeSignature(hex).Some? <==> |hex| == 128 && AllDigits(hex)
    ensures DecodeKey(hex).Some? ==> HexDecode(hex) == DecodeKey(hex)
    ensures DecodeSignature(hex).Some? ==> HexDecode(hex) == DecodeSignature(hex)
  {
    HexDecodesIff(hex);
    SizedIff(HexDecode(hex), AllDigits(hex), |hex|, 32);
    SizedIff(HexDecode(hex), AllDigits(hex), |hex|, 64);
    DecodeIsSized(hex);
  }

  lemma DecodeIsSized(hex: seq<Byte>)
    requires Trim(hex) == hex
    ensures DecodeKey(hex) == Sized(HexDecode(hex), 32) && DecodeSignature(hex) == Sized(HexDecode(hex), 64)
  {
  }

  function Sized(d: Option<seq<Byte>>, n: nat): Option<seq<Byte>> {
    if d.Some? && |d.value| == n then d else None
  }

  lemma SizedIff(d: Option<seq<Byte>>, digits: bool, len: nat, n: nat)
    requires (d.Some? <==> len % 2 == 0 && digits) && (d.Some? ==> 2 * |d.value| == len)
    ensures Sized(d, n).Some? <==> len == 2 * n && digits
  {
  }

  lemma TrimPadded(left: seq<Byte>, hex: seq<Byte>, right: seq<Byte>)
    requires AllSpace(left) && AllSpace(right) && hex != []
    requires hex[0] !in {9, 10, 11, 12, 13, 32} && hex[|hex| - 1] !in {9, 10, 11, 12, 13, 32}
    ensures Trim(left + hex + right) == hex
  {
    assert left + hex + right == left + (hex + right);
    assert (hex + right)[0] == hex[0];
    TrimLeft(left, hex + right);
    TrimRight(hex, right);
  }

  method Sign(scheme: Scheme, relays: seq<RelayDescriptor>, sk: nat) returns (d: SignedDirectory)
    ensures d == SignedBy(scheme, relays, sk)
  {
    var msg := CanonicalDirectoryBytes(relays);
    d := SignedDirectory(relays, HexEncode(scheme.sign(sk, msg)), HexEncode(scheme.publicKey(sk)));
  }

  /** The embedded key is the pinned one and the signature over the canonical bytes verifies under it. */
  ghost predicate Authentic(scheme: Scheme, d: SignedDirectory, pinned: seq<Byte>) {
    && DecodeKey(d.authorityKey) == Some(pinned) && scheme.isKey(pinned)
    && DecodeSignature(d.signature).Some?
    && scheme.verify(pinned, CanonicalBytes(d.relays), DecodeSignature(d.signature).value)
  }

  method Verify(scheme: Scheme, parses: seq<Byte> -> bool, d: SignedDirectory, pinned: seq<Byte>)
    returns (r: Result<seq<RelayDescriptor>, DirectoryError>)
    ensures r.Ok? <==> Authentic(scheme, d, pinned) && Valid(parses, d.relays)
    ensures r.Ok? ==> r.value == d.relays
    ensures var key, sig := DecodeKey(d.authorityKey), DecodeSignature(d.signature);
            && (key.None? ==> r == Err(BadAuthorityKey))
            && (key.Some? && key.value != pinned ==> r == Err(WrongAuthority))
            && (key == Some(pinned) && !scheme.isKey(pinned) ==> r == Err(InvalidAuthorityPoint))
            && (key == Some(pinned) && scheme.isKey(pinned) && sig.None? ==> r == Err(BadSignatureEncoding))
            && (key == Some(pinned) && scheme.isKey(pinned) && sig.Some? && !Authentic(scheme, d, pinned) ==>
                  r == Err(BadSignature))
    ensures r.Err? && Authentic(scheme, d, pinned) ==> FirstError(r.error, parses, d.relays)
  {
    var auth := DecodeKey(d.authorityKey);
    if auth.None? { return Err(BadAuthorityKey); }
    if auth.value != pinned { return Err(WrongAuthority); }
    if !scheme.isKey(auth.value) { return Err(InvalidAuthorityPoint); }
    var signature := DecodeSignature(d.signature);
    if signature.None? { return Err(BadSignatureEncoding); }
    var msg := CanonicalDirectoryBytes(d.relays);
    if !scheme.verify(auth.value, msg, signature.value) { return Err(BadSignature); }
    var v := Validate(parses, d.relays);
    if v.Err? { return Err(v.error); }
    return Ok(d.relays);
  }

  /** Whoever signs gets an authentic directory. */
  lemma SignedIsAuthentic(scheme: Scheme, relays: seq<RelayDescriptor>, sk: nat)
    requires scheme.Correct()
    ensures Authentic(scheme, SignedBy(scheme, relays, sk), scheme.publicKey(sk))
  {
    var sig, key := scheme.sign(sk, CanonicalBytes(relays)), scheme.publicKey(sk);
    HexIsTrimmed(sig);
    HexIsTrimmed(key);
    HexRoundTrip(sig);
    HexRoundTrip(key);
  }

  /** The directory's signature, if it decodes, is no forgery of one of these lists. */
  ghost predicate Genuine(scheme: Scheme, d: SignedDirectory, pinned: seq<Byte>, lists: set<seq<RelayDescriptor>>) {
    var sig := DecodeSignature(d.signature);
    sig.Some? ==> scheme.Unforged(pinned, CanonicalBytes(d.relays), sig.value, lists)
  }

  /**
   An authority whose signed messages stay below the shortest collision: what `Verify` accepts without a forgery is a
   relay list that the pinned authority signed, with distinct nicknames and distinct key strings.
   */
  lemma AcceptedWasSigned(scheme: Scheme, parses: seq<Byte> -> bool, d: SignedDirectory, pinned: seq<Byte>,
                          lists: set<seq<RelayDescriptor>>)
    requires Genuine(scheme, d, pinned, lists)
    requires forall l :: l in lists ==> |CanonicalBytes(l)| < SHORTEST_COLLISION
    requires Authentic(scheme, d, pinned) && Valid(parses, d.relays)
    ensures d.relays in lists
    ensures forall i, j :: 0 <= i < j < |d.relays| ==>
              d.relays[i].nickname != d.relays[j].nickname && d.relays[i].pubkeyHex != d.relays[j].pubkeyHex
  {
    var l :| l in lists && CanonicalBytes(d.relays) == CanonicalBytes(l);
    ShortIsInjective(l, d.relays);
    forall i, j | 0 <= i < j < |d.relays|
      ensures d.relays[i].nickname != d.relays[j].nickname && d.relays[i].pubkeyHex != d.relays[j].pubkeyHex
    {
      assert EntryOk(parses, d.relays, j);
    }
  }

  /**
   The whole way: of the directories made by signing valid lists all are accepted, and are genuine exactly for an
   authority that counts their list among those it signed.
   */
  lemma SignedIsAccepted(scheme: Scheme, parses: seq<Byte> -> bool, relays: seq<RelayDescriptor>, sk: nat,
                         lists: set<seq<RelayDescriptor>>)
    requires scheme.Correct() && Valid(parses, relays)
    requires forall l :: l in lists ==> |CanonicalBytes(l)| < SHORTEST_COLLISION
    ensures var d, key := SignedBy(scheme, relays, sk), scheme.publicKey(sk);
            && Authentic(scheme, d, key) && Valid(parses, d.relays)
            && (Genuine(scheme, d, key, lists) <==> relays in lists)
  {
    var d, key := SignedBy(scheme, relays, sk), scheme.publicKey(sk);
    SignedIsAuthentic(scheme, relays, sk);
    if Genuine(scheme, d, key, lists) { AcceptedWasSigned(scheme, parses, d, key, lists); }
  }
}
