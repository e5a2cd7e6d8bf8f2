/** Fixed-width integers, big-endian encodings and the option and result types shared by every module. */
module Bytes {

  type Byte = b: int | 0 <= b < 0x100
  type U16 = v: int | 0 <= v < 0x1_0000
  type U32 = v: int | 0 <= v < 0x1_0000_0000
  type U64 = v: int | 0 <= v < 0x1_0000_0000_0000_0000

  const U32_MAX: U32 := 0xFFFF_FFFF
  const U64_MAX: U64 := 0xFFFF_FFFF_FFFF_FFFF

  datatype Option<+T> = None | Some(value: T)

  datatype Result<+T, +E> = Ok(value: T) | Err(error: E)

  function Zeros(n: nat): (z: seq<Byte>)
    ensures |z| == n
    ensures forall i :: 0 <= i < n ==> z[i] == 0
  {
    seq(n, _ => 0)
  }

  /** The number that bytes stand for, the most significant one first. */
  function BigEndian(b: seq<Byte>): nat {
    if b == [] then 0 else BigEndian(b[..|b| - 1]) * 0x100 + b[|b| - 1]
  }

  function U16Bytes(v: U16): (b: seq<Byte>)
    ensures |b| == 2
  {
    [v / 0x100, v % 0x100]
  }

  function U16From(b: seq<Byte>): (v: U16)
    requires |b| == 2
  {
    b[0] as int * 0x100 + b[1] as int
  }

  function U32Bytes(v: U32): (b: seq<Byte>)
    ensures |b| == 4
  {
    U16Bytes(v / 0x1_0000) + U16Bytes(v % 0x1_0000)
  }

  function U32From(b: seq<Byte>): (v: U32)
    requires |b| == 4
  {
    U16From(b[..2]) as int * 0x1_0000 + U16From(b[2..]) as int
  }

  function U64Bytes(v: U64): (b: seq<Byte>)
    ensures |b| == 8
  {
    U32Bytes(v / 0x1_0000_0000) + U32Bytes(v % 0x1_0000_0000)
  }

  function U64From(b: seq<Byte>): (v: U64)
    requires |b| == 8
  {
    U32From(b[..4]) as int * 0x1_0000_0000 + U32From(b[4..]) as int
  }

  lemma U16RoundTrip(v: U16)
    ensures U16From(U16Bytes(v)) == v
  {
  }

  lemma U16BytesOfFrom(b: seq<Byte>)
    requires |b| == 2
    ensures U16Bytes(U16From(b)) == b
  {
  }

  lemma U32RoundTrip(v: U32)
    ensures U32From(U32Bytes(v)) == v
  {
    var hi, lo := U16Bytes(v / 0x1_0000), U16Bytes(v % 0x1_0000);
    assert (hi + lo)[..2] == hi && (hi + lo)[2..] == lo;
  }

  lemma BigEndianNext(b: seq<Byte>, x: Byte)
    ensures BigEndian(b + [x]) == BigEndian(b) * 0x100 + x
  {
    assert (b + [x])[..|b|] == b;
  }

  lemma U16Layout(b: seq<Byte>)
    requires |b| == 2
    ensures U16From(b) == BigEndian(b)
  {
    BigEndianNext([], b[0]);
    BigEndianNext([b[0]], b[1]);
    assert [] + [b[0]] == [b[0]] && [b[0]] + [b[1]] == b;
  }

  lemma U32Layout(b: seq<Byte>)
    requires |b| == 4
    ensures U32From(b) == BigEndian(b)
  {
    U16Layout(b[..2]);
    U16Layout(b[2..]);
    BigEndianNext(b[..2], b[2]);
    BigEndianNext(b[..3], b[3]);
    assert b[..2] + [b[2]] == b[..3] && b[..3] + [b[3]] == b;
  }

  lemma U32BytesOfFrom(b: seq<Byte>)
    requires |b| == 4
    ensures U32Bytes(U32From(b)) == b
  {
    U16BytesOfFrom(b[..2]);
    U16BytesOfFrom(b[2..]);
    assert b == b[..2] + b[2..];
  }

  lemma U64Layout(v: U64)
    ensures BigEndian(U64Bytes(v)) == v
  {
    var b, hi, lo := U64Bytes(v), U32Bytes(v / 0x1_0000_0000), U32Bytes(v % 0x1_0000_0000);
    U32RoundTrip(v / 0x1_0000_0000);
    U32RoundTrip(v % 0x1_0000_0000);
    U32Layout(hi);
    U32Layout(lo);
    BigEndianAppend(hi, lo);
    assert Power256(4) == 0x1_0000_0000;
  }

  function Power256(n: nat): nat {
    if n == 0 then 1 else 0x100 * Power256(n - 1)
  }

  lemma ShiftByte(h: nat, p: nat, l: nat, x: nat)
    ensures (h * p + l) * 0x100 + x == h * (0x100 * p) + (l * 0x100 + x)
  {
  }

  lemma {:induction false} BigEndianAppend(hi: seq<Byte>, lo: seq<Byte>)
    ensures BigEndian(hi + lo) == BigEndian(hi) * Power256(|lo|) + BigEndian(lo)
    decreases |lo|
  {
    if lo == [] {
      assert hi + lo == hi;
    } else {
      var n := |lo| - 1;
      var h, p, l := BigEndian(hi), Power256(n), BigEndian(lo[..n]);
      BigEndianAppend(hi, lo[..n]);
      BigEndianNext(hi + lo[..n], lo[n]);
      assert hi + lo[..n] + [lo[n]] == hi + lo;
      ShiftByte(h, p, l, lo[n]);
    }
  }

  lemma U64RoundTrip(v: U64)
    ensures U64From(U64Bytes(v)) == v
  {
    var hi, lo := U32Bytes(v / 0x1_0000_0000), U32Bytes(v % 0x1_0000_0000);
    U32RoundTrip(v / 0x1_0000_0000);
    U32RoundTrip(v % 0x1_0000_0000);
    assert (hi + lo)[..4] == hi && (hi + lo)[4..] == lo;
  }
}
