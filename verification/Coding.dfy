/** Fixed-width integers and masked checksums (util/coding.h, util/crc32c.h). */
module Coding {
  import opened Common
  import opened Keys

  type Word = x: int | 0 <= x < 0x1_0000_0000

  function LowByte(n: int): Byte {
    n % 256
  }

  /** EncodeFixed32, little-endian. */
  function Fixed32(x: Word): (r: Bytes)
    ensures |r| == 4
  {
    [LowByte(x), LowByte(x / 256), LowByte(x / 0x1_0000), LowByte(x / 0x100_0000)]
  }

  function DecodeFixed32(b: Bytes): Word
    requires |b| == 4
  {
    b[0] as int + b[1] as int * 256 + b[2] as int * 0x1_0000 + b[3] as int * 0x100_0000
  }

  lemma Fixed32RoundTrip(x: Word)
    ensures DecodeFixed32(Fixed32(x)) == x
  {
    assert x / 0x1_0000 == x / 256 / 256;
    assert x / 0x100_0000 == x / 0x1_0000 / 256;
  }

  const MASK_DELTA: Word := 0xa282ead8

  /** crc32c::Mask: rotate right by 15 bits and add a constant. */
  function Mask(crc: Word): Word {
    (crc / 0x8000 + crc % 0x8000 * 0x2_0000 + MASK_DELTA) % 0x1_0000_0000
  }

  function Unmask(masked: Word): Word {
    var rot := (masked - MASK_DELTA) % 0x1_0000_0000;
    rot / 0x2_0000 + rot % 0x2_0000 * 0x8000
  }

  lemma MaskRoundTrip(crc: Word)
    ensures Unmask(Mask(crc)) == crc
  {
    var q, r := crc / 0x8000, crc % 0x8000;
    Halves(crc, 0x8000, q, r);
    ShiftBack(q + r * 0x2_0000);
    Halves(q + r * 0x2_0000, 0x2_0000, r, q);
  }

  lemma Halves(n: int, unit: int, q: int, r: int)
    requires unit > 0 && 0 <= r < unit
    ensures n == q * unit + r <==> n / unit == q && n % unit == r
  {
    if n == q * unit + r {
      DivisionUnique(n / unit, n % unit, q, r, unit);
    }
  }

  lemma DivisionUnique(a: int, b: int, c: int, d: int, unit: int)
    requires unit > 0 && 0 <= b < unit && 0 <= d < unit && a * unit + b == c * unit + d
    ensures a == c && b == d
  {
    assert (a - c) * unit == d - b;
    AtLeastUnit(a - c, unit);
  }

  lemma AtLeastUnit(x: int, unit: int)
    requires unit > 0
    ensures x >= 1 ==> x * unit >= unit
    ensures x <= -1 ==> x * unit <= -unit
  {
  }

  lemma ShiftBack(rot: Word)
    ensures ((rot + MASK_DELTA) % 0x1_0000_0000 - MASK_DELTA) % 0x1_0000_0000 == rot
  {
  }

  type Long = x: int | 0 <= x < 0x1_0000_0000_0000_0000

  /** EncodeFixed64: the low word, then the high word. */
  function Fixed64(x: Long): (r: Bytes)
    ensures |r| == 8
  {
    Fixed32(x % 0x1_0000_0000) + Fixed32(x / 0x1_0000_0000)
  }

  function DecodeFixed64(b: Bytes): Long
    requires |b| == 8
  {
    DecodeFixed32(b[..4]) as int + DecodeFixed32(b[4..]) as int * 0x1_0000_0000
  }

  lemma Fixed64RoundTrip(x: Long)
    ensures DecodeFixed64(Fixed64(x)) == x
  {
    var lo, hi := x % 0x1_0000_0000, x / 0x1_0000_0000;
    assert Fixed64(x)[..4] == Fixed32(lo) && Fixed64(x)[4..] == Fixed32(hi);
    Fixed32RoundTrip(lo);
    Fixed32RoundTrip(hi);
  }

  /** EncodeVarint64; EncodeVarint32 unrolls the same loop. */
  function Varint(v: nat): (r: Bytes)
    ensures r != []
  {
    if v < 128 then [v] else [128 + LowByte(v % 128)] + Varint(v / 128)
  }

  /** GetVarint32Ptr and GetVarint64Ptr: at most `groups` bytes, the last of which may lose bits above `modulus`. */
  function GetVarint(input: Bytes, unit: nat, groups: nat, modulus: nat, sofar: nat): Option<(nat, Bytes)>
    requires modulus > 0
    decreases groups
  {
    if groups == 0 || input == [] then None
    else if input[0] >= 128 then
      GetVarint(input[1..], unit * 128, groups - 1, modulus, sofar + (input[0] - 128) * unit % modulus)
    else
      Some((sofar + input[0] * unit % modulus, input[1..]))
  }

  function Power(n: nat): (r: nat)
    ensures r > 0
  {
    if n == 0 then 1 else 128 * Power(n - 1)
  }

  lemma SmallProduct(a: nat, b: nat, unit: nat, modulus: nat)
    requires a <= b && b * unit < modulus
    ensures a * unit % modulus == a * unit
  {
    assert a * unit <= b * unit;
  }

  lemma SplitProduct(v: nat, unit: nat)
    ensures v / 128 * (unit * 128) + v % 128 * unit == v * unit
    ensures v / 128 * (unit * 128) >= 0 && v % 128 * unit >= 0
  {
    assert v == v / 128 * 128 + v % 128;
    calc {
      v * unit;
      (v / 128 * 128 + v % 128) * unit;
      v / 128 * 128 * unit + v % 128 * unit;
      v / 128 * (unit * 128) + v % 128 * unit;
    }
  }

  lemma VarintContinues(v: nat, tail: Bytes, unit: nat, next: nat, groups: nat, modulus: nat, sofar: nat)
    requires 128 <= v && groups > 0 && modulus > 0 && next == unit * 128
    ensures GetVarint(Varint(v) + tail, unit, groups, modulus, sofar) ==
              GetVarint(Varint(v / 128) + tail, next, groups - 1, modulus, sofar + v % 128 * unit % modulus)
  {
    assert (Varint(v) + tail)[1..] == Varint(v / 128) + tail;
  }

  lemma VarintEnds(v: nat, tail: Bytes, unit: nat, groups: nat, modulus: nat, sofar: nat)
    requires v < 128 && groups > 0 && modulus > 0
    ensures GetVarint(Varint(v) + tail, unit, groups, modulus, sofar) == Some((sofar + v * unit % modulus, tail))
  {
    assert (Varint(v) + tail)[1..] == tail;
  }

  lemma {:induction false} VarintRoundTrip(v: nat, tail: Bytes, unit: nat, groups: nat, modulus: nat, sofar: nat, total: nat)
    requires total == v * unit < modulus && v < Power(groups) && groups > 0
    ensures GetVarint(Varint(v) + tail, unit, groups, modulus, sofar) == Some((sofar + total, tail))
    decreases v
  {
    SplitProduct(v, unit);
    var low, high, next := v % 128 * unit, v / 128 * (unit * 128), unit * 128;
    SmallProduct(v % 128, v, unit, modulus);
    if v < 128 {
      VarintEnds(v, tail, unit, groups, modulus, sofar);
    } else {
      assert Power(groups) == 128 * Power(groups - 1);
      VarintContinues(v, tail, unit, next, groups, modulus, sofar);
      VarintRoundTrip(v / 128, tail, next, groups - 1, modulus, sofar + low, high);
    }
  }

  function GetVarint32(input: Bytes): Option<(nat, Bytes)> {
    GetVarint(input, 1, 5, 0x1_0000_0000, 0)
  }

  lemma Varint32RoundTrip(v: Word, tail: Bytes)
    ensures GetVarint32(Varint(v) + tail) == Some((v as nat, tail))
  {
    assert Power(5) == 0x8_0000_0000;
    VarintRoundTrip(v, tail, 1, 5, 0x1_0000_0000, 0, v);
  }

  /** PutLengthPrefixedSlice. */
  function LengthPrefixed(s: Bytes): Bytes {
    Varint(|s|) + s
  }

  function GetLengthPrefixedSlice(input: Bytes): (r: Option<(Bytes, Bytes)>)
    ensures r.Some? ==> |r.value.1| < |input|
  {
    var n := GetVarint32(input);
    GetVarintConsumes(input, 1, 5, 0x1_0000_0000, 0);
    if n.Some? && n.value.0 <= |n.value.1| then Some((n.value.1[..n.value.0], n.value.1[n.value.0..])) else None
  }

  lemma GetVarintConsumes(input: Bytes, unit: nat, groups: nat, modulus: nat, sofar: nat)
    requires modulus > 0
    ensures var r := GetVarint(input, unit, groups, modulus, sofar); r.Some? ==> |r.value.1| < |input|
    decreases groups
  {
  }

  lemma LengthPrefixedRoundTrip(s: Bytes, tail: Bytes)
    requires |s| < 0x1_0000_0000
    ensures GetLengthPrefixedSlice(LengthPrefixed(s) + tail) == Some((s, tail))
  {
    Varint32RoundTrip(|s|, s + tail);
    assert LengthPrefixed(s) + tail == Varint(|s|) + (s + tail);
    assert (s + tail)[..|s|] == s && (s + tail)[|s|..] == tail;
  }
}
