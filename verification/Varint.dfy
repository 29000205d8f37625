/** Base 128 varints as prost writes and reads them (Protocol Buffers Encoding guide, section "Base 128 Varints"). */
module Varint {
  import opened Wire

  datatype Decoded = Decoded(value: nat, used: nat) | Invalid

  const MAX_VARINT_LEN: nat := 10

  function Encode(n: nat): (bs: Bytes)
    ensures |bs| >= 1
  {
    if n < 128 then [n] else [n % 128 + 128] + Encode(n / 128)
  }

  /** Reads at most ten bytes; the tenth may only carry the top bit of a 64-bit number. */
  function DecodeFrom(bs: Bytes, count: nat): (d: Decoded)
    requires count <= MAX_VARINT_LEN
    ensures d.Decoded? ==> 1 <= d.used <= |bs| && d.used + count <= MAX_VARINT_LEN
    decreases MAX_VARINT_LEN - count
  {
    if bs == [] || count == MAX_VARINT_LEN then Invalid
    else if bs[0] < 128 then
      if count == MAX_VARINT_LEN - 1 && bs[0] >= 2 then Invalid else Decoded(bs[0], 1)
    else
      match DecodeFrom(bs[1..], count + 1)
      case Decoded(v, used) => Decoded(bs[0] - 128 + 128 * v, used + 1)
      case Invalid => Invalid
  }

  function Decode(bs: Bytes): (d: Decoded)
    ensures d.Decoded? ==> 1 <= d.used <= |bs| && d.used <= MAX_VARINT_LEN
  {
    DecodeFrom(bs, 0)
  }

  /** How many values a varint can still carry once `count` bytes have been read. */
  function Capacity(count: nat): nat
    requires count <= MAX_VARINT_LEN
    decreases MAX_VARINT_LEN - count
  {
    if count == MAX_VARINT_LEN then 0
    else if count == MAX_VARINT_LEN - 1 then 2
    else 128 * Capacity(count + 1)
  }

  lemma {:induction false} FullCapacity()
    ensures Capacity(0) == U64_LIMIT
  {
    assert Capacity(9) == 2;
    assert Capacity(8) == 256;
    assert Capacity(7) == 0x8000;
    assert Capacity(6) == 0x40_0000;
    assert Capacity(5) == 0x2000_0000;
    assert Capacity(4) == 0x10_0000_0000;
    assert Capacity(3) == 0x800_0000_0000;
    assert Capacity(2) == 0x4_0000_0000_0000;
    assert Capacity(1) == 0x200_0000_0000_0000;
  }

  lemma {:induction false} DecodeFromEncode(n: nat, tail: Bytes, count: nat)
    requires count <= MAX_VARINT_LEN && n < Capacity(count)
    ensures DecodeFrom(Encode(n) + tail, count) == Decoded(n, |Encode(n)|)
    decreases n
  {
    var bs := Encode(n) + tail;
    if n >= 128 {
      assert bs[0] == n % 128 + 128;
      assert bs[1..] == Encode(n / 128) + tail;
      DecodeFromEncode(n / 128, tail, count + 1);
    } else {
      assert bs[0] == n;
    }
  }

  /** How much a seven-bit group counts. */
  function GroupValue(i: nat): (v: nat)
    ensures v > 0
  {
    if i == 0 then 1 else 128 * GroupValue(i - 1)
  }

  /** Byte `i` carries the `i`th seven-bit group, the least significant one first, and says whether more follow. */
  lemma {:induction false} EncodedGroups(n: nat, i: nat)
    requires i < |Encode(n)|
    ensures Encode(n)[i] == n / GroupValue(i) % 128 + if i < |Encode(n)| - 1 then 128 else 0
    ensures i == |Encode(n)| - 1 ==> n / GroupValue(i) < 128
    decreases n
  {
    if n >= 128 && i > 0 {
      EncodedGroups(n / 128, i - 1);
      DivideTwice(n, 128, GroupValue(i - 1));
    }
  }

  /** A varint followed by anything reads back as itself and consumes exactly its own bytes, for every u64. */
  lemma {:induction false} DecodeEncode(n: nat, tail: Bytes)
    requires n < U64_LIMIT
    ensures Decode(Encode(n) + tail) == Decoded(n, |Encode(n)|)
  {
    FullCapacity();
    DecodeFromEncode(n, tail, 0);
  }

  /** A varint taken off the front of a buffer, and what is left of the buffer. */
  datatype Taken = Taken(value: nat, rest: Bytes) | NotTaken

  function Take(bs: Bytes): (t: Taken)
    ensures t.Taken? ==> |t.rest| < |bs|
  {
    match Decode(bs)
    case Invalid => NotTaken
    case Decoded(value, used) => Taken(value, bs[used..])
  }

  lemma {:induction false} TakeEncode(n: nat, tail: Bytes)
    requires n < U64_LIMIT
    ensures Take(Encode(n) + tail) == Taken(n, tail)
  {
    DecodeEncode(n, tail);
  }

  lemma {:induction false} DecodeFromBounded(bs: Bytes, count: nat)
    requires count <= MAX_VARINT_LEN
    requires DecodeFrom(bs, count).Decoded?
    ensures DecodeFrom(bs, count).value < Capacity(count)
    decreases MAX_VARINT_LEN - count
  {
    if bs[0] < 128 {
      if count < MAX_VARINT_LEN - 1 {
        assert Capacity(count + 1) >= 1 by { CapacityPositive(count + 1); }
      }
    } else {
      DecodeFromBounded(bs[1..], count + 1);
    }
  }

  lemma {:induction false} CapacityPositive(count: nat)
    requires count < MAX_VARINT_LEN
    ensures Capacity(count) >= 1
    decreases MAX_VARINT_LEN - count
  {
    if count < MAX_VARINT_LEN - 1 {
      CapacityPositive(count + 1);
    }
  }

  /** No byte string decodes to a number outside u64. */
  lemma {:induction false} DecodeFitsU64(bs: Bytes)
    requires Decode(bs).Decoded?
    ensures Decode(bs).value < U64_LIMIT
  {
    FullCapacity();
    DecodeFromBounded(bs, 0);
  }

  /** Two numbers followed by arbitrary tails never share their bytes: the encoding is a prefix code. */
  lemma {:induction false} PrefixCode(m: nat, n: nat, s: Bytes, t: Bytes)
    requires m < U64_LIMIT && n < U64_LIMIT
    requires Encode(m) + s == Encode(n) + t
    ensures m == n && s == t
  {
    DecodeEncode(m, s);
    DecodeEncode(n, t);
    assert s == (Encode(m) + s)[|Encode(m)|..];
    assert t == (Encode(n) + t)[|Encode(n)|..];
  }

  /** `length_delimiter_len`: one byte for every started group of seven bits. */
  function LengthOf(n: nat): (len: nat)
  {
    if n < 0x80 then 1
    else if n < 0x4000 then 2
    else if n < 0x20_0000 then 3
    else if n < 0x1000_0000 then 4
    else if n < 0x8_0000_0000 then 5
    else if n < 0x400_0000_0000 then 6
    else if n < 0x2_0000_0000_0000 then 7
    else if n < 0x100_0000_0000_0000 then 8
    else if n < 0x8000_0000_0000_0000 then 9
    else 10
  }

  /** The table agrees with the bytes actually written. */
  lemma {:induction false} EncodedLength(n: nat)
    requires n < U64_LIMIT
    ensures |Encode(n)| == LengthOf(n)
    decreases n
  {
    if n >= 128 {
      EncodedLength(n / 128);
    }
  }

  lemma {:induction false} LengthMonotone(m: nat, n: nat)
    requires m <= n
    ensures LengthOf(m) <= LengthOf(n)
  {
  }
}
