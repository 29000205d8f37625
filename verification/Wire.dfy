/** Bytes, fixed-width integers and the small container types the other modules share. */
module Wire {

  type byte = b: int | 0 <= b < 256

  type Bytes = seq<byte>

  const U32_LIMIT: nat := 0x1_0000_0000
  const U64_LIMIT: nat := 0x1_0000_0000_0000_0000

  datatype Option<+T> = None | Some(value: T)

  datatype Result<+T, +E> = Ok(value: T) | Err(error: E)

  /** The low `width` bytes of `n`, most significant first (`put_u32`, `put_u64`, `put_u128`). */
  function BigEndian(n: nat, width: nat): (bs: Bytes)
    ensures |bs| == width
  {
    if width == 0 then [] else BigEndian(n / 256, width - 1) + [n % 256]
  }

  /** The number `get_u32`, `get_u64` or `get_u128` reads from exactly these bytes. */
  function FromBigEndian(bs: Bytes): nat
  {
    if bs == [] then 0 else 256 * FromBigEndian(bs[..|bs| - 1]) + bs[|bs| - 1]
  }

  /** The number of values that fit in `width` bytes. */
  function ByteRange(width: nat): (r: nat)
    ensures r > 0
  {
    if width == 0 then 1 else 256 * ByteRange(width - 1)
  }

  lemma {:induction false} BigEndianRoundTrip(n: nat, width: nat)
    requires n < ByteRange(width)
    ensures FromBigEndian(BigEndian(n, width)) == n
  {
    if width > 0 {
      BigEndianRoundTrip(n / 256, width - 1);
      var bs := BigEndian(n, width);
      assert bs[..|bs| - 1] == BigEndian(n / 256, width - 1);
    }
  }

  lemma {:induction false} BigEndianInjective(m: nat, n: nat, width: nat)
    requires m < ByteRange(width) && n < ByteRange(width)
    requires BigEndian(m, width) == BigEndian(n, width)
    ensures m == n
  {
    BigEndianRoundTrip(m, width);
    BigEndianRoundTrip(n, width);
  }

  lemma {:induction false} FromBigEndianRoundTrip(bs: Bytes)
    ensures BigEndian(FromBigEndian(bs), |bs|) == bs
    ensures FromBigEndian(bs) < ByteRange(|bs|)
  {
    if bs != [] {
      FromBigEndianRoundTrip(bs[..|bs| - 1]);
      assert bs == bs[..|bs| - 1] + [bs[|bs| - 1]];
    }
  }

  /** Byte `i` of `width` is a digit to the base 256, the most significant one first. */
  lemma {:induction false} BigEndianDigits(n: nat, width: nat, i: nat)
    requires i < width
    ensures BigEndian(n, width)[i] == n / ByteRange(width - 1 - i) % 256
  {
    if i < width - 1 {
      BigEndianDigits(n / 256, width - 1, i);
      DivideTwice(n, 256, ByteRange(width - 2 - i));
    }
  }

  lemma {:induction false} DivideTwice(n: nat, c: nat, d: nat)
    requires c > 0 && d > 0
    ensures c * d > 0 && n / c / d == n / (c * d)
  {
    var a := n / c;
    var q, r, low := a / d, a % d, n % c;
    Division(n, c);
    Division(a, d);
    Regrouped(c, d, q, r, low);
    Quotient(n, c * d, q, c * r + low);
  }

  lemma {:induction false} Division(n: nat, d: nat)
    requires d > 0
    ensures n == n / d * d + n % d && n % d < d
  {
  }

  lemma {:induction false} Regrouped(c: nat, d: nat, q: nat, r: nat, low: nat)
    requires r < d && low < c
    ensures (q * d + r) * c + low == q * (c * d) + (c * r + low)
    ensures c * r + low < c * d
  {
    assert (q * d + r) * c == q * d * c + r * c;
    assert c * d == c * r + c * (d - r);
    assert c * (d - r) >= c by { Multiple(d - r, c); }
  }

  lemma {:induction false} Quotient(n: nat, d: nat, q: nat, r: nat)
    requires n == q * d + r && r < d
    ensures n / d == q
  {
    var x, y := n / d, n % d;
    Division(n, d);
    assert (x - q) * d == r - y;
    Multiple(x - q, d);
  }

  lemma {:induction false} Multiple(k: int, d: int)
    requires d >= 0
    ensures k >= 1 ==> k * d >= d
    ensures k <= -1 ==> k * d <= -d
  {
  }
}
