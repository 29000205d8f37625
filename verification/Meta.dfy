/**
 * The bytes of the Redis layer: metadata values and the internal keys that hold fields, members, elements and scores.
 */
module Meta {
  import opened Wire

  datatype DataType = StringType | HashType | SetType | ListType | ZSetType

  datatype Metadata = Metadata(dtype: DataType, expire: nat, version: nat, size: nat, head: nat, tail: nat)

  const U128_LIMIT: nat := 0x1_0000_0000_0000_0000_0000_0000_0000_0000

  function TypeByte(t: DataType): byte
  {
    match t
    case StringType => 0
    case HashType => 1
    case SetType => 2
    case ListType => 3
    case ZSetType => 4
  }

  /** The source panics where this is None. */
  function TypeOf(b: byte): Option<DataType>
  {
    match b
    case 0 => Some(StringType)
    case 1 => Some(HashType)
    case 2 => Some(SetType)
    case 3 => Some(ListType)
    case 4 => Some(ZSetType)
    case _ => None
  }

  /** The widths of the fields; head and tail are kept for lists only. */
  predicate Fits(m: Metadata)
  {
    && m.expire < U128_LIMIT && m.version < U128_LIMIT && m.size < U32_LIMIT
    && m.head < U64_LIMIT && m.tail < U64_LIMIT
    && (!m.dtype.ListType? ==> m.head == 0 && m.tail == 0)
  }

  function Bounds(m: Metadata): Bytes
  {
    if m.dtype.ListType? then BigEndian(m.head, 8) + BigEndian(m.tail, 8) else []
  }

  /** `Metadate::encode`. */
  function Encode(m: Metadata): (bs: Bytes)
    ensures |bs| >= 37
  {
    [TypeByte(m.dtype)] + BigEndian(m.expire, 16) + BigEndian(m.version, 16) + BigEndian(m.size, 4) + Bounds(m)
  }

  /** `decode_metadata`; the source panics on a buffer that is too short. */
  function Decode(bs: Bytes): Option<Metadata>
  {
    if |bs| < 37 || TypeOf(bs[0]).None? then None else
      var dtype := TypeOf(bs[0]).value;
      var expire, version, size := FromBigEndian(bs[1..17]), FromBigEndian(bs[17..33]), FromBigEndian(bs[33..37]);
      if !dtype.ListType? then Some(Metadata(dtype, expire, version, size, 0, 0))
      else if |bs| < 53 then None
      else Some(Metadata(dtype, expire, version, size, FromBigEndian(bs[37..45]), FromBigEndian(bs[45..53])))
  }

  lemma {:induction false} Ranges()
    ensures ByteRange(4) == U32_LIMIT && ByteRange(8) == U64_LIMIT && ByteRange(16) == U128_LIMIT
  {
    assert ByteRange(4) == U32_LIMIT;
    assert ByteRange(6) == 0x1_0000_0000_0000;
    assert ByteRange(8) == U64_LIMIT;
    assert ByteRange(10) == 0x1_0000_0000_0000_0000_0000;
    assert ByteRange(12) == 0x1_0000_0000_0000_0000_0000_0000;
    assert ByteRange(14) == 0x1_0000_0000_0000_0000_0000_0000_0000;
    assert ByteRange(16) == U128_LIMIT;
  }

  /** Metadata decodes to itself over the full ranges of its fields. */
  lemma {:induction false} RoundTrip(m: Metadata)
    requires Fits(m)
    ensures Decode(Encode(m)) == Some(m)
  {
    hide BigEndian, FromBigEndian, ByteRange;
    Ranges();
    var bs := Encode(m);
    var e, v, s := BigEndian(m.expire, 16), BigEndian(m.version, 16), BigEndian(m.size, 4);
    BigEndianRoundTrip(m.expire, 16);
    BigEndianRoundTrip(m.version, 16);
    BigEndianRoundTrip(m.size, 4);
    BigEndianRoundTrip(m.head, 8);
    BigEndianRoundTrip(m.tail, 8);
    assert bs[1..17] == e && bs[17..33] == v && bs[33..37] == s;
    if m.dtype.ListType? {
      assert bs[37..45] == BigEndian(m.head, 8) && bs[45..53] == BigEndian(m.tail, 8);
    }
  }

  // ---- Internal keys ----

  /** Every internal key: the name, the version in sixteen bytes, and what the kind of structure adds. */
  function Inner(key: Bytes, version: nat, rest: Bytes): Bytes
  {
    key + BigEndian(version, 16) + rest
  }

  function HashKey(key: Bytes, version: nat, field: Bytes): Bytes
  {
    key + BigEndian(version, 16) + field
  }

  function SetKey(key: Bytes, version: nat, member: Bytes): Bytes
  {
    key + BigEndian(version, 16) + member + BigEndian(|member| % U32_LIMIT, 4)
  }

  function ListKey(key: Bytes, version: nat, index: nat): Bytes
  {
    key + BigEndian(version, 16) + BigEndian(index, 8)
  }

  /** `ZSetInternalKey::encode_member`. */
  function MemberKey(key: Bytes, version: nat, member: Bytes): Bytes
  {
    key + BigEndian(version, 16) + member
  }

  /** `ZSetInternalKey::encode_score`; a score is given by its text. */
  function ScoreKey(key: Bytes, version: nat, score: Bytes, member: Bytes): Bytes
  {
    key + BigEndian(version, 16) + score + member + BigEndian(|member| % U32_LIMIT, 4)
  }

  /** What follows the name and the version decides the key. */
  lemma {:induction false} SuffixDecides(key: Bytes, version: nat, a: Bytes, b: Bytes)
    requires key + BigEndian(version, 16) + a == key + BigEndian(version, 16) + b
    ensures a == b
  {
    var p := key + BigEndian(version, 16);
    assert (p + a)[|p|..] == a && (p + b)[|p|..] == b;
  }

  /** Internal keys of one name are told apart by version and rest, and are not the name. */
  lemma {:induction false} InnerInjective(key: Bytes, v: nat, w: nat, x: Bytes, y: Bytes)
    requires v < U128_LIMIT && w < U128_LIMIT && Inner(key, v, x) == Inner(key, w, y)
    ensures v == w && x == y
  {
    Ranges();
    hide BigEndian, ByteRange;
    var a, b := Inner(key, v, x), Inner(key, w, y);
    assert a[|key|..|key| + 16] == BigEndian(v, 16) && b[|key|..|key| + 16] == BigEndian(w, 16);
    BigEndianInjective(v, w, 16);
    SuffixDecides(key, v, x, y);
  }

  lemma {:induction false} InnerLonger(key: Bytes, version: nat, x: Bytes)
    ensures Inner(key, version, x) != key
  {
  }

  /** The internal keys of all kinds have that form. */
  lemma {:induction false} InnerForms(key: Bytes, version: nat, x: Bytes, score: Bytes, index: nat)
    ensures HashKey(key, version, x) == Inner(key, version, x) == MemberKey(key, version, x)
    ensures SetKey(key, version, x) == Inner(key, version, x + BigEndian(|x| % U32_LIMIT, 4))
    ensures ScoreKey(key, version, score, x) == Inner(key, version, score + x + BigEndian(|x| % U32_LIMIT, 4))
    ensures ListKey(key, version, index) == Inner(key, version, BigEndian(index, 8))
  {
    hide BigEndian;
  }

  /** The first byte of a stored structure is its type. */
  lemma {:induction false} EncodedType(m: Metadata)
    ensures Encode(m)[0] == TypeByte(m.dtype) && TypeOf(Encode(m)[0]) == Some(m.dtype)
    ensures Encode(m)[0] == match m.dtype
                            case StringType => 0
                            case HashType => 1
                            case SetType => 2
                            case ListType => 3
                            case ZSetType => 4
  {
  }

  lemma {:induction false} SetKeyInjective(key: Bytes, version: nat, a: Bytes, b: Bytes)
    requires SetKey(key, version, a) == SetKey(key, version, b)
    ensures a == b
  {
    hide BigEndian;
    var p, x, y := key + BigEndian(version, 16), BigEndian(|a| % U32_LIMIT, 4), BigEndian(|b| % U32_LIMIT, 4);
    assert p + a + x == p + (a + x) && p + b + y == p + (b + y);
    SuffixDecides(key, version, a + x, b + y);
    assert (a + x)[..|a|] == a && (b + y)[..|b|] == b;
  }

  /** List slots of one version, and of one name, are told apart by their index; of different names by the name. */
  lemma {:induction false} ListKeyInjective(j: Bytes, k: Bytes, v: nat, w: nat, x: nat, y: nat)
    requires v < U128_LIMIT && w < U128_LIMIT && x < U64_LIMIT && y < U64_LIMIT
    requires ListKey(j, v, x) == ListKey(k, w, y)
    ensures j == k && v == w && x == y
  {
    Ranges();
    hide BigEndian, ByteRange;
    var a, b := ListKey(j, v, x), ListKey(k, w, y);
    assert |j| == |k|;
    assert a[..|j|] == j && b[..|k|] == k;
    assert a[|j|..|j| + 16] == BigEndian(v, 16) && b[|k|..|k| + 16] == BigEndian(w, 16);
    assert a[|j| + 16..] == BigEndian(x, 8) && b[|k| + 16..] == BigEndian(y, 8);
    BigEndianInjective(v, w, 16);
    BigEndianInjective(x, y, 8);
  }

  lemma {:induction false} ScoreKeyInjective(key: Bytes, version: nat, s: Bytes, a: Bytes, t: Bytes, b: Bytes)
    requires |a| < U32_LIMIT && |b| < U32_LIMIT
    requires ScoreKey(key, version, s, a) == ScoreKey(key, version, t, b)
    ensures s == t && a == b
  {
    Ranges();
    hide BigEndian, ByteRange;
    var p, x, y := key + BigEndian(version, 16), BigEndian(|a|, 4), BigEndian(|b|, 4);
    assert p + s + a + x == p + (s + a + x) && p + t + b + y == p + (t + b + y);
    SuffixDecides(key, version, s + a + x, t + b + y);
    var u, w := s + a + x, t + b + y;
    assert u[|u| - 4..] == x && w[|w| - 4..] == y;
    BigEndianInjective(|a|, |b|, 4);
    assert u[..|s|] == s && w[..|t|] == t;
    assert u[|s|..|s| + |a|] == a && w[|t|..|t| + |b|] == b;
  }

  /**
   * A member key and a score key are the same bytes exactly when the member spells out a score, another member and its
   * length; a caller can rule that out by looking at the names.
   */
  lemma {:induction false} MemberScoreCollision(key: Bytes, version: nat, m: Bytes, s: Bytes, a: Bytes)
    ensures MemberKey(key, version, m) == ScoreKey(key, version, s, a) <==> m == s + a + BigEndian(|a| % U32_LIMIT, 4)
  {
    hide BigEndian;
    var p, x := key + BigEndian(version, 16), BigEndian(|a| % U32_LIMIT, 4);
    assert p + s + a + x == p + (s + a + x);
    if MemberKey(key, version, m) == ScoreKey(key, version, s, a) {
      SuffixDecides(key, version, m, s + a + x);
    }
  }
}
