/**
 * The on-disk form of a log record, the reader that takes records back out of a file, and the scan loop over a file.
 */
module LogRecord {
  import opened Wire
  import Varint

  datatype RecordType = Normal | Delete | TxnFinished

  datatype Record = Record(key: Bytes, value: Bytes, rtype: RecordType)

  datatype Pos = Pos(fid: nat, offset: nat, size: nat)

  datatype ReadRecord = ReadRecord(record: Record, size: nat)

  datatype ReadError = Eof | DecodeError | InvalidType | InvalidCrc

  datatype IOType = StandardFIO | MemoryMap

  /** One record found by a scan, with the offset and size the scan assigns to it. */
  datatype Located = Located(record: Record, offset: nat, size: nat)

  type word32 = n: nat | n < U32_LIMIT

  /** The checksum is any fixed function of the bytes it covers. */
  type Checksum = Bytes -> word32

  const CRC_LEN: nat := 4

  /** `max_log_record_header_size`: the type byte and two varints of at most five bytes. */
  const MAX_HEADER_SIZE: nat := 11

  function TypeByte(t: RecordType): byte
  {
    match t
    case Normal => 1
    case Delete => 2
    case TxnFinished => 3
  }

  /** `from_u8`; the source panics where this is None. */
  function TypeOf(b: byte): Option<RecordType>
  {
    match b
    case 1 => Some(Normal)
    case 2 => Some(Delete)
    case 3 => Some(TxnFinished)
    case _ => None
  }

  function Header(r: Record): (h: Bytes)
    ensures |h| >= 3
  {
    [TypeByte(r.rtype)] + Varint.Encode(|r.key|) + Varint.Encode(|r.value|)
  }

  /** Everything the checksum covers. */
  function Payload(r: Record): Bytes
  {
    Header(r) + r.key + r.value
  }

  function Encode(crc: Checksum, r: Record): Bytes
  {
    Payload(r) + BigEndian(crc(Payload(r)), CRC_LEN)
  }

  /** `encoded_length`. */
  function Size(r: Record): (n: nat)
    ensures n >= 7
    ensures r.key != [] ==> n >= 8
  {
    1 + Varint.LengthOf(|r.key|) + Varint.LengthOf(|r.value|) + |r.key| + |r.value| + CRC_LEN
  }

  /** What the eleven-byte header can describe and the end-of-file test cannot mistake for padding. */
  predicate Storable(r: Record)
  {
    && (r.key != [] || r.value != [])
    && |r.key| < U32_LIMIT
    && |r.value| < U32_LIMIT
  }

  lemma {:induction false} EncodedSize(crc: Checksum, r: Record)
    requires |r.key| < U64_LIMIT && |r.value| < U64_LIMIT
    ensures |Encode(crc, r)| == Size(r)
    ensures |Header(r)| == 1 + Varint.LengthOf(|r.key|) + Varint.LengthOf(|r.value|)
  {
    Varint.EncodedLength(|r.key|);
    Varint.EncodedLength(|r.value|);
  }

  // ---- Reading ----

  /** A read into a zeroed buffer: the bytes the file has, then zeros (`read_at` may be short). */
  function Padded(file: Bytes, offset: nat, len: nat): (bs: Bytes)
    ensures |bs| == len
    ensures forall i :: 0 <= i < len ==> bs[i] == (if offset + i < |file| then file[offset + i] else 0)
  {
    seq(len, i requires 0 <= i < len => if offset + i < |file| then file[offset + i] else 0)
  }

  /** The memory map refuses a read that passes the end of the file. */
  predicate ReadRefused(io: IOType, file: Bytes, offset: nat, len: nat)
  {
    io.MemoryMap? && offset + len > |file|
  }

  /** The two lengths announced by a header. */
  datatype Lengths = Lengths(key: nat, value: nat) | BadHeader

  function HeaderLengths(header: Bytes): Lengths
    requires |header| == MAX_HEADER_SIZE
  {
    match Varint.Take(header[1..])
    case NotTaken => BadHeader
    case Taken(keySize, rest) =>
      match Varint.Take(rest)
      case NotTaken => BadHeader
      case Taken(valueSize, _) => Lengths(keySize, valueSize)
  }

  function HeaderSize(keySize: nat, valueSize: nat): nat
  {
    Varint.LengthOf(keySize) + Varint.LengthOf(valueSize) + 1
  }

  /**
   * The record inside the key, value and checksum bytes; the checksum must be the one the record would be written
   * with.
   */
  function CheckBody(crc: Checksum, kv: Bytes, typeByte: byte, keySize: nat,
      valueSize: nat): (r: Result<ReadRecord, ReadError>)
    requires |kv| == keySize + valueSize + CRC_LEN
    ensures r.Ok? ==> r.value.size > 0
  {
    match TypeOf(typeByte)
    case None => Err(InvalidType)
    case Some(t) =>
      var record := Record(kv[..keySize], kv[keySize..keySize + valueSize], t);
      if FromBigEndian(kv[keySize + valueSize..]) != crc(Payload(record)) then Err(InvalidCrc)
      else Ok(ReadRecord(record, HeaderSize(keySize, valueSize) + |kv|))
  }

  /** `read_log_record`, after the header has been taken apart. */
  function ReadBody(io: IOType, crc: Checksum, file: Bytes, offset: nat, typeByte: byte, keySize: nat, valueSize: nat)
    : (r: Result<ReadRecord, ReadError>)
  {
    var start := offset + HeaderSize(keySize, valueSize);
    var kv := Padded(file, start, keySize + valueSize + CRC_LEN);
    if ReadRefused(io, file, start, |kv|) then Err(Eof) else CheckBody(crc, kv, typeByte, keySize, valueSize)
  }

  /** `read_log_record`. */
  function ReadAt(io: IOType, crc: Checksum, file: Bytes, offset: nat): (r: Result<ReadRecord, ReadError>)
    ensures r.Ok? ==> offset < |file| && r.value.size > 0
  {
    var header := Padded(file, offset, MAX_HEADER_SIZE);
    if ReadRefused(io, file, offset, MAX_HEADER_SIZE) then Err(Eof)
    else match HeaderLengths(header)
      case BadHeader => Err(DecodeError)
      case Lengths(keySize, valueSize) =>
        if keySize == 0 && valueSize == 0 then Err(Eof)
        else
          assert offset < |file| by { ZeroHeader(file, offset); }
          ReadBody(io, crc, file, offset, header[0], keySize, valueSize)
  }

  /** Past the end of the file the header is all zeros, which reads as two zero lengths. */
  lemma {:induction false} ZeroHeader(file: Bytes, offset: nat)
    ensures offset >= |file| ==> HeaderLengths(Padded(file, offset, MAX_HEADER_SIZE)) == Lengths(0, 0)
  {
  }

  lemma {:induction false} EndOfFile(io: IOType, crc: Checksum, file: Bytes)
    ensures ReadAt(io, crc, file, |file|) == Err(Eof)
  {
    ZeroHeader(file, |file|);
  }

  lemma {:induction false} LengthsReadBack(header: Bytes, t: byte, keySize: nat, valueSize: nat, rest: Bytes)
    requires |header| == MAX_HEADER_SIZE && keySize < U64_LIMIT && valueSize < U64_LIMIT
    requires header == [t] + (Varint.Encode(keySize) + (Varint.Encode(valueSize) + rest))
    ensures HeaderLengths(header) == Lengths(keySize, valueSize)
  {
    hide Varint.Encode, Varint.Take;
    var k, v := Varint.Encode(keySize), Varint.Encode(valueSize);
    assert header[1..] == k + (v + rest);
    Varint.TakeEncode(keySize, v + rest);
    Varint.TakeEncode(valueSize, rest);
  }

  /** The header is recognised whatever bytes of the record body, or of later records, fill the rest of the buffer. */
  lemma {:induction false} HeaderReadBack(file: Bytes, offset: nat, r: Record)
    requires Storable(r)
    requires offset + |Header(r)| <= |file| && file[offset..offset + |Header(r)|] == Header(r)
    ensures HeaderLengths(Padded(file, offset, MAX_HEADER_SIZE)) == Lengths(|r.key|, |r.value|)
    ensures Padded(file, offset, MAX_HEADER_SIZE)[0] == TypeByte(r.rtype)
  {
    hide HeaderLengths, Varint.Encode;
    var header := Padded(file, offset, MAX_HEADER_SIZE);
    var k, v, h := Varint.Encode(|r.key|), Varint.Encode(|r.value|), Header(r);
    Varint.EncodedLength(|r.key|);
    Varint.EncodedLength(|r.value|);
    assert |h| <= MAX_HEADER_SIZE;
    assert forall i :: 0 <= i < |h| ==> h[i] == file[offset..offset + |h|][i] == header[i];
    assert header[..|h|] == h == [TypeByte(r.rtype)] + (k + v);
    assert header == h + header[|h|..];
    Regroup([TypeByte(r.rtype)], k, v, header[|h|..]);
    LengthsReadBack(header, TypeByte(r.rtype), |r.key|, |r.value|, header[|h|..]);
  }

  lemma {:induction false} Regroup(a: Bytes, b: Bytes, c: Bytes, d: Bytes)
    ensures a + (b + c) + d == a + (b + (c + d))
  {
  }

  lemma {:induction false} PaddedInside(file: Bytes, offset: nat, len: nat)
    requires offset + len <= |file|
    ensures Padded(file, offset, len) == file[offset..offset + len]
  {
  }

  /** A record under some checksum, its own or another. */
  function Stamped(r: Record, stamp: word32): Bytes
  {
    Payload(r) + BigEndian(stamp, CRC_LEN)
  }

  /** What a reader makes of a record under some checksum. */
  function Judged(crc: Checksum, r: Record, stamp: word32): Result<ReadRecord, ReadError>
  {
    if stamp == crc(Payload(r)) then Ok(ReadRecord(r, Size(r))) else Err(InvalidCrc)
  }

  lemma {:induction false} BodyParts(key: Bytes, value: Bytes, tail: Bytes, kv: Bytes)
    requires kv == key + (value + tail)
    ensures kv[..|key|] == key && kv[|key|..|key| + |value|] == value && kv[|key| + |value|..] == tail
  {
  }

  lemma {:induction false} StampReadBack(stamp: word32)
    ensures FromBigEndian(BigEndian(stamp, CRC_LEN)) == stamp
  {
    assert ByteRange(CRC_LEN) == U32_LIMIT;
    BigEndianRoundTrip(stamp, CRC_LEN);
  }

  lemma {:induction false} TypeReadBack(t: RecordType)
    ensures TypeOf(TypeByte(t)) == Some(t)
  {
  }

  lemma {:induction false} CheckReadBack(crc: Checksum, r: Record, stamp: word32, kv: Bytes)
    requires kv == r.key + (r.value + BigEndian(stamp, CRC_LEN))
    ensures CheckBody(crc, kv, TypeByte(r.rtype), |r.key|, |r.value|) == Judged(crc, r, stamp)
  {
    hide Payload, BigEndian, FromBigEndian, TypeOf, TypeByte, Varint.LengthOf;
    BodyParts(r.key, r.value, BigEndian(stamp, CRC_LEN), kv);
    StampReadBack(stamp);
    TypeReadBack(r.rtype);
    assert r == Record(r.key, r.value, r.rtype);
  }

  lemma {:induction false} SliceOfSlice(file: Bytes, offset: nat, enc: Bytes, skip: nat)
    requires offset + |enc| <= |file| && file[offset..offset + |enc|] == enc && skip <= |enc|
    ensures file[offset + skip..offset + |enc|] == enc[skip..]
  {
    assert file[offset + skip..offset + |enc|] == file[offset..offset + |enc|][skip..];
  }

  lemma {:induction false} BodyBytes(r: Record, stamp: word32)
    ensures Stamped(r, stamp)[|Header(r)|..] == r.key + (r.value + BigEndian(stamp, CRC_LEN))
    ensures |Stamped(r, stamp)| == |Header(r)| + |r.key| + |r.value| + CRC_LEN
  {
  }

  lemma {:induction false} BodyReadBack(io: IOType, crc: Checksum, file: Bytes, offset: nat, r: Record, stamp: word32)
    requires |r.key| < U32_LIMIT && |r.value| < U32_LIMIT
    requires offset + Size(r) <= |file| && file[offset..offset + Size(r)] == Stamped(r, stamp)
    ensures ReadBody(io, crc, file, offset, TypeByte(r.rtype), |r.key|, |r.value|) == Judged(crc, r, stamp)
  {
    hide Stamped, ReadBody, CheckBody;
    EncodedSize(crc, r);
    var start, len := offset + HeaderSize(|r.key|, |r.value|), |r.key| + |r.value| + CRC_LEN;
    SliceOfSlice(file, offset, Stamped(r, stamp), |Header(r)|);
    BodyBytes(r, stamp);
    PaddedInside(file, start, len);
    CheckReadBack(crc, r, stamp, Padded(file, start, len));
    BodyUnrefused(io, crc, file, offset, TypeByte(r.rtype), |r.key|, |r.value|, Padded(file, start, len));
  }

  lemma {:induction false} BodyUnrefused(io: IOType, crc: Checksum, file: Bytes, offset: nat, typeByte: byte,
      keySize: nat, valueSize: nat, kv: Bytes)
    requires kv == Padded(file, offset + HeaderSize(keySize, valueSize), keySize + valueSize + CRC_LEN)
    requires offset + HeaderSize(keySize, valueSize) + |kv| <= |file|
    ensures ReadBody(io, crc, file, offset, typeByte, keySize, valueSize) ==
        CheckBody(crc, kv, typeByte, keySize, valueSize)
  {
  }

  /**
   * The bytes of a record, wherever they are and whatever surrounds them, are read as that record if the checksum
   * behind them is its own, and refused as corrupt if it is any other. The memory map needs eleven bytes from the
   * start of the record to the end of the file.
   */
  lemma {:induction false} ReadStamped(io: IOType, crc: Checksum, pre: Bytes, r: Record, stamp: word32, post: Bytes)
    requires Storable(r)
    ensures var file := pre + (Payload(r) + BigEndian(stamp, CRC_LEN)) + post;
            ReadAt(io, crc, file, |pre|) ==
              if io.MemoryMap? && |pre| + 11 > |file| then Err(Eof)
              else if stamp != crc(Payload(r)) then Err(InvalidCrc)
              else Ok(ReadRecord(r, Size(r)))
  {
    hide ReadBody, HeaderLengths;
    var enc := Stamped(r, stamp);
    var file := pre + enc + post;
    EncodedSize(crc, r);
    BodyBytes(r, stamp);
    assert file[|pre|..|pre| + |enc|] == enc;
    assert file[|pre|..|pre| + |Header(r)|] == enc[..|Header(r)|] == Header(r);
    HeaderReadBack(file, |pre|, r);
    BodyReadBack(io, crc, file, |pre|, r, stamp);
  }

  /** A record written anywhere in a file reads back as itself with its own size, whatever precedes and follows it. */
  lemma {:induction false} ReadBack(io: IOType, crc: Checksum, pre: Bytes, r: Record, post: Bytes)
    requires Storable(r)
    ensures var file := pre + Encode(crc, r) + post;
            ReadAt(io, crc, file, |pre|) ==
              if ReadRefused(io, file, |pre|, MAX_HEADER_SIZE) then Err(Eof) else Ok(ReadRecord(r, Size(r)))
  {
    hide ReadAt;
    ReadStamped(io, crc, pre, r, crc(Payload(r)), post);
  }

  /** Bytes that have changed under the checksum of what was written are not read, if the checksum tells them apart. */
  lemma {:induction false} AlteredRefused(io: IOType, crc: Checksum, pre: Bytes, r: Record, r': Record, post: Bytes)
    requires Storable(r') && crc(Payload(r)) != crc(Payload(r'))
    ensures var file := pre + (Payload(r') + BigEndian(crc(Payload(r)), CRC_LEN)) + post;
            && ReadAt(io, crc, file, |pre|).Err?
            && (|post| >= 4 || io.StandardFIO? ==> ReadAt(io, crc, file, |pre|) == Err(InvalidCrc))
  {
    hide ReadAt, Payload;
    ReadStamped(io, crc, pre, r', crc(Payload(r)), post);
    PayloadLong(r');
  }

  lemma {:induction false} PayloadLong(r: Record)
    requires Storable(r)
    ensures |Payload(r)| >= 4
  {
  }

  // ---- What a read vouches for ----

  lemma {:induction false} PaddedTail(file: Bytes, offset: nat, a: nat, b: nat)
    ensures Padded(file, offset, a + b)[a..] == Padded(file, offset + a, b)
  {
  }

  lemma {:induction false} CheckedBody(crc: Checksum, kv: Bytes, typeByte: byte, keySize: nat, valueSize: nat)
    requires |kv| == keySize + valueSize + CRC_LEN && CheckBody(crc, kv, typeByte, keySize, valueSize).Ok?
    ensures var read := CheckBody(crc, kv, typeByte, keySize, valueSize).value;
            && TypeByte(read.record.rtype) == typeByte && read.size == HeaderSize(keySize, valueSize) + |kv|
            && |read.record.key| == keySize && |read.record.value| == valueSize
            && kv == read.record.key + read.record.value + BigEndian(crc(Payload(read.record)), CRC_LEN)
  {
    hide Payload, BigEndian, FromBigEndian, Varint.LengthOf;
    var tail := kv[keySize + valueSize..];
    FromBigEndianRoundTrip(tail);
    ThreeParts(kv, keySize, valueSize);
    TypeByteBack(typeByte);
    hide TypeOf, TypeByte;
  }

  lemma {:induction false} ThreeParts(kv: Bytes, a: nat, b: nat)
    requires a + b <= |kv|
    ensures kv == kv[..a] + kv[a..a + b] + kv[a + b..]
  {
  }

  lemma {:induction false} TypeByteBack(b: byte)
    ensures TypeOf(b).Some? ==> TypeByte(TypeOf(b).value) == b
  {
  }

  /**
   * Whatever is in a file, at whatever offset: a record that is read has the type, key and value that are there, and
   * the checksum behind them is the one it would be written with.
   */
  lemma {:induction false} ReadVouches(io: IOType, crc: Checksum, file: Bytes, offset: nat)
    requires ReadAt(io, crc, file, offset).Ok?
    ensures var read := ReadAt(io, crc, file, offset).value;
            var bytes, body := Padded(file, offset, read.size), |read.record.key| + |read.record.value| + 4;
            && body < read.size && bytes[0] == TypeByte(read.record.rtype)
            && bytes[read.size - body..] ==
                 read.record.key + read.record.value + BigEndian(crc(Payload(read.record)), 4)
  {
    hide CheckBody, HeaderLengths, Payload, BigEndian, Varint.LengthOf;
    var header := Padded(file, offset, MAX_HEADER_SIZE);
    var lengths := HeaderLengths(header);
    var start, len := HeaderSize(lengths.key, lengths.value), lengths.key + lengths.value + CRC_LEN;
    CheckedBody(crc, Padded(file, offset + start, len), header[0], lengths.key, lengths.value);
    PaddedTail(file, offset, start, len);
    assert header[0] == Padded(file, offset, start + len)[0];
  }

  // ---- The bytes themselves ----

  /** The three encodings the tests of the source write out, for any checksum with their three values. */
  lemma {:induction false} KnownRecords(crc: Checksum)
    ensures var name, value := [110, 97, 109, 101], [98, 105, 116, 99, 97, 115, 107, 45, 114, 115];
            var put, bare, gone := Record(name, value, Normal), Record(name, [], Normal), Record(name, value, Delete);
            && Payload(put) == [1, 4, 10] + name + value && Payload(bare) == [1, 4, 0] + name
            && Payload(gone) == [2, 4, 10] + name + value
            && (crc(Payload(put)) == 1020360578 ==> Encode(crc, put) == Payload(put) + [60, 209, 119, 130])
            && (crc(Payload(bare)) == 3756865478 ==> Encode(crc, bare) == Payload(bare) + [223, 237, 55, 198])
            && (crc(Payload(gone)) == 1867197446 ==> Encode(crc, gone) == Payload(gone) + [111, 75, 44, 6])
  {
    FourBytes(60, 209, 119, 130);
    FourBytes(223, 237, 55, 198);
    FourBytes(111, 75, 44, 6);
  }

  lemma {:induction false} FourBytes(a: byte, b: byte, c: byte, d: byte)
    ensures BigEndian(((a * 256 + b) * 256 + c) * 256 + d, 4) == [a, b, c, d]
  {
    var n := ((a * 256 + b) * 256 + c) * 256 + d;
    assert BigEndian(a, 1) == [a];
    assert BigEndian(a * 256 + b, 2) == [a, b];
    assert BigEndian((a * 256 + b) * 256 + c, 3) == [a, b, c];
  }

  // ---- The longest header ----

  /** The header buffer is the type byte and two lengths of 32 bits: no header is longer, and one is as long. */
  lemma {:induction false} HeaderBound(r: Record)
    requires Storable(r)
    ensures MAX_HEADER_SIZE == 1 + 2 * Varint.LengthOf(U32_LIMIT - 1) && |Header(r)| <= MAX_HEADER_SIZE
    ensures |Header(r)| == MAX_HEADER_SIZE <==> |r.key| >= 0x1000_0000 && |r.value| >= 0x1000_0000
    ensures exists longest :: Storable(longest) && |Header(longest)| == MAX_HEADER_SIZE
  {
    hide Varint.Encode;
    Varint.EncodedLength(|r.key|);
    Varint.EncodedLength(|r.value|);
    var zeros: Bytes := seq(U32_LIMIT - 1, _ => 0);
    var longest := Record(zeros, zeros, Normal);
    Varint.EncodedLength(|zeros|);
    assert Storable(longest) && |Header(longest)| == MAX_HEADER_SIZE;
  }

  // ---- Whole files ----

  function EncodeAll(crc: Checksum, rs: seq<Record>): Bytes
  {
    if rs == [] then [] else EncodeAll(crc, rs[..|rs| - 1]) + Encode(crc, rs[|rs| - 1])
  }

  lemma {:induction false} EncodeAllAppend(crc: Checksum, a: seq<Record>, b: seq<Record>)
    ensures EncodeAll(crc, a + b) == EncodeAll(crc, a) + EncodeAll(crc, b)
    decreases |b|
  {
    hide Encode;
    if b == [] {
      assert a + b == a;
    } else {
      assert (a + b)[..|a + b| - 1] == a + b[..|b| - 1];
      EncodeAllAppend(crc, a, b[..|b| - 1]);
    }
  }

  /** The offset of record `i`: the sizes of the records before it, added up. */
  function OffsetOf(rs: seq<Record>, i: nat): nat
    requires i <= |rs|
  {
    if i == 0 then 0 else OffsetOf(rs, i - 1) + Size(rs[i - 1])
  }

  predicate AllStorable(rs: seq<Record>)
  {
    forall r :: r in rs ==> Storable(r)
  }

  lemma {:induction false} OffsetIsLength(crc: Checksum, rs: seq<Record>, i: nat)
    requires i <= |rs| && AllStorable(rs)
    ensures OffsetOf(rs, i) == |EncodeAll(crc, rs[..i])|
  {
    hide Encode, Size;
    if i > 0 {
      OffsetIsLength(crc, rs, i - 1);
      assert rs[..i][..i - 1] == rs[..i - 1];
      assert Storable(rs[i - 1]);
      EncodedSize(crc, rs[i - 1]);
    } else {
      assert rs[..i] == [];
    }
  }

  /** Reading at a record's running-sum offset returns exactly that record, whatever was appended after it. */
  lemma {:induction false} ReadInFile(io: IOType, crc: Checksum, rs: seq<Record>, i: nat)
    requires i < |rs| && AllStorable(rs)
    ensures var file := EncodeAll(crc, rs);
            ReadAt(io, crc, file, OffsetOf(rs, i)) ==
              if ReadRefused(io, file, OffsetOf(rs, i), MAX_HEADER_SIZE) then Err(Eof)
              else Ok(ReadRecord(rs[i], Size(rs[i])))
  {
    hide ReadAt, Encode;
    var pre, post := rs[..i], rs[i + 1..];
    assert rs == pre + [rs[i]] + post;
    EncodeAllAppend(crc, pre + [rs[i]], post);
    assert EncodeAll(crc, pre + [rs[i]]) == EncodeAll(crc, pre) + Encode(crc, rs[i]) by {
      assert (pre + [rs[i]])[..i] == pre;
    }
    OffsetIsLength(crc, rs, i);
    ReadBack(io, crc, EncodeAll(crc, pre), rs[i], EncodeAll(crc, post));
  }

  /** The scan loop: read, step over what was read, stop at the first end-of-file. */
  function ScanFrom(io: IOType, crc: Checksum, file: Bytes, offset: nat): Result<seq<Located>, ReadError>
    decreases if offset < |file| then |file| - offset else 0
  {
    match ReadAt(io, crc, file, offset)
    case Err(Eof) => Ok([])
    case Err(e) => Err(e)
    case Ok(read) =>
      match ScanFrom(io, crc, file, offset + read.size)
      case Err(e) => Err(e)
      case Ok(rest) => Ok([Located(read.record, offset, read.size)] + rest)
  }

  /** Where the record after these would start. */
  function ChainEnd(found: seq<Located>, at: nat): nat
  {
    if found == [] then at else found[|found| - 1].offset + found[|found| - 1].size
  }

  /** Each record reads at its offset and the next one starts where it ends. */
  ghost predicate Chain(io: IOType, crc: Checksum, file: Bytes, found: seq<Located>, at: nat)
  {
    forall i :: 0 <= i < |found| ==>
      && found[i].offset == ChainEnd(found[..i], at)
      && ReadAt(io, crc, file, found[i].offset) == Ok(ReadRecord(found[i].record, found[i].size))
  }

  lemma {:induction false} ChainCons(io: IOType, crc: Checksum, file: Bytes, l: Located, rest: seq<Located>, at: nat)
    requires l.offset == at && ReadAt(io, crc, file, at) == Ok(ReadRecord(l.record, l.size))
    requires Chain(io, crc, file, rest, at + l.size)
    ensures Chain(io, crc, file, [l] + rest, at) && ChainEnd([l] + rest, at) == ChainEnd(rest, at + l.size)
  {
    hide ReadAt;
    var all := [l] + rest;
    forall i | 0 <= i < |all|
      ensures all[i].offset == ChainEnd(all[..i], at)
      ensures ReadAt(io, crc, file, all[i].offset) == Ok(ReadRecord(all[i].record, all[i].size))
    {
      if i > 0 {
        assert all[..i] == [l] + rest[..i - 1] && all[i] == rest[i - 1];
        assert i > 1 ==> rest[..i - 1][i - 2] == rest[i - 2];
      }
    }
  }

  /** The records read one after the other, and what is read behind them. */
  ghost predicate Reaches(io: IOType, crc: Checksum, file: Bytes, found: seq<Located>, at: nat, e: ReadError)
  {
    Chain(io, crc, file, found, at) && ReadAt(io, crc, file, ChainEnd(found, at)) == Err(e)
  }

  lemma {:induction false} ReachesAtOnce(io: IOType, crc: Checksum, file: Bytes, at: nat, e: ReadError)
    requires ReadAt(io, crc, file, at) == Err(e)
    ensures Reaches(io, crc, file, [], at, e)
    ensures ScanFrom(io, crc, file, at) == if e == Eof then Ok([]) else Err(e)
  {
    hide ReadAt;
  }

  lemma {:induction false} ReachesLater(io: IOType, crc: Checksum, file: Bytes, l: Located, found: seq<Located>,
      at: nat, e: ReadError)
    requires l.offset == at && ReadAt(io, crc, file, at) == Ok(ReadRecord(l.record, l.size))
    requires Reaches(io, crc, file, found, at + l.size, e)
    ensures Reaches(io, crc, file, [l] + found, at, e)
  {
    hide ReadAt, Chain, ChainEnd;
    ChainCons(io, crc, file, l, found, at);
  }

  lemma {:induction false} ScanOne(io: IOType, crc: Checksum, file: Bytes, at: nat, read: ReadRecord)
    requires ReadAt(io, crc, file, at) == Ok(read)
    ensures at < |file| && read.size > 0
    ensures ScanFrom(io, crc, file, at) ==
            match ScanFrom(io, crc, file, at + read.size)
            case Err(e) => Err(e)
            case Ok(rest) => Ok([Located(read.record, at, read.size)] + rest)
  {
    hide HeaderLengths, ReadBody;
  }

  /**
   * A scan of arbitrary bytes: it succeeds with the records that read one after the other up to a place that reads as
   * the end of the file, and fails with the error of the first place that reads as neither.
   */
  lemma {:induction false} ScanExact(io: IOType, crc: Checksum, file: Bytes, at: nat)
    ensures match ScanFrom(io, crc, file, at)
            case Ok(found) => Reaches(io, crc, file, found, at, Eof)
            case Err(e) => e != Eof && exists found :: Reaches(io, crc, file, found, at, e)
    decreases if at < |file| then |file| - at else 0
  {
    hide ReadAt, ScanFrom, Reaches;
    match ReadAt(io, crc, file, at)
    case Err(e) =>
      ReachesAtOnce(io, crc, file, at, e);
    case Ok(read) =>
      var l := Located(read.record, at, read.size);
      ScanOne(io, crc, file, at, read);
      ScanExact(io, crc, file, at + read.size);
      var rest := ScanFrom(io, crc, file, at + read.size);
      if rest.Ok? {
        ReachesLater(io, crc, file, l, rest.value, at, Eof);
      } else {
        var found :| Reaches(io, crc, file, found, at + read.size, rest.error);
        ReachesLater(io, crc, file, l, found, at, rest.error);
      }
  }

  /** Records `i` to `n` with their running-sum offsets. */
  function Locate(rs: seq<Record>, i: nat, n: nat): (ls: seq<Located>)
    requires i <= n <= |rs|
    ensures |ls| == n - i
    decreases n - i
  {
    if i == n then [] else [Located(rs[i], OffsetOf(rs, i), Size(rs[i]))] + Locate(rs, i + 1, n)
  }

  /** How many records a scan sees: the memory map loses a last record shorter than the header buffer. */
  function Visible(io: IOType, rs: seq<Record>): (n: nat)
    ensures n <= |rs|
  {
    if io.MemoryMap? && rs != [] && Size(rs[|rs| - 1]) < MAX_HEADER_SIZE then |rs| - 1 else |rs|
  }

  lemma {:induction false} ReadVisible(io: IOType, crc: Checksum, rs: seq<Record>, i: nat)
    requires i <= Visible(io, rs) && AllStorable(rs)
    requires forall r :: r in rs ==> r.key != []
    ensures ReadAt(io, crc, EncodeAll(crc, rs), OffsetOf(rs, i)) ==
              if i == Visible(io, rs) then Err(Eof) else Ok(ReadRecord(rs[i], Size(rs[i])))
  {
    hide ReadAt, Encode, Varint.LengthOf;
    var file := EncodeAll(crc, rs);
    OffsetIsLength(crc, rs, |rs|);
    assert rs[..|rs|] == rs;
    if i == |rs| {
      EndOfFile(io, crc, file);
    } else {
      ReadInFile(io, crc, rs, i);
      assert rs[i] in rs;
      assert OffsetOf(rs, i + 1) == OffsetOf(rs, i) + Size(rs[i]);
      if i + 1 < |rs| {
        assert rs[i + 1] in rs;
        assert OffsetOf(rs, i + 2) == OffsetOf(rs, i + 1) + Size(rs[i + 1]);
        OffsetMonotone(rs, i + 2, |rs|);
      }
    }
  }

  lemma {:induction false} ScanReads(io: IOType, crc: Checksum, file: Bytes, rs: seq<Record>, i: nat, n: nat)
    requires i <= n <= |rs|
    requires forall j :: i <= j < n ==> ReadAt(io, crc, file, OffsetOf(rs, j)) == Ok(ReadRecord(rs[j], Size(rs[j])))
    requires ReadAt(io, crc, file, OffsetOf(rs, n)) == Err(Eof)
    ensures ScanFrom(io, crc, file, OffsetOf(rs, i)) == Ok(Locate(rs, i, n))
    decreases n - i
  {
    hide ReadAt;
    var off := OffsetOf(rs, i);
    if i < n {
      ScanReads(io, crc, file, rs, i + 1, n);
      var next := OffsetOf(rs, i + 1);
      assert next == OffsetOf(rs, i) + Size(rs[i]);
      ScanCons(io, crc, file, off, ReadRecord(rs[i], Size(rs[i])), next, Locate(rs, i + 1, n));
      assert Locate(rs, i, n) == [Located(rs[i], off, Size(rs[i]))] + Locate(rs, i + 1, n);
    }
  }

  lemma {:induction false} ScanCons(io: IOType, crc: Checksum, file: Bytes, offset: nat, read: ReadRecord, next: nat,
      rest: seq<Located>)
    requires ReadAt(io, crc, file, offset) == Ok(read) && next == offset + read.size
    requires ScanFrom(io, crc, file, next) == Ok(rest)
    ensures ScanFrom(io, crc, file, offset) == Ok([Located(read.record, offset, read.size)] + rest)
  {
    hide ReadAt;
  }

  lemma {:induction false} ScanVisible(io: IOType, crc: Checksum, rs: seq<Record>)
    requires AllStorable(rs) && forall r :: r in rs ==> r.key != []
    ensures ScanFrom(io, crc, EncodeAll(crc, rs), 0) == Ok(Locate(rs, 0, Visible(io, rs)))
  {
    hide ReadAt, Encode;
    var n, file := Visible(io, rs), EncodeAll(crc, rs);
    forall j | 0 <= j <= n
      ensures ReadAt(io, crc, file, OffsetOf(rs, j)) == if j == n then Err(Eof) else Ok(ReadRecord(rs[j], Size(rs[j])))
    {
      ReadVisible(io, crc, rs, j);
    }
    ScanReads(io, crc, file, rs, 0, n);
  }

  lemma {:induction false} OffsetMonotone(rs: seq<Record>, i: nat, j: nat)
    requires i <= j <= |rs|
    ensures OffsetOf(rs, i) + (j - i) <= OffsetOf(rs, j)
    decreases j
  {
    if i < j {
      OffsetMonotone(rs, i, j - 1);
    }
  }

  /** Scanning a file of records returns exactly those records at their running-sum offsets and then stops. */
  lemma {:induction false} ScanFile(crc: Checksum, rs: seq<Record>)
    requires AllStorable(rs) && forall r :: r in rs ==> r.key != []
    ensures ScanFrom(StandardFIO, crc, EncodeAll(crc, rs), 0) == Ok(Locate(rs, 0, |rs|))
  {
    ScanVisible(StandardFIO, crc, rs);
  }

  /**
   * The memory-mapped scan is the standard scan minus a last record shorter than eleven bytes, and agrees with it
   * otherwise.
   */
  lemma {:induction false} MmapScan(crc: Checksum, rs: seq<Record>)
    requires AllStorable(rs) && forall r :: r in rs ==> r.key != []
    ensures var file := EncodeAll(crc, rs);
            && ScanFrom(MemoryMap, crc, file, 0) == Ok(Locate(rs, 0, Visible(MemoryMap, rs)))
            && (ScanFrom(MemoryMap, crc, file, 0) == ScanFrom(StandardFIO, crc, file, 0)
                <==> rs == [] || Size(rs[|rs| - 1]) >= MAX_HEADER_SIZE)
  {
    hide ReadAt, Encode;
    ScanVisible(MemoryMap, crc, rs);
    ScanVisible(StandardFIO, crc, rs);
  }

  // ---- Positions in hint records ----

  function EncodePos(p: Pos): Bytes
  {
    Varint.Encode(p.fid) + Varint.Encode(p.offset) + Varint.Encode(p.size)
  }

  /** `decode_log_record_pos`: the file id and the size are cast down to u32; the source panics where this is None. */
  function DecodePos(bs: Bytes): Option<Pos>
  {
    match Varint.Take(bs)
    case NotTaken => None
    case Taken(fid, afterFid) =>
      match Varint.Take(afterFid)
      case NotTaken => None
      case Taken(offset, afterOffset) =>
        match Varint.Take(afterOffset)
        case NotTaken => None
        case Taken(size, _) => Some(Pos(fid % U32_LIMIT, offset, size % U32_LIMIT))
  }

  predicate PosFits(p: Pos)
  {
    p.fid < U32_LIMIT && p.offset < U64_LIMIT && p.size < U32_LIMIT
  }

  lemma {:induction false} PosRoundTrip(p: Pos)
    requires PosFits(p)
    ensures DecodePos(EncodePos(p)) == Some(p)
  {
    hide Varint.Encode, Varint.Take;
    var f, o, z := Varint.Encode(p.fid), Varint.Encode(p.offset), Varint.Encode(p.size);
    assert EncodePos(p) == f + (o + (z + []));
    Varint.TakeEncode(p.fid, o + (z + []));
    Varint.TakeEncode(p.offset, z + []);
    Varint.TakeEncode(p.size, []);
  }

  lemma {:induction false} PosCodecInjective(p: Pos, q: Pos)
    requires PosFits(p) && PosFits(q) && EncodePos(p) == EncodePos(q)
    ensures p == q
  {
    PosRoundTrip(p);
    PosRoundTrip(q);
  }

  // ---- Keys with a sequence number ----

  /** `log_record_key_with_seq`. */
  function EncodeKey(seqNo: nat, key: Bytes): (bs: Bytes)
    ensures |bs| > |key|
  {
    Varint.Encode(seqNo) + key
  }

  datatype ParsedKey = ParsedKey(key: Bytes, seqNo: nat) | Unparsable

  /** `parse_log_record_key`. */
  function ParseKey(bs: Bytes): (p: ParsedKey)
    ensures p.ParsedKey? ==> |p.key| < |bs|
  {
    match Varint.Take(bs)
    case NotTaken => Unparsable
    case Taken(seqNo, rest) => ParsedKey(rest, seqNo)
  }

  lemma {:induction false} KeyRoundTrip(seqNo: nat, key: Bytes)
    requires seqNo < U64_LIMIT
    ensures ParseKey(EncodeKey(seqNo, key)) == ParsedKey(key, seqNo)
  {
    Varint.TakeEncode(seqNo, key);
  }

  lemma {:induction false} KeyCodecInjective(s: nat, t: nat, j: Bytes, k: Bytes)
    requires s < U64_LIMIT && t < U64_LIMIT && EncodeKey(s, j) == EncodeKey(t, k)
    ensures s == t && j == k
  {
    Varint.PrefixCode(s, t, j, k);
  }

  /** A key written without the sequence number parses as a shorter key; a first byte in 1..127 becomes its number. */
  lemma {:induction false} RawKeyParse(key: Bytes)
    requires key != []
    ensures ParseKey(key).ParsedKey? ==> ParseKey(key).key != key
    ensures 1 <= key[0] < 128 ==> ParseKey(key) == ParsedKey(key[1..], key[0])
  {
  }
}
