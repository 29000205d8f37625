/** An append through a handle that is not where the log ends: exactly when the puts it writes read back. */
module Misplaced {
  import opened Wire
  import opened LogRecord
  import opened Replay
  import opened Layout
  import opened Store
  import opened DataFile
  import opened Directory
  import Varint

  function PutRecord(key: Bytes, value: Bytes): Record
  {
    Record(EncodeKey(NON_TRANSACTION, key), value, Normal)
  }

  /** What a put accepts and the header can describe. */
  predicate Puttable(key: Bytes, value: Bytes)
  {
    key != [] && |key| + 1 < U32_LIMIT && |value| < U32_LIMIT
  }

  /** The record goes to the file the handle is on; otherwise it starts the file with the next id. */
  predicate Stays(c: Cabinet, limit: nat, key: Bytes, value: Bytes)
  {
    c.off + Size(PutRecord(key, value)) <= limit
  }

  /** After the put, a get of the key answers with the value. */
  predicate Answers(crc: Checksum, c: Cabinet, limit: nat, key: Bytes, value: Bytes)
  {
    var enc := Encode(crc, PutRecord(key, value));
    Fetch(crc, AppendBytes(c, enc, limit).files, AppendPos(c, enc, limit)) == Ok(value)
  }

  lemma {:induction false} PutStorable(crc: Checksum, key: Bytes, value: Bytes)
    requires Puttable(key, value)
    ensures Storable(PutRecord(key, value)) && |Encode(crc, PutRecord(key, value))| == Size(PutRecord(key, value))
  {
    assert Varint.Encode(NON_TRANSACTION) == [0];
    EncodedSize(crc, PutRecord(key, value));
  }

  /** Where the put goes, what is there before, and what is read afterwards. */
  lemma {:induction false} Landing(crc: Checksum, c: Cabinet, limit: nat, key: Bytes, value: Bytes)
    requires Puttable(key, value)
    ensures var enc, stays := Encode(crc, PutRecord(key, value)), Stays(c, limit, key, value);
            var id, off := if stays then c.id else c.id + 1, if stays then c.off else 0;
            && AppendPos(c, enc, limit) == Pos(id, off, |enc|)
            && AppendBytes(c, enc, limit).files == c.files[id := Contents(c.files, id) + enc]
            && (Answers(crc, c, limit, key, value) <==>
                  (var read := ReadAt(StandardFIO, crc, Contents(c.files, id) + enc, off);
                   read.Ok? && !read.value.record.rtype.Delete? && read.value.record.value == value))
  {
    hide ReadAt, Encode, Size, PutRecord;
    PutStorable(crc, key, value);
  }

  // ---- A write offset inside the file ----

  lemma {:induction false} DecodeStep(a: Bytes, b: Bytes, count: nat)
    requires a != [] && b != [] && a[0] == b[0] && count < Varint.MAX_VARINT_LEN
    requires a[0] >= 128 ==> Varint.DecodeFrom(a[1..], count + 1) == Varint.DecodeFrom(b[1..], count + 1)
    ensures Varint.DecodeFrom(a, count) == Varint.DecodeFrom(b, count)
    ensures a[0] < 128 && Varint.DecodeFrom(a, count).Decoded? ==> Varint.DecodeFrom(a, count).used == 1
    ensures a[0] >= 128 && Varint.DecodeFrom(a, count).Decoded? ==>
      var rest := Varint.DecodeFrom(a[1..], count + 1);
      rest.Decoded? && Varint.DecodeFrom(a, count).used == rest.used + 1
  {
  }

  /** A varint that ends inside a common prefix of two buffers is the same in both. */
  lemma {:induction false} DecodeSame(a: Bytes, b: Bytes, k: nat, count: nat)
    requires k < |a| && k < |b| && a[k] < 128 && count <= Varint.MAX_VARINT_LEN
    requires forall i :: 0 <= i <= k ==> a[i] == b[i]
    ensures Varint.DecodeFrom(a, count) == Varint.DecodeFrom(b, count)
    ensures Varint.DecodeFrom(a, count).Decoded? ==> Varint.DecodeFrom(a, count).used <= k + 1
    decreases k
  {
    if count < Varint.MAX_VARINT_LEN {
      if a[0] >= 128 {
        DecodeSame(a[1..], b[1..], k - 1, count + 1);
      }
      hide Varint.DecodeFrom;
      DecodeStep(a, b, count);
    }
  }

  /**
   * The lengths a header announces when two bytes below 128 follow its first `d` bytes: nothing behind them matters.
   */
  lemma {:induction false} LengthsSame(a: Bytes, b: Bytes, d: nat)
    requires |a| == |b| == MAX_HEADER_SIZE && 1 <= d && d + 2 <= MAX_HEADER_SIZE
    requires a[..d + 2] == b[..d + 2] && a[d] < 128 && a[d + 1] < 128
    ensures HeaderLengths(a) == HeaderLengths(b)
  {
    hide Varint.DecodeFrom;
    var x, y := a[1..], b[1..];
    forall i | 0 <= i <= d ensures x[i] == y[i] {
      assert a[..d + 2][i + 1] == b[..d + 2][i + 1];
    }
    DecodeSame(x, y, d - 1, 0);
    var first := Varint.DecodeFrom(x, 0);
    if first.Decoded? {
      var u := first.used;
      assert x[u..][d - u] == x[d] == a[d + 1];
      DecodeSame(x[u..], y[u..], d - u, 0);
    }
  }

  /** The first two bytes of a put of a one-byte key. */
  lemma {:induction false} ShortKeyBytes(crc: Checksum, value: Bytes)
    requires |value| < U32_LIMIT
    ensures var enc := Encode(crc, PutRecord([7], value));
            |enc| >= 9 && enc[0] == 1 && enc[1] == 2
  {
    var r := PutRecord([7], value);
    assert Varint.Encode(NON_TRANSACTION) == [0];
    assert |r.key| == 2 && Varint.Encode(2) == [2];
    EncodedSize(crc, r);
    assert Header(r)[0] == 1 && Header(r)[1] == 2;
  }

  /** Reading from inside what was there before: the value's length has nothing to do with what is appended. */
  lemma {:induction false} InsideSame(crc: Checksum, before: Bytes, off: nat, v: Bytes, w: Bytes)
    requires off < |before| && |v| < U32_LIMIT && |w| < U32_LIMIT
    ensures HeaderLengths(Padded(before + Encode(crc, PutRecord([7], v)), off, MAX_HEADER_SIZE)) ==
            HeaderLengths(Padded(before + Encode(crc, PutRecord([7], w)), off, MAX_HEADER_SIZE))
  {
    ShortKeyBytes(crc, v);
    ShortKeyBytes(crc, w);
    hide Encode, PutRecord, HeaderLengths;
    var x, y := before + Encode(crc, PutRecord([7], v)), before + Encode(crc, PutRecord([7], w));
    var a, b := Padded(x, off, MAX_HEADER_SIZE), Padded(y, off, MAX_HEADER_SIZE);
    var d := |before| - off;
    assert forall i :: 0 <= i < |before| + 2 ==> x[i] == y[i];
    if d + 2 <= MAX_HEADER_SIZE {
      assert a[..d + 2] == b[..d + 2];
      LengthsSame(a, b, d);
    } else {
      assert a == b;
    }
  }

  /** What is read has the lengths its header announces, and a type. */
  lemma {:induction false} ReadAnnounced(crc: Checksum, file: Bytes, off: nat)
    requires ReadAt(StandardFIO, crc, file, off).Ok?
    ensures off < |file|
    ensures var r := ReadAt(StandardFIO, crc, file, off).value.record;
            && HeaderLengths(Padded(file, off, MAX_HEADER_SIZE)) == Lengths(|r.key|, |r.value|)
            && TypeOf(file[off]) == Some(r.rtype)
  {
    hide HeaderLengths;
  }

  /** So two puts whose values differ in length do not both read back. */
  lemma {:induction false} InsideFails(crc: Checksum, c: Cabinet, limit: nat, v: Bytes, w: Bytes)
    requires Puttable([7], v) && Puttable([7], w) && |v| != |w|
    requires Stays(c, limit, [7], v) <==> Stays(c, limit, [7], w)
    requires if Stays(c, limit, [7], v) then c.off < |Contents(c.files, c.id)| else Contents(c.files, c.id + 1) != []
    ensures !Answers(crc, c, limit, [7], v) || !Answers(crc, c, limit, [7], w)
  {
    hide ReadAt, Encode, Size, PutRecord, HeaderLengths, Answers;
    var stays := Stays(c, limit, [7], v);
    var before, off := Contents(c.files, if stays then c.id else c.id + 1), if stays then c.off else 0;
    Landing(crc, c, limit, [7], v);
    Landing(crc, c, limit, [7], w);
    InsideSame(crc, before, off, v, w);
    if Answers(crc, c, limit, [7], v) && Answers(crc, c, limit, [7], w) {
      ReadAnnounced(crc, before + Encode(crc, PutRecord([7], v)), off);
      ReadAnnounced(crc, before + Encode(crc, PutRecord([7], w)), off);
    }
  }

  // ---- A write offset behind the end of the file ----

  lemma {:induction false} ShortSizes()
    ensures Size(PutRecord([7], [])) == 9 && Size(PutRecord([7], [0])) == 10 && Size(PutRecord([7], [0, 0, 0, 0])) == 13
  {
    assert Varint.Encode(NON_TRANSACTION) == [0];
  }

  /** The bytes of a put of a one-byte key and an empty value: up to the checksum, only the first is that of a put. */
  lemma {:induction false} EmptyPutByte(crc: Checksum, g: nat)
    ensures var enc := Encode(crc, PutRecord([7], []));
            |enc| == 9 && (1 <= g < 5 ==> enc[g] != 1 && enc[g] != 3)
  {
    var r := PutRecord([7], []);
    assert Varint.Encode(NON_TRANSACTION) == [0];
    assert r.key == [0, 7];
    assert Varint.Encode(2) == [2] && Varint.Encode(0) == [0];
    EncodedSize(crc, r);
    assert Payload(r) == [1, 2, 0, 0, 7];
    assert forall i :: 0 <= i < 5 ==> Encode(crc, r)[i] == Payload(r)[i];
  }

  /** With a value of four zeros, the value lies where the checksum was. */
  lemma {:induction false} ZerosPutByte(crc: Checksum, g: nat)
    ensures var enc := Encode(crc, PutRecord([7], [0, 0, 0, 0]));
            |enc| == 13 && (5 <= g < 9 ==> enc[g] == 0)
  {
    var r := PutRecord([7], [0, 0, 0, 0]);
    assert Varint.Encode(NON_TRANSACTION) == [0];
    assert r.key == [0, 7];
    assert Varint.Encode(2) == [2] && Varint.Encode(4) == [4];
    EncodedSize(crc, r);
    assert Payload(r) == [1, 2, 4, 0, 7, 0, 0, 0, 0];
    assert forall i :: 0 <= i < 9 ==> Encode(crc, r)[i] == Payload(r)[i];
  }

  /**
   * A put that reads back from a place inside its own record has the byte of a type there, and not that of a
   * tombstone.
   */
  lemma {:induction false} AnswerType(crc: Checksum, c: Cabinet, limit: nat, key: Bytes, value: Bytes)
    requires Puttable(key, value) && Stays(c, limit, key, value) && c.off >= |Contents(c.files, c.id)|
    requires Answers(crc, c, limit, key, value)
    ensures var enc, g := Encode(crc, PutRecord(key, value)), c.off - |Contents(c.files, c.id)|;
            g < |enc| && (enc[g] == 1 || enc[g] == 3)
  {
    hide ReadAt, Encode, PutRecord, Answers, Size, Stays, Puttable;
    var before, enc := Contents(c.files, c.id), Encode(crc, PutRecord(key, value));
    Landing(crc, c, limit, key, value);
    ReadAnnounced(crc, before + enc, c.off);
    assert (before + enc)[c.off] == enc[c.off - |before|];
  }

  /** From a place inside the record, or behind it, the empty value or the value of four zeros is not read back. */
  lemma {:induction false} BehindFails(crc: Checksum, c: Cabinet, limit: nat)
    requires c.off + 13 <= limit && c.off > |Contents(c.files, c.id)|
    ensures Stays(c, limit, [7], []) && Stays(c, limit, [7], [0, 0, 0, 0])
    ensures !Answers(crc, c, limit, [7], []) || !Answers(crc, c, limit, [7], [0, 0, 0, 0])
  {
    ShortSizes();
    var g := c.off - |Contents(c.files, c.id)|;
    EmptyPutByte(crc, g);
    ZerosPutByte(crc, g);
    hide Encode, PutRecord, Answers, Size, Contents;
    if Answers(crc, c, limit, [7], []) && Answers(crc, c, limit, [7], [0, 0, 0, 0]) {
      AnswerType(crc, c, limit, [7], []);
      AnswerType(crc, c, limit, [7], [0, 0, 0, 0]);
    }
  }

  // ---- Exactly when puts read back ----

  /** A put placed at the end of the file it lands in reads back, with its own size. */
  lemma {:induction false} AppendReads(crc: Checksum, c: Cabinet, limit: nat, key: Bytes, value: Bytes)
    requires Puttable(key, value)
    requires Stays(c, limit, key, value) ==> c.off == |Contents(c.files, c.id)|
    requires !Stays(c, limit, key, value) ==> Contents(c.files, c.id + 1) == []
    ensures Answers(crc, c, limit, key, value)
    ensures var enc := Encode(crc, PutRecord(key, value));
            var pos := AppendPos(c, enc, limit);
            ReadAt(StandardFIO, crc, Contents(AppendBytes(c, enc, limit).files, pos.fid), pos.offset) ==
              Ok(ReadRecord(PutRecord(key, value), pos.size))
  {
    hide ReadAt, Encode, Size;
    var r, enc := PutRecord(key, value), Encode(crc, PutRecord(key, value));
    var before := Contents(c.files, if Stays(c, limit, key, value) then c.id else c.id + 1);
    PutStorable(crc, key, value);
    Landing(crc, c, limit, key, value);
    ReadBack(StandardFIO, crc, before, r, []);
    assert before + enc + [] == before + enc;
  }

  ghost predicate StayersAnswer(crc: Checksum, c: Cabinet, limit: nat)
  {
    forall key, value :: Puttable(key, value) && Stays(c, limit, key, value) ==> Answers(crc, c, limit, key, value)
  }

  ghost predicate RotatorsAnswer(crc: Checksum, c: Cabinet, limit: nat)
  {
    forall key, value :: Puttable(key, value) && !Stays(c, limit, key, value) ==> Answers(crc, c, limit, key, value)
  }

  /**
   * While the file has room for a short record, the puts that go to it all read back if and only if the write offset
   * is the length of the file: bytes always go to the end of the file, the position always names the write offset.
   */
  lemma {:induction false} StayersExact(crc: Checksum, c: Cabinet, limit: nat)
    requires c.off + 13 <= limit
    ensures StayersAnswer(crc, c, limit) <==> c.off == |Contents(c.files, c.id)|
  {
    var before := Contents(c.files, c.id);
    if c.off == |before| {
      hide Answers, Stays, Puttable;
      forall key, value | Puttable(key, value) && Stays(c, limit, key, value)
        ensures Answers(crc, c, limit, key, value)
      {
        AppendReads(crc, c, limit, key, value);
      }
    } else {
      ShortSizes();
      hide Answers, Size, PutRecord;
      if c.off < |before| {
        InsideFails(crc, c, limit, [], [0]);
      } else {
        BehindFails(crc, c, limit);
      }
    }
  }

  /**
   * While values can be long enough to start the next file, the puts that do all read back if and only if that file
   * is not there yet, or is empty.
   */
  lemma {:induction false} RotatorsExact(crc: Checksum, c: Cabinet, limit: nat)
    requires limit + 1 < c.off + U32_LIMIT
    ensures RotatorsAnswer(crc, c, limit) <==> Contents(c.files, c.id + 1) == []
  {
    if Contents(c.files, c.id + 1) == [] {
      hide Answers, Stays, Puttable;
      forall key, value | Puttable(key, value) && !Stays(c, limit, key, value)
        ensures Answers(crc, c, limit, key, value)
      {
        AppendReads(crc, c, limit, key, value);
      }
    } else {
      var n := if limit > c.off then limit - c.off else 0;
      var v, w: Bytes := seq(n, _ => 0), seq(n + 1, _ => 0);
      LongSizes(v);
      LongSizes(w);
      hide Answers, Size, PutRecord;
      InsideFails(crc, c, limit, v, w);
    }
  }

  lemma {:induction false} LongSizes(v: Bytes)
    ensures Size(PutRecord([7], v)) > |v|
  {
  }
}
