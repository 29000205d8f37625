/** Data files as the engine handles them: the record encoder, the two ways of reading, and the handle that appends. */
module DataFile {
  import opened Wire
  import opened LogRecord
  import Varint

  // ---- Encoding ----

  /** `encode_varint`: seven bits at a time, least significant first. */
  method EncodeVarint(n: nat) returns (bs: Bytes)
    ensures bs == Varint.Encode(n)
  {
    bs := [];
    var rest := n;
    while rest >= 128
      invariant bs + Varint.Encode(rest) == Varint.Encode(n)
    {
      assert bs + Varint.Encode(rest) == bs + [rest % 128 + 128] + Varint.Encode(rest / 128);
      bs := bs + [rest % 128 + 128];
      rest := rest / 128;
    }
    bs := bs + [rest];
  }

  /** `encode_and_get_crc`. */
  method EncodeRecord(crc: Checksum, r: Record) returns (buf: Bytes, check: word32)
    ensures buf == Encode(crc, r) && check == crc(Payload(r))
  {
    buf := [TypeByte(r.rtype)];
    var keyLen := EncodeVarint(|r.key|);
    buf := buf + keyLen;
    var valueLen := EncodeVarint(|r.value|);
    buf := buf + valueLen;
    assert buf == Header(r);
    buf := buf + r.key;
    buf := buf + r.value;
    check := crc(buf);
    buf := buf + BigEndian(check, CRC_LEN);
  }

  /** `LogRecordPos::encode`. */
  method EncodePosition(p: Pos) returns (buf: Bytes)
    ensures buf == EncodePos(p)
  {
    var fid := EncodeVarint(p.fid);
    var offset := EncodeVarint(p.offset);
    var size := EncodeVarint(p.size);
    buf := fid + offset + size;
  }

  // ---- Reading ----

  /** `FileIO::read`: as many bytes as the file has, the rest of the buffer untouched. */
  method ReadStandard(file: Bytes, buf: array<byte>, offset: nat) returns (n: nat)
    modifies buf
    ensures n <= buf.Length && (n < buf.Length ==> offset + n >= |file|)
    ensures n > 0 ==> offset + n <= |file|
    ensures forall i :: 0 <= i < n ==> buf[i] == file[offset + i]
    ensures forall i :: n <= i < buf.Length ==> buf[i] == old(buf[i])
  {
    n := 0;
    while n < buf.Length && offset + n < |file|
      invariant n <= buf.Length
      invariant n > 0 ==> offset + n <= |file|
      invariant forall i :: 0 <= i < n ==> buf[i] == file[offset + i]
      invariant forall i :: n <= i < buf.Length ==> buf[i] == old(buf[i])
    {
      buf[n] := file[offset + n];
      n := n + 1;
    }
  }

  /** `MMapIo::read`: all of the buffer or nothing. */
  method ReadMapped(file: Bytes, buf: array<byte>, offset: nat) returns (r: Result<nat, ReadError>)
    modifies buf
    ensures offset + buf.Length > |file| ==> r == Err(Eof) && buf[..] == old(buf[..])
    ensures offset + buf.Length <= |file| ==> r == Ok(buf.Length) && buf[..] == file[offset..offset + buf.Length]
  {
    if offset + buf.Length > |file| {
      return Err(Eof);
    }
    var n := ReadStandard(file, buf, offset);
    assert n == buf.Length;
    return Ok(n);
  }

  /** A fresh buffer of zeros, read into. */
  method ReadZeroed(io: IOType, file: Bytes, offset: nat, len: nat) returns (r: Result<Bytes, ReadError>)
    ensures r == if ReadRefused(io, file, offset, len) then Err(Eof) else Ok(Padded(file, offset, len))
  {
    var buf := new byte[len](_ => 0);
    if io.MemoryMap? {
      var read := ReadMapped(file, buf, offset);
      if read.Err? {
        return Err(read.error);
      }
    } else {
      var _ := ReadStandard(file, buf, offset);
    }
    assert buf[..] == Padded(file, offset, len);
    return Ok(buf[..]);
  }

  /** `read_log_record`. */
  method ReadLogRecord(io: IOType, crc: Checksum, file: Bytes, offset: nat) returns (r: Result<ReadRecord, ReadError>)
    ensures r == ReadAt(io, crc, file, offset)
  {
    hide Payload, Varint.Take;
    var header := ReadZeroed(io, file, offset, MAX_HEADER_SIZE);
    if header.Err? {
      return Err(Eof);
    }
    var keyLen := Varint.Take(header.value[1..]);
    if keyLen.NotTaken? {
      return Err(DecodeError);
    }
    var valueLen := Varint.Take(keyLen.rest);
    if valueLen.NotTaken? {
      return Err(DecodeError);
    }
    var keySize, valueSize := keyLen.value, valueLen.value;
    if keySize == 0 && valueSize == 0 {
      return Err(Eof);
    }
    var body := ReadZeroed(io, file, offset + HeaderSize(keySize, valueSize), keySize + valueSize + CRC_LEN);
    if body.Err? {
      return Err(Eof);
    }
    var kv := body.value;
    var key, value := kv[..keySize], kv[keySize..|kv| - CRC_LEN];
    var rtype := TypeOf(header.value[0]);
    if rtype.None? {
      return Err(InvalidType);
    }
    var record := Record(key, value, rtype.value);
    kv := kv[keySize + valueSize..];
    var _, check := EncodeRecord(crc, record);
    if FromBigEndian(kv) != check {
      return Err(InvalidCrc);
    }
    return Ok(ReadRecord(record, HeaderSize(keySize, valueSize) + keySize + valueSize + CRC_LEN));
  }

  // ---- Files and handles ----

  /** A data directory: the bytes of its files, and how many of them a sync has put on disk for good. */
  class Disk {
    var files: map<nat, Bytes>
    var durable: map<nat, nat>

    constructor ()
      ensures files == map[] && durable == map[]
    {
      files, durable := map[], map[];
    }
  }

  /** What a file holds; a file that does not exist yet holds nothing. */
  function Contents(files: map<nat, Bytes>, id: nat): Bytes
  {
    if id in files then files[id] else []
  }

  function DurableLength(durable: map<nat, nat>, id: nat): nat
  {
    if id in durable then durable[id] else 0
  }

  datatype WriteError = EmptyBuffer

  /** A handle on a data file. Its write offset is kept apart from the length of the file. */
  class Handle {
    const disk: Disk
    const fileId: nat
    var writeOff: nat

    /** `DataFile::new`: opens the file, creating it if needed; the write offset starts at 0 either way. */
    constructor (disk: Disk, fileId: nat)
      modifies disk
      ensures this.disk == disk && this.fileId == fileId && writeOff == 0
      ensures disk.files == old(disk.files)[fileId := Contents(old(disk.files), fileId)]
      ensures disk.durable == old(disk.durable)[fileId := DurableLength(old(disk.durable), fileId)]
    {
      this.disk, this.fileId, this.writeOff := disk, fileId, 0;
      new;
      disk.files := disk.files[fileId := Contents(disk.files, fileId)];
      disk.durable := disk.durable[fileId := DurableLength(disk.durable, fileId)];
    }

    /** `write`: the bytes go to the end of the file, wherever the write offset is. */
    method Write(buf: Bytes) returns (r: Result<nat, WriteError>)
      modifies this, disk
      ensures disk.durable == old(disk.durable)
      ensures buf == [] ==> r == Err(EmptyBuffer) && disk.files == old(disk.files) && writeOff == old(writeOff)
      ensures buf != [] ==>
        && r == Ok(|buf|)
        && disk.files == old(disk.files)[fileId := Contents(old(disk.files), fileId) + buf]
        && writeOff == old(writeOff) + |buf|
    {
      if buf == [] {
        return Err(EmptyBuffer);
      }
      disk.files := disk.files[fileId := Contents(disk.files, fileId) + buf];
      writeOff := writeOff + |buf|;
      return Ok(|buf|);
    }

    /** `sync`: every byte of this file, and of no other. */
    method Sync()
      modifies disk
      ensures disk.files == old(disk.files)
      ensures disk.durable == old(disk.durable)[fileId := |Contents(disk.files, fileId)|]
    {
      disk.durable := disk.durable[fileId := |Contents(disk.files, fileId)|];
    }

    method Read(io: IOType, crc: Checksum, offset: nat) returns (r: Result<ReadRecord, ReadError>)
      ensures r == ReadAt(io, crc, Contents(disk.files, fileId), offset)
    {
      r := ReadLogRecord(io, crc, Contents(disk.files, fileId), offset);
    }
  }
}
