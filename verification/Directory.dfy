/** How a log lies in the files of a data directory, and what an append through the active handle does to them. */
module Directory {
  import opened Wire
  import opened LogRecord
  import opened Replay
  import opened Layout
  import opened Store
  import opened DataFile

  /** The records of one file. */
  function FileOf(log: seq<Logged>, fid: nat): seq<Record>
  {
    if log == [] then [] else
      var l := log[|log| - 1];
      FileOf(log[..|log| - 1], fid) + if l.pos.fid == fid then [l.rec] else []
  }

  /** A record the reader can recognise: a non-empty key, lengths within the header's bounds. */
  ghost predicate AllReadable(log: seq<Logged>)
  {
    forall l :: l in log ==> Storable(l.rec) && l.rec.key != []
  }

  /** The files hold the log: each is the encoding of its records, and nothing else. */
  ghost predicate Holds(crc: Checksum, files: map<nat, Bytes>, log: seq<Logged>)
  {
    && (forall l :: l in log ==> l.pos.fid in files)
    && (forall f :: f in files ==> files[f] == EncodeAll(crc, FileOf(log, f)))
  }

  lemma {:induction false} FileOfSnoc(log: seq<Logged>, l: Logged, fid: nat)
    ensures FileOf(log + [l], fid) == FileOf(log, fid) + if l.pos.fid == fid then [l.rec] else []
  {
    assert (log + [l])[..|log|] == log;
  }

  lemma {:induction false} FileOfNothing(log: seq<Logged>, fid: nat)
    ensures FileOf(log, fid) == [] <==> forall i :: 0 <= i < |log| ==> log[i].pos.fid != fid
  {
    if log != [] {
      var pre := log[..|log| - 1];
      FileOfNothing(pre, fid);
      assert forall i :: 0 <= i < |pre| ==> pre[i] == log[i];
      assert |FileOf(log, fid)| == |FileOf(pre, fid)| + if log[|log| - 1].pos.fid == fid then 1 else 0;
      if log[|log| - 1].pos.fid != fid && (forall i :: 0 <= i < |pre| ==> pre[i].pos.fid != fid) {
        assert forall i :: 0 <= i < |log| ==> i == |log| - 1 || log[i] == pre[i];
      }
    }
  }

  lemma {:induction false} FileOfAppend(a: seq<Logged>, b: seq<Logged>, fid: nat)
    ensures FileOf(a + b, fid) == FileOf(a, fid) + FileOf(b, fid)
    decreases |b|
  {
    if b == [] {
      assert a + b == a;
      assert FileOf(a, fid) + [] == FileOf(a, fid);
    } else {
      var pre := b[..|b| - 1];
      assert (a + b)[..|a + b| - 1] == a + pre;
      FileOfAppend(a, pre, fid);
    }
  }

  /** The files records lie in are the files that hold records. */
  lemma {:induction false} RecordsInFiles(log: seq<Logged>, files: set<nat>)
    ensures (forall l :: l in log ==> l.pos.fid in files) <==> (forall f: nat :: FileOf(log, f) != [] ==> f in files)
  {
    hide FileOf;
    forall f: nat ensures FileOf(log, f) == [] <==> forall i :: 0 <= i < |log| ==> log[i].pos.fid != f {
      FileOfNothing(log, f);
    }
    if forall l :: l in log ==> l.pos.fid in files {
      forall f: nat | FileOf(log, f) != [] ensures f in files {
        var i :| 0 <= i < |log| && log[i].pos.fid == f;
        assert log[i] in log;
      }
    } else {
      var l :| l in log && l.pos.fid !in files;
      assert FileOf(log, l.pos.fid) != [];
    }
  }

  lemma {:induction false} FileOfReadable(log: seq<Logged>, fid: nat)
    requires AllReadable(log)
    ensures AllStorable(FileOf(log, fid)) && forall r :: r in FileOf(log, fid) ==> r.key != []
  {
    if log != [] {
      assert log[|log| - 1] in log;
      FileOfReadable(log[..|log| - 1], fid);
    }
  }

  /** Nothing lies beyond the file the log ends in. */
  lemma {:induction false} FileBeyond(log: seq<Logged>, active: nat, off: nat, fid: nat)
    requires Laid(log, active, off) && fid > active
    ensures FileOf(log, fid) == []
  {
    if log != [] {
      var l := log[|log| - 1];
      FileBeyond(log[..|log| - 1], l.pos.fid, l.pos.offset, fid);
    }
  }

  lemma {:induction false} OffsetOfPrefix(rs: seq<Record>, more: seq<Record>, i: nat)
    requires i <= |rs|
    ensures OffsetOf(rs + more, i) == OffsetOf(rs, i)
  {
    if i > 0 {
      OffsetOfPrefix(rs, more, i - 1);
    }
  }

  /** The write offset is the length of the file the log ends in, in records and in bytes. */
  lemma {:induction false} FileEnds(log: seq<Logged>, active: nat, off: nat)
    requires Laid(log, active, off)
    ensures OffsetOf(FileOf(log, active), |FileOf(log, active)|) == off
  {
    if log != [] {
      var pre, l := log[..|log| - 1], log[|log| - 1];
      if l.pos.fid == active {
        FileEnds(pre, active, l.pos.offset);
        OffsetOfPrefix(FileOf(pre, active), [l.rec], |FileOf(pre, active)|);
      } else {
        FileBeyond(pre, l.pos.fid, l.pos.offset, active);
      }
    }
  }

  lemma {:induction false} FileLength(crc: Checksum, log: seq<Logged>, active: nat, off: nat)
    requires Laid(log, active, off) && AllReadable(log)
    ensures |EncodeAll(crc, FileOf(log, active))| == off
  {
    FileEnds(log, active, off);
    FileOfReadable(log, active);
    var rs := FileOf(log, active);
    OffsetIsLength(crc, rs, |rs|);
    assert rs[..|rs|] == rs;
  }

  /** Record `i` of the log is the record of its file that follows those before it, at their summed sizes. */
  lemma {:induction false} FileAt(log: seq<Logged>, active: nat, off: nat, i: nat)
    requires Laid(log, active, off) && i < |log|
    ensures var rs, j := FileOf(log, log[i].pos.fid), |FileOf(log[..i], log[i].pos.fid)|;
            j < |rs| && rs[j] == log[i].rec && OffsetOf(rs, j) == log[i].pos.offset
  {
    var n := |log| - 1;
    var pre, l, fid := log[..n], log[n], log[i].pos.fid;
    if i == n {
      FileEnds(pre, fid, l.pos.offset);
      OffsetOfPrefix(FileOf(pre, fid), [l.rec], |FileOf(pre, fid)|);
    } else {
      FileAt(pre, l.pos.fid, l.pos.offset, i);
      assert pre[..i] == log[..i];
      OffsetOfPrefix(FileOf(pre, fid), if l.pos.fid == fid then [l.rec] else [], |FileOf(log[..i], fid)|);
    }
  }

  /** Every record of the log reads back from the files at the position the log gives it. */
  lemma {:induction false} ReadsBack(crc: Checksum, files: map<nat, Bytes>, log: seq<Logged>, active: nat, off: nat,
      i: nat)
    requires Holds(crc, files, log) && Laid(log, active, off) && AllReadable(log) && i < |log|
    ensures log[i].pos.fid in files
    ensures ReadAt(StandardFIO, crc, files[log[i].pos.fid], log[i].pos.offset) ==
        Ok(ReadRecord(log[i].rec, log[i].pos.size))
  {
    hide ReadAt, EncodeAll;
    var fid := log[i].pos.fid;
    assert log[i] in log;
    FileAt(log, active, off, i);
    FileOfReadable(log, fid);
    LaidPrefix(log, active, off, i);
    ReadInFile(StandardFIO, crc, FileOf(log, fid), |FileOf(log[..i], fid)|);
  }

  // ---- Appending ----

  /** The files, and the file and write offset of the active handle. */
  datatype Cabinet = Cabinet(files: map<nat, Bytes>, id: nat, off: nat)

  /** `append_log_record` on bytes: rotation goes by the write offset, the bytes go to the end of the file. */
  function AppendBytes(c: Cabinet, enc: Bytes, limit: nat): Cabinet
  {
    var at := Place(Cursor(c.id, c.off), |enc|, limit);
    Cabinet(c.files[at.fid := Contents(c.files, at.fid) + enc], at.fid, at.off + |enc|)
  }

  /** The position the engine notes for the record. */
  function AppendPos(c: Cabinet, enc: Bytes, limit: nat): Pos
  {
    var at := Place(Cursor(c.id, c.off), |enc|, limit);
    Pos(at.fid, at.off, |enc|)
  }

  /** No file is newer than `active`, and `active` exists. */
  ghost predicate Newest(files: map<nat, Bytes>, active: nat)
  {
    active in files && forall f :: f in files ==> f <= active
  }

  /** Through a handle on the newest file, the bytes and the position of an append are those of the log. */
  lemma {:induction false} AppendHolds(o: Options, crc: Checksum, files: map<nat, Bytes>, s: Store, rec: Record)
    requires Holds(crc, files, s.log) && Laid(s.log, s.active, s.writeOff) && AllReadable(s.log)
      && Newest(files, s.active)
    requires Storable(rec) && rec.key != []
    ensures var c, t := Cabinet(files, s.active, s.writeOff), Append(o, s, rec);
            var enc := Encode(crc, rec);
            && AppendBytes(c, enc, o.dataFileSize).id == t.active
              && AppendBytes(c, enc, o.dataFileSize).off == t.writeOff
            && AppendPos(c, enc, o.dataFileSize) == LastPos(t)
            && Holds(crc, AppendBytes(c, enc, o.dataFileSize).files, t.log)
            && Newest(AppendBytes(c, enc, o.dataFileSize).files, t.active)
            && AllReadable(t.log) && Laid(t.log, t.active, t.writeOff)
  {
    hide Encode, Size, Laid, FileOf, EncodeAll, Place;
    var t := Append(o, s, rec);
    EncodedSize(crc, rec);
    var l := t.log[|s.log|];
    LaidSnoc(s.log, s.active, s.writeOff, rec, o.dataFileSize);
    PlaceNext(Cursor(s.active, s.writeOff), |Encode(crc, rec)|, o.dataFileSize);
    if l.pos.fid != s.active {
      FileBeyond(s.log, s.active, s.writeOff, l.pos.fid);
    }
    HoldsSnoc(crc, files, s.log, l);
  }

  /** The file after the newest is not there, and is empty once it is. */
  lemma {:induction false} EmptyNext(crc: Checksum, files: map<nat, Bytes>, log: seq<Logged>, active: nat, off: nat)
    requires Laid(log, active, off) && Holds(crc, files, log) && Newest(files, active)
    ensures active + 1 !in files && Contents(files, active + 1) == []
    ensures Holds(crc, files[active + 1 := []], log) && Newest(files[active + 1 := []], active + 1)
  {
    hide Laid, FileOf, EncodeAll;
    FileBeyond(log, active, off, active + 1);
    EmptyHeld(crc, files, log, active + 1);
  }

  lemma {:induction false} EmptyHeld(crc: Checksum, files: map<nat, Bytes>, log: seq<Logged>, f: nat)
    requires Holds(crc, files, log) && f !in files && FileOf(log, f) == []
    ensures Holds(crc, files[f := []], log)
  {
    assert EncodeAll(crc, []) == [];
    hide FileOf, EncodeAll;
  }

  lemma {:induction false} PlaceNext(c: Cursor, size: nat, limit: nat)
    ensures Place(c, size, limit).fid == c.fid || Place(c, size, limit).fid == c.fid + 1
  {
  }

  lemma {:induction false} EncodeAllSnoc(crc: Checksum, rs: seq<Record>, r: Record)
    ensures EncodeAll(crc, rs + [r]) == EncodeAll(crc, rs) + Encode(crc, r)
  {
    assert (rs + [r])[..|rs|] == rs;
  }

  /** Adding a record's bytes to the end of its file. */
  lemma {:induction false} HoldsSnoc(crc: Checksum, files: map<nat, Bytes>, log: seq<Logged>, l: Logged)
    requires Holds(crc, files, log) && (l.pos.fid !in files ==> FileOf(log, l.pos.fid) == [])
    ensures Holds(crc, files[l.pos.fid := Contents(files, l.pos.fid) + Encode(crc, l.rec)], log + [l])
  {
    hide Encode, FileOf;
    var after := files[l.pos.fid := Contents(files, l.pos.fid) + Encode(crc, l.rec)];
    assert EncodeAll(crc, []) == [];
    hide EncodeAll;
    forall f | f in after ensures after[f] == EncodeAll(crc, FileOf(log + [l], f)) {
      FileOfSnoc(log, l, f);
      if f == l.pos.fid {
        EncodeAllSnoc(crc, FileOf(log, f), l.rec);
        assert Contents(files, f) == EncodeAll(crc, FileOf(log, f));
      } else {
        assert FileOf(log, f) + [] == FileOf(log, f);
      }
    }
  }

  lemma {:induction false} LaidSnoc(log: seq<Logged>, active: nat, off: nat, rec: Record, limit: nat)
    requires Laid(log, active, off)
    ensures var p := Place(Cursor(active, off), Size(rec), limit);
            Laid(log + [Logged(rec, Pos(p.fid, p.off, Size(rec)))], p.fid, p.off + Size(rec))
  {
    var p := Place(Cursor(active, off), Size(rec), limit);
    assert (log + [Logged(rec, Pos(p.fid, p.off, Size(rec)))])[..|log|] == log;
    LaidLater(log, active, off, active + 1);
  }

  // ---- Reading a value ----

  datatype GetError = KeyIsEmpty | KeyNotFound | DataFileNotFound | ReadFailed(error: ReadError)

  /** `get_value_by_position`. */
  function Fetch(crc: Checksum, files: map<nat, Bytes>, pos: Pos): Result<Bytes, GetError>
  {
    if pos.fid !in files then Err(DataFileNotFound) else
      match ReadAt(StandardFIO, crc, files[pos.fid], pos.offset)
      case Err(e) => Err(ReadFailed(e))
      case Ok(read) => if read.record.rtype.Delete? then Err(KeyNotFound) else Ok(read.record.value)
  }

  /** Every index entry was put there by a record of the log that still says so. */
  ghost predicate Sound(log: seq<Logged>, index: Index)
  {
    forall k :: k in index ==> Known(log, Update(k, Normal, index[k]))
  }

  /** A sound index never leads to a missing file, a bad record or a tombstone: it leads to the value that was put. */
  lemma {:induction false} FetchSound(crc: Checksum, files: map<nat, Bytes>, log: seq<Logged>, active: nat, off: nat,
      index: Index, key: Bytes)
    requires Holds(crc, files, log) && Laid(log, active, off) && AllReadable(log) && Sound(log, index) && key in index
    ensures Fetch(crc, files, index[key].pos) == Ok(index[key].value)
  {
    hide Laid, ReadAt, Holds;
    var u := Update(key, Normal, index[key]);
    var i :| 0 <= i < |log| && ViewOf(log[i]).update == u;
    ReadsBack(crc, files, log, active, off, i);
  }

  /** An index that was sound for a log is sound for every extension of it. */
  lemma {:induction false} SoundGrows(log: seq<Logged>, more: seq<Logged>, index: Index)
    requires Sound(log, index) && log <= more
    ensures Sound(more, index)
  {
    hide Known;
    assert more == log + more[|log|..];
    forall k | k in index ensures Known(more, Update(k, Normal, index[k])) {
      KnownGrows(log, more[|log|..], Update(k, Normal, index[k]));
    }
  }

  lemma {:induction false} ReplayedIsSound(log: seq<Logged>)
    ensures Sound(log, Live(ImageOf(log)))
  {
    hide Known;
    ReplayKnown(log);
  }
}
