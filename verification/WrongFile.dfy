/**
 * What becomes of a restart that finds several data files: the values are right, the next write goes to the wrong
 * file. When such a write reads back, and what the next restart makes of it.
 */
module WrongFile {
  import opened Wire
  import opened LogRecord
  import opened Replay
  import opened Layout
  import opened Store
  import Machine = Store
  import opened Invariant
  import opened Merging
  import opened Reopening
  import opened DataFile
  import opened Directory
  import opened Db
  import opened Startup
  import opened Misplaced

  /**
   * A merge that only began leaves the newest file empty; opening then puts the handle on the oldest file, at offset
   * 0.
   */
  lemma {:induction false} RestartDuringMerge(o: Options, s: Store)
    requires Inv(o, s) && o.activeOnOpen.OldestFile? && !EmptyEngine(s) && ScanComplete(o, MergeBegin(s))
    ensures Machine.Open(o, MergeBegin(s)).Some?
    ensures var t := Machine.Open(o, MergeBegin(s)).value;
            && Inv(o, t) && ValuesOf(t.index) == ValuesOf(s.index) && t.log == s.log
            && t.handle == OldestId(s) && t.writeOff == 0 && t.active == s.active + 1 && !OnNewest(t)
  {
    hide ViewOf, Inv, ScanComplete, ImageOf, Scan, ToScan, Seen, LogOk, MergedPart, Laid;
    var b := MergeBegin(s);
    MergeBeginInv(o, s);
    InvParts(o, s);
    InvParts(o, b);
    LogParts(o, s);
    LaidLater(s.log, s.active, s.writeOff, s.active + 1);
    KillRemains(o, b);
    OpenPlain(o, b, b);
    EndOffsetIsWriteOff(b.log, b.active, 0);
  }

  // ---- When the next put reads back ----

  /** Where the records of a file end. */
  function FileEnd(log: seq<Logged>, f: nat): nat
  {
    OffsetOf(FileOf(log, f), |FileOf(log, f)|)
  }

  lemma {:induction false} FileBytes(crc: Checksum, files: map<nat, Bytes>, log: seq<Logged>, f: nat)
    requires Holds(crc, files, log) && AllReadable(log)
    ensures |Contents(files, f)| == FileEnd(log, f) && (Contents(files, f) == [] <==> FileOf(log, f) == [])
  {
    hide EncodeAll, FileOf;
    var rs := FileOf(log, f);
    assert rs[..|rs|] == rs;
    FileOfReadable(log, f);
    OffsetIsLength(crc, rs, |rs|);
    NoBytesNoRecords(crc, rs);
    if f !in files {
      forall i | 0 <= i < |log| ensures log[i].pos.fid != f {
        assert log[i] in log;
      }
      FileOfNothing(log, f);
    }
  }

  lemma {:induction false} RefinedBytes(crc: Checksum, files: map<nat, Bytes>, durable: map<nat, nat>, s: Store, f: nat)
    requires Refines(crc, files, durable, s)
    ensures |Contents(files, f)| == FileEnd(s.log, f) && (Contents(files, f) == [] <==> FileOf(s.log, f) == [])
  {
    hide Holds, AllReadable, Laid, Newest, FilesAre, DurableIs, SplitAt, FileEnd, FileOf, Contents;
    FileBytes(crc, files, s.log, f);
  }

  lemma {:induction false} NewestEnds(crc: Checksum, files: map<nat, Bytes>, durable: map<nat, nat>, s: Store)
    requires Refines(crc, files, durable, s)
    ensures s.writeOff == FileEnd(s.log, s.active) && FileOf(s.log, s.active + 1) == []
  {
    hide Holds, AllReadable, Laid, Newest, FilesAre, DurableIs, SplitAt, FileOf;
    FileEnds(s.log, s.active, s.writeOff);
    FileBeyond(s.log, s.active, s.writeOff, s.active + 1);
  }

  /**
   * Of any engine whose directory holds its log, wherever its handle is: the puts that stay in the handle's file all
   * read back if and only if the write offset is where that file's records end, and the ones that start the next file
   * do if and only if no record is in it. A handle on the newest file meets both.
   */
  lemma {:induction false} MisplacedExact(o: Options, crc: Checksum, files: map<nat, Bytes>, durable: map<nat, nat>,
      s: Store)
    requires Refines(crc, files, durable, s)
    ensures var c := Cabinet(files, s.handle, s.writeOff);
            && (s.writeOff + 13 <= o.dataFileSize ==>
                  (StayersAnswer(crc, c, o.dataFileSize) <==> s.writeOff == FileEnd(s.log, s.handle)))
            && (o.dataFileSize + 1 < s.writeOff + U32_LIMIT ==>
                  (RotatorsAnswer(crc, c, o.dataFileSize) <==> FileOf(s.log, s.handle + 1) == []))
    ensures OnNewest(s) ==> s.writeOff == FileEnd(s.log, s.handle) && FileOf(s.log, s.handle + 1) == []
  {
    hide Refines, StayersAnswer, RotatorsAnswer, FileOf, FileEnd, Contents;
    RefinedBytes(crc, files, durable, s, s.handle);
    RefinedBytes(crc, files, durable, s, s.handle + 1);
    NewestEnds(crc, files, durable, s);
    var c := Cabinet(files, s.handle, s.writeOff);
    if s.writeOff + 13 <= o.dataFileSize {
      StayersExact(crc, c, o.dataFileSize);
    }
    if o.dataFileSize + 1 < s.writeOff + U32_LIMIT {
      RotatorsExact(crc, c, o.dataFileSize);
    }
  }

  /**
   * The file of the handle, when its write offset is 0 but it holds records: any put in it reads back as the first of
   * them.
   */
  lemma {:induction false} FirstRecordInstead(o: Options, crc: Checksum, files: map<nat, Bytes>,
      durable: map<nat, nat>, s: Store, key: Bytes, value: Bytes)
    requires Refines(crc, files, durable, s) && s.writeOff == 0 && FileOf(s.log, s.handle) != []
    requires Puttable(key, value) && Size(PutRecord(key, value)) <= o.dataFileSize
    ensures var c, enc := Cabinet(files, s.handle, s.writeOff), Encode(crc, PutRecord(key, value));
            var first := FileOf(s.log, s.handle)[0];
            Fetch(crc, AppendBytes(c, enc, o.dataFileSize).files, AppendPos(c, enc, o.dataFileSize)) ==
              if first.rtype.Delete? then Err(GetError.KeyNotFound) else Ok(first.value)
  {
    var rs := FileOf(s.log, s.handle);
    FileOfReadable(s.log, s.handle);
    assert s.handle in files && files[s.handle] == EncodeAll(crc, rs) by {
      FileOfNothing(s.log, s.handle);
      var i :| 0 <= i < |s.log| && s.log[i].pos.fid == s.handle;
      assert s.log[i] in s.log;
    }
    hide Refines, ReadAt, Encode, Size, PutRecord;
    Landing(crc, Cabinet(files, s.handle, 0), o.dataFileSize, key, value);
    FirstReads(crc, rs, Encode(crc, PutRecord(key, value)));
  }

  lemma {:induction false} FirstReads(crc: Checksum, rs: seq<Record>, more: Bytes)
    requires rs != [] && AllStorable(rs)
    ensures ReadAt(StandardFIO, crc, EncodeAll(crc, rs) + more, 0) == Ok(ReadRecord(rs[0], Size(rs[0])))
  {
    hide ReadAt, Encode;
    assert rs == [rs[0]] + rs[1..];
    EncodeAllAppend(crc, [rs[0]], rs[1..]);
    assert EncodeAll(crc, [rs[0]]) == Encode(crc, rs[0]) by {
      EncodeAllSnoc(crc, [], rs[0]);
      NoBytes(crc);
      assert [] + [rs[0]] == [rs[0]] && [] + Encode(crc, rs[0]) == Encode(crc, rs[0]);
    }
    ReadBack(StandardFIO, crc, [], rs[0], EncodeAll(crc, rs[1..]) + more);
    assert EncodeAll(crc, rs) + more == [] + Encode(crc, rs[0]) + (EncodeAll(crc, rs[1..]) + more);
  }

  /**
   * So after a restart that found a merge begun: the puts that fit read back if and only if the oldest file is empty;
   * if it is not, each of them is answered with the first record of that file instead.
   */
  lemma {:induction false} PutAfterRestart(o: Options, crc: Checksum, files: map<nat, Bytes>, durable: map<nat, nat>,
      s: Store, key: Bytes, value: Bytes)
    requires Inv(o, s) && o.activeOnOpen.OldestFile? && !EmptyEngine(s) && ScanComplete(o, MergeBegin(s))
    requires Machine.Open(o, MergeBegin(s)).Some? && Refines(crc, files, durable, Machine.Open(o, MergeBegin(s)).value)
    requires 13 <= o.dataFileSize && Puttable(key, value) && Size(PutRecord(key, value)) <= o.dataFileSize
    ensures var c, enc := Cabinet(files, OldestId(s), 0), Encode(crc, PutRecord(key, value));
            && (StayersAnswer(crc, c, o.dataFileSize) <==> FileOf(s.log, OldestId(s)) == [])
            && (FileOf(s.log, OldestId(s)) != [] ==>
                  var first := FileOf(s.log, OldestId(s))[0];
                  Fetch(crc, AppendBytes(c, enc, o.dataFileSize).files, AppendPos(c, enc, o.dataFileSize)) ==
                    if first.rtype.Delete? then Err(GetError.KeyNotFound) else Ok(first.value))
  {
    hide Inv, ScanComplete, Refines, Size, Encode, Machine.Open, PutRecord, Fetch, AppendBytes, AppendPos, MergeBegin,
      EmptyEngine, StayersAnswer, FileOf, OldestId;
    RestartDuringMerge(o, s);
    var t := Machine.Open(o, MergeBegin(s)).value;
    MisplacedExact(o, crc, files, durable, t);
    SizedFile(FileOf(t.log, t.handle));
    if FileOf(s.log, OldestId(s)) != [] {
      FirstRecordInstead(o, crc, files, durable, t, key, value);
    }
  }

  lemma {:induction false} SizedFile(rs: seq<Record>)
    ensures OffsetOf(rs, |rs|) == 0 <==> rs == []
  {
  }

  // ---- What the next restart makes of it ----

  /** The log with a record put in behind those of the files up to `f`. */
  function Inserted(log: seq<Logged>, l: Logged, f: nat): seq<Logged>
  {
    var k := SplitAt(log, f + 1);
    log[..k] + [l] + log[k..]
  }

  /** A put at the end of file `f`, as a scan of the files finds it. */
  function PutAt(log: seq<Logged>, f: nat, key: Bytes, value: Bytes): Logged
  {
    Logged(PutRecord(key, value), Pos(f, FileEnd(log, f), Size(PutRecord(key, value))))
  }

  lemma {:induction false} LastIsHighest(log: seq<Logged>, active: nat, off: nat)
    requires Laid(log, active, off) && log != []
    ensures forall r :: r in log ==> r.pos.fid <= log[|log| - 1].pos.fid
  {
    hide Laid;
    var n := |log| - 1;
    forall r | r in log ensures r.pos.fid <= log[n].pos.fid {
      var i :| 0 <= i < |log| && log[i] == r;
      if i < n {
        LaidOrder(log, active, off, i, n);
      }
    }
  }

  lemma {:induction false} FilePrefixSnoc(log: seq<Logged>, f: nat)
    requires log != [] && log[|log| - 1].pos.fid > f
    ensures var pre, l, k := log[..|log| - 1], log[|log| - 1], SplitAt(log, f + 1);
            && k == SplitAt(pre, f + 1) && log[..k] == pre[..k] && log[k..] == pre[k..] + [l]
            && FileEnd(log, f) == FileEnd(pre, f)
  {
    hide FileOf;
    var pre, l := log[..|log| - 1], log[|log| - 1];
    FileOfSnoc(pre, l, f);
    assert pre + [l] == log && FileOf(pre, f) + [] == FileOf(pre, f);
  }

  /** The records up to those of a file end where the file ends. */
  lemma {:induction false} FilePrefix(log: seq<Logged>, active: nat, off: nat, f: nat)
    requires Laid(log, active, off) && f <= active
    ensures var k := SplitAt(log, f + 1);
            && Laid(log[..k], f, FileEnd(log, f))
            && (forall l :: l in log[k..] ==> l.pos.fid > f) && (forall l :: l in log[..k] ==> l.pos.fid <= f)
  {
    if log != [] {
      var n := |log| - 1;
      var pre, l := log[..n], log[n];
      if l.pos.fid <= f {
        assert log[..|log|] == log;
        assert Laid(log, l.pos.fid, l.pos.offset + l.pos.size);
        LastIsHighest(log, active, off);
        if l.pos.fid == f {
          FileEnds(log, f, l.pos.offset + l.pos.size);
        } else {
          FileBeyond(log, l.pos.fid, l.pos.offset + l.pos.size, f);
        }
      } else {
        FilePrefix(pre, l.pos.fid, l.pos.offset, f);
        FilePrefixSnoc(log, f);
      }
    }
  }

  lemma {:induction false} InsertedLaid(log: seq<Logged>, active: nat, off: nat, f: nat, key: Bytes, value: Bytes)
    requires Laid(log, active, off) && f <= active
    ensures var log' := Inserted(log, PutAt(log, f, key, value), f);
            Laid(log', active, EndOffset(log', active))
  {
    FilePrefix(log, active, off, f);
    hide Laid, PutRecord, FileEnd, SplitAt;
    var k, l := SplitAt(log, f + 1), PutAt(log, f, key, value);
    var out, end := log[..k] + [l], l.pos.offset + l.pos.size;
    LaidOn(log[..k], f, l);
    if f < active {
      LaidReplace(log, active, off, f + 1, out, Cursor(f, end));
      EndOffsetIsWriteOff(out + log[k..], active, off);
    } else {
      SplitWhole(log, active, off);
      assert log[k..] == [] && out + [] == out;
      EndOffsetIsWriteOff(out, active, end);
    }
  }

  lemma {:induction false} LaidOn(log: seq<Logged>, f: nat, l: Logged)
    requires Laid(log, f, l.pos.offset) && l.pos.fid == f && l.pos.size == Size(l.rec)
    ensures Laid(log + [l], f, l.pos.offset + l.pos.size)
  {
    hide Size;
    assert (log + [l])[..|log|] == log;
  }

  lemma {:induction false} SplitWhole(log: seq<Logged>, active: nat, off: nat)
    requires Laid(log, active, off)
    ensures SplitAt(log, active + 1) == |log|
  {
    if log != [] {
      LaidPrefix(log, active, off, |log| - 1);
    }
  }

  /** The records of each file. */
  lemma {:induction false} InsertedFile(log: seq<Logged>, active: nat, off: nat, l: Logged, f: nat, g: nat)
    requires Laid(log, active, off) && f <= active && l.pos.fid == f
    ensures FileOf(Inserted(log, l, f), g) == FileOf(log, g) + if g == f then [l.rec] else []
  {
    FilePrefix(log, active, off, f);
    hide Laid, SplitAt, FileEnd, FileOf;
    NothingBelow(log[SplitAt(log, f + 1)..], f);
    FileWith(log, l, SplitAt(log, f + 1), g);
  }

  lemma {:induction false} NothingBelow(log: seq<Logged>, f: nat)
    requires forall l :: l in log ==> l.pos.fid > f
    ensures FileOf(log, f) == []
  {
    hide FileOf;
    FileOfNothing(log, f);
    assert forall i :: 0 <= i < |log| ==> log[i] in log;
  }

  lemma {:induction false} FileWith(log: seq<Logged>, l: Logged, k: nat, g: nat)
    requires k <= |log| && (g == l.pos.fid ==> FileOf(log[k..], g) == [])
    ensures FileOf(log[..k] + [l] + log[k..], g) == FileOf(log, g) + if g == l.pos.fid then [l.rec] else []
  {
    hide FileOf;
    assert log == log[..k] + log[k..];
    FileOfAppend(log[..k], log[k..], g);
    FileOfAppend(log[..k] + [l], log[k..], g);
    FileOfSnoc(log[..k], l, g);
  }

  /** The bytes of the put lie behind the other records of its file. */
  lemma {:induction false} InsertedHolds(crc: Checksum, files: map<nat, Bytes>, log: seq<Logged>, active: nat,
      off: nat, f: nat, key: Bytes, value: Bytes)
    requires Holds(crc, files, log) && AllReadable(log) && Laid(log, active, off) && f <= active && Puttable(key, value)
    ensures var l := PutAt(log, f, key, value);
            && Holds(crc, files[f := Contents(files, f) + Encode(crc, l.rec)], Inserted(log, l, f))
            && AllReadable(Inserted(log, l, f))
  {
    PutStorable(crc, key, value);
    var l := PutAt(log, f, key, value);
    assert l.pos.fid == f && Storable(l.rec) && l.rec.key != [];
    hide FileOf, EncodeAll, Encode, PutAt, SplitAt, Laid, Inserted, Storable;
    InsertedReadable(crc, files, log, l, f);
    var after := files[f := Contents(files, f) + Encode(crc, l.rec)];
    forall g | g in after ensures after[g] == EncodeAll(crc, FileOf(Inserted(log, l, f), g)) {
      InsertedBytes(crc, files, log, active, off, l, f, g);
    }
  }

  lemma {:induction false} InsertedReadable(crc: Checksum, files: map<nat, Bytes>, log: seq<Logged>, l: Logged, f: nat)
    requires Holds(crc, files, log) && AllReadable(log) && l.pos.fid == f && Storable(l.rec) && l.rec.key != []
    ensures AllReadable(Inserted(log, l, f))
    ensures forall x :: x in Inserted(log, l, f) ==> x.pos.fid in files || x.pos.fid == f
  {
    hide FileOf, EncodeAll, SplitAt, Storable;
    forall x | x in Inserted(log, l, f) ensures x in log || x == l {
    }
  }

  lemma {:induction false} HeldBytes(crc: Checksum, files: map<nat, Bytes>, log: seq<Logged>, f: nat)
    requires Holds(crc, files, log) && AllReadable(log)
    ensures Contents(files, f) == EncodeAll(crc, FileOf(log, f))
  {
    hide FileOf, EncodeAll, AllReadable, FileEnd;
    FileBytes(crc, files, log, f);
    NoBytes(crc);
  }

  lemma {:induction false} InsertedBytes(crc: Checksum, files: map<nat, Bytes>, log: seq<Logged>, active: nat,
      off: nat, l: Logged, f: nat, g: nat)
    requires Holds(crc, files, log) && AllReadable(log) && Laid(log, active, off) && f <= active && l.pos.fid == f
    requires g in files || g == f
    ensures files[f := Contents(files, f) + Encode(crc, l.rec)][g] == EncodeAll(crc, FileOf(Inserted(log, l, f), g))
  {
    hide FileOf, EncodeAll, Encode, SplitAt, Laid, Inserted, FileEnd, AllReadable;
    InsertedFile(log, active, off, l, f, g);
    if g == f {
      EncodeAllSnoc(crc, FileOf(log, g), l.rec);
      HeldBytes(crc, files, log, f);
    } else {
      assert FileOf(log, g) + [] == FileOf(log, g);
    }
  }

  // ---- Replaying a log with a put in the middle ----

  ghost predicate Touches(us: seq<Update>, key: Bytes)
  {
    exists i :: 0 <= i < |us| && us[i].key == key && !us[i].rtype.TxnFinished?
  }

  /** Replaying the record sets the image of the key: it is a put or deletion of it, or finishes a batch with one. */
  ghost predicate Rewrites(st: State, v: View, key: Bytes)
  {
    if v.seqNo == NON_TRANSACTION then v.update.key == key && !v.update.rtype.TxnFinished?
    else v.update.rtype.TxnFinished? && Touches(Pend(st, v.seqNo), key)
  }

  /** One of the records does, replayed one after the other. */
  ghost predicate Overwritten(st: State, tail: seq<Logged>, key: Bytes)
  {
    tail != [] &&
    var n := |tail| - 1;
    (Overwritten(st, tail[..n], key) || Rewrites(RunFrom(st, tail[..n]), ViewOf(tail[n]), key))
  }

  lemma {:induction false} ApplyOver(image: Image, us: seq<Update>, key: Bytes, slot: Slot)
    ensures ApplyAll(image[key := Some(slot)], us) ==
            if Touches(us, key) then ApplyAll(image, us) else ApplyAll(image, us)[key := Some(slot)]
  {
    if us != [] {
      var n := |us| - 1;
      ApplyOver(image, us[..n], key, slot);
      TouchesSnoc(us, key);
      hide Touches;
      ApplyOverOne(ApplyAll(image, us[..n]), us[n], key, slot);
    }
  }

  lemma {:induction false} TouchesSnoc(us: seq<Update>, key: Bytes)
    requires us != []
    ensures var n := |us| - 1;
            Touches(us, key) <==> Touches(us[..n], key) || (us[n].key == key && !us[n].rtype.TxnFinished?)
  {
    var n := |us| - 1;
    assert forall i :: 0 <= i < n ==> us[..n][i] == us[i];
  }

  lemma {:induction false} ApplyOverOne(image: Image, u: Update, key: Bytes, slot: Slot)
    ensures Apply(image[key := Some(slot)], u) ==
            if u.key == key && !u.rtype.TxnFinished? then Apply(image, u) else Apply(image, u)[key := Some(slot)]
  {
  }

  /** Two replays that differ in one key go on differing in it until a record rewrites it. */
  ghost predicate OneApart(x: State, y: State, key: Bytes, slot: Slot, mended: bool)
  {
    x.pending == y.pending && y.image == if mended then x.image else x.image[key := Some(slot)]
  }

  lemma {:induction false} StepApart(x: State, y: State, v: View, key: Bytes, slot: Slot, mended: bool)
    requires OneApart(x, y, key, slot, mended)
    ensures OneApart(Step(x, v), Step(y, v), key, slot, mended || Rewrites(x, v, key))
  {
    assert Pend(x, v.seqNo) == Pend(y, v.seqNo);
    if v.seqNo == NON_TRANSACTION {
      ApplyOverOne(x.image, v.update, key, slot);
    } else if v.update.rtype.TxnFinished? {
      ApplyOver(x.image, Pend(x, v.seqNo), key, slot);
    }
  }

  lemma {:induction false} RunApart(x: State, y: State, tail: seq<Logged>, key: Bytes, slot: Slot)
    requires OneApart(x, y, key, slot, false)
    ensures OneApart(RunFrom(x, tail), RunFrom(y, tail), key, slot, Overwritten(x, tail, key))
  {
    hide OneApart, ViewOf, Step, Rewrites;
    if tail != [] {
      var n := |tail| - 1;
      RunApart(x, y, tail[..n], key, slot);
      StepApart(RunFrom(x, tail[..n]), RunFrom(y, tail[..n]), ViewOf(tail[n]), key, slot,
        Overwritten(x, tail[..n], key));
    }
  }

  /** What a put in the middle of the log means: nothing if the key is rewritten behind it, a put otherwise. */
  lemma {:induction false} InsertedMeans(log: seq<Logged>, f: nat, key: Bytes, value: Bytes)
    ensures var k := SplitAt(log, f + 1);
            ValuesOf(Live(ImageOf(Inserted(log, PutAt(log, f, key, value), f)))) ==
              if Overwritten(Run(log[..k]), log[k..], key) then ValuesOf(Live(ImageOf(log)))
              else ValuesOf(Live(ImageOf(log)))[key := value]
  {
    var k, l := SplitAt(log, f + 1), PutAt(log, f, key, value);
    ViewOfEncoded(NON_TRANSACTION, key, value, Normal, l.pos);
    hide ViewOf, SplitAt, PutRecord, FileEnd, Overwritten;
    var x, slot := Run(log[..k]), Slot(l.pos, value);
    RunSnoc(log[..k], l);
    var y := Run(log[..k] + [l]);
    assert OneApart(x, y, key, slot, false);
    assert log == log[..k] + log[k..];
    RunFromAppend(EMPTY, log[..k], log[k..]);
    RunFromAppend(EMPTY, log[..k] + [l], log[k..]);
    RunApart(x, y, log[k..], key, slot);
    LiveOver(ImageOf(log), key, slot);
  }

  lemma {:induction false} LiveOver(image: Image, key: Bytes, slot: Slot)
    ensures ValuesOf(Live(image[key := Some(slot)])) == ValuesOf(Live(image))[key := slot.value]
  {
  }

  // ---- Opening the directory with the put in it ----

  /** The store a restart finds after a put that went to file `f`. */
  function WithPut(s: Store, f: nat, key: Bytes, value: Bytes): Store
  {
    s.(log := Inserted(s.log, PutAt(s.log, f, key, value), f))
  }

  /** Counting the records below a file, with one more put in. */
  lemma {:induction false} InsertedCount(log: seq<Logged>, l: Logged, k: nat, c: nat, base: nat)
    requires k <= |log| && c <= |log| && forall i :: 0 <= i < |log| ==> (log[i].pos.fid < base <==> i < c)
    requires if l.pos.fid < base then k <= c else c <= k
    ensures var log', c' := log[..k] + [l] + log[k..], if l.pos.fid < base then c + 1 else c;
            && (forall i :: 0 <= i < |log'| ==> (log'[i].pos.fid < base <==> i < c'))
            && (if l.pos.fid < base then log'[c + 1..] == log[c..] else log'[..c] == log[..c])
  {
    var log' := log[..k] + [l] + log[k..];
    assert forall i :: 0 <= i < |log'| ==> log'[i] == if i < k then log[i] else if i == k then l else log[i - 1];
  }

  /** Where the scanned part of the log begins, with the put in it. */
  lemma {:induction false} InsertedSplit(log: seq<Logged>, active: nat, off: nat, f: nat, key: Bytes, value: Bytes,
      base: nat)
    requires Laid(log, active, off) && f <= active
    ensures var log', c := Inserted(log, PutAt(log, f, key, value), f), SplitAt(log, base);
            && SplitAt(log', base) == (if f < base then c + 1 else c)
            && (if f < base then log'[c + 1..] == log[c..] else log'[..c] == log[..c])
  {
    var log', c, l := Inserted(log, PutAt(log, f, key, value), f), SplitAt(log, base), PutAt(log, f, key, value);
    InsertedLaid(log, active, off, f, key, value);
    SplitExact(log, active, off, base);
    SplitExact(log', active, EndOffset(log', active), base);
    if f < base {
      SplitMonotone(log, f + 1, base);
    } else {
      SplitMonotone(log, base, f + 1);
    }
    assert l.pos.fid == f;
    hide Laid, SplitAt, PutAt, EndOffset;
    InsertedCount(log, l, SplitAt(log, f + 1), c, base);
    SameCount(log', base, SplitAt(log', base), if f < base then c + 1 else c);
  }

  lemma {:induction false} SameCount(log: seq<Logged>, base: nat, a: nat, b: nat)
    requires a <= |log| && b <= |log|
    requires forall i :: 0 <= i < |log| ==> (log[i].pos.fid < base <==> i < a)
    requires forall i :: 0 <= i < |log| ==> (log[i].pos.fid < base <==> i < b)
    ensures a == b
  {
    assert a < |log| ==> (log[a].pos.fid < base <==> a < b);
    assert b < |log| ==> (log[b].pos.fid < base <==> b < a);
  }

  lemma {:induction false} SameHints(a: seq<Logged>, b: seq<Logged>, hints: seq<Hint>)
    requires forall i :: 0 <= i < |hints| ==>
      LookUp(a, hints[i].pos.fid, hints[i].pos.offset) == LookUp(b, hints[i].pos.fid, hints[i].pos.offset)
    ensures HintImage(a, hints) == HintImage(b, hints)
  {
    hide LookUp;
    if hints != [] {
      SameHints(a, b, hints[..|hints| - 1]);
    }
  }

  lemma {:induction false} HintStands(s: Store, f: nat, key: Bytes, value: Bytes, i: nat)
    requires Laid(s.log, s.active, EndOffset(s.log, s.active)) && BaseOk(s) && f <= s.active && i < |s.hint|
    ensures var h := s.hint[i];
            LookUp(WithPut(s, f, key, value).log, h.pos.fid, h.pos.offset) == LookUp(s.log, h.pos.fid, h.pos.offset)
  {
    InsertedLaid(s.log, s.active, EndOffset(s.log, s.active), f, key, value);
    assert i < SplitAt(s.log, s.base) && s.hint[i].pos == s.log[i].pos;
    hide Laid, PutAt, LookUp, SplitAt, EndOffset, BaseOk;
    var log', k := WithPut(s, f, key, value).log, SplitAt(s.log, f + 1);
    LookUpFinds(s.log, s.active, EndOffset(s.log, s.active), i);
    var j := if i < k then i else i + 1;
    assert log'[j] == s.log[i];
    LookUpFinds(log', s.active, EndOffset(log', s.active), j);
  }

  /** The hints still lead to the records they were made for. */
  lemma {:induction false} HintsStand(s: Store, f: nat, key: Bytes, value: Bytes)
    requires Laid(s.log, s.active, EndOffset(s.log, s.active)) && BaseOk(s) && f <= s.active
    ensures HintImage(WithPut(s, f, key, value).log, s.hint) == HintImage(s.log, s.hint)
  {
    hide Laid, LookUp, EndOffset, BaseOk, HintImage, WithPut;
    var log' := WithPut(s, f, key, value).log;
    forall i | 0 <= i < |s.hint|
      ensures LookUp(log', s.hint[i].pos.fid, s.hint[i].pos.offset) ==
          LookUp(s.log, s.hint[i].pos.fid, s.hint[i].pos.offset)
    {
      HintStands(s, f, key, value, i);
    }
    SameHints(log', s.log, s.hint);
  }

  /** A put in a file the last installed merge rewrote: nothing that an opening looks at has changed. */
  lemma {:induction false} BelowBase(o: Options, s: Store, f: nat, key: Bytes, value: Bytes)
    requires Laid(s.log, s.active, EndOffset(s.log, s.active)) && BaseOk(s) && s.merge.NoMerge? && f < s.base
    ensures var d := WithPut(s, f, key, value);
            && ToScan(d) == ToScan(s) && Scan(o, d) == Scan(o, s)
            && (ScanComplete(o, d) <==> ScanComplete(o, s))
  {
    hide Laid, PutAt, LookUp, HintImage, Seen, RunFrom, TailsLong, MergedPart, Inserted, EndOffset;
    HintsStand(s, f, key, value);
    InsertedSplit(s.log, s.active, EndOffset(s.log, s.active), f, key, value, s.base);
    assert Install(s) == s;
  }

  /** A put in a file that is scanned: the directory is one a store could have left. */
  lemma {:induction false} AboveBase(o: Options, s: Store, f: nat, key: Bytes, value: Bytes)
    requires Laid(s.log, s.active, EndOffset(s.log, s.active)) && BaseOk(s) && s.merge.NoMerge? && Parses(s.log)
    requires s.base <= f <= s.active
    ensures var d := WithPut(s, f, key, value);
            Laid(d.log, d.active, EndOffset(d.log, d.active)) && BaseOk(d) && Parses(d.log)
  {
    InsertedLaid(s.log, s.active, EndOffset(s.log, s.active), f, key, value);
    InsertedSplit(s.log, s.active, EndOffset(s.log, s.active), f, key, value, s.base);
    KeyRoundTrip(NON_TRANSACTION, key);
    var l := PutAt(s.log, f, key, value);
    assert ParseKey(l.rec.key).ParsedKey?;
    hide Laid, PutAt, MergedPart, EndOffset, SplitAt, ParseKey;
    forall x | x in WithPut(s, f, key, value).log ensures ParseKey(x.rec.key).ParsedKey? {
      assert x in s.log || x == l;
    }
  }

  /**
   * The next opening. A put in a file below the marker of the last installed merge is not scanned: it is gone. In any
   * other file it is replayed as if it had been made when that file was written to last: it counts unless a record of
   * a later file rewrites the key.
   */
  lemma {:induction false} NextRestart(o: Options, s: Store, f: nat, key: Bytes, value: Bytes)
    requires Laid(s.log, s.active, EndOffset(s.log, s.active)) && BaseOk(s) && s.merge.NoMerge? && Parses(s.log)
    requires f <= s.active && ScanComplete(o, WithPut(s, f, key, value))
    ensures Machine.Open(o, WithPut(s, f, key, value)).Some?
    ensures var k, before := SplitAt(s.log, f + 1), ValuesOf(Live(ImageOf(s.log)));
            ValuesOf(Machine.Open(o, WithPut(s, f, key, value)).value.index) ==
              if f < s.base || Overwritten(Run(s.log[..k]), s.log[k..], key) then before else before[key := value]
  {
    hide Laid, EndOffset, BaseOk, Parses, ScanComplete, Scan, Seen, ToScan, Overwritten, SplitAt, Inserted, PutAt,
      ViewOf;
    var d := WithPut(s, f, key, value);
    assert Install(s) == s && Install(d) == d;
    if f < s.base {
      BelowBase(o, s, f, key, value);
      ScanIsRun(o, s);
      ScansParse(o, s);
    } else {
      AboveBase(o, s, f, key, value);
      ScanIsRun(o, d);
      ScansParse(o, d);
      InsertedMeans(s.log, f, key, value);
    }
  }

  lemma {:induction false} ScansParse(o: Options, s: Store)
    requires Parses(s.log) && Seen(o.mmapAtStartup, ToScan(s), s.active) == ToScan(s)
    ensures Parses(Seen(o.mmapAtStartup, ToScan(s), s.active))
  {
    hide ParseKey, Seen, SplitAt;
    forall l | l in ToScan(s) ensures l in s.log {
    }
  }

  /**
   * And that is what a put through the handle leaves on disk, wherever the handle is: the files hold the log with the
   * put in the file it landed in, whatever position the running engine noted for it.
   */
  lemma {:induction false} PutLeaves(o: Options, crc: Checksum, files: map<nat, Bytes>, durable: map<nat, nat>,
      s: Store, key: Bytes, value: Bytes)
    requires Refines(crc, files, durable, s) && s.handle <= s.active && Puttable(key, value)
    requires s.handle == s.active ==> s.writeOff + Size(PutRecord(key, value)) <= o.dataFileSize
    ensures var c, enc := Cabinet(files, s.handle, s.writeOff), Encode(crc, PutRecord(key, value));
            var f := AppendPos(c, enc, o.dataFileSize).fid;
            f <= s.active && DiskIs(crc, AppendBytes(c, enc, o.dataFileSize).files, WithPut(s, f, key, value))
  {
    hide Laid, Holds, AllReadable, DurableIs, FilesAre, Newest, SplitAt, FileOf, EncodeAll, Encode, Size, PutAt,
      Inserted, EndOffset, Answers, PutRecord;
    var enc, f := Encode(crc, PutRecord(key, value)),
      if Stays(Cabinet(files, s.handle, s.writeOff), o.dataFileSize, key, value) then s.handle else s.handle + 1;
    Landing(crc, Cabinet(files, s.handle, s.writeOff), o.dataFileSize, key, value);
    InsertedHolds(crc, files, s.log, s.active, s.writeOff, f, key, value);
    InsertedLaid(s.log, s.active, s.writeOff, f, key, value);
    PutsRecord(s.log, f, key, value);
    InsertedFiles(files, s, s.writeOff, f, key, value, Contents(files, f) + enc);
  }

  lemma {:induction false} PutsRecord(log: seq<Logged>, f: nat, key: Bytes, value: Bytes)
    ensures PutAt(log, f, key, value).rec == PutRecord(key, value)
  {
  }

  lemma {:induction false} InsertedFiles(files: map<nat, Bytes>, s: Store, off: nat, f: nat, key: Bytes, value: Bytes,
      content: Bytes)
    requires FilesAre(files, s) && Newest(files, s.active) && f <= s.active && Laid(s.log, s.active, off)
    ensures FilesAre(files[f := content], WithPut(s, f, key, value)) && Newest(files[f := content], s.active)
  {
    var d, after := WithPut(s, f, key, value), files[f := content];
    PutsThere(s.log, f, key, value);
    hide PutAt, SplitAt, FileOf, Inserted, Laid;
    forall g: nat ensures g in after <==> d.base <= g <= d.active || FileOf(d.log, g) != [] {
      InsertedFile(s.log, s.active, off, PutAt(s.log, f, key, value), f, g);
    }
  }

  lemma {:induction false} PutsThere(log: seq<Logged>, f: nat, key: Bytes, value: Bytes)
    ensures PutAt(log, f, key, value).pos.fid == f
  {
  }
}
