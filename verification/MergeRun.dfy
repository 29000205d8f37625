/**
 * `merge` as a run of the engine: rotate, rewrite the live records through a second engine with their hints, write
 * the marker.
 */
module MergeRun {
  import opened Wire
  import opened LogRecord
  import opened Replay
  import opened Layout
  import opened Store
  import Machine = Store
  import opened DataFile
  import opened Directory
  import opened Indexer
  import opened Loading
  import opened Db
  import opened Startup
  import opened Merging

  /** The first `n` copy steps of a merge nobody interferes with. */
  function MergeSteps(o: Options, s: Store, n: nat): Store
  {
    if n == 0 then s else MergeStep(o, MergeSteps(o, s, n - 1))
  }

  // ---- Rotating ----

  lemma {:induction false} EmptyIs(crc: Checksum, files: map<nat, Bytes>, durable: map<nat, nat>, older: set<nat>,
      s: Store)
    requires Refines(crc, files, durable, s) && files.Keys == older + {s.active} && s.active !in older
    ensures EmptyEngine(s) <==> s.writeOff == 0 && older == {}
  {
    hide Laid, SplitAt, Holds, AllReadable, DurableIs;
    OldestIsLeast(files, s);
    if older != {} {
      var f :| f in older;
      assert f in files && f <= s.active;
    }
  }

  /** After the rotation every file is durable. */
  lemma {:induction false} RotateDurable(crc: Checksum, files: map<nat, Bytes>, durable: map<nat, nat>, s: Store,
      f: nat)
    requires Refines(crc, files, durable, s) && s.active in files
    ensures var durable' := durable[s.active := |files[s.active]|][s.active + 1 := 0];
            f in durable' ==> durable'[f] == |EncodeAll(crc, FileOf(s.log, f))|
  {
    hide Laid, SplitAt, EncodeAll, FileOf, FilesAre, AllReadable, Newest;
    FileBeyond(s.log, s.active, s.writeOff, s.active + 1);
    NoBytes(crc);
    if f in files && f != s.active && f != s.active + 1 {
      DurableOthers(crc, files, durable, s, f);
    }
  }

  lemma {:induction false} RotateRefines(crc: Checksum, files: map<nat, Bytes>, durable: map<nat, nat>, s: Store)
    requires Refines(crc, files, durable, s) && !EmptyEngine(s)
    ensures s.active in files && s.active + 1 !in files
    ensures Refines(crc, files[s.active + 1 := []], durable[s.active := |files[s.active]|][s.active + 1 := 0],
        MergeBegin(s))
  {
    hide Laid, SplitAt, EncodeAll, FileOf, FilesAre, AllReadable, EmptyEngine;
    var t := MergeBegin(s);
    LaidLater(s.log, s.active, s.writeOff, s.active + 1);
    FileBeyond(s.log, s.active, s.writeOff, s.active + 1);
    SplitAll(s.log, s.active, s.writeOff);
    NoBytes(crc);
    RotateFilesAre(files, s);
    assert t.log[..t.synced] == s.log;
    forall f | f in durable[s.active := |files[s.active]|][s.active + 1 := 0]
      ensures durable[s.active := |files[s.active]|][s.active + 1 := 0][f] == |EncodeAll(crc, FileOf(s.log, f))|
    {
      RotateDurable(crc, files, durable, s, f);
    }
  }

  lemma {:induction false} RotateStands(crc: Checksum, c: Cabinet, durable: map<nat, nat>, entries: map<Bytes, Pos>,
      seqNo: nat, bytesWrite: nat, reclaim: nat, s: Store)
    requires Stands(crc, c, durable, entries, seqNo, bytesWrite, reclaim, s) && OnNewest(s) && !EmptyEngine(s)
    ensures c.id in c.files && c.id + 1 !in c.files && c.id == s.active && c.id + 1 !in durable
      && forall f :: f in c.files ==> f <= c.id
    ensures var after := Cabinet(c.files[c.id + 1 := []], c.id + 1, 0);
            var left := durable[c.id := |c.files[c.id]|][c.id + 1 := 0];
            Stands(crc, after, left, entries, seqNo, bytesWrite, reclaim, MergeBegin(s))
    ensures OnNewest(MergeBegin(s)) && MergeBegin(s).active == s.active + 1
  {
    hide Places, Refines, EmptyEngine;
    RotateRefines(crc, c.files, durable, s);
    RefinesFiles(crc, c.files, durable, s);
  }

  lemma {:induction false} RefinesFiles(crc: Checksum, files: map<nat, Bytes>, durable: map<nat, nat>, s: Store)
    requires Refines(crc, files, durable, s)
    ensures Newest(files, s.active) && durable.Keys == files.Keys
  {
  }

  lemma {:induction false} RotateFilesAre(files: map<nat, Bytes>, s: Store)
    requires FilesAre(files, s) && !EmptyEngine(s)
    ensures FilesAre(files[s.active + 1 := []], MergeBegin(s))
  {
  }

  /** `ratate_merge_files`: the ids of all files there were, in order. */
  method RotateMergeFiles(e: Engine) returns (ids: seq<nat>)
    requires e.Wired()
    modifies e`active, e`older, e`model, e.disk
    ensures e.Wired() && fresh(e.active) && e.active.fileId == old(e.active.fileId) + 1 && e.active.writeOff == 0
    ensures Lists(ids, old(e.disk.files))
    ensures e.disk.files == old(e.disk.files)[e.active.fileId := Contents(old(e.disk.files), e.active.fileId)]
    ensures old(e.Valid() && OnNewest(e.model) && !EmptyEngine(e.model)) ==>
      && e.Valid() && OnNewest(e.model)
      && e.model == MergeBegin(old(e.model)) && e.model.active == old(e.model).active + 1
      && e.disk.files == old(e.disk.files)[e.model.active := []]
  {
    hide Lists, Stands, EmptyEngine, MergeBegin;
    if e.Valid() && OnNewest(e.model) && !EmptyEngine(e.model) {
      RotateStands(e.crc, e.Cab(), e.disk.durable, e.index.entries, e.seqNo, e.bytesWrite, e.reclaim, e.model);
    }
    ids := SortedIds(e.disk.files);
    e.Rotate();
    e.model := MergeBegin(e.model);
  }

  // ---- Copying ----

  /** The merge engine and the hint file hold what the state machine's merge has written so far. */
  ghost predicate Mirrors(crc: Checksum, limit: nat, mdb: Engine, hint: Handle, m: MergeDir)
    reads mdb, mdb.disk, mdb.active, mdb.index, hint, hint.disk
  {
    && m.Merge? && hint.disk != mdb.disk
    && mdb.Valid() && OnNewest(mdb.model) && mdb.crc == crc && mdb.o.dataFileSize == limit
    && mdb.model.log == m.out && mdb.model.active == m.at.fid && mdb.model.writeOff == m.at.off
    && Contents(hint.disk.files, hint.fileId) == EncodeAll(crc, HintRecords(m.hints))
  }

  /** The test of the copy loop is the one of the state machine. */
  lemma {:induction false} LiveTest(index: Index, l: Logged, key: Bytes)
    requires ParseKey(l.rec.key).ParsedKey? && ParseKey(l.rec.key).key == key
    ensures ViewOf(l).update.key == key
    ensures IsLive(index, l) <==>
            key in Places(index) && Places(index)[key].fid == l.pos.fid && Places(index)[key].offset == l.pos.offset
  {
  }

  lemma {:induction false} MergedStorable(l: Logged)
    requires Storable(l.rec) && ParseKey(l.rec.key).ParsedKey?
    ensures Storable(MergedRecord(l)) && MergedRecord(l).key != []
    ensures MergedRecord(l) == Record(EncodeKey(NON_TRANSACTION, ParseKey(l.rec.key).key), l.rec.value, l.rec.rtype)
  {
    EncodedKey(NON_TRANSACTION, ParseKey(l.rec.key).key);
  }

  /** A copy step of the state machine is an append in the merge engine and a hint. */
  lemma {:induction false} CopyIsAppend(o: Options, m: MergeDir, l: Logged, mo: Options, ms: Store)
    requires m.Merge? && mo.dataFileSize == o.dataFileSize
    requires ms.log == m.out && ms.active == m.at.fid && ms.writeOff == m.at.off
    ensures var t, m' := Append(mo, ms, MergedRecord(l)), CopyRecord(o, m, l);
            && m'.Merge? && t.log == m'.out && t.active == m'.at.fid && t.writeOff == m'.at.off
            && m'.hints == m.hints + [Hint(ViewOf(l).update.key, LastPos(t))]
  {
    hide ViewOf, Size;
  }

  lemma {:induction false} HintRecordsSnoc(crc: Checksum, hints: seq<Hint>, h: Hint)
    ensures EncodeAll(crc, HintRecords(hints + [h])) == EncodeAll(crc, HintRecords(hints)) + Encode(crc, HintRecord(h))
  {
    hide Encode, HintRecord;
    assert (hints + [h])[..|hints|] == hints;
    EncodeAllSnoc(crc, HintRecords(hints), HintRecord(h));
  }

  /** The body of the inner loop, for a record whose key parsed. */
  method CopyIfLive(o: Options, crc: Checksum, index: Tree, mdb: Engine, hint: Handle, key: Bytes, record: Record,
      pos: Pos, ghost live: Index, ghost m: MergeDir)
    requires index.entries == Places(live) && Mirrors(crc, o.dataFileSize, mdb, hint, m)
    requires Storable(record) && ParseKey(record.key).ParsedKey? && ParseKey(record.key).key == key
    modifies mdb`active, mdb`older, mdb`bytesWrite, mdb`model, mdb.disk, mdb.active, hint, hint.disk
    ensures mdb.active == old(mdb.active) || fresh(mdb.active)
    ensures Mirrors(crc, o.dataFileSize, mdb, hint,
                    if IsLive(live, Logged(record, pos)) then CopyRecord(o, m, Logged(record, pos)) else m)
  {
    hide Stands, Encode, ViewOf, ParseKey, EncodeKey, EncodeAll, HintRecords, CopyRecord, Append, Storable,
      AppendBytes, AppendPos, AppendDurable, NeedSync, MergedRecord, IsLive, Places;
    ghost var l := Logged(record, pos);
    LiveTest(live, l, key);
    MergedStorable(l);
    CopyIsAppend(o, m, l, mdb.o, mdb.model);
    var found := index.Get(key);
    if found.Some? && found.value.fid == pos.fid && found.value.offset == pos.offset {
      var to := mdb.AppendLogRecord(Record(EncodeKey(NON_TRANSACTION, key), record.value, record.rtype));
      WriteHintRecord(mdb.crc, hint, key, to);
      HintRecordsSnoc(crc, m.hints, Hint(key, to));
    }
  }

  // ---- The two loops ----

  lemma {:induction false} StepsMore(o: Options, s: Store, a: nat, b: nat)
    ensures MergeSteps(o, MergeSteps(o, s, a), b) == MergeSteps(o, s, a + b)
  {
    hide MergeStep;
    if b > 0 {
      StepsMore(o, s, a, b - 1);
    }
  }

  /** A merge that meets a key it cannot parse stays there. */
  lemma {:induction false} StepsStuck(o: Options, s: Store, n: nat)
    requires MergeStep(o, s) == s
    ensures MergeSteps(o, s, n) == s
  {
    hide MergeStep;
    if n > 0 {
      StepsStuck(o, s, n - 1);
    }
  }

  /** The next source record of the state machine's merge. */
  lemma {:induction false} StepIs(o: Options, s: Store, l: Logged)
    requires s.merge.Merge? && !s.merge.finished && s.merge.next < SplitAt(s.log, s.merge.nonMerge)
      && s.log[s.merge.next] == l
    ensures ParseKey(l.rec.key).Unparsable? ==> MergeStep(o, s) == s
    ensures ParseKey(l.rec.key).ParsedKey? ==>
      var m := s.merge;
      && MergeStep(o, s).merge.next == m.next + 1
      && MergeStep(o, s) == s.(merge := (if IsLive(s.index, l) then CopyRecord(o, m, l) else m).(next := m.next + 1))
  {
    hide ViewOf, ParseKey;
  }

  lemma {:induction false} MirrorsNext(crc: Checksum, limit: nat, mdb: Engine, hint: Handle, m: MergeDir, n: nat)
    requires Mirrors(crc, limit, mdb, hint, m)
    ensures Mirrors(crc, limit, mdb, hint, m.(next := n))
  {
  }

  /** `t` is `s` after `n` copy steps, none of them stuck. */
  ghost predicate AtStep(o: Options, s: Store, t: Store, n: nat)
  {
    && s.merge.Merge? && t == MergeSteps(o, s, n) && t == s.(merge := t.merge)
    && t.merge.Merge? && !t.merge.finished && t.merge.nonMerge == s.merge.nonMerge && t.merge.next == s.merge.next + n
  }

  /** The next record a source file gives is the next source record of the state machine. */
  lemma {:induction false} StepHere(o: Options, s: Store, t: Store, fid: nat, seen: seq<Located>, l: Located,
      found: seq<Located>)
    requires Sourced(s, fid, found) && AtStep(o, s, t, |seen|) && seen + [l] <= found
    ensures t.merge.Merge? && Storable(l.record)
    ensures ParseKey(l.record.key).Unparsable? ==> MergeStep(o, t) == t
    ensures ParseKey(l.record.key).ParsedKey? ==>
      var m, r := t.merge, Logged(l.record, Pos(fid, l.offset, l.size));
      && AtStep(o, s, MergeStep(o, t), |seen| + 1)
      && MergeStep(o, t).merge == (if IsLive(s.index, r) then CopyRecord(o, m, r) else m).(next := m.next + 1)
  {
    hide CopyRecord, IsLive, ParseKey, MergeStep, Storable;
    assert found[|seen|] == l by { assert (seen + [l])[|seen|] == l; }
    var r := Logged(l.record, Pos(fid, l.offset, l.size));
    assert Placed(fid, found)[|seen|] == r;
    assert s.log[s.merge.next..s.merge.next + |found|][|seen|] == s.log[t.merge.next];
    StepIs(o, t, r);
    CopyKeeps(o, t.merge, r);
  }

  lemma {:induction false} StartStep(o: Options, s: Store, fid: nat, found: seq<Located>)
    requires Sourced(s, fid, found)
    ensures AtStep(o, s, s, 0)
  {
  }

  lemma {:induction false} CopyKeeps(o: Options, m: MergeDir, l: Logged)
    requires m.Merge?
    ensures CopyRecord(o, m, l).nonMerge == m.nonMerge && CopyRecord(o, m, l).finished == m.finished
  {
  }

  /** What a source file holds is what the state machine's merge looks at next. */
  ghost predicate Sourced(s: Store, fid: nat, found: seq<Located>)
  {
    && s.merge.Merge? && !s.merge.finished
    && s.merge.next + |found| <= SplitAt(s.log, s.merge.nonMerge)
    && Placed(fid, found) == s.log[s.merge.next..s.merge.next + |found|]
    && forall f :: f in found ==> Storable(f.record)
  }

  /** The turn of the inner loop after the read: parse the key, and copy the record if it is live. */
  method MergeRead(o: Options, crc: Checksum, index: Tree, mdb: Engine, hint: Handle, fid: nat, l: Located,
      ghost s: Store, ghost t: Store, ghost seen: seq<Located>, ghost found: seq<Located>)
    returns (ok: bool, ghost t': Store)
    requires index.entries == Places(s.index) && Mirrors(crc, o.dataFileSize, mdb, hint, t.merge)
    requires Sourced(s, fid, found) && AtStep(o, s, t, |seen|) && seen + [l] <= found
    modifies mdb`active, mdb`older, mdb`bytesWrite, mdb`model, mdb.disk, mdb.active, hint, hint.disk
    ensures mdb.active == old(mdb.active) || fresh(mdb.active)
    ensures ok <==> ParseKey(l.record.key).ParsedKey?
    ensures Mirrors(crc, o.dataFileSize, mdb, hint, t'.merge)
    ensures if ok then AtStep(o, s, t', |seen| + 1) else t' == t && MergeStep(o, t) == t
  {
    hide ParseKey, CopyRecord, IsLive, Mirrors, MergeStep, Storable, Places, AtStep, Sourced;
    StepHere(o, s, t, fid, seen, l, found);
    t', ok := t, true;
    var parsed := ParseKey(l.record.key);
    if parsed.Unparsable? {
      ok := false;
      return;
    }
    var pos := Pos(fid, l.offset, l.size);
    CopyIfLive(o, crc, index, mdb, hint, parsed.key, l.record, pos, s.index, t.merge);
    ghost var r := Logged(l.record, pos);
    var copied := if IsLive(s.index, r) then CopyRecord(o, t.merge, r) else t.merge;
    MirrorsNext(crc, o.dataFileSize, mdb, hint, copied, t.merge.next + 1);
    t' := MergeStep(o, t);
  }

  /** The inner loop: one source file, from its start to its end or to a key that does not parse. */
  method MergeFile(o: Options, crc: Checksum, index: Tree, mdb: Engine, hint: Handle, fid: nat, file: Bytes,
      ghost s: Store)
    returns (ok: bool, ghost t: Store, ghost n: nat)
    requires index.entries == Places(s.index) && Mirrors(crc, o.dataFileSize, mdb, hint, s.merge)
    requires ScanFrom(StandardFIO, crc, file, 0).Ok? && Sourced(s, fid, ScanFrom(StandardFIO, crc, file, 0).value)
    modifies mdb`active, mdb`older, mdb`bytesWrite, mdb`model, mdb.disk, mdb.active, hint, hint.disk
    ensures mdb.active == old(mdb.active) || fresh(mdb.active)
    ensures Mirrors(crc, o.dataFileSize, mdb, hint, t.merge)
    ensures AtStep(o, s, t, n)
    ensures ok <==> Parses(Placed(fid, ScanFrom(StandardFIO, crc, file, 0).value))
    ensures if ok then n == |ScanFrom(StandardFIO, crc, file, 0).value|
        else n < |ScanFrom(StandardFIO, crc, file, 0).value|
    ensures !ok ==> MergeStep(o, t) == t
  {
    hide ParseKey, ReadAt, Mirrors, MergeStep, Places, Parses, Placed, ScanPrefix, ScanFrom, AtStep;
    StartStep(o, s, fid, ScanFrom(StandardFIO, crc, file, 0).value);
    hide Sourced;
    ghost var found := ScanFrom(StandardFIO, crc, file, 0).value;
    NothingPlaced(fid, EMPTY);
    ScanStart(StandardFIO, crc, file);
    var offset := 0;
    ghost var seen: seq<Located> := [];
    t, n, ok := s, 0, true;
    while true
      invariant mdb.active == old(mdb.active) || fresh(mdb.active)
      invariant ok && index.entries == Places(s.index) && Mirrors(crc, o.dataFileSize, mdb, hint, t.merge)
      invariant ScanPrefix(StandardFIO, crc, file, offset, seen) && Parses(Placed(fid, seen))
      invariant n == |seen| && AtStep(o, s, t, n)
      decreases |file| - offset
    {
      var read := ReadLogRecord(StandardFIO, crc, file, offset);
      if read.Err? {
        ScanStops(StandardFIO, crc, file, offset, seen, read.error);
        ok := read.error.Eof?;
        return;
      }
      var l := Located(read.value.record, offset, read.value.size);
      ScanMore(StandardFIO, crc, file, offset, seen, read.value);
      ParsesMore(fid, seen, l, found);
      ok, t := MergeRead(o, crc, index, mdb, hint, fid, l, s, t, seen, found);
      if !ok {
        return;
      }
      offset := offset + read.value.size;
      seen, n := seen + [l], n + 1;
    }
  }

  lemma {:induction false} ParsesMore(fid: nat, seen: seq<Located>, l: Located, found: seq<Located>)
    requires Parses(Placed(fid, seen)) && seen + [l] <= found
    ensures Parses(Placed(fid, seen + [l])) <==> ParseKey(l.record.key).ParsedKey?
    ensures Parses(Placed(fid, found)) ==> ParseKey(l.record.key).ParsedKey?
  {
    hide ParseKey, Placed, Parses;
    PlacedMore(fid, seen, l, EMPTY);
    if ParseKey(l.record.key).Unparsable? {
      BadKeySeen(fid, seen + [l], found);
    }
  }

  // ---- The whole merge ----

  /** What the scan of source file `ids[i]` gives, when everything before it was looked at. */
  lemma {:induction false} FileSourced(crc: Checksum, files: map<nat, Bytes>, durable: map<nat, nat>, s: Store,
      t: Store, ids: seq<nat>, i: nat)
    requires Refines(crc, files, durable, s) && Sources(ids, files, s) && i < |ids|
    requires s.merge.Merge? && s.merge.nonMerge == s.active
    requires AtFile(s, t, ids, i)
    ensures ids[i] in files && ScanFrom(StandardFIO, crc, files[ids[i]], 0).Ok?
    ensures var found := ScanFrom(StandardFIO, crc, files[ids[i]], 0).value;
            && Sourced(t, ids[i], found)
            && t.merge.next + |found| == (if i + 1 < |ids| then SplitAt(s.log, ids[i + 1])
              else SplitAt(s.log, s.active))
            && Placed(ids[i], found) == s.log[t.merge.next..t.merge.next + |found|]
  {
    hide Laid, FileOf, SplitAt, EncodeAll, ScanFrom, Placed, InFile, DurableIs, FilesAre, Newest, Size;
    var fid := ids[i];
    ScanOfFile(StandardFIO, crc, files, s.log, s.active, s.writeOff, fid);
    var found, rs := ScanFrom(StandardFIO, crc, files[fid], 0).value, FileOf(s.log, fid);
    var ls := s.log[SplitAt(s.log, fid)..SplitAt(s.log, fid + 1)];
    InFileLength(rs, fid, ls);
    assert ls[..|rs|] == ls;
    NextFile(s, files, ids, i);
    SplitMonotone(s.log, fid + 1, s.active);
    assert t.merge.next == SplitAt(s.log, fid);
    forall f | f in found ensures Storable(f.record) {
      var k :| 0 <= k < |found| && found[k] == f;
      assert Placed(fid, found)[k].rec == f.record;
      assert s.log[t.merge.next + k] in s.log;
    }
  }

  /** The source files in order: all but the newest. */
  ghost predicate Sources(ids: seq<nat>, files: map<nat, Bytes>, s: Store)
  {
    && (forall f :: f in ids <==> f in files && f != s.active)
    && (forall i, j :: 0 <= i < j < |ids| ==> ids[i] < ids[j])
    && (forall l :: l in s.log ==> l.pos.fid in files && l.pos.fid != s.active)
    && (forall f :: f in files ==> f <= s.active)
  }

  /** The merge has looked at everything before file `ids[i]`. */
  ghost predicate AtFile(s: Store, t: Store, ids: seq<nat>, i: nat)
    requires i <= |ids|
  {
    && t == s.(merge := t.merge) && t.merge.Merge? && !t.merge.finished && s.merge.Merge?
      && t.merge.nonMerge == s.merge.nonMerge
    && t.merge.next == (if i < |ids| then SplitAt(s.log, ids[i]) else SplitAt(s.log, s.active))
  }

  lemma {:induction false} NextFile(s: Store, files: map<nat, Bytes>, ids: seq<nat>, i: nat)
    requires Sources(ids, files, s) && i < |ids|
    ensures var next := if i + 1 < |ids| then ids[i + 1] else s.active;
            ids[i] < next && SplitAt(s.log, next) == SplitAt(s.log, ids[i] + 1)
  {
    hide SplitAt;
    var next := if i + 1 < |ids| then ids[i + 1] else s.active;
    assert ids[i] in ids;
    forall l | l in s.log ensures l.pos.fid < ids[i] + 1 || l.pos.fid >= next {
      assert l.pos.fid in ids;
      var j :| 0 <= j < |ids| && ids[j] == l.pos.fid;
    }
    NoGap(s.log, ids[i] + 1, next);
  }

  lemma {:induction false} FirstFile(s: Store, files: map<nat, Bytes>, ids: seq<nat>)
    requires Sources(ids, files, s)
    ensures (if ids != [] then SplitAt(s.log, ids[0]) else SplitAt(s.log, s.active)) == 0
    ensures SplitAt(s.log, s.active) == |s.log|
  {
    hide SplitAt;
    var first := if ids != [] then ids[0] else s.active;
    forall l | l in s.log ensures l.pos.fid < 0 || l.pos.fid >= first {
      assert l.pos.fid in ids;
      var j :| 0 <= j < |ids| && ids[j] == l.pos.fid;
    }
    NoGap(s.log, 0, first);
    SplitZero(s.log);
    AllBelow(s.log, s.active);
  }

  lemma {:induction false} AllBelow(log: seq<Logged>, fid: nat)
    requires forall l :: l in log ==> l.pos.fid < fid
    ensures SplitAt(log, fid) == |log|
  {
    if log != [] {
      assert log[|log| - 1] in log;
    }
  }

  /** How far the merge got, as the outer loop sees it. */
  ghost predicate Progress(o: Options, s: Store, t: Store, ids: seq<nat>, i: nat, n: nat)
    requires i <= |ids|
  {
    AtFile(s, t, ids, i) && t == MergeSteps(o, s, n) && n == t.merge.next <= |s.log| && Parses(s.log[..n])
  }

  lemma {:induction false} ProgressStart(o: Options, s: Store, files: map<nat, Bytes>, ids: seq<nat>)
    requires Sources(ids, files, s) && s.merge.Merge? && !s.merge.finished && s.merge.next == 0
    ensures Progress(o, s, s, ids, 0, 0)
  {
    hide Sources, SplitAt;
    FirstFile(s, files, ids);
  }

  lemma {:induction false} ParsesJoin(log: seq<Logged>, a: nat, b: nat)
    requires a <= b <= |log|
    ensures Parses(log[..b]) <==> Parses(log[..a]) && Parses(log[a..b])
    ensures Parses(log) ==> Parses(log[a..b])
  {
    hide ParseKey;
    assert log[..b] == log[..a] + log[a..b];
    assert forall l :: l in log[..b] <==> l in log[..a] || l in log[a..b];
  }

  /** A file that was read to its end. */
  lemma {:induction false} ProgressNext(o: Options, s: Store, t: Store, u: Store, ids: seq<nat>, i: nat, n: nat,
      k: nat, found: seq<Located>)
    requires i < |ids| && Progress(o, s, t, ids, i, n) && AtStep(o, t, u, k) && k == |found|
    requires t.merge.next + |found| == (if i + 1 < |ids| then SplitAt(s.log, ids[i + 1]) else SplitAt(s.log, s.active))
    requires Placed(ids[i], found) == s.log[t.merge.next..t.merge.next + |found|] && Parses(Placed(ids[i], found))
    ensures Progress(o, s, u, ids, i + 1, n + k)
  {
    hide SplitAt, Parses, Placed, MergeSteps;
    StepsMore(o, s, n, k);
    ParsesJoin(s.log, n, n + k);
  }

  /** A file in which the merge got stuck: the remaining steps of the state machine do nothing either. */
  lemma {:induction false} ProgressStuck(o: Options, s: Store, t: Store, u: Store, ids: seq<nat>, i: nat, n: nat,
      k: nat, found: seq<Located>)
    requires i < |ids| && Progress(o, s, t, ids, i, n) && AtStep(o, t, u, k) && MergeStep(o, u) == u
    requires t.merge.next + |found| <= |s.log| && Placed(ids[i], found) == s.log[t.merge.next..t.merge.next + |found|]
    requires !Parses(Placed(ids[i], found)) && k <= |found|
    ensures u == MergeSteps(o, s, |s.log|) && !Parses(s.log)
  {
    hide SplitAt, Parses, Placed, MergeSteps, MergeStep;
    StepsMore(o, s, n, k);
    StepsStuck(o, u, |s.log| - (n + k));
    StepsMore(o, s, n + k, |s.log| - (n + k));
    ParsesJoin(s.log, n, n + |found|);
  }

  /** A merge that was not disturbed and met no bad key has looked at every record. */
  lemma {:induction false} ProgressEnd(o: Options, s: Store, t: Store, files: map<nat, Bytes>, ids: seq<nat>, n: nat)
    requires Progress(o, s, t, ids, |ids|, n) && Sources(ids, files, s) && s.merge.nonMerge == s.active
    ensures t == MergeSteps(o, s, |s.log|) && Parses(s.log) && MergeFinish(t) == t.(merge := t.merge.(finished := true))
  {
    hide SplitAt, Sources, MergeSteps, Parses;
    FirstFile(s, files, ids);
    assert s.log[..|s.log|] == s.log;
  }

  /** The source files of a merge that just rotated. */
  lemma {:induction false} RotatedSources(crc: Checksum, before: map<nat, Bytes>, durable: map<nat, nat>, s: Store,
      ids: seq<nat>)
    requires Refines(crc, before, durable, s) && Lists(ids, before) && !EmptyEngine(s)
    ensures Sources(ids, before[s.active + 1 := []], MergeBegin(s)) && ids != [] && ids[|ids| - 1] == s.active
  {
    hide Laid, SplitAt, DurableIs, FilesAre, EncodeAll, FileOf, AllReadable, EmptyEngine;
    assert s.active in ids;
    var i :| 0 <= i < |ids| && ids[i] == s.active;
    assert ids[|ids| - 1] in before;
  }

  lemma {:induction false} StandsRefines(crc: Checksum, c: Cabinet, durable: map<nat, nat>, entries: map<Bytes, Pos>,
      seqNo: nat, bytesWrite: nat, reclaim: nat, s: Store)
    requires Stands(crc, c, durable, entries, seqNo, bytesWrite, reclaim, s)
    ensures Refines(crc, c.files, durable, s) && entries == Places(s.index)
  {
  }

  /** A change of the merge alone is none to the engine's own files and index. */
  lemma {:induction false} StandsMerge(crc: Checksum, c: Cabinet, durable: map<nat, nat>, entries: map<Bytes, Pos>,
      seqNo: nat, bytesWrite: nat, reclaim: nat, s: Store, t: Store)
    requires Stands(crc, c, durable, entries, seqNo, bytesWrite, reclaim, s) && t == s.(merge := t.merge)
    ensures Stands(crc, c, durable, entries, seqNo, bytesWrite, reclaim, t) && (OnNewest(t) <==> OnNewest(s))
  {
    hide Places, Holds, AllReadable, Laid, Newest, EncodeAll, FileOf, SplitAt;
  }

  /** The loop over the source files. */
  method MergeAll(o: Options, crc: Checksum, index: Tree, mdb: Engine, hint: Handle, ids: seq<nat>,
      files: map<nat, Bytes>, ghost durable: map<nat, nat>, ghost s: Store)
    returns (ok: bool, ghost t: Store)
    requires index.entries == Places(s.index) && Mirrors(crc, o.dataFileSize, mdb, hint, s.merge)
    requires Refines(crc, files, durable, s) && Sources(ids, files, s)
    requires s.merge.Merge? && !s.merge.finished && s.merge.next == 0 && s.merge.nonMerge == s.active
    modifies mdb`active, mdb`older, mdb`bytesWrite, mdb`model, mdb.disk, mdb.active, hint, hint.disk
    ensures mdb.active == old(mdb.active) || fresh(mdb.active)
    ensures Mirrors(crc, o.dataFileSize, mdb, hint, t.merge)
    ensures t == MergeSteps(o, s, |s.log|) && t == s.(merge := t.merge)
    ensures ok <==> Parses(s.log)
    ensures t.merge.Merge? && !t.merge.finished && t.merge.nonMerge == s.merge.nonMerge
    ensures MergeFinish(t) == if ok then t.(merge := t.merge.(finished := true)) else t
  {
    hide Mirrors, MergeStep, Places, Parses, Placed, ScanFrom, Refines, Sources, SplitAt, MergeSteps;
    ProgressStart(o, s, files, ids);
    FirstFile(s, files, ids);
    t := s;
    ghost var n := 0;
    var i := 0;
    while i < |ids|
      invariant i <= |ids| && (mdb.active == old(mdb.active) || fresh(mdb.active))
      invariant Mirrors(crc, o.dataFileSize, mdb, hint, t.merge)
      invariant Progress(o, s, t, ids, i, n)
    {
      FileSourced(crc, files, durable, s, t, ids, i);
      ghost var found, k, u := ScanFrom(StandardFIO, crc, files[ids[i]], 0).value, 0, t;
      ok, u, k := MergeFile(o, crc, index, mdb, hint, ids[i], Contents(files, ids[i]), t);
      if !ok {
        ProgressStuck(o, s, t, u, ids, i, n, k, found);
        t := u;
        return;
      }
      ProgressNext(o, s, t, u, ids, i, n, k, found);
      t, n := u, n + k;
      i := i + 1;
    }
    ok := true;
    ProgressEnd(o, s, t, files, ids, n);
  }

  lemma {:induction false} StepsInv(o: Options, s: Store, n: nat)
    requires Inv(o, s)
    ensures Inv(o, MergeSteps(o, s, n))
  {
    hide Inv, MergeStep;
    if n > 0 {
      StepsInv(o, s, n - 1);
      MergeStepInv(o, MergeSteps(o, s, n - 1));
    }
  }

  /** Under the invariant the rewritten files stay below the marker. */
  lemma {:induction false} StepsBelow(o: Options, begin: Store, n: nat)
    requires Inv(o, begin)
    ensures var m := MergeSteps(o, begin, n).merge;
            m.Merge? ==> m.at.fid < m.nonMerge
  {
    StepsInv(o, begin, n);
    var t := MergeSteps(o, begin, n);
    InvParts(o, t);
    if t.merge.Merge? {
      MergeParts(o, t);
    }
    hide Inv, MergeSteps, Laid, SplitAt, MergedPart, Copied, Covered, BaseOk;
  }

  /** So the merge directory can be installed. */
  lemma {:induction false} MergedDir(crc: Checksum, files: map<nat, Bytes>, hint: Bytes, durable: map<nat, nat>,
      ms: Store, m: MergeDir, synced: map<nat, nat>)
    requires m.Merge? && !m.finished && m.at.fid < m.nonMerge && HintsReadable(m.hints)
      && hint == EncodeAll(crc, HintRecords(m.hints))
    requires Refines(crc, files, durable, ms) && ms.log == m.out && ms.active == m.at.fid && ms.writeOff == m.at.off
    ensures MergeIs(crc, Some(MergeFiles(files, synced, hint, None)), m)
    ensures synced == FileLengths(files) ==>
        MergeIs(crc, Some(MergeFiles(files, synced, hint, Some(m.nonMerge))), m.(finished := true))
  {
    hide Laid, Holds, AllReadable, HintsReadable, HintRecords, EncodeAll, SplitAt, DurableIs, FilesAre, Newest;
  }

  lemma {:induction false} GuardIs(e: Engine)
    requires e.Valid() && OnNewest(e.model)
    ensures EmptyEngine(e.model) <==> e.active.writeOff == 0 && e.older == {}
    ensures e.active.fileId == e.model.active
  {
    hide Refines, EmptyEngine;
    EmptyIs(e.crc, e.disk.files, e.disk.durable, e.older, e.model);
  }

  lemma {:induction false} BegunMerge(s: Store)
    requires !EmptyEngine(s)
    ensures var t := MergeBegin(s);
            && t.merge == MergeDir.Merge(s.active + 1, 0, [], Cursor(0, 0), [], false) && t.active == s.active + 1
              && t.log == s.log
  {
    hide EmptyEngine;
  }

  lemma {:induction false} MirrorsStart(crc: Checksum, limit: nat, mdb: Engine, hint: Handle, m: MergeDir)
    requires m.Merge? && m == MergeDir.Merge(m.nonMerge, 0, [], Cursor(0, 0), [], false) && hint.disk != mdb.disk
    requires mdb.Valid() && mdb.model == INIT && mdb.crc == crc && mdb.o.dataFileSize == limit
    requires Contents(hint.disk.files, hint.fileId) == []
    ensures Mirrors(crc, limit, mdb, hint, m)
  {
    hide Stands;
    NoBytes(crc);
  }

  lemma {:induction false} MirrorsParts(crc: Checksum, limit: nat, mdb: Engine, hint: Handle, m: MergeDir)
    requires Mirrors(crc, limit, mdb, hint, m)
    ensures m.Merge? && mdb.Valid() && OnNewest(mdb.model) && mdb.crc == crc
    ensures mdb.model.log == m.out && mdb.model.active == m.at.fid && mdb.model.writeOff == m.at.off
    ensures Contents(hint.disk.files, hint.fileId) == EncodeAll(crc, HintRecords(m.hints))
    ensures Refines(crc, mdb.disk.files, mdb.disk.durable, mdb.model)
  {
    hide Refines, EncodeAll, HintRecords;
  }

  /** Syncing the newest file leaves nothing to sync. */
  lemma {:induction false} AllSynced(crc: Checksum, files: map<nat, Bytes>, durable: map<nat, nat>, s: Store)
    requires Refines(crc, files, durable, s)
    ensures s.active in files && durable[s.active := |files[s.active]|] == FileLengths(files)
  {
    hide Laid, SplitAt, EncodeAll, FileOf, FilesAre, AllReadable, Holds;
    forall f | f in files && f != s.active ensures durable[f] == |files[f]| {
      DurableOthers(crc, files, durable, s, f);
    }
  }

  /**
   * The end of `merge`: the merged files and the hint file are synced, then the marker is written; or nothing, on an
   * error.
   */
  method CloseMerge(o: Options, crc: Checksum, mdb: Engine, hint: Handle, ok: bool, nonMerge: nat, ghost m: MergeDir)
    returns (dir: MergeFiles)
    requires Mirrors(crc, o.dataFileSize, mdb, hint, m) && !m.finished && m.nonMerge == nonMerge
    modifies mdb`model, mdb.disk, hint.disk
    ensures m.at.fid < m.nonMerge && HintsReadable(m.hints) ==> MergeIs(crc, Some(dir), m.(finished := ok))
  {
    hide Stands, Refines, HintsReadable, MergeIs, EncodeAll, HintRecords;
    MirrorsParts(crc, o.dataFileSize, mdb, hint, m);
    ghost var ms, durable := mdb.model, mdb.disk.durable;
    StandsNewest(mdb.crc, mdb.Cab(), durable, mdb.index.entries, mdb.seqNo, mdb.bytesWrite, mdb.reclaim, ms);
    assert m.(finished := false) == m;
    if ok {
      mdb.Sync();
      hint.Sync();
      AllSynced(crc, mdb.disk.files, durable, ms);
    }
    if m.at.fid < m.nonMerge && HintsReadable(m.hints) {
      MergedDir(crc, mdb.disk.files, Contents(hint.disk.files, hint.fileId), durable, ms, m, mdb.disk.durable);
    }
    var marker := if ok then Some(nonMerge) else None;
    dir := MergeFiles(mdb.disk.files, mdb.disk.durable, Contents(hint.disk.files, hint.fileId), marker);
  }

  /** The part of `merge` after the rotation: what it leaves in the merge directory. */
  method RunMerge(o: Options, crc: Checksum, index: Tree, ids: seq<nat>, files: map<nat, Bytes>,
      ghost before: map<nat, nat>, ghost s: Store)
    returns (ok: bool, dir: MergeFiles, ghost t: Store)
    requires index.entries == Places(s.index) && Refines(crc, files, before, s) && Sources(ids, files, s)
    requires ids != [] && ids[|ids| - 1] + 1 == s.active
    requires s.merge == MergeDir.Merge(s.active, 0, [], Cursor(0, 0), [], false)
    ensures t == MergeSteps(o, s, |s.log|) && t == s.(merge := t.merge) && t.merge.Merge?
    ensures ok <==> Parses(s.log)
    ensures MergeFinish(t) == if ok then t.(merge := t.merge.(finished := true)) else t
    ensures Inv(o, s) && HintsReadable(t.merge.hints) ==> MergeIs(crc, Some(dir), MergeFinish(t).merge)
  {
    hide Stands, Refines, MergeSteps, MergeFinish, Inv, HintsReadable, MergeIs, Sources, Parses, Mirrors, Places;
    var mdisk := new Disk();
    var hintDisk := new Disk();
    var mhome := new Home(mdisk);
    var mdb := OpenEmpty(Options(o.dataFileSize, false, 0, false, o.tombstone, o.activeOnOpen), crc, mhome);
    var hint := new Handle(hintDisk, 0);
    MirrorsStart(crc, o.dataFileSize, mdb, hint, s.merge);
    ok, t := MergeAll(o, crc, index, mdb, hint, ids, files, before, s);
    StepsBelowIf(o, s, |s.log|);
    dir := CloseMerge(o, crc, mdb, hint, ok, ids[|ids| - 1] + 1, t.merge);
  }

  lemma {:induction false} StepsBelowIf(o: Options, begin: Store, n: nat)
    ensures var m := MergeSteps(o, begin, n).merge;
            Inv(o, begin) && m.Merge? ==> m.at.fid < m.nonMerge
  {
    hide Inv, MergeSteps;
    if Inv(o, begin) {
      StepsBelow(o, begin, n);
    }
  }

  /** `merge` behind its checks: rotate, rewrite, leave the merge directory. */
  method Rewrite(e: Engine, home: Home) returns (ok: bool)
    requires e.Valid() && OnNewest(e.model) && e.disk == home.disk && !EmptyEngine(e.model)
    modifies e`active, e`older, e`model, e.disk, home`mergeDir
    ensures e.Valid() && OnNewest(e.model) && fresh(e.active)
    ensures e.model == MergeFinish(MergeSteps(e.o, MergeBegin(old(e.model)), |old(e.model).log|))
    ensures (ok <==> Parses(old(e.model).log)) && e.model.merge.Merge? && (ok ==> e.model.merge.finished)
    ensures Inv(e.o, old(e.model)) && HintsReadable(e.model.merge.hints) ==>
        MergeIs(e.crc, home.mergeDir, e.model.merge)
  {
    hide Stands, Refines, EmptyEngine, MergeBegin, MergeSteps, MergeFinish, Inv, HintsReadable, MergeIs, Sources,
      Lists, Parses, Places;
    ghost var before, files0, durable0 := e.model, e.disk.files, e.disk.durable;
    StandsRefines(e.crc, e.Cab(), e.disk.durable, e.index.entries, e.seqNo, e.bytesWrite, e.reclaim, e.model);
    var ids := RotateMergeFiles(e);
    RotatedSources(e.crc, files0, durable0, before, ids);
    BegunMerge(before);
    if Inv(e.o, before) {
      MergeBeginInv(e.o, before);
    }
    StandsRefines(e.crc, e.Cab(), e.disk.durable, e.index.entries, e.seqNo, e.bytesWrite, e.reclaim, e.model);
    var dir;
    ghost var t;
    ok, dir, t := RunMerge(e.o, e.crc, e.index, ids, e.disk.files, e.disk.durable, e.model);
    home.mergeDir := Some(dir);
    StandsMerge(e.crc, e.Cab(), e.disk.durable, e.index.entries, e.seqNo, e.bytesWrite, e.reclaim, e.model,
      MergeFinish(t));
    e.model := MergeFinish(t);
  }

  datatype MergeError = InvalidMergeRatio | NotEnoughSpace | LoadFailed(error: LoadError)

  /** Too little to be gained: the bytes counted as reclaimable are less than the given part of the directory's. */
  predicate TooLittle(reclaim: nat, total: nat, ratio: real)
  {
    total > 0 && (reclaim as real) / (total as real) < ratio
  }

  /** The estimate of what will be left, an unsigned difference, does not fit on the disk. */
  predicate TooLarge(reclaim: nat, total: nat, available: nat)
  {
    reclaim > total || total - reclaim >= available
  }

  lemma {:induction false} RatioExact(reclaim: nat, total: nat, ratio: real)
    ensures TooLittle(reclaim, total, ratio) <==> total > 0 && reclaim as real < ratio * total as real
  {
    if total > 0 {
      var r, t := reclaim as real, total as real;
      Scaled(r / t, ratio, t);
      assert r / t * t == r;
    }
  }

  lemma {:induction false} Scaled(a: real, b: real, t: real)
    requires t > 0.0
    ensures a < b <==> a * t < b * t
  {
  }

  /**
   * `merge`, given the size of the directory and the free space. Nothing else writes meanwhile; what happens when
   * something does is the business of the state machine's steps.
   */
  method Merge(e: Engine, home: Home, ratio: real, total: nat, available: nat) returns (r: Result<Unit, MergeError>)
    requires e.Valid() && OnNewest(e.model) && e.disk == home.disk
    modifies e`active, e`older, e`model, e.disk, home`mergeDir
    ensures e.Valid() && OnNewest(e.model) && (e.active == old(e.active) || fresh(e.active))
    ensures EmptyEngine(old(e.model)) ==> r == Ok(())
    ensures !EmptyEngine(old(e.model)) ==>
      var worthIt := total == 0 || e.reclaim as real >= ratio * total as real;
      && (r == Err(InvalidMergeRatio) <==> !worthIt)
      && (r == Err(NotEnoughSpace) <==> worthIt && (e.reclaim > total || total - e.reclaim >= available))
    ensures EmptyEngine(old(e.model)) || r == Err(InvalidMergeRatio) || r == Err(NotEnoughSpace) ==>
      e.model == old(e.model) && e.disk.files == old(e.disk.files) && home.mergeDir == old(home.mergeDir)
    ensures !EmptyEngine(old(e.model)) && r != Err(InvalidMergeRatio) && r != Err(NotEnoughSpace) ==>
      && e.model == MergeFinish(MergeSteps(e.o, MergeBegin(old(e.model)), |old(e.model).log|))
      && r == (if Parses(old(e.model).log) then Ok(()) else Err(LoadFailed(BadKey)))
      && e.model.merge.Merge? && (r.Ok? ==> e.model.merge.finished)
      && (Inv(e.o, old(e.model)) && HintsReadable(e.model.merge.hints) ==> MergeIs(e.crc, home.mergeDir, e.model.merge))
  {
    hide Stands, EmptyEngine, MergeBegin, MergeSteps, MergeFinish, Inv, HintsReadable, MergeIs, Parses;
    GuardIs(e);
    RatioExact(e.reclaim, total, ratio);
    hide TooLittle;
    if e.active.writeOff == 0 && e.older == {} {
      return Ok(());
    }
    if TooLittle(e.reclaim, total, ratio) {
      return Err(InvalidMergeRatio);
    }
    if TooLarge(e.reclaim, total, available) {
      return Err(NotEnoughSpace);
    }
    var ok := Rewrite(e, home);
    r := if ok then Ok(()) else Err(LoadFailed(BadKey));
  }
}
