/**
 * The engine as an object over a data directory. Every method is proved against the step of the state machine it
 * stands for.
 */
module Db {
  import opened Wire
  import opened LogRecord
  import opened Replay
  import opened Layout
  import opened Store
  import Machine = Store
  import opened DataFile
  import opened Directory
  import opened Indexer
  import opened Loading
  import Varint

  /** Of every file exactly the synced records are durable. */
  ghost predicate DurableIs(crc: Checksum, durable: map<nat, nat>, s: Store)
    requires s.synced <= |s.log|
  {
    forall f :: f in durable ==> durable[f] == |EncodeAll(crc, FileOf(s.log[..s.synced], f))|
  }

  /** The directory is what the state machine says it is. */
  ghost predicate Refines(crc: Checksum, files: map<nat, Bytes>, durable: map<nat, nat>, s: Store)
  {
    && Holds(crc, files, s.log) && AllReadable(s.log)
    && Laid(s.log, s.active, s.writeOff) && Newest(files, s.active)
    && SplitAt(s.log, s.active) <= s.synced <= |s.log|
    && durable.Keys == files.Keys && DurableIs(crc, durable, s)
    && FilesAre(files, s)
  }

  /** The files of a directory: those since the last installed merge, and the rewritten ones that hold records. */
  ghost predicate FilesAre(files: map<nat, Bytes>, s: Store)
  {
    && s.base <= s.active
    && forall f: nat :: f in files <==> s.base <= f <= s.active || FileOf(s.log, f) != []
  }

  /** The file the code opens for writing. */
  lemma {:induction false} OldestIsLeast(files: map<nat, Bytes>, s: Store)
    requires FilesAre(files, s) && Laid(s.log, s.active, s.writeOff)
    ensures OldestId(s) in files && forall f :: f in files ==> OldestId(s) <= f
  {
    hide Laid, FileOf;
    forall i | 0 <= i < |s.log| ensures s.log[0].pos.fid <= s.log[i].pos.fid {
      if i > 0 {
        LaidOrder(s.log, s.active, s.writeOff, 0, i);
      }
    }
    forall f | f in files ensures OldestId(s) <= f {
      FileOfNothing(s.log, f);
    }
    FileOfNothing(s.log, OldestId(s));
  }

  lemma {:induction false} FilesAppend(o: Options, files: map<nat, Bytes>, s: Store, rec: Record, content: Bytes)
    requires FilesAre(files, s)
    ensures FilesAre(files[Append(o, s, rec).active := content], Append(o, s, rec))
  {
    hide Size, FileOf;
    var t := Append(o, s, rec);
    var after := files[t.active := content];
    assert t.log == s.log + [t.log[|s.log|]] && t.log[|s.log|].pos.fid == t.active;
    forall f: nat ensures f in after <==> t.base <= f <= t.active || FileOf(t.log, f) != [] {
      FileOfSnoc(s.log, t.log[|s.log|], f);
    }
  }

  predicate NeedSync(o: Options, written: nat)
  {
    o.syncWrites || (o.bytesPerSync > 0 && written >= o.bytesPerSync)
  }

  /** What an append makes durable: the file it leaves, and its own file when a sync is due. */
  function AppendDurable(c: Cabinet, durable: map<nat, nat>, enc: Bytes, limit: nat, sync: bool): map<nat, nat>
  {
    var after := AppendBytes(c, enc, limit);
    var left := if after.id == c.id then durable
                else var d := durable[c.id := |Contents(c.files, c.id)|]; d[after.id := DurableLength(d, after.id)];
    if sync then left[after.id := |Contents(after.files, after.id)|] else left
  }

  /** The synced part of the log has every record of the files below the newest. */
  lemma {:induction false} SyncedFile(log: seq<Logged>, active: nat, off: nat, n: nat, fid: nat)
    requires Laid(log, active, off) && SplitAt(log, active) <= n <= |log| && fid != active
    ensures FileOf(log[..n], fid) == FileOf(log, fid)
  {
    if n == |log| {
      assert log[..n] == log;
    } else {
      var pre, l := log[..|log| - 1], log[|log| - 1];
      assert l.pos.fid == active;
      SyncedFile(pre, active, l.pos.offset, n, fid);
      assert pre[..n] == log[..n];
      assert FileOf(pre, fid) + [] == FileOf(pre, fid);
    }
  }

  lemma {:induction false} DurableOthers(crc: Checksum, files: map<nat, Bytes>, durable: map<nat, nat>, s: Store,
      fid: nat)
    requires Refines(crc, files, durable, s) && fid in files && fid != s.active
    ensures durable[fid] == |files[fid]| && files[fid] == EncodeAll(crc, FileOf(s.log, fid))
  {
    hide Laid, SplitAt, EncodeAll, FileOf;
    SyncedFile(s.log, s.active, s.writeOff, s.synced, fid);
  }

  lemma {:induction false} AppendSplit(o: Options, s: Store, rec: Record)
    requires Laid(s.log, s.active, s.writeOff) && SplitAt(s.log, s.active) <= s.synced <= |s.log|
    ensures var t := Append(o, s, rec);
            && SplitAt(t.log, t.active) <= t.synced <= |t.log|
            && t.log == s.log + [t.log[|s.log|]] && t.log[|s.log|].pos.fid == t.active
            && (t.active == s.active || t.active == s.active + 1)
            && (t.active > s.active ==> t.synced >= |s.log|)
            && (NeedSync(o, s.bytesWrite + Size(rec)) ==> t.synced == |t.log|)
            && (!NeedSync(o, s.bytesWrite + Size(rec)) ==> t.synced == if t.active == s.active then s.synced
              else |s.log|)
  {
    hide Laid, Size;
    var t := Append(o, s, rec);
    SplitAppend(s.log, [t.log[|s.log|]], t.active);
    SplitExact(s.log, s.active, s.writeOff, s.active);
  }

  lemma {:induction false} AppendKeys(c: Cabinet, durable: map<nat, nat>, enc: Bytes, limit: nat, sync: bool)
    requires durable.Keys == c.files.Keys
    ensures c.id in c.files ==>
      AppendDurable(c, durable, enc, limit, sync).Keys == AppendBytes(c, enc, limit).files.Keys
  {
  }

  lemma {:induction false} AppendedFile(c: Cabinet, enc: Bytes, limit: nat)
    ensures var after := AppendBytes(c, enc, limit);
            after.id in after.files && after.files == c.files[after.id := after.files[after.id]]
  {
  }

  lemma {:induction false} NewestThere(files: map<nat, Bytes>, active: nat)
    requires Newest(files, active)
    ensures active in files
  {
  }

  /** An append through a handle on the newest file keeps directory and state machine together. */
  lemma {:induction false} AppendRefines(o: Options, crc: Checksum, files: map<nat, Bytes>, durable: map<nat, nat>,
      s: Store, rec: Record)
    requires Refines(crc, files, durable, s) && Storable(rec) && rec.key != []
    ensures var c, t, enc := Cabinet(files, s.active, s.writeOff), Append(o, s, rec), Encode(crc, rec);
            var after := AppendBytes(c, enc, o.dataFileSize);
            && |enc| == Size(rec)
            && after.id == t.active && after.off == t.writeOff && AppendPos(c, enc, o.dataFileSize) == LastPos(t)
            && Refines(crc, after.files, AppendDurable(c, durable, enc, o.dataFileSize,
              NeedSync(o, s.bytesWrite + |enc|)), t)
  {
    hide Encode, Size, Laid, FileOf, EncodeAll, Place, Append, SplitAt, Holds, AllReadable, Newest, AppendBytes,
      AppendDurable, NeedSync;
    EncodedSize(crc, rec);
    AppendHolds(o, crc, files, s, rec);
    AppendSplit(o, s, rec);
    var c, t, enc := Cabinet(files, s.active, s.writeOff), Append(o, s, rec), Encode(crc, rec);
    var sync := NeedSync(o, s.bytesWrite + |enc|);
    var durable' := AppendDurable(c, durable, enc, o.dataFileSize, sync);
    AppendKeys(c, durable, enc, o.dataFileSize, sync);
    assert s.active in files by { NewestThere(files, s.active); }
    AppendedFile(c, enc, o.dataFileSize);
    FilesAppend(o, files, s, rec, AppendBytes(c, enc, o.dataFileSize).files[t.active]);
    hide FilesAre;
    forall f | f in durable' ensures durable'[f] == |EncodeAll(crc, FileOf(t.log[..t.synced], f))| {
      AppendDurableAt(o, crc, files, durable, s, rec, f);
    }
  }

  /** One file after an append. */
  lemma {:induction false} AppendDurableAt(o: Options, crc: Checksum, files: map<nat, Bytes>, durable: map<nat, nat>,
      s: Store, rec: Record, f: nat)
    requires Refines(crc, files, durable, s) && Storable(rec) && rec.key != []
    ensures var c, t, enc := Cabinet(files, s.active, s.writeOff), Append(o, s, rec), Encode(crc, rec);
            var durable' := AppendDurable(c, durable, enc, o.dataFileSize, NeedSync(o, s.bytesWrite + |enc|));
            t.synced <= |t.log| && (f in durable' ==> durable'[f] == |EncodeAll(crc, FileOf(t.log[..t.synced], f))|)
  {
    hide Encode, Size, Laid, FileOf, EncodeAll, Place, Append, SplitAt;
    EncodedSize(crc, rec);
    AppendHolds(o, crc, files, s, rec);
    AppendSplit(o, s, rec);
    var t := Append(o, s, rec);
    var l := t.log[|s.log|];
    FileOfSnoc(s.log, l, f);
    assert FileOf(s.log, f) + [] == FileOf(s.log, f);
    assert t.log[..|s.log|] == s.log && t.log[..|t.log|] == t.log;
    assert s.log[..s.synced] == t.log[..s.synced];
    if f in files && f != s.active {
      DurableOthers(crc, files, durable, s, f);
    }
    if t.active != s.active {
      FileBeyond(s.log, s.active, s.writeOff, t.active);
      assert |EncodeAll(crc, [])| == 0 by { NoBytes(crc); }
    }
  }

  lemma {:induction false} NoBytes(crc: Checksum)
    ensures EncodeAll(crc, []) == []
  {
  }

  /** The fields of an engine and its directory stand for a state of the state machine. */
  ghost predicate Stands(crc: Checksum, c: Cabinet, durable: map<nat, nat>, entries: map<Bytes, Pos>, seqNo: nat,
      bytesWrite: nat, reclaim: nat, s: Store)
  {
    && Refines(crc, c.files, durable, s)
    && c.id == s.handle && c.off == s.writeOff
    && entries == Places(s.index)
    && seqNo == s.seqNo && bytesWrite == s.bytesWrite && reclaim == s.reclaim
  }

  lemma {:induction false} StandsAppend(o: Options, crc: Checksum, c: Cabinet, durable: map<nat, nat>,
      entries: map<Bytes, Pos>, seqNo: nat, bytesWrite: nat, reclaim: nat, s: Store, rec: Record)
    requires Stands(crc, c, durable, entries, seqNo, bytesWrite, reclaim, s) && OnNewest(s)
    requires Storable(rec) && rec.key != []
    ensures var t, enc := Append(o, s, rec), Encode(crc, rec);
            var sync := NeedSync(o, bytesWrite + |enc|);
            && Stands(crc, AppendBytes(c, enc, o.dataFileSize), AppendDurable(c, durable, enc, o.dataFileSize, sync),
                entries, seqNo, if sync then 0 else bytesWrite + |enc|, reclaim, t)
            && OnNewest(t) && AppendPos(c, enc, o.dataFileSize) == LastPos(t)
  {
    hide Refines, Encode, Append, AppendBytes, AppendDurable, Places, NeedSync, Size;
    AppendRefines(o, crc, c.files, durable, s, rec);
    AppendFields(o, s, rec);
  }

  lemma {:induction false} StandsNewest(crc: Checksum, c: Cabinet, durable: map<nat, nat>, entries: map<Bytes, Pos>,
      seqNo: nat, bytesWrite: nat, reclaim: nat, s: Store)
    requires Stands(crc, c, durable, entries, seqNo, bytesWrite, reclaim, s)
    ensures Newest(c.files, s.active) && c.id == s.handle
  {
  }

  /** Changing the index and the counters alike on both sides. */
  lemma {:induction false} StandsIndex(crc: Checksum, c: Cabinet, durable: map<nat, nat>, entries: map<Bytes, Pos>,
      seqNo: nat, bytesWrite: nat, reclaim: nat, s: Store, entries': map<Bytes, Pos>, seqNo': nat, reclaim': nat,
      t: Store)
    requires Stands(crc, c, durable, entries, seqNo, bytesWrite, reclaim, s)
    requires t == s.(index := t.index, reclaim := reclaim', seqNo := seqNo') && entries' == Places(t.index)
    ensures Stands(crc, c, durable, entries', seqNo', bytesWrite, reclaim', t)
  {
  }

  lemma {:induction false} StandsEntries(crc: Checksum, c: Cabinet, durable: map<nat, nat>, entries: map<Bytes, Pos>,
      seqNo: nat, bytesWrite: nat, reclaim: nat, s: Store)
    requires Stands(crc, c, durable, entries, seqNo, bytesWrite, reclaim, s)
    ensures entries == Places(s.index) && reclaim == s.reclaim && seqNo == s.seqNo
  {
  }

  /** `index.put` and `index.delete` on both sides. */
  lemma {:induction false} PlacesPut(s: Store, key: Bytes, slot: Slot)
    ensures Places(PutIndex(s, key, slot).index) == Places(s.index)[key := slot.pos]
    ensures PutIndex(s, key, slot).reclaim == s.reclaim + if key in Places(s.index) then Places(s.index)[key].size
        else 0
  {
  }

  lemma {:induction false} PlacesDrop(s: Store, key: Bytes)
    ensures Places(DropIndex(s, key).index) == Places(s.index) - {key}
    ensures DropIndex(s, key).reclaim == s.reclaim + if key in Places(s.index) then Places(s.index)[key].size else 0
  {
  }

  type Unit = ()

  class Engine {
    const o: Options
    const crc: Checksum
    const disk: Disk
    const index: Tree
    var active: Handle
    var older: set<nat>
    var seqNo: nat
    var bytesWrite: nat
    var reclaim: nat
    /** The state machine this engine stands for; it means nothing once something was written through a wrong handle. */
    ghost var model: Store

    /** The engine before anything is loaded. */
    constructor (o: Options, crc: Checksum, disk: Disk, active: Handle, older: set<nat>, ghost model: Store)
      ensures this.o == o && this.crc == crc && this.disk == disk && this.active == active && this.older == older
      ensures this.model == model && seqNo == 1 && bytesWrite == 0 && reclaim == 0
      ensures fresh(index) && index.entries == map[]
    {
      this.o, this.crc, this.disk, this.active, this.older, this.model := o, crc, disk, active, older, model;
      index := new Tree();
      seqNo, bytesWrite, reclaim := 1, 0, 0;
    }

    /** The handles are those of the files of the directory. */
    ghost predicate Wired()
      reads this, disk, active
    {
      active.disk == disk && active.fileId in disk.files && disk.files.Keys == older + {active.fileId}
    }

    function Cab(): Cabinet
      reads this, disk, active
    {
      Cabinet(disk.files, active.fileId, active.writeOff)
    }

    ghost predicate Valid()
      reads this, disk, active, index
    {
      && Wired() && (OnNewest(model) ==> active.fileId !in older)
      && Stands(crc, Cab(), disk.durable, index.entries, seqNo, bytesWrite, reclaim, model)
    }

    /**
     * The active file is synced and joins the older ones, and a handle on the file with the next id takes its place.
     */
    method Rotate()
      requires Wired()
      modifies this`active, this`older, disk
      ensures Wired() && fresh(active) && older == old(older) + {old(active.fileId)}
      ensures var next := old(active.fileId) + 1;
              Cab() == Cabinet(old(disk.files)[next := Contents(old(disk.files), next)], next, 0)
      ensures var d := old(disk.durable)[old(active.fileId) := |Contents(old(disk.files), old(active.fileId))|];
              disk.durable == d[active.fileId := DurableLength(d, active.fileId)]
    {
      active.Sync();
      var id := active.fileId;
      older := older + {id};
      active := new Handle(disk, id + 1);
    }

    /** The bytes are counted, and the active file is synced when the options say so. */
    method SyncIfDue(size: nat)
      requires Wired()
      modifies this`bytesWrite, disk
      ensures Wired() && Cab() == old(Cab())
      ensures var due := NeedSync(o, old(bytesWrite) + size);
              && bytesWrite == (if due then 0 else old(bytesWrite) + size)
              && disk.durable == if due then old(disk.durable)[active.fileId := |Contents(disk.files, active.fileId)|]
                else old(disk.durable)
    {
      var previous := bytesWrite;
      bytesWrite := previous + size;
      var needSync := o.syncWrites;
      if !needSync && o.bytesPerSync > 0 && previous + size >= o.bytesPerSync {
        needSync := true;
      }
      if needSync {
        active.Sync();
        bytesWrite := 0;
      }
    }

    /** The part of `append_log_record` after the record is encoded. */
    method AppendEncoded(enc: Bytes) returns (pos: Pos)
      requires Wired() && enc != []
      modifies this`active, this`older, this`bytesWrite, disk, active
      ensures Wired() && (active == old(active) || fresh(active))
      ensures var due := NeedSync(o, old(bytesWrite) + |enc|);
              && Cab() == AppendBytes(old(Cab()), enc, o.dataFileSize)
              && pos == AppendPos(old(Cab()), enc, o.dataFileSize)
              && disk.durable == AppendDurable(old(Cab()), old(disk.durable), enc, o.dataFileSize, due)
              && bytesWrite == if due then 0 else old(bytesWrite) + |enc|
      ensures || (active.fileId == old(active.fileId) && older == old(older))
              || (active.fileId == old(active.fileId) + 1 && older == old(older) + {old(active.fileId)})
    {
      hide NeedSync, AppendBytes, AppendPos, AppendDurable;
      ghost var c := Cab();
      AppendShape(c, disk.durable, enc, o.dataFileSize, NeedSync(o, bytesWrite + |enc|));
      if active.writeOff + |enc| > o.dataFileSize {
        Rotate();
      }
      var off := active.writeOff;
      ghost var target := Cab();
      var _ := active.Write(enc);
      assert Cab() == Cabinet(target.files[target.id := Contents(target.files, target.id) + enc], target.id,
        target.off + |enc|);
      Overwrite(c.files, target.id, enc);
      SyncIfDue(|enc|);
      pos := Pos(active.fileId, off, |enc|);
    }

    /** `append_log_record`. */
    method AppendLogRecord(rec: Record) returns (pos: Pos)
      requires Wired() && Storable(rec) && rec.key != []
      modifies this`active, this`older, this`bytesWrite, this`model, disk, active
      ensures Wired() && (active == old(active) || fresh(active))
      ensures var enc := Encode(crc, rec);
              && Cab() == AppendBytes(old(Cab()), enc, o.dataFileSize)
              && pos == AppendPos(old(Cab()), enc, o.dataFileSize)
              && disk.durable == AppendDurable(old(Cab()), old(disk.durable), enc, o.dataFileSize,
                NeedSync(o, old(bytesWrite) + |enc|))
              && bytesWrite == if NeedSync(o, old(bytesWrite) + |enc|) then 0 else old(bytesWrite) + |enc|
      ensures model == Append(o, old(model), rec)
      ensures old(Valid() && OnNewest(model)) ==> Valid() && OnNewest(model) && pos == LastPos(model)
    {
      hide Encode, Append, Stands, NeedSync, AppendBytes, AppendPos, AppendDurable, Size;
      if Valid() && OnNewest(model) {
        StandsAppend(o, crc, Cab(), disk.durable, index.entries, seqNo, bytesWrite, reclaim, model, rec);
        StandsNewest(crc, Cab(), disk.durable, index.entries, seqNo, bytesWrite, reclaim, model);
        AppendFields(o, model, rec);
      }
      EncodedSize(crc, rec);
      var enc, _ := EncodeRecord(crc, rec);
      pos := AppendEncoded(enc);
      model := Append(o, model, rec);
    }

    /** `put`. */
    method Put(key: Bytes, value: Bytes) returns (r: Result<Unit, GetError>)
      requires Wired() && |key| + 1 < U32_LIMIT && |value| < U32_LIMIT
      modifies this`active, this`older, this`bytesWrite, this`reclaim, this`model, disk, active, index
      ensures Wired() && (active == old(active) || fresh(active))
      ensures key == [] ==> r == Err(KeyIsEmpty) && Cab() == old(Cab()) && index.entries == old(index.entries)
      ensures key != [] ==>
        var enc := Encode(crc, Record(EncodeKey(NON_TRANSACTION, key), value, Normal));
        && r == Ok(())
        && Cab() == AppendBytes(old(Cab()), enc, o.dataFileSize)
        && index.entries == old(index.entries)[key := AppendPos(old(Cab()), enc, o.dataFileSize)]
      ensures model == Machine.Put(o, old(model), key, value)
      ensures old(Valid() && OnNewest(model)) ==> Valid() && OnNewest(model)
    {
      hide Encode, Stands, EncodeKey, Append, AppendBytes, AppendPos, Places, AppendDurable, NeedSync;
      if key == [] {
        return Err(KeyIsEmpty);
      }
      EncodedKey(NON_TRANSACTION, key);
      var record := Record(EncodeKey(NON_TRANSACTION, key), value, Normal);
      var pos := AppendLogRecord(record);
      ghost var s, entries, before := model, index.entries, reclaim;
      AppendFields(o, old(model), record);
      ghost var t := PutIndex(s, key, Slot(LastPos(s), value));
      var previous := index.Put(key, pos);
      if previous.Some? {
        reclaim := reclaim + previous.value.size;
      }
      if old(Valid() && OnNewest(model)) {
        StandsEntries(crc, Cab(), disk.durable, entries, seqNo, bytesWrite, before, s);
        PlacesPut(s, key, Slot(LastPos(s), value));
        StandsIndex(crc, Cab(), disk.durable, entries, seqNo, bytesWrite, before, s, index.entries, seqNo, reclaim, t);
      }
      model := t;
      return Ok(());
    }

    /** `get`. */
    method Get(key: Bytes) returns (r: Result<Bytes, GetError>)
      requires Wired()
      ensures r == if key == [] then Err(KeyIsEmpty)
                   else if key !in index.entries then Err(KeyNotFound)
                   else Fetch(crc, disk.files, index.entries[key])
      ensures Valid() && Sound(model.log, model.index) && key != [] ==>
              r == if key in model.index then Ok(model.index[key].value) else Err(KeyNotFound)
    {
      hide ReadAt;
      if Valid() && Sound(model.log, model.index) && key in model.index {
        FetchSound(crc, disk.files, model.log, model.active, model.writeOff, model.index, key);
      }
      if key == [] {
        return Err(KeyIsEmpty);
      }
      var pos := index.Get(key);
      if pos.None? {
        return Err(KeyNotFound);
      }
      r := GetByPosition(pos.value);
    }

    /** `get_value_by_position`. */
    method GetByPosition(pos: Pos) returns (r: Result<Bytes, GetError>)
      requires Wired()
      ensures r == Fetch(crc, disk.files, pos)
    {
      hide ReadAt;
      var read: Result<ReadRecord, ReadError>;
      if active.fileId == pos.fid {
        read := active.Read(StandardFIO, crc, pos.offset);
      } else if pos.fid in older {
        read := ReadLogRecord(StandardFIO, crc, Contents(disk.files, pos.fid), pos.offset);
      } else {
        return Err(DataFileNotFound);
      }
      if read.Err? {
        return Err(ReadFailed(read.error));
      }
      if read.value.record.rtype.Delete? {
        return Err(KeyNotFound);
      }
      return Ok(read.value.record.value);
    }

    /** `delete`. */
    method Delete(key: Bytes) returns (r: Result<Unit, GetError>)
      requires Wired() && |key| + 1 < U32_LIMIT
      modifies this`active, this`older, this`bytesWrite, this`reclaim, this`model, disk, active, index
      ensures Wired() && (active == old(active) || fresh(active))
      ensures r == if key == [] then Err(KeyIsEmpty) else Ok(())
      ensures key == [] || key !in old(index.entries) ==> Cab() == old(Cab()) && index.entries == old(index.entries)
      ensures key != [] && key in old(index.entries) ==>
        && Cab() == AppendBytes(old(Cab()), Encode(crc, Record(TombstoneKey(o, key), [], RecordType.Delete)),
          o.dataFileSize)
        && index.entries == old(index.entries) - {key}
      ensures old(Valid()) ==> model == DeleteKey(o, old(model), key)
      ensures old(Valid() && OnNewest(model)) ==> Valid() && OnNewest(model)
    {
      hide Encode, Stands, EncodeKey, Append, AppendBytes, AppendPos, Places, AppendDurable, NeedSync;
      if Valid() {
        StandsEntries(crc, Cab(), disk.durable, index.entries, seqNo, bytesWrite, reclaim, model);
        assert key in index.entries <==> key in model.index by { PlacesKeys(model.index); }
      }
      if key == [] {
        return Err(KeyIsEmpty);
      }
      var found := index.Get(key);
      if found.None? {
        return Ok(());
      }
      EncodedKey(NON_TRANSACTION, key);
      var record := Record(TombstoneKey(o, key), [], RecordType.Delete);
      var pos := AppendLogRecord(record);
      ghost var s, entries, before := model, index.entries, reclaim;
      AppendFields(o, old(model), record);
      ghost var counted := s.(reclaim := s.reclaim + LastPos(s).size);
      ghost var t := DropIndex(counted, key);
      reclaim := reclaim + pos.size;
      var previous := index.Delete(key);
      if previous.Some? {
        reclaim := reclaim + previous.value.size;
      }
      if old(Valid() && OnNewest(model)) {
        StandsEntries(crc, Cab(), disk.durable, entries, seqNo, bytesWrite, before, s);
        PlacesDrop(counted, key);
        StandsIndex(crc, Cab(), disk.durable, entries, seqNo, bytesWrite, before, s, index.entries, seqNo, reclaim, t);
      }
      model := t;
      return Ok(());
    }

    /** The records of a batch, under its sequence number; where each went. */
    method AppendBatch(seqNo: nat, items: seq<Item>) returns (positions: map<Bytes, Pos>)
      requires Wired() && seqNo < U64_LIMIT && ItemsWritable(items)
      modifies this`active, this`older, this`bytesWrite, this`model, disk, active
      ensures Wired() && (active == old(active) || fresh(active))
      ensures Cab() == BatchBytes(crc, old(Cab()), seqNo, items, o.dataFileSize)
      ensures BatchPlaced(positions, crc, old(Cab()), seqNo, items, o.dataFileSize)
      ensures model == AppendItems(o, old(model), seqNo, items)
      ensures old(Valid() && OnNewest(model)) ==>
        Valid() && OnNewest(model) && Positioned(positions, items, old(model.log), model.log)
    {
      NothingPositioned(items, model.log);
      NoBatchPlaced(crc, Cab(), seqNo, items, o.dataFileSize);
      hide Encode, Stands, EncodeKey, Append, AppendBytes, AppendPos, AppendDurable, NeedSync, Varint.LengthOf,
        Positioned, AppendItems, ItemRecord, ItemsWritable, Size, BatchBytes, BatchPlaced;
      ghost var s, c := model, Cab();
      positions := map[];
      assert items[..0] == [] && AppendItems(o, s, seqNo, []) == s by { NoItems(o, s, seqNo); }
      var i := 0;
      while i < |items|
        invariant i <= |items|
        invariant Wired() && (active == old(active) || fresh(active))
        invariant Cab() == BatchBytes(crc, c, seqNo, items[..i], o.dataFileSize)
        invariant BatchPlaced(positions, crc, c, seqNo, items[..i], o.dataFileSize)
        invariant model == AppendItems(o, s, seqNo, items[..i])
        invariant old(Valid() && OnNewest(model)) ==>
          Valid() && OnNewest(model) && Positioned(positions, items[..i], s.log, model.log)
      {
        ItemStorable(seqNo, items, i);
        AppendFields(o, model, ItemRecord(seqNo, items[i]));
        AppendOne(o, s, seqNo, items, i);
        ghost var before := model;
        var pos := AppendLogRecord(ItemRecord(seqNo, items[i]));
        PlacedNext(positions, crc, c, seqNo, items, i, o.dataFileSize);
        if old(Valid() && OnNewest(model)) {
          PositionedNext(positions, items, i, s.log, before.log, model.log);
        }
        positions := positions[items[i].key := pos];
        i := i + 1;
      }
      assert items[..|items|] == items;
    }

    /** `seq_no.fetch_add(1)`. */
    method NextSeqNo() returns (taken: nat)
      modifies this`seqNo, this`model
      ensures taken == old(seqNo) && seqNo == taken + 1
      ensures model == old(model).(seqNo := old(model).seqNo + 1)
      ensures old(Valid()) ==> Valid() && taken == old(model).seqNo
    {
      hide Stands, Places;
      ghost var t := model.(seqNo := model.seqNo + 1);
      if Valid() {
        StandsEntries(crc, Cab(), disk.durable, index.entries, seqNo, bytesWrite, reclaim, model);
        StandsIndex(crc, Cab(), disk.durable, index.entries, seqNo, bytesWrite, reclaim, model, index.entries,
          seqNo + 1, reclaim, t);
      }
      taken := seqNo;
      seqNo := seqNo + 1;
      model := t;
    }

    /** The record that makes a batch count. */
    method FinishBatch(seqNo: nat)
      requires Wired() && seqNo < U64_LIMIT
      modifies this`active, this`older, this`bytesWrite, this`model, disk, active
      ensures Wired() && (active == old(active) || fresh(active))
      ensures Cab() == AppendBytes(old(Cab()), Encode(crc, FinishRecord(seqNo)), o.dataFileSize)
      ensures model == Append(o, old(model), FinishRecord(seqNo)) && old(model).log <= model.log
      ensures old(Valid() && OnNewest(model)) ==> Valid() && OnNewest(model)
    {
      hide Encode, Stands, EncodeKey, AppendBytes, AppendPos, AppendDurable, NeedSync, Size, Place;
      EncodedKey(seqNo, TXN_FIN_KEY);
      var _ := AppendLogRecord(FinishRecord(seqNo));
    }

    method UpdateItem(item: Item, pos: Pos)
      requires !item.rtype.TxnFinished?
      modifies this`reclaim, this`model, index
      ensures index.entries == if item.rtype.Normal? then old(index.entries)[item.key := pos]
          else old(index.entries) - {item.key}
      ensures model == if item.rtype.Normal? then PutIndex(old(model), item.key, Slot(pos, item.value))
          else DropIndex(old(model), item.key)
      ensures old(Valid()) ==> Valid()
    {
      hide Stands, Places;
      ghost var s, entries, counted, valid := model, index.entries, reclaim, Valid();
      if valid {
        StandsEntries(crc, Cab(), disk.durable, entries, seqNo, bytesWrite, counted, s);
      }
      PlacesPut(s, item.key, Slot(pos, item.value));
      PlacesDrop(s, item.key);
      if item.rtype.Normal? {
        var previous := index.Put(item.key, pos);
        if previous.Some? {
          reclaim := reclaim + previous.value.size;
        }
        model := PutIndex(s, item.key, Slot(pos, item.value));
      }
      if item.rtype.Delete? {
        var previous := index.Delete(item.key);
        if previous.Some? {
          reclaim := reclaim + previous.value.size;
        }
        model := DropIndex(s, item.key);
      }
      if valid {
        StandsIndex(crc, Cab(), disk.durable, entries, seqNo, bytesWrite, counted, s, index.entries, seqNo, reclaim,
          model);
      }
    }

    /** The index changes of a committed batch. */
    method UpdateBatch(items: seq<Item>, positions: map<Bytes, Pos>, ghost before: seq<Logged>)
      requires ItemsWritable(items) && forall i :: 0 <= i < |items| ==> items[i].key in positions
      modifies this`reclaim, this`model, index
      ensures index.entries == BatchEntries(old(index.entries), items, positions)
      ensures model == old(model).(index := model.index, reclaim := model.reclaim)
      ensures old(Valid()) ==> Valid()
      ensures Positioned(positions, items, before, old(model).log) ==>
        |before| + |items| <= |old(model).log| && model == InstallItems(old(model), items, |before|)
    {
      hide Stands, Places, Valid;
      ghost var s, entries, there := model, index.entries, Positioned(positions, items, before, model.log);
      assert items[..0] == [];
      var i := 0;
      while i < |items|
        invariant i <= |items| && (old(Valid()) ==> Valid())
        invariant index.entries == BatchEntries(entries, items[..i], positions)
        invariant model == s.(index := model.index, reclaim := model.reclaim)
        invariant there ==> |before| + |items| <= |s.log| && model == InstallItems(s, items[..i], |before|)
      {
        if there {
          InstallNext(s, items, i, |before|);
          PositionedAt(positions, items, i, before, s.log);
        }
        EntriesNext(entries, items, positions, i);
        UpdateItem(items[i], positions[items[i].key]);
        i := i + 1;
      }
      assert items[..|items|] == items;
    }

    /** `sync`. */
    method Sync()
      requires Wired()
      modifies this`model, disk
      ensures Wired() && Cab() == old(Cab())
      ensures disk.durable == old(disk.durable)[active.fileId := |disk.files[active.fileId]|]
      ensures model == Machine.Sync(old(model))
      ensures old(Valid()) ==> Valid() && (OnNewest(model) <==> OnNewest(old(model)))
    {
      hide Refines;
      if Valid() {
        SyncRefines(crc, disk.files, disk.durable, model);
      }
      active.Sync();
      model := Machine.Sync(model);
    }

    /** `close`, but for the sequence number file and the lock. */
    method Close()
      requires Wired()
      modifies this`model, disk
      ensures Wired() && Cab() == old(Cab())
      ensures disk.durable == old(disk.durable)[active.fileId := |disk.files[active.fileId]|]
      ensures model == Machine.Sync(old(model))
      ensures old(Valid()) ==> Valid()
      ensures old(Valid() && OnNewest(model)) ==>
        && model.synced == |model.log| && model.index == old(model.index) && model.log == old(model.log)
        && forall f :: f in disk.files ==> f in disk.durable && disk.durable[f] == |disk.files[f]|
    {
      hide Refines;
      Sync();
      if Valid() && OnNewest(model) {
        CleanDisk(crc, disk.files, disk.durable, model);
      }
    }
  }

  /** An append, with and without rotation. */
  lemma {:induction false} AppendShape(c: Cabinet, durable: map<nat, nat>, enc: Bytes, limit: nat, sync: bool)
    ensures var rotate := c.off + |enc| > limit;
            var id, off := if rotate then c.id + 1 else c.id, if rotate then 0 else c.off;
            var after := Cabinet(c.files[id := Contents(c.files, id) + enc], id, off + |enc|);
            var d := durable[c.id := |Contents(c.files, c.id)|];
            var left := if rotate then d[id := DurableLength(d, id)] else durable;
            && AppendBytes(c, enc, limit) == after
            && AppendPos(c, enc, limit) == Pos(id, off, |enc|)
            && AppendDurable(c, durable, enc, limit, sync) == if sync then left[id := |Contents(after.files, id)|]
              else left
  {
  }

  /** Batch items the reader will recognise, one for each key. */
  ghost predicate ItemsWritable(items: seq<Item>)
  {
    && (forall i :: 0 <= i < |items| ==>
          items[i].key != [] && |items[i].key| + 10 < U32_LIMIT && |items[i].value| < U32_LIMIT
            && !items[i].rtype.TxnFinished?)
    && (forall i, j :: 0 <= i < j < |items| ==> items[i].key != items[j].key)
  }

  /** The files and the handle after the records of a batch, one append after the other. */
  function BatchBytes(crc: Checksum, c: Cabinet, seqNo: nat, items: seq<Item>, limit: nat): Cabinet
  {
    if items == [] then c else
      var n := |items| - 1;
      AppendBytes(BatchBytes(crc, c, seqNo, items[..n], limit), Encode(crc, ItemRecord(seqNo, items[n])), limit)
  }

  /** Each item's position is the one its append notes. */
  ghost predicate BatchPlaced(positions: map<Bytes, Pos>, crc: Checksum, c: Cabinet, seqNo: nat, items: seq<Item>,
      limit: nat)
  {
    forall i :: 0 <= i < |items| ==>
      && items[i].key in positions
      && positions[items[i].key] ==
           AppendPos(BatchBytes(crc, c, seqNo, items[..i], limit), Encode(crc, ItemRecord(seqNo, items[i])), limit)
  }

  lemma {:induction false} NoBatchPlaced(crc: Checksum, c: Cabinet, seqNo: nat, items: seq<Item>, limit: nat)
    ensures BatchPlaced(map[], crc, c, seqNo, items[..0], limit) && BatchBytes(crc, c, seqNo, items[..0], limit) == c
  {
  }

  lemma {:induction false} PlacedNext(positions: map<Bytes, Pos>, crc: Checksum, c: Cabinet, seqNo: nat,
      items: seq<Item>, i: nat, limit: nat)
    requires ItemsWritable(items) && i < |items| && BatchPlaced(positions, crc, c, seqNo, items[..i], limit)
    ensures var at, enc := BatchBytes(crc, c, seqNo, items[..i], limit), Encode(crc, ItemRecord(seqNo, items[i]));
            && BatchBytes(crc, c, seqNo, items[..i + 1], limit) == AppendBytes(at, enc, limit)
            && BatchPlaced(positions[items[i].key := AppendPos(at, enc, limit)], crc, c, seqNo, items[..i + 1], limit)
  {
    hide Encode, AppendBytes, AppendPos;
    var at, enc := BatchBytes(crc, c, seqNo, items[..i], limit), Encode(crc, ItemRecord(seqNo, items[i]));
    var next, now := positions[items[i].key := AppendPos(at, enc, limit)], items[..i + 1];
    assert now[..i] == items[..i];
    forall j | 0 <= j <= i
      ensures now[j].key in next
      ensures next[now[j].key] == AppendPos(BatchBytes(crc, c, seqNo, now[..j], limit),
          Encode(crc, ItemRecord(seqNo, now[j])), limit)
    {
      if j < i {
        assert items[..i][j] == now[j] && items[..i][..j] == now[..j];
      }
    }
  }

  /** What the index maps to after the changes of a batch. */
  function BatchEntries(entries: map<Bytes, Pos>, items: seq<Item>, positions: map<Bytes, Pos>): map<Bytes, Pos>
    requires forall i :: 0 <= i < |items| ==> items[i].key in positions
  {
    if items == [] then entries else
      var item := items[|items| - 1];
      var before := BatchEntries(entries, items[..|items| - 1], positions);
      match item.rtype
      case Normal => before[item.key := positions[item.key]]
      case Delete => before - {item.key}
      case TxnFinished => before
  }

  lemma {:induction false} EntriesNext(entries: map<Bytes, Pos>, items: seq<Item>, positions: map<Bytes, Pos>, i: nat)
    requires ItemsWritable(items) && i < |items| && forall j :: 0 <= j < |items| ==> items[j].key in positions
    ensures var before := BatchEntries(entries, items[..i], positions);
            BatchEntries(entries, items[..i + 1], positions) ==
              if items[i].rtype.Normal? then before[items[i].key := positions[items[i].key]]
                else before - {items[i].key}
  {
    assert items[..i + 1][..i] == items[..i];
  }

  /** The positions are those of the records added to the log, in order. */
  ghost predicate Positioned(positions: map<Bytes, Pos>, items: seq<Item>, before: seq<Logged>, after: seq<Logged>)
  {
    && |before| + |items| <= |after|
    && forall i :: 0 <= i < |items| ==> items[i].key in positions && positions[items[i].key] == after[|before| + i].pos
  }

  lemma {:induction false} NothingPositioned(items: seq<Item>, log: seq<Logged>)
    ensures Positioned(map[], items[..0], log, log)
  {
  }

  lemma {:induction false} NoItems(o: Options, s: Store, seqNo: nat)
    ensures AppendItems(o, s, seqNo, []) == s
  {
  }

  lemma {:induction false} ItemStorable(seqNo: nat, items: seq<Item>, i: nat)
    requires ItemsWritable(items) && i < |items| && seqNo < U64_LIMIT
    ensures Storable(ItemRecord(seqNo, items[i])) && ItemRecord(seqNo, items[i]).key != []
  {
    EncodedKey(seqNo, items[i].key);
  }

  lemma {:induction false} PositionedAt(positions: map<Bytes, Pos>, items: seq<Item>, i: nat, before: seq<Logged>,
      after: seq<Logged>)
    requires Positioned(positions, items, before, after) && i < |items|
    ensures items[i].key in positions && positions[items[i].key] == after[|before| + i].pos
  {
  }

  lemma {:induction false} PositionedNext(positions: map<Bytes, Pos>, items: seq<Item>, i: nat, before: seq<Logged>,
      log: seq<Logged>, after: seq<Logged>)
    requires ItemsWritable(items) && i < |items| && Positioned(positions, items[..i], before, log)
    requires |log| == |before| + i && |after| == |log| + 1 && after[..|log|] == log
    ensures Positioned(positions[items[i].key := after[|log|].pos], items[..i + 1], before, after)
  {
    var next := positions[items[i].key := after[|log|].pos];
    forall j | 0 <= j <= i ensures items[j].key in next && next[items[j].key] == after[|before| + j].pos {
      if j < i {
        assert items[..i][j] == items[j];
        assert after[..|log|][|before| + j] == log[|before| + j];
      }
    }
  }

  lemma {:induction false} AppendOne(o: Options, s: Store, seqNo: nat, items: seq<Item>, i: nat)
    requires i < |items|
    ensures var t := AppendItems(o, s, seqNo, items[..i]);
            && AppendItems(o, s, seqNo, items[..i + 1]) == Append(o, t, ItemRecord(seqNo, items[i]))
            && |t.log| == |s.log| + i
            && |Append(o, t, ItemRecord(seqNo, items[i])).log| == |t.log| + 1
            && Append(o, t, ItemRecord(seqNo, items[i])).log[..|t.log|] == t.log
  {
    hide Size, Place;
    assert items[..i + 1][..i] == items[..i];
  }

  lemma {:induction false} InstallNext(s: Store, items: seq<Item>, i: nat, at: nat)
    requires i < |items| && at + |items| <= |s.log|
    ensures var t := InstallItems(s, items[..i], at);
            InstallItems(s, items[..i + 1], at) ==
              match items[i].rtype
              case Normal => PutIndex(t, items[i].key, Slot(s.log[at + i].pos, items[i].value))
              case Delete => DropIndex(t, items[i].key)
              case TxnFinished => t
  {
    assert items[..i + 1][..i] == items[..i];
  }

  lemma {:induction false} Overwrite(files: map<nat, Bytes>, id: nat, enc: Bytes)
    ensures var touched := files[id := Contents(files, id)];
            touched[id := Contents(touched, id) + enc] == files[id := Contents(files, id) + enc]
  {
  }

  lemma {:induction false} EncodedKey(seqNo: nat, key: Bytes)
    requires seqNo < U64_LIMIT
    ensures EncodeKey(seqNo, key) != [] && |EncodeKey(seqNo, key)| <= 10 + |key|
    ensures seqNo == NON_TRANSACTION ==> |EncodeKey(seqNo, key)| == 1 + |key|
  {
    Varint.EncodedLength(seqNo);
  }

  /** What an append leaves alone. */
  lemma {:induction false} AppendFields(o: Options, s: Store, rec: Record)
    ensures var t := Append(o, s, rec);
            && t.log != [] && t.handle == t.active
            && t == s.(log := t.log, active := t.active, handle := t.handle, writeOff := t.writeOff, synced := t.synced,
              bytesWrite := t.bytesWrite)
            && t.bytesWrite == (if NeedSync(o, s.bytesWrite + Size(rec)) then 0 else s.bytesWrite + Size(rec))
            && LastPos(t).size == Size(rec)
  {
    hide Size, Place;
  }

  lemma {:induction false} PlacesKeys(index: Index)
    ensures Places(index).Keys == index.Keys
  {
  }

  /** Through a handle on an older file a sync has nothing to do: what is not on disk is in the newest file. */
  /** With every record synced every byte of every file is durable. */
  lemma {:induction false} CleanDisk(crc: Checksum, files: map<nat, Bytes>, durable: map<nat, nat>, s: Store)
    requires Refines(crc, files, durable, s) && s.synced == |s.log|
    ensures forall f :: f in files ==> f in durable && durable[f] == |files[f]|
  {
    hide Laid, SplitAt, EncodeAll, FileOf, AllReadable, Newest, FilesAre;
    assert s.log[..|s.log|] == s.log;
  }

  lemma {:induction false} SyncRefines(crc: Checksum, files: map<nat, Bytes>, durable: map<nat, nat>, s: Store)
    requires Refines(crc, files, durable, s) && s.handle in files
    ensures Refines(crc, files, durable[s.handle := |files[s.handle]|], Machine.Sync(s))
  {
    hide Laid, SplitAt, EncodeAll, FileOf;
    var durable' := durable[s.handle := |files[s.handle]|];
    assert s.log[..|s.log|] == s.log;
    if s.handle != s.active {
      DurableOthers(crc, files, durable, s, s.handle);
      assert durable' == durable;
    } else {
      forall f | f in durable' ensures durable'[f] == |EncodeAll(crc, FileOf(s.log, f))| {
        if f != s.active {
          DurableOthers(crc, files, durable, s, f);
        }
      }
    }
  }
}
