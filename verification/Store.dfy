/**
 * The storage engine as a state machine: what each operation, each step of a merge, the end of a process, a power
 * failure and a reopen do to the log, the index and the counters. Every public operation is one atomic step.
 */
module Store {
  import opened Wire
  import opened LogRecord
  import opened Replay
  import opened Layout

  /** How `delete` writes the key of its tombstone: as the code does, or with the sequence number replay strips. */
  datatype TombstoneForm = RawKey | SeqKey

  /**
   * Which data file a reopened engine goes on writing to: the code takes the one with the smallest id, the comment
   * where the files are opened means the last one.
   */
  datatype ActiveChoice = OldestFile | NewestFile

  datatype Options = Options(dataFileSize: nat, syncWrites: bool, bytesPerSync: nat, mmapAtStartup: bool,
                             tombstone: TombstoneForm, activeOnOpen: ActiveChoice)

  datatype Hint = Hint(key: Bytes, pos: Pos)

  /** The merge directory: absent, or holding rewritten records, their hints and perhaps the finish marker. */
  datatype MergeDir =
    | NoMerge
    | Merge(nonMerge: nat, next: nat, out: seq<Logged>, at: Cursor, hints: seq<Hint>, finished: bool)

  /**
   * The first `synced` records of the log were put on disk by a sync; a power failure can take the others. `base` and
   * `hint` come from the last installed merge. `active` is the newest data file and `handle` the file the engine's
   * active handle is on.
   */
  datatype Store = Store(
    log: seq<Logged>, active: nat, handle: nat, writeOff: nat, synced: nat, bytesWrite: nat,
    index: Index, seqNo: nat, reclaim: nat,
    base: nat, hint: seq<Hint>, merge: MergeDir)

  const INIT := Store([], 0, 0, 0, 0, 0, map[], 1, 0, 0, [], NoMerge)

  const TXN_FIN_KEY: Bytes := [116, 120, 110, 45, 102, 105, 110]

  // ---- Appending ----

  /** The oldest data file: a record of the rewritten files, or the first file the last installed merge left alone. */
  function OldestId(s: Store): nat
  {
    if s.log != [] && s.log[0].pos.fid < s.base then s.log[0].pos.fid else s.base
  }

  /** The handle is where the model writes. Otherwise an append goes elsewhere: module Directory says where. */
  predicate OnNewest(s: Store)
  {
    s.handle == s.active
  }

  /** `append_log_record`, while the active handle is on the newest file. */
  function Append(o: Options, s: Store, rec: Record): Store
  {
    var size := Size(rec);
    var at := Place(Cursor(s.active, s.writeOff), size, o.dataFileSize);
    var log := s.log + [Logged(rec, Pos(at.fid, at.off, size))];
    var written := s.bytesWrite + size;
    var needSync := o.syncWrites || (o.bytesPerSync > 0 && written >= o.bytesPerSync);
    s.(log := log,
       active := at.fid,
       handle := at.fid,
       writeOff := at.off + size,
       synced := if needSync then |log| else if at.fid != s.active then |s.log| else s.synced,
       bytesWrite := if needSync then 0 else written)
  }

  function LastPos(s: Store): Pos
    requires s.log != []
  {
    s.log[|s.log| - 1].pos
  }

  // ---- The index ----

  function IndexedSize(index: Index, key: Bytes): nat
  {
    if key in index then index[key].pos.size else 0
  }

  /** `index.put` and the bytes of the entry it replaces. */
  function PutIndex(s: Store, key: Bytes, slot: Slot): Store
  {
    s.(index := s.index[key := slot], reclaim := s.reclaim + IndexedSize(s.index, key))
  }

  /** `index.delete` and the bytes of the entry it removes. */
  function DropIndex(s: Store, key: Bytes): Store
  {
    s.(index := s.index - {key}, reclaim := s.reclaim + IndexedSize(s.index, key))
  }

  // ---- Put and delete ----

  function Put(o: Options, s: Store, key: Bytes, value: Bytes): Store
  {
    if key == [] then s else
      var t := Append(o, s, Record(EncodeKey(NON_TRANSACTION, key), value, Normal));
      PutIndex(t, key, Slot(LastPos(t), value))
  }

  function TombstoneKey(o: Options, key: Bytes): Bytes
  {
    if o.tombstone.RawKey? then key else EncodeKey(NON_TRANSACTION, key)
  }

  function DeleteKey(o: Options, s: Store, key: Bytes): Store
  {
    if key == [] || key !in s.index then s else
      var t := Append(o, s, Record(TombstoneKey(o, key), [], RecordType.Delete));
      DropIndex(t.(reclaim := t.reclaim + LastPos(t).size), key)
  }

  // ---- Batches ----

  /** One pending write of a batch. */
  datatype Item = Item(key: Bytes, value: Bytes, rtype: RecordType)

  function ItemRecord(seqNo: nat, item: Item): Record
  {
    Record(EncodeKey(seqNo, item.key), item.value, item.rtype)
  }

  function FinishRecord(seqNo: nat): Record
  {
    Record(EncodeKey(seqNo, TXN_FIN_KEY), [], TxnFinished)
  }

  function AppendItems(o: Options, s: Store, seqNo: nat, items: seq<Item>): (t: Store)
    ensures |t.log| == |s.log| + |items|
  {
    if items == [] then s
    else Append(o, AppendItems(o, s, seqNo, items[..|items| - 1]), ItemRecord(seqNo, items[|items| - 1]))
  }

  /** The index changes a commit makes once all its records are written. */
  function InstallItems(s: Store, items: seq<Item>, at: nat): Store
    requires at + |items| <= |s.log|
  {
    if items == [] then s else
      var t := InstallItems(s, items[..|items| - 1], at);
      var item := items[|items| - 1];
      match item.rtype
      case Normal => PutIndex(t, item.key, Slot(s.log[at + |items| - 1].pos, item.value))
      case Delete => DropIndex(t, item.key)
      case TxnFinished => t
  }

  /** The log a commit leaves before it touches the index. */
  function WriteBatch(o: Options, s: Store, items: seq<Item>): (t: Store)
    ensures |t.log| == |s.log| + |items| + 1
  {
    Append(o, AppendItems(o, s.(seqNo := s.seqNo + 1), s.seqNo, items), FinishRecord(s.seqNo))
  }

  /** What a commit leaves on disk before it touches the index. */
  function Written(o: Options, s: Store, items: seq<Item>, sync: bool): (t: Store)
    ensures |t.log| == |s.log| + |items| + 1
  {
    if sync then Sync(WriteBatch(o, s, items)) else WriteBatch(o, s, items)
  }

  function Commit(o: Options, s: Store, items: seq<Item>, sync: bool, maxNum: nat): Store
  {
    if items == [] || |items| > maxNum then s else InstallItems(Written(o, s, items, sync), items, |s.log|)
  }

  /** A commit that stopped after writing these records: an I/O error, or the process died. */
  function TornCommit(o: Options, s: Store, items: seq<Item>): Store
  {
    AppendItems(o, s.(seqNo := s.seqNo + 1), s.seqNo, items)
  }

  /** `sync` reaches the file the handle is on; the files before the newest one are on disk already. */
  function Sync(s: Store): Store
  {
    if OnNewest(s) then s.(synced := |s.log|) else s
  }

  // ---- Merge ----

  /** `is_empty_engine`. */
  predicate EmptyEngine(s: Store)
  {
    s.writeOff == 0 && OldestId(s) == s.active
  }

  /**
   * `merge` up to `ratate_merge_files`: an old merge directory is dropped, the active file becomes read-only; nothing
   * if empty.
   */
  function MergeBegin(s: Store): Store
  {
    if EmptyEngine(s) then s else
      s.(active := s.active + 1, handle := s.active + 1, writeOff := 0, synced := |s.log|,
         merge := Merge(s.active + 1, 0, [], Cursor(0, 0), [], false))
  }

  /** The test that decides whether the record is still the live one for its key. */
  predicate IsLive(index: Index, l: Logged)
  {
    var key := ViewOf(l).update.key;
    key in index && index[key].pos.fid == l.pos.fid && index[key].pos.offset == l.pos.offset
  }

  function MergedRecord(l: Logged): Record
  {
    Record(EncodeKey(NON_TRANSACTION, ViewOf(l).update.key), l.rec.value, l.rec.rtype)
  }

  /** The merge engine appends the rewritten record by the same rotation rule, and its hint is noted. */
  function CopyRecord(o: Options, m: MergeDir, l: Logged): MergeDir
    requires m.Merge?
  {
    var rec := MergedRecord(l);
    var at := Place(m.at, Size(rec), o.dataFileSize);
    var pos := Pos(at.fid, at.off, Size(rec));
    m.(next := m.next + 1,
       out := m.out + [Logged(rec, pos)],
       at := Cursor(at.fid, at.off + Size(rec)),
       hints := m.hints + [Hint(ViewOf(l).update.key, pos)])
  }

  /**
   * One record of the source files: copied with its hint if live, skipped otherwise; a key that fails to parse ends
   * the merge.
   */
  function MergeStep(o: Options, s: Store): Store
  {
    if !s.merge.Merge? || s.merge.finished || s.merge.next >= SplitAt(s.log, s.merge.nonMerge) then s else
      var m, l := s.merge, s.log[s.merge.next];
      if !ParseKey(l.rec.key).ParsedKey? then s
      else s.(merge := if IsLive(s.index, l) then CopyRecord(o, m, l) else m.(next := m.next + 1))
  }

  /** The finish marker, written once every source record has been looked at. */
  function MergeFinish(s: Store): Store
  {
    if s.merge.Merge? && s.merge.next == SplitAt(s.log, s.merge.nonMerge) then s.(merge := s.merge.(finished := true))
      else s
  }

  // ---- Crash and reopen ----

  /** What is on disk once merged files, synced before the marker was written, replace the first `before` records. */
  function SyncedAfter(synced: nat, before: nat, merged: nat): nat
  {
    if synced <= before then merged else merged + (synced - before)
  }

  /** `load_merge_files`: a finished merge replaces the files below its marker, an unfinished one is discarded. */
  function Install(s: Store): Store
  {
    if s.merge.Merge? && s.merge.finished then
      var c := SplitAt(s.log, s.merge.nonMerge);
      s.(log := s.merge.out + s.log[c..], synced := SyncedAfter(s.synced, c, |s.merge.out|),
         base := s.merge.nonMerge, hint := s.merge.hints, merge := NoMerge)
    else s.(merge := NoMerge)
  }

  /** `load_index_from_hint_file`; the value of a slot is whatever the log holds at the hinted place. */
  function HintImage(log: seq<Logged>, hints: seq<Hint>): Image
  {
    if hints == [] then map[] else
      var h := hints[|hints| - 1];
      var found := LookUp(log, h.pos.fid, h.pos.offset);
      HintImage(log, hints[..|hints| - 1])[h.key :=
        Some(Slot(h.pos, if found.Some? then found.value.rec.value else []))]
  }

  /** The records of the files at or above the marker. */
  function ToScan(s: Store): seq<Logged>
  {
    s.log[SplitAt(s.log, s.base)..]
  }

  /**
   * The records a scan sees. Every file but the newest may be memory-mapped, and the map hides a last record shorter
   * than the header buffer; `next` is the file of the record that follows, or the newest file.
   */
  function Seen(mapped: bool, log: seq<Logged>, next: nat): seq<Logged>
  {
    if log == [] then [] else
      var l := log[|log| - 1];
      Seen(mapped, log[..|log| - 1], l.pos.fid) +
      if mapped && l.pos.fid < next && l.pos.size < MAX_HEADER_SIZE then [] else [l]
  }

  /** The file the record after record `i` is in; after the last record, the newest file. */
  function NextFile(log: seq<Logged>, i: nat, newest: nat): nat
    requires i < |log|
  {
    if i + 1 < |log| then log[i + 1].pos.fid else newest
  }

  /** Every file but the newest ends with a record the memory map shows. */
  predicate TailsLong(log: seq<Logged>, newest: nat)
  {
    forall i :: 0 <= i < |log| && log[i].pos.fid < NextFile(log, i, newest) ==> log[i].pos.size >= MAX_HEADER_SIZE
  }

  /**
   * What a caller can check before opening: files are not mapped, or no file to scan but the newest has a short tail.
   */
  predicate ScanComplete(o: Options, disk: Store)
  {
    !o.mmapAtStartup || TailsLong(ToScan(Install(disk)), disk.active)
  }

  /** Hints first, then what the scan of the other files sees. */
  function Scan(o: Options, s: Store): State
  {
    RunFrom(State(HintImage(s.log, s.hint), map[], 0, 0), Seen(o.mmapAtStartup, ToScan(s), s.active))
  }

  /** `open`; None where a key fails to parse. Nothing is synced, and the count of bytes written starts again at 0. */
  function Open(o: Options, disk: Store): Option<Store>
  {
    var s := Install(disk);
    if !Parses(Seen(o.mmapAtStartup, ToScan(s), s.active)) then None else
      var st := Scan(o, s);
      Some(s.(handle := if o.activeOnOpen.OldestFile? then OldestId(s) else s.active,
              writeOff := EndOffset(s.log, s.active), bytesWrite := 0,
              index := Live(st.image), seqNo := if st.maxSeq > 0 then st.maxSeq + 1 else 1, reclaim := st.reclaim))
  }

  /** What a power failure leaves: the first `keep` records, which are then all on disk. */
  function Cut(s: Store, keep: nat): Store
    requires keep <= |s.log|
  {
    s.(log := s.log[..keep], synced := keep)
  }

  /**
   * The power fails and the engine is opened again. After a process that merely ended, `Open` finds all that was
   * written.
   */
  function Crash(o: Options, s: Store, keep: nat): Option<Store>
    requires keep <= |s.log|
  {
    Open(o, Cut(s, keep))
  }
}
