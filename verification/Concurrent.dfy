/**
 * Many threads at once. The locks make an append one step and an index update another, and nothing joins the two: any
 * thread may run in between. What still holds over every interleaving, and what does not.
 */
module Concurrent {
  import opened Wire
  import opened LogRecord
  import opened Replay
  import opened Layout
  import opened Store
  import opened Invariant
  import opened DataFile
  import opened Directory
  import opened Db
  import Varint

  /** What a thread holds on its stack between two steps. */
  datatype Thread =
    | Idle
    | Putting(key: Bytes, slot: Slot)
    | Deleting(key: Bytes, appended: bool)
    | Committing(seqNo: nat, items: seq<Item>, slots: seq<Slot>, finished: bool, updated: nat)
    | Reading(key: Bytes, slot: Slot)

  /** The engine and its data files; `written` remembers every key and value there was or that a put has logged. */
  datatype World = World(store: Store, files: map<nat, Bytes>, threads: map<nat, Thread>, written: set<(Bytes, Bytes)>)

  datatype Action =
    | PutAppend(key: Bytes, value: Bytes)
    | PutUpdate
    | DeleteCheck(key: Bytes)
    | DeleteAppend
    | DeleteUpdate
    | CommitBegin(items: seq<Item>)
    | CommitAppend
    | CommitFinish
    | CommitSync
    | CommitUpdate
    | Rotate
    | GetIndex(key: Bytes)
    | GetRead

  /** An engine nobody is using yet. */
  function Opened(s: Store, files: map<nat, Bytes>): World
  {
    World(s, files, map[], set k | k in s.index :: (k, s.index[k].value))
  }

  function ThreadOf(w: World, t: nat): Thread
  {
    if t in w.threads then w.threads[t] else Idle
  }

  /** `batch_commit_lock`. */
  predicate Locked(w: World)
  {
    exists t :: t in w.threads && w.threads[t].Committing?
  }

  /** Keys and values within the lengths a record header can hold; the guards of the operations themselves. */
  predicate Fits(key: Bytes, value: Bytes)
  {
    key != [] && |key| + 10 < U32_LIMIT && |value| < U32_LIMIT
  }

  predicate BatchFits(items: seq<Item>)
  {
    forall i :: 0 <= i < |items| ==> Fits(items[i].key, items[i].value) && !items[i].rtype.TxnFinished?
  }

  function Now(w: World, t: nat, s: Store, th: Thread): World
  {
    w.(store := s, threads := w.threads[t := th])
  }

  /** `append_log_record`, on the log and on the bytes of the files. */
  function Logging(o: Options, crc: Checksum, w: World, rec: Record): World
  {
    var c := Cabinet(w.files, w.store.handle, w.store.writeOff);
    w.(store := Append(o, w.store, rec), files := AppendBytes(c, Encode(crc, rec), o.dataFileSize).files)
  }

  /** The rotation at the start of a merge. */
  function Rotating(w: World): World
  {
    if EmptyEngine(w.store) then w
    else w.(store := MergeBegin(w.store), files := w.files[w.store.active + 1 := Contents(w.files, w.store.active + 1)])
  }

  /** One step of one thread; a step that is not possible in its state does nothing. */
  function Do(o: Options, crc: Checksum, w: World, t: nat, a: Action): World
  {
    var s := w.store;
    match (a, ThreadOf(w, t))
    case (PutAppend(key, value), Idle) =>
      if !Fits(key, value) then w else
        var v := Logging(o, crc, w, Record(EncodeKey(NON_TRANSACTION, key), value, Normal));
        Now(v, t, v.store, Putting(key, Slot(LastPos(v.store), value))).(written := w.written + {(key, value)})
    case (PutUpdate, Putting(key, slot)) =>
      Now(w, t, PutIndex(s, key, slot), Idle)
    case (DeleteCheck(key), Idle) =>
      if !Fits(key, []) || key !in s.index then w else Now(w, t, s, Deleting(key, false))
    case (DeleteAppend, Deleting(key, false)) =>
      var v := Logging(o, crc, w, Record(TombstoneKey(o, key), [], RecordType.Delete));
      Now(v, t, v.store.(reclaim := v.store.reclaim + LastPos(v.store).size), Deleting(key, true))
    case (DeleteUpdate, Deleting(key, true)) =>
      Now(w, t, DropIndex(s, key), Idle)
    case (CommitBegin(items), Idle) =>
      if items == [] || !BatchFits(items) || Locked(w) || s.seqNo >= U64_LIMIT then w
      else Now(w, t, s.(seqNo := s.seqNo + 1), Committing(s.seqNo, items, [], false, 0))
    case (CommitAppend, Committing(q, items, slots, false, 0)) =>
      if |slots| >= |items| || q >= U64_LIMIT then w else
        var item := items[|slots|];
        var v := Logging(o, crc, w, ItemRecord(q, item));
        Now(v, t, v.store, Committing(q, items, slots + [Slot(LastPos(v.store), item.value)], false, 0))
          .(written := if item.rtype.Normal? then w.written + {(item.key, item.value)} else w.written)
    case (CommitFinish, Committing(q, items, slots, false, 0)) =>
      if |slots| != |items| || q >= U64_LIMIT then w
      else
        var v := Logging(o, crc, w, FinishRecord(q));
        Now(v, t, v.store, Committing(q, items, slots, true, 0))
    case (CommitSync, Committing(q, items, slots, true, 0)) =>
      Now(w, t, Sync(s), Committing(q, items, slots, true, 0))
    case (CommitUpdate, Committing(q, items, slots, true, n)) =>
      if n >= |items| || n >= |slots| then Now(w, t, s, Idle) else
        var item := items[n];
        Now(w, t, if item.rtype.Normal? then PutIndex(s, item.key, slots[n]) else DropIndex(s, item.key),
            Committing(q, items, slots, true, n + 1))
    case (Rotate, Idle) =>
      Now(Rotating(w), t, Rotating(w).store, Idle)
    case (GetIndex(key), Idle) =>
      if key !in s.index then w else Now(w, t, s, Reading(key, s.index[key]))
    case (GetRead, Reading(_, _)) =>
      Now(w, t, s, Idle)
    case _ => w
  }

  datatype Move = Move(thread: nat, action: Action)

  function Interleave(o: Options, crc: Checksum, w: World, moves: seq<Move>): World
  {
    if moves == [] then w
    else Do(o, crc, Interleave(o, crc, w, moves[..|moves| - 1]), moves[|moves| - 1].thread, moves[|moves| - 1].action)
  }

  // ---- What every interleaving keeps ----

  /** The slot was put for the key by a record of the log, and that was asked for. */
  ghost predicate Held(w: World, key: Bytes, slot: Slot)
  {
    Known(w.store.log, Update(key, Normal, slot)) && (key, slot.value) in w.written
  }

  ghost predicate ThreadOk(w: World, th: Thread)
  {
    match th
    case Putting(key, slot) => Held(w, key, slot)
    case Reading(key, slot) => Held(w, key, slot)
    case Deleting(key, _) => Fits(key, [])
    case Committing(_, items, slots, _, _) =>
      && |slots| <= |items| && BatchFits(items)
      && forall i :: 0 <= i < |slots| && items[i].rtype.Normal? ==> Held(w, items[i].key, slots[i])
    case Idle => true
  }

  /** The files hold the log, and the handle is where it ends. */
  ghost predicate FilesOk(crc: Checksum, files: map<nat, Bytes>, s: Store)
  {
    && Laid(s.log, s.active, s.writeOff) && AllReadable(s.log)
    && Holds(crc, files, s.log) && Newest(files, s.active) && OnNewest(s)
  }

  ghost predicate Good(crc: Checksum, w: World)
  {
    && FilesOk(crc, w.files, w.store)
    && (forall k :: k in w.store.index ==> Held(w, k, w.store.index[k]))
    && (forall t :: t in w.threads ==> ThreadOk(w, w.threads[t]))
  }

  /** The log and the memory of what was written only grow. */
  predicate Later(w: World, v: World)
  {
    w.store.log <= v.store.log && w.written <= v.written
  }

  lemma {:induction false} HeldLater(w: World, v: World, key: Bytes, slot: Slot)
    requires Held(w, key, slot) && Later(w, v)
    ensures Held(v, key, slot)
  {
    hide ViewOf;
    assert v.store.log == w.store.log + v.store.log[|w.store.log|..];
    KnownGrows(w.store.log, v.store.log[|w.store.log|..], Update(key, Normal, slot));
  }

  lemma {:induction false} ThreadLater(w: World, v: World, th: Thread)
    requires ThreadOk(w, th) && Later(w, v)
    ensures ThreadOk(v, th)
  {
    hide Held, Later, BatchFits, Fits;
    match th
    case Putting(key, slot) => HeldLater(w, v, key, slot);
    case Reading(key, slot) => HeldLater(w, v, key, slot);
    case Committing(_, items, slots, _, _) =>
      forall i | 0 <= i < |slots| && items[i].rtype.Normal? ensures Held(v, items[i].key, slots[i]) {
        HeldLater(w, v, items[i].key, slots[i]);
      }
    case _ =>
  }

  /** A step that grows the log, leaves every index entry old or held, and leaves the thread with something it holds. */
  lemma {:induction false} GoodStep(crc: Checksum, w: World, v: World, t: nat, th: Thread)
    requires Good(crc, w) && Later(w, v) && FilesOk(crc, v.files, v.store)
    requires v.threads == w.threads[t := th] && ThreadOk(v, th)
    requires forall k :: k in v.store.index ==>
      (k in w.store.index && v.store.index[k] == w.store.index[k]) || Held(v, k, v.store.index[k])
    ensures Good(crc, v)
  {
    hide Held, Later, FilesOk, ThreadOk;
    forall k | k in v.store.index ensures Held(v, k, v.store.index[k]) {
      if k in w.store.index && v.store.index[k] == w.store.index[k] {
        HeldLater(w, v, k, w.store.index[k]);
      }
    }
    forall u | u in v.threads ensures ThreadOk(v, v.threads[u]) {
      if u != t {
        ThreadLater(w, v, w.threads[u]);
      }
    }
  }

  // ---- The steps ----

  lemma {:induction false} AppendFiles(o: Options, crc: Checksum, w: World, rec: Record)
    requires FilesOk(crc, w.files, w.store) && Storable(rec) && rec.key != []
    ensures var v := Logging(o, crc, w, rec);
            && FilesOk(crc, v.files, v.store) && v.store == Append(o, w.store, rec)
            && w.store.log <= v.store.log && v.store.index == w.store.index
            && v.threads == w.threads && v.written == w.written
  {
    hide Size, Storable, Laid, Place, Holds, AllReadable, Newest, AppendBytes, Encode, Append;
    AppendHolds(o, crc, w.files, w.store, rec);
    AppendFields(o, w.store, rec);
    AppendKeeps(o, w.store, rec);
  }

  lemma {:induction false} KeyStorable(q: nat, key: Bytes, value: Bytes, rtype: RecordType)
    requires q < U64_LIMIT && |key| + 10 < U32_LIMIT && |value| < U32_LIMIT
    ensures Storable(Record(EncodeKey(q, key), value, rtype)) && EncodeKey(q, key) != []
  {
    Varint.EncodedLength(q);
  }

  /** What an append of a put leaves in the log. */
  lemma {:induction false} AppendKnown(o: Options, s: Store, q: nat, key: Bytes, value: Bytes)
    requires q < U64_LIMIT
    ensures var u := Append(o, s, Record(EncodeKey(q, key), value, Normal));
            Known(u.log, Update(key, Normal, Slot(LastPos(u), value)))
  {
    hide Append, ViewOf, EncodeKey;
    AppendView(o, s, q, key, value, Normal);
    var u := Append(o, s, Record(EncodeKey(q, key), value, Normal));
    assert ViewOf(u.log[|s.log|]).update == Update(key, Normal, Slot(LastPos(u), value));
  }

  lemma {:induction false} PutAppendGood(o: Options, crc: Checksum, w: World, t: nat, key: Bytes, value: Bytes)
    requires Good(crc, w) && ThreadOf(w, t).Idle? && Fits(key, value)
    ensures Good(crc, Do(o, crc, w, t, PutAppend(key, value)))
  {
    hide Append, FilesOk, Known, EncodeKey, Storable;
    var s, v := w.store, Do(o, crc, w, t, PutAppend(key, value));
    KeyStorable(NON_TRANSACTION, key, value, Normal);
    AppendFiles(o, crc, w, Record(EncodeKey(NON_TRANSACTION, key), value, Normal));
    AppendKnown(o, s, NON_TRANSACTION, key, value);
    GoodStep(crc, w, v, t, v.threads[t]);
  }

  lemma {:induction false} CommitAppendGood(o: Options, crc: Checksum, w: World, t: nat)
    requires Good(crc, w) && t in w.threads
    ensures Good(crc, Do(o, crc, w, t, CommitAppend))
  {
    hide Append, FilesOk, Known, EncodeKey, Storable;
    var s, v, th := w.store, Do(o, crc, w, t, CommitAppend), w.threads[t];
    if th.Committing? && !th.finished && th.updated == 0 && |th.slots| < |th.items| && th.seqNo < U64_LIMIT {
      var item := th.items[|th.slots|];
      KeyStorable(th.seqNo, item.key, item.value, item.rtype);
      AppendFiles(o, crc, w, ItemRecord(th.seqNo, item));
      AppendKnown(o, s, th.seqNo, item.key, item.value);
      var slots := v.threads[t].slots;
      ThreadLater(w, v, th);
      forall i | 0 <= i < |slots| && th.items[i].rtype.Normal? ensures Held(v, th.items[i].key, slots[i]) {
      }
      GoodStep(crc, w, v, t, v.threads[t]);
    }
  }

  lemma {:induction false} OtherAppendGood(o: Options, crc: Checksum, w: World, t: nat, a: Action)
    requires Good(crc, w) && t in w.threads && (a.DeleteAppend? || a.CommitFinish?)
    ensures Good(crc, Do(o, crc, w, t, a))
  {
    hide Append, FilesOk, Known, EncodeKey, Storable, Held;
    var s, v, th := w.store, Do(o, crc, w, t, a), w.threads[t];
    if v != w {
      match a {
      case DeleteAppend =>
        KeyStorable(NON_TRANSACTION, th.key, [], RecordType.Delete);
        RawStorable(th.key);
        AppendFiles(o, crc, w, Record(TombstoneKey(o, th.key), [], RecordType.Delete));
        FilesIndex(crc, v.files, Append(o, s, Record(TombstoneKey(o, th.key), [], RecordType.Delete)), v.store);
      case CommitFinish =>
        KeyStorable(th.seqNo, TXN_FIN_KEY, [], TxnFinished);
        AppendFiles(o, crc, w, FinishRecord(th.seqNo));
        ThreadLater(w, v, th);
      case _ =>
      }
      GoodStep(crc, w, v, t, v.threads[t]);
    }
  }

  lemma {:induction false} RawStorable(key: Bytes)
    requires Fits(key, [])
    ensures Storable(Record(key, [], RecordType.Delete))
  {
  }

  lemma {:induction false} FilesIndex(crc: Checksum, files: map<nat, Bytes>, s: Store, v: Store)
    requires FilesOk(crc, files, s)
    requires v == s.(index := v.index, reclaim := v.reclaim, seqNo := v.seqNo, synced := v.synced)
    ensures FilesOk(crc, files, v)
  {
  }

  /** The steps that leave the log alone. */
  lemma {:induction false} QuietGood(o: Options, crc: Checksum, w: World, t: nat, a: Action)
    requires Good(crc, w)
    requires !a.PutAppend? && !a.DeleteAppend? && !a.CommitAppend? && !a.CommitFinish? && !a.Rotate?
    ensures Good(crc, Do(o, crc, w, t, a))
  {
    hide FilesOk, Known, Locked;
    var v := Do(o, crc, w, t, a);
    if v != w {
      FilesIndex(crc, w.files, w.store, v.store);
      GoodStep(crc, w, v, t, v.threads[t]);
    }
  }

  lemma {:induction false} RotateGood(o: Options, crc: Checksum, w: World, t: nat)
    requires Good(crc, w) && ThreadOf(w, t).Idle?
    ensures Good(crc, Do(o, crc, w, t, Rotate))
  {
    hide Known, Held, EmptyEngine, FilesOk, Laid, Holds, AllReadable, Newest;
    var v := Do(o, crc, w, t, Rotate);
    RotatingOk(crc, w);
    GoodStep(crc, w, v, t, Idle);
  }

  lemma {:induction false} RotatingOk(crc: Checksum, w: World)
    requires FilesOk(crc, w.files, w.store)
    ensures var v := Rotating(w);
            && FilesOk(crc, v.files, v.store) && v.store.log == w.store.log && v.store.index == w.store.index
            && v.threads == w.threads && v.written == w.written
  {
    hide Laid, Holds, AllReadable, EmptyEngine, Contents, Newest;
    var s := w.store;
    LaidLater(s.log, s.active, s.writeOff, s.active + 1);
    EmptyNext(crc, w.files, s.log, s.active, s.writeOff);
  }

  /**
   * Whatever the interleaving, from any engine whose index vouches for its log: every index entry and everything a
   * thread holds was put for its key by a record of the log, and the files hold the log.
   */
  lemma {:induction false} InterleaveGood(o: Options, crc: Checksum, w: World, moves: seq<Move>)
    requires Good(crc, w)
    ensures Good(crc, Interleave(o, crc, w, moves))
  {
    hide Good, Do, Fits;
    if moves != [] {
      InterleaveGood(o, crc, w, moves[..|moves| - 1]);
      StepGood(o, crc, Interleave(o, crc, w, moves[..|moves| - 1]), moves[|moves| - 1].thread,
        moves[|moves| - 1].action);
    }
  }

  lemma {:induction false} OpenedGood(crc: Checksum, files: map<nat, Bytes>, durable: map<nat, nat>, s: Store)
    requires Refines(crc, files, durable, s) && OnNewest(s) && Sound(s.log, s.index)
    ensures Good(crc, Opened(s, files))
  {
    hide Laid, Holds, AllReadable, Newest, DurableIs, FilesAre, Known, SplitAt;
  }

  lemma {:induction false} StepGood(o: Options, crc: Checksum, w: World, t: nat, a: Action)
    requires Good(crc, w)
    ensures Good(crc, Do(o, crc, w, t, a))
  {
    if Do(o, crc, w, t, a) != w {
      match a
      case PutAppend(key, value) => PutAppendGood(o, crc, w, t, key, value);
      case DeleteAppend => OtherAppendGood(o, crc, w, t, a);
      case CommitAppend => CommitAppendGood(o, crc, w, t);
      case CommitFinish => OtherAppendGood(o, crc, w, t, a);
      case Rotate => RotateGood(o, crc, w, t);
      case _ => QuietGood(o, crc, w, t, a);
    }
  }

  /**
   * A get that found an entry, however long ago: the file is there, the bytes decode, the record is no tombstone, and
   * the value is one that was there for this very key at the start or was put for it since.
   */
  lemma {:induction false} GetNeverFails(o: Options, crc: Checksum, files: map<nat, Bytes>, durable: map<nat, nat>,
      s: Store, moves: seq<Move>, t: nat)
    requires Refines(crc, files, durable, s) && OnNewest(s) && Sound(s.log, s.index)
    requires ThreadOf(Interleave(o, crc, Opened(s, files), moves), t).Reading?
    ensures var w := Interleave(o, crc, Opened(s, files), moves);
            var th := ThreadOf(w, t);
            Fetch(crc, w.files, th.slot.pos) == Ok(th.slot.value) && (th.key, th.slot.value) in w.written
  {
    hide Interleave, Fetch, Holds, Laid, Known, AllReadable, Refines, Newest;
    OpenedGood(crc, files, durable, s);
    InterleaveGood(o, crc, Opened(s, files), moves);
    var w := Interleave(o, crc, Opened(s, files), moves);
    var th := ThreadOf(w, t);
    assert ThreadOk(w, th);
    FetchSound(crc, w.files, w.store.log, w.store.active, w.store.writeOff, map[th.key := th.slot], th.key);
  }

  // ---- What they do not keep ----

  /**
   * Two puts of one key, the second logged later but entered into the index first: whatever the engine held, if its
   * index was that of its log before, it is not any more.
   */
  lemma {:induction false} PutsCross(o: Options, crc: Checksum, w: World, key: Bytes, v1: Bytes, v2: Bytes)
    requires Fits(key, v1) && Fits(key, v2) && IndexOk(w.store) && ThreadOf(w, 1).Idle? && ThreadOf(w, 2).Idle?
    ensures var moves := [Move(1, PutAppend(key, v1)), Move(2, PutAppend(key, v2)), Move(2, PutUpdate),
        Move(1, PutUpdate)];
            var u := Interleave(o, crc, w, moves).store;
            && ValuesOf(u.index) == ValuesOf(w.store.index)[key := v1]
            && ValuesOf(Live(ImageOf(u.log))) == ValuesOf(w.store.index)[key := v2]
  {
    hide Append, ViewOf, EncodeKey, Do, Fits;
    var m1, m2, m3, m4 := Move(1, PutAppend(key, v1)), Move(2, PutAppend(key, v2)), Move(2, PutUpdate),
      Move(1, PutUpdate);
    InterleaveSnoc(o, crc, w, [], m1);
    InterleaveSnoc(o, crc, w, [m1], m2);
    InterleaveSnoc(o, crc, w, [m1, m2], m3);
    InterleaveSnoc(o, crc, w, [m1, m2, m3], m4);
    assert [] + [m1] == [m1] && [m1] + [m2] == [m1, m2] && [m1, m2] + [m3] == [m1, m2, m3]
      && [m1, m2, m3] + [m4] == [m1, m2, m3, m4];
    var w1, w2 := Interleave(o, crc, w, [m1]), Interleave(o, crc, w, [m1, m2]);
    var w3 := Interleave(o, crc, w, [m1, m2, m3]);
    assert Interleave(o, crc, w, []) == w;
    hide Interleave, Live, ImageOf, IndexOk;
    CrossingSteps(o, crc, w, key, v1, v2);
    TwoPuts(o, w.store, key, v1, v2);
    IndexTwice(w.store.index, key, Slot(LastPos(w1.store), v1), Slot(LastPos(w2.store), v2));
  }

  lemma {:induction false} IndexTwice(index: Index, key: Bytes, x: Slot, y: Slot)
    ensures ValuesOf(index[key := y][key := x]) == ValuesOf(index)[key := x.value]
  {
  }

  /** The four steps, one after the other. */
  lemma {:induction false} CrossingSteps(o: Options, crc: Checksum, w: World, key: Bytes, v1: Bytes, v2: Bytes)
    requires Fits(key, v1) && Fits(key, v2) && ThreadOf(w, 1).Idle? && ThreadOf(w, 2).Idle?
    ensures var s1 := Append(o, w.store, Record(EncodeKey(NON_TRANSACTION, key), v1, Normal));
            var s2 := Append(o, s1, Record(EncodeKey(NON_TRANSACTION, key), v2, Normal));
            var w1 := Do(o, crc, w, 1, PutAppend(key, v1));
            var w2 := Do(o, crc, w1, 2, PutAppend(key, v2));
            var w3 := Do(o, crc, w2, 2, PutUpdate);
            var u := Do(o, crc, w3, 1, PutUpdate).store;
            && s1.log != [] && s2.log != [] && w1.store == s1 && w2.store == s2
            && u.log == s2.log && u.index == s2.index[key := Slot(LastPos(s2), v2)][key := Slot(LastPos(s1), v1)]
  {
    hide Append, EncodeKey, Do, Fits;
    var w1 := Do(o, crc, w, 1, PutAppend(key, v1));
    var w2 := Do(o, crc, w1, 2, PutAppend(key, v2));
    DoPut(o, crc, w, 1, key, v1);
    DoPut(o, crc, w1, 2, key, v2);
    DoUpdate(o, crc, w2, 2);
    DoUpdate(o, crc, Do(o, crc, w2, 2, PutUpdate), 1);
  }

  lemma {:induction false} DoPut(o: Options, crc: Checksum, w: World, t: nat, key: Bytes, value: Bytes)
    requires ThreadOf(w, t).Idle? && Fits(key, value)
    ensures var u := Append(o, w.store, Record(EncodeKey(NON_TRANSACTION, key), value, Normal));
            var v := Do(o, crc, w, t, PutAppend(key, value));
            v.store == u && u.log != [] && v.threads == w.threads[t := Putting(key, Slot(LastPos(u), value))]
  {
    hide EncodeKey, AppendBytes, Encode, Size, Place;
  }

  lemma {:induction false} DoUpdate(o: Options, crc: Checksum, w: World, t: nat)
    requires ThreadOf(w, t).Putting?
    ensures var th, v := ThreadOf(w, t), Do(o, crc, w, t, PutUpdate);
            && v.threads == w.threads[t := Idle] && v.store.log == w.store.log
            && v.store.index == w.store.index[th.key := th.slot]
  {
  }

  lemma {:induction false} InterleaveSnoc(o: Options, crc: Checksum, w: World, moves: seq<Move>, m: Move)
    ensures Interleave(o, crc, w, moves + [m]) == Do(o, crc, Interleave(o, crc, w, moves), m.thread, m.action)
  {
    hide Do;
    assert (moves + [m])[..|moves|] == moves;
  }

  /** The log with two puts of one key replays to the second, and neither append touches the index. */
  lemma {:induction false} TwoPuts(o: Options, s: Store, key: Bytes, v1: Bytes, v2: Bytes)
    requires IndexOk(s)
    ensures var s1 := Append(o, s, Record(EncodeKey(NON_TRANSACTION, key), v1, Normal));
            var s2 := Append(o, s1, Record(EncodeKey(NON_TRANSACTION, key), v2, Normal));
            && s2.index == s.index
            && ValuesOf(Live(ImageOf(s2.log))) == ValuesOf(s.index)[key := v2]
  {
    hide Append, ViewOf, EncodeKey;
    var s1 := Append(o, s, Record(EncodeKey(NON_TRANSACTION, key), v1, Normal));
    var s2 := Append(o, s1, Record(EncodeKey(NON_TRANSACTION, key), v2, Normal));
    AppendView(o, s, NON_TRANSACTION, key, v1, Normal);
    AppendView(o, s1, NON_TRANSACTION, key, v2, Normal);
    AppendKeeps(o, s, Record(EncodeKey(NON_TRANSACTION, key), v1, Normal));
    AppendKeeps(o, s1, Record(EncodeKey(NON_TRANSACTION, key), v2, Normal));
    RunSnoc(s.log, s1.log[|s.log|]);
    RunSnoc(s1.log, s2.log[|s1.log|]);
    LiveTwice(ImageOf(s.log), key, Slot(LastPos(s1), v1), Slot(LastPos(s2), v2));
  }

  lemma {:induction false} LiveTwice(image: Image, key: Bytes, x: Slot, y: Slot)
    ensures ValuesOf(Live(image[key := Some(x)][key := Some(y)])) == ValuesOf(Live(image))[key := y.value]
  {
  }
}
