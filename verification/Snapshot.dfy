/** Iterating an engine: a snapshot of the index's positions, read later from files that only grow. */
module Snapshot {
  import opened Wire
  import opened LogRecord
  import opened Replay
  import opened Store
  import opened DataFile
  import opened Directory
  import Indexer
  import opened Loading
  import opened Db
  import opened Layout
  import opened Invariant
  import opened Merging
  import opened Recovery
  import opened Startup

  type Pair = (Bytes, Bytes)

  /** What an entry of the snapshot stands for: the key and the value it had when the snapshot was taken. */
  function PairOf(index: Index, e: Indexer.Entry): Pair
  {
    (e.key, if e.key in index then index[e.key].value else [])
  }

  /** Every entry is a key of the index, with its position. */
  ghost predicate Of(items: seq<Indexer.Entry>, index: Index)
  {
    forall e :: e in items ==> e.key in index && e.pos == index[e.key].pos
  }

  lemma {:induction false} SnapshotOf(index: Index, reverse: bool)
    ensures Of(Indexer.Snapshot(Places(index), reverse), index)
  {
    hide Indexer.Snapshot;
    Indexer.SnapshotExact(Places(index), reverse);
  }

  lemma {:induction false} MatchingOf(items: seq<Indexer.Entry>, prefix: Bytes, index: Index)
    requires Of(items, index)
    ensures Of(Indexer.Matching(items, prefix), index)
  {
    hide Indexer.HasPrefix;
    if items != [] {
      MatchingOf(items[1..], prefix, index);
    }
  }

  /** The pairs a consumer sees that stops at the first pair it answers false to. */
  function Visited(items: seq<Indexer.Entry>, index: Index, f: (Bytes, Bytes) -> bool): seq<Pair>
  {
    if items == [] then [] else
      var p := PairOf(index, items[0]);
      [p] + if f(p.0, p.1) then Visited(items[1..], index, f) else []
  }

  class Iterator {
    const engine: Engine
    const tree: Indexer.TreeIterator
    /** The log and the index when the iterator was made. */
    ghost const log: seq<Logged>
    ghost const index: Index

    /** The engine has only appended since. */
    ghost predicate Usable()
      reads engine, engine.disk, engine.active, engine.index, tree
    {
      engine.Valid() && log <= engine.model.log && Sound(log, index) && Of(tree.items, index)
    }

    constructor (engine: Engine, prefix: Bytes, reverse: bool)
      requires engine.Valid() && Sound(engine.model.log, engine.model.index)
      ensures this.engine == engine && log == engine.model.log && index == engine.model.index && fresh(tree)
      ensures tree.items == Indexer.Snapshot(Places(index), reverse) && tree.prefix == prefix && tree.reverse == reverse
      ensures tree.Left() == Indexer.Matching(tree.items, prefix) && Usable()
    {
      hide Sound, Refines, Indexer.Matching, Indexer.Snapshot, Places;
      this.engine := engine;
      log, index := engine.model.log, engine.model.index;
      tree := new Indexer.TreeIterator(engine.index.entries, prefix, reverse);
      new;
      SnapshotOf(index, reverse);
    }

    method Rewind()
      modifies tree
      ensures tree.Left() == Indexer.Matching(tree.items, tree.prefix)
      ensures old(Usable()) ==> Usable()
    {
      hide Sound;
      tree.Rewind();
    }

    method Seek(key: Bytes)
      requires Indexer.Ordered(tree.reverse, tree.items)
      modifies tree
      ensures Indexer.IsSeekPoint(tree.items, tree.reverse, key, tree.curr)
      ensures tree.Left() == Indexer.Matching(tree.items[tree.curr..], tree.prefix)
      ensures old(Usable()) ==> Usable()
    {
      hide Sound, Indexer.Ordered;
      tree.Seek(key);
    }

    /** However much was written meanwhile, the next pair is the one of the snapshot. */
    method Next() returns (pair: Option<Pair>)
      requires Usable()
      modifies tree
      ensures Usable()
      ensures old(tree.Left()) == [] ==> pair == None && tree.Left() == []
      ensures old(tree.Left()) != [] ==>
        pair == Some(PairOf(index, old(tree.Left())[0])) && tree.Left() == old(tree.Left())[1..]
    {
      hide Stands, Sound, Indexer.Matching, Fetch, Places;
      ghost var left := tree.Left();
      LeftOf(tree, index);
      var item := tree.Next();
      if item.None? {
        return None;
      }
      assert left[0] in left;
      SoundGrows(log, engine.model.log, index);
      FetchIs(engine, index, item.value.key);
      var value := engine.GetByPosition(item.value.pos);
      if value.Ok? {
        return Some((item.value.key, value.value));
      }
      return None;
    }
  }

  lemma {:induction false} LeftOf(tree: Indexer.TreeIterator, index: Index)
    requires Of(tree.items, index)
    ensures Of(tree.Left(), index)
  {
    if tree.curr <= |tree.items| {
      MatchingOf(tree.items[tree.curr..], tree.prefix, index);
    }
  }

  lemma {:induction false} FetchIs(engine: Engine, index: Index, key: Bytes)
    requires engine.Valid() && Sound(engine.model.log, index) && key in index
    ensures Fetch(engine.crc, engine.disk.files, index[key].pos) == Ok(index[key].value)
  {
    hide Sound, Fetch, DurableIs, FilesAre;
    FetchSound(engine.crc, engine.disk.files, engine.model.log, engine.model.active, engine.model.writeOff, index, key);
  }

  lemma {:induction false} VisitedStep(before: seq<Pair>, items: seq<Indexer.Entry>, index: Index,
      f: (Bytes, Bytes) -> bool)
    ensures items == [] ==> before + Visited(items, index, f) == before
    ensures items != [] ==>
      var p := PairOf(index, items[0]);
      before + Visited(items, index, f) == if f(p.0, p.1) then before + [p] + Visited(items[1..], index, f)
        else before + [p]
  {
    hide PairOf;
    if items != [] {
      var p := PairOf(index, items[0]);
      assert before + ([p] + Visited(items[1..], index, f)) == before + [p] + Visited(items[1..], index, f);
      assert before + ([p] + []) == before + [p];
    }
  }

  /** `flod`: every pair of the engine's map, in order, until the consumer has enough; what it was given. */
  method Fold(engine: Engine, f: (Bytes, Bytes) -> bool) returns (visited: seq<Pair>)
    requires engine.Valid() && Sound(engine.model.log, engine.model.index)
    ensures visited == Visited(Indexer.Matching(Indexer.Snapshot(Places(engine.model.index), false), []),
        engine.model.index, f)
  {
    hide Stands, Sound, Indexer.Matching, Indexer.Snapshot, Places, Iterator.Usable, Visited, PairOf, Engine.Valid;
    var it := new Iterator(engine, [], false);
    ghost var all, index := it.tree.Left(), it.index;
    visited := [];
    assert [] + Visited(all, index, f) == Visited(all, index, f);
    while true
      invariant it.Usable()
      invariant visited + Visited(it.tree.Left(), index, f) == Visited(all, index, f)
      decreases |it.tree.Left()|
    {
      VisitedStep(visited, it.tree.Left(), index, f);
      var pair := it.Next();
      if pair.None? {
        return;
      }
      visited := visited + [pair.value];
      if !f(pair.value.0, pair.value.1) {
        return;
      }
    }
  }

  /** With nothing to stop it the fold goes over exactly the map, each key once, in byte order. */
  lemma {:induction false} FoldIsTheMap(index: Index)
    ensures var items := Indexer.Matching(Indexer.Snapshot(Places(index), false), []);
            && (forall i, j :: 0 <= i < j < |items| ==> Indexer.ByteLess(items[i].key, items[j].key))
            && (forall e :: e in items <==> e.key in index && e.pos == index[e.key].pos)
            && (forall e :: e in items ==> PairOf(index, e) == (e.key, ValuesOf(index)[e.key]))
  {
    hide Indexer.Matching, Indexer.Snapshot, Indexer.ByteLess;
    Indexer.SnapshotExact(Places(index), false);
    Indexer.MatchingExact(Indexer.Snapshot(Places(index), false), [], false);
  }

  // ---- What happens to an iterator while the engine goes on ----

  // ---- What the operations leave of the vouching ----

  lemma {:induction false} SoundPut(log: seq<Logged>, index: Index, key: Bytes, slot: Slot)
    requires Sound(log, index) && Known(log, Update(key, Normal, slot))
    ensures Sound(log, index[key := slot])
  {
    hide Known;
  }

  lemma {:induction false} SoundDrop(log: seq<Logged>, index: Index, key: Bytes)
    requires Sound(log, index)
    ensures Sound(log, index - {key})
  {
    hide Known;
  }

  lemma {:induction false} PutSound(o: Options, s: Store, key: Bytes, value: Bytes)
    requires Sound(s.log, s.index)
    ensures Sound(Put(o, s, key, value).log, Put(o, s, key, value).index)
  {
    hide Append, ViewOf, EncodeKey, Sound, Known;
    if key != [] {
      var rec := Record(EncodeKey(NON_TRANSACTION, key), value, Normal);
      var t := Append(o, s, rec);
      AppendView(o, s, NON_TRANSACTION, key, value, Normal);
      AppendKeeps(o, s, rec);
      SoundGrows(s.log, t.log, s.index);
      InKnown(t.log, t.log[|s.log|]);
      SoundPut(t.log, s.index, key, Slot(LastPos(t), value));
    }
  }

  lemma {:induction false} DeleteSound(o: Options, s: Store, key: Bytes)
    requires Sound(s.log, s.index)
    ensures Sound(DeleteKey(o, s, key).log, DeleteKey(o, s, key).index)
  {
    hide Append, Sound, TombstoneKey;
    if key != [] && key in s.index {
      var rec := Record(TombstoneKey(o, key), [], RecordType.Delete);
      AppendKeeps(o, s, rec);
      SoundGrows(s.log, Append(o, s, rec).log, s.index);
      SoundDrop(Append(o, s, rec).log, s.index, key);
    }
  }

  /** The index changes of a commit point at the records it wrote. */
  lemma {:induction false} InstallSound(s: Store, items: seq<Item>, at: nat, seqNo: nat)
    requires Wrote(s.log, at, seqNo, items) && Sound(s.log, s.index)
    ensures Sound(s.log, InstallItems(s, items, at).index)
    decreases |items|
  {
    hide ViewOf, Sound, Known;
    if items != [] {
      var n := |items| - 1;
      WroteParts(s.log, at, seqNo, items);
      hide Wrote;
      InstallSound(s, items[..n], at, seqNo);
      var t, item, l := InstallItems(s, items[..n], at), items[n], s.log[at + n];
      if item.rtype.Normal? {
        InKnown(s.log, l);
        SoundPut(s.log, t.index, item.key, Slot(l.pos, item.value));
      } else if item.rtype.Delete? {
        SoundDrop(s.log, t.index, item.key);
      }
    }
  }

  lemma {:induction false} CommitSound(o: Options, s: Store, items: seq<Item>, sync: bool, maxNum: nat)
    requires Sound(s.log, s.index) && 0 < s.seqNo < U64_LIMIT
    ensures Sound(Commit(o, s, items, sync, maxNum).log, Commit(o, s, items, sync, maxNum).index)
  {
    hide WriteBatch, Sound, Wrote, Finishes, InstallItems;
    if items != [] && |items| <= maxNum {
      WriteBatchWrites(o, s, items);
      var u := Written(o, s, items, sync);
      SoundGrows(s.log, u.log, s.index);
      InstallFrame(u, items, |s.log|);
      InstallSound(u, items, |s.log|, s.seqNo);
    }
  }

  /**
   * No operation but a restart makes the index vouch for a record that is not there, whatever its tombstones look
   * like.
   */
  lemma {:induction false} OperateSound(o: Options, s: Store, e: Event)
    requires Sound(s.log, s.index) && !Restarts(e) && (e.CommitEvent? ==> 0 < s.seqNo < U64_LIMIT)
    ensures Sound(Operate(o, s, e).log, Operate(o, s, e).index)
  {
    hide Sound, Put, DeleteKey, Commit, MergeStep;
    match e {
    case PutEvent(key, value) => PutSound(o, s, key, value);
    case DeleteEvent(key) => DeleteSound(o, s, key);
    case CommitEvent(items, sync, maxNum) => CommitSound(o, s, items, sync, maxNum);
    case TornEvent(items) =>
      AppendItemsKeep(o, s.(seqNo := s.seqNo + 1), s.seqNo, items);
      SoundGrows(s.log, TornCommit(o, s, items).log, s.index);
    case _ =>
      MergeStepQuiet(o, s);
    }
  }

  /** Nothing but a restart takes a record away. */
  lemma {:induction false} OnlyGrows(o: Options, s: Store, e: Event)
    requires !Restarts(e)
    ensures s.log <= Operate(o, s, e).log
  {
    hide Size, IsLive, ParseKey, CopyRecord, Place;
    match e
    case CommitEvent(items, sync, maxNum) =>
      AppendItemsKeep(o, s.(seqNo := s.seqNo + 1), s.seqNo, items);
      if items != [] && |items| <= maxNum {
        InstallFrame(Written(o, s, items, sync), items, |s.log|);
      }
    case TornEvent(items) =>
      AppendItemsKeep(o, s.(seqNo := s.seqNo + 1), s.seqNo, items);
    case _ =>
  }

  /**
   * So an iterator made in `m` still reads the map of `m` after any run of puts, deletes, commits, syncs and merge
   * steps: the log it was made from is still there, and every position of its snapshot still leads to the value it
   * had.
   */
  lemma {:induction false} SnapshotSurvives(o: Options, m: Model, es: seq<Event>, crc: Checksum,
      files: map<nat, Bytes>, durable: map<nat, nat>, key: Bytes)
    requires Sound(m.store.log, m.store.index) && key in m.store.index
    requires forall e :: e in es ==> !Restarts(e)
    requires RunEvents(o, m, es).Some? && Refines(crc, files, durable, RunEvents(o, m, es).value.store)
    ensures m.store.log <= RunEvents(o, m, es).value.store.log
    ensures Fetch(crc, files, m.store.index[key].pos) == Ok(m.store.index[key].value)
  {
    hide Sound, Fetch, Operate, Holds, Laid, AllReadable, DurableIs, FilesAre;
    RunGrows(o, m, es);
    var t := RunEvents(o, m, es).value.store;
    SoundGrows(m.store.log, t.log, m.store.index);
    FetchSound(crc, files, t.log, t.active, t.writeOff, m.store.index, key);
  }

  /**
   * In every state of every allowed run, restarts and power failures included, the index vouches only for records
   * that are there: an iterator, a fold, a get or a staged delete may start at any time.
   */
  lemma {:induction false} SoundAlways(o: Options, es: seq<Event>)
    requires AllAllowed(o, START, es)
    ensures RunEvents(o, START, es).Some?
    ensures var s := RunEvents(o, START, es).value.store;
            Sound(s.log, s.index)
  {
    RunOk(o, es);
    hide RunEvents;
    InvSound(o, RunEvents(o, START, es).value.store);
  }

  lemma {:induction false} RunGrows(o: Options, m: Model, es: seq<Event>)
    requires forall e :: e in es ==> !Restarts(e)
    requires RunEvents(o, m, es).Some?
    ensures m.store.log <= RunEvents(o, m, es).value.store.log
  {
    hide Operate, EffectOf;
    if es != [] {
      var e := es[|es| - 1];
      assert e in es;
      RunGrows(o, m, es[..|es| - 1]);
      OnlyGrows(o, RunEvents(o, m, es[..|es| - 1]).value.store, e);
    }
  }
}
