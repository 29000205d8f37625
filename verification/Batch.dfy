/** Write batches: what is staged before a commit, what the staging means, and the commit itself. */
module Batch {
  import opened Wire
  import opened LogRecord
  import opened Replay
  import opened Store
  import Machine = Store
  import opened Layout
  import opened Directory
  import opened DataFile
  import opened Indexer
  import opened Db
  import opened Loading
  import opened Invariant

  type Pending = map<Bytes, Item>

  /** The map a reader would see if the staged writes were applied to `base`. */
  function Overlay(base: Values, pending: Pending): Values
  {
    map k | k in base.Keys + pending.Keys && (k in pending ==> !pending[k].rtype.Delete?) ::
      if k in pending then pending[k].value else base[k]
  }

  function StagePut(pending: Pending, key: Bytes, value: Bytes): Pending
  {
    pending[key := Item(key, value, Normal)]
  }

  /** A key the engine does not have is dropped from the batch if it was staged, and gets a tombstone otherwise. */
  function StageDelete(base: Values, pending: Pending, key: Bytes): Pending
  {
    if key !in base && key in pending then pending - {key}
    else pending[key := Item(key, [], RecordType.Delete)]
  }

  // ---- What staging means ----

  datatype Op = PutOp(key: Bytes, value: Bytes) | DeleteOp(key: Bytes)

  function Stage(base: Values, ops: seq<Op>): Pending
  {
    if ops == [] then map[] else
      match ops[|ops| - 1]
      case PutOp(key, value) => if key == [] then Stage(base, ops[..|ops| - 1])
        else StagePut(Stage(base, ops[..|ops| - 1]), key, value)
      case DeleteOp(key) => if key == [] then Stage(base, ops[..|ops| - 1])
        else StageDelete(base, Stage(base, ops[..|ops| - 1]), key)
  }

  /** The same operations, done one by one on the map. */
  function Direct(base: Values, ops: seq<Op>): Values
  {
    if ops == [] then base else
      match ops[|ops| - 1]
      case PutOp(key, value) => if key == [] then Direct(base, ops[..|ops| - 1])
        else Direct(base, ops[..|ops| - 1])[key := value]
      case DeleteOp(key) => Direct(base, ops[..|ops| - 1]) - if key == [] then {} else {key}
  }

  lemma {:induction false} OverlayPut(base: Values, pending: Pending, key: Bytes, value: Bytes)
    ensures Overlay(base, StagePut(pending, key, value)) == Overlay(base, pending)[key := value]
  {
  }

  lemma {:induction false} OverlayDelete(base: Values, pending: Pending, key: Bytes)
    ensures Overlay(base, StageDelete(base, pending, key)) == Overlay(base, pending) - {key}
  {
  }

  /** Over an engine that does not change meanwhile, staging and then overlaying is running the operations directly. */
  lemma {:induction false} StagingMeans(base: Values, ops: seq<Op>)
    ensures Overlay(base, Stage(base, ops)) == Direct(base, ops)
  {
    hide Overlay, StagePut, StageDelete;
    if ops == [] {
      OverlayNothing(base);
    } else {
      var pre := ops[..|ops| - 1];
      StagingMeans(base, pre);
      match ops[|ops| - 1]
      case PutOp(key, value) =>
        OverlayPut(base, Stage(base, pre), key, value);
      case DeleteOp(key) =>
        OverlayDelete(base, Stage(base, pre), key);
        assert Direct(base, pre) - {} == Direct(base, pre);
    }
  }

  lemma {:induction false} OverlayNothing(base: Values)
    ensures Overlay(base, map[]) == base
  {
  }

  // ---- What a commit installs ----

  /** An order in which a hash map may hand out its entries. */
  ghost predicate Listing(items: seq<Item>, pending: Pending)
  {
    && (forall i :: 0 <= i < |items| ==> items[i].key in pending && pending[items[i].key] == items[i])
    && (forall k :: k in pending ==> exists i :: 0 <= i < |items| && items[i].key == k)
    && (forall i, j :: 0 <= i < j < |items| ==> items[i].key != items[j].key)
  }

  ghost predicate Staged(pending: Pending)
  {
    forall k :: k in pending ==>
      pending[k].key == k && k != [] && |k| + 10 < U32_LIMIT && |pending[k].value| < U32_LIMIT
        && !pending[k].rtype.TxnFinished?
  }

  lemma {:induction false} InstallValues(s: Store, items: seq<Item>, at: nat, key: Bytes)
    requires at + |items| <= |s.log|
    requires forall i :: 0 <= i < |items| ==> !items[i].rtype.TxnFinished?
    requires forall i, j :: 0 <= i < j < |items| ==> items[i].key != items[j].key
    ensures var values := ValuesOf(InstallItems(s, items, at).index);
            && ((forall i :: 0 <= i < |items| ==> items[i].key != key) ==>
                  (key in values <==> key in s.index) && (key in values ==> values[key] == s.index[key].value))
            && (forall i :: 0 <= i < |items| && items[i].key == key ==>
                  (key in values <==> items[i].rtype.Normal?) && (key in values ==> values[key] == items[i].value))
    decreases |items|
  {
    if items != [] {
      InstallValues(s, items[..|items| - 1], at, key);
    }
  }

  /** Whatever the order of iteration, a commit leaves exactly the overlay of the batch on the map. */
  lemma {:induction false} CommitInstalls(s: Store, items: seq<Item>, pending: Pending, at: nat)
    requires at + |items| <= |s.log| && Listing(items, pending) && Staged(pending)
    ensures ValuesOf(InstallItems(s, items, at).index) == Overlay(ValuesOf(s.index), pending)
  {
    var x, y := ValuesOf(InstallItems(s, items, at).index), Overlay(ValuesOf(s.index), pending);
    hide InstallItems;
    forall k ensures (k in x <==> k in y) && (k in x ==> x[k] == y[k]) {
      InstallValues(s, items, at, k);
      if k in pending {
        var i :| 0 <= i < |items| && items[i].key == k;
        assert pending[k] == items[i];
      }
    }
    assert x == y;
  }

  // ---- The batch object ----

  datatype BatchError = KeyIsEmpty | ExceedMaxBatchNum

  lemma {:induction false} ListingMore(items: seq<Item>, pending: Pending, rest: set<Bytes>, k: Bytes)
    requires Listing(items, pending - rest) && k in rest && k in pending && pending[k].key == k
    ensures Listing(items + [pending[k]], pending - (rest - {k}))
  {
    var more, now := items + [pending[k]], pending - (rest - {k});
    forall q | q in now ensures exists i :: 0 <= i < |more| && more[i].key == q {
      if q == k {
        assert more[|items|].key == q;
      } else {
        assert q in pending - rest;
        var i :| 0 <= i < |items| && items[i].key == q;
        assert more[i].key == q;
      }
    }
  }

  /** The entries of the map in some order. */
  method List(pending: Pending) returns (items: seq<Item>)
    requires Staged(pending)
    ensures Listing(items, pending) && |items| == |pending| && ItemsWritable(items)
  {
    items := [];
    var rest := pending.Keys;
    assert pending - rest == map[];
    while rest != {}
      invariant rest <= pending.Keys && |items| + |rest| == |pending.Keys| && Listing(items, pending - rest)
      decreases |rest|
    {
      var k :| k in rest;
      ListingMore(items, pending, rest, k);
      items := items + [pending[k]];
      rest := rest - {k};
    }
    assert pending - rest == pending;
  }

  class WriteBatch {
    const engine: Engine
    const maxBatchNum: nat
    const syncWrites: bool
    var pending: Pending

    constructor (engine: Engine, maxBatchNum: nat, syncWrites: bool)
      ensures this.engine == engine && this.maxBatchNum == maxBatchNum && this.syncWrites == syncWrites
      ensures pending == map[] && Staged(pending)
    {
      this.engine, this.maxBatchNum, this.syncWrites, pending := engine, maxBatchNum, syncWrites, map[];
    }

    method Put(key: Bytes, value: Bytes) returns (r: Result<Unit, BatchError>)
      requires Staged(pending) && |key| + 10 < U32_LIMIT && |value| < U32_LIMIT
      modifies this
      ensures Staged(pending)
      ensures r == if key == [] then Err(BatchError.KeyIsEmpty) else Ok(())
      ensures pending == if key == [] then old(pending) else StagePut(old(pending), key, value)
    {
      if key == [] {
        return Err(BatchError.KeyIsEmpty);
      }
      pending := pending[key := Item(key, value, Normal)];
      return Ok(());
    }

    method Delete(key: Bytes) returns (r: Result<Unit, BatchError>)
      requires Staged(pending) && |key| + 10 < U32_LIMIT
      requires engine.Valid() && Sound(engine.model.log, engine.model.index)
      modifies this
      ensures Staged(pending)
      ensures r == if key == [] then Err(BatchError.KeyIsEmpty) else Ok(())
      ensures key == [] ==> pending == old(pending)
      ensures key != [] && key !in engine.model.index && key in old(pending) ==> pending == old(pending) - {key}
      ensures key != [] && (key in engine.model.index || key !in old(pending)) ==>
        pending == old(pending)[key := Item(key, [], RecordType.Delete)]
      ensures key != [] ==> pending == StageDelete(ValuesOf(engine.model.index), old(pending), key)
    {
      hide Stands, Refines, Fetch, Sound, Places;
      StandsEntries(engine.crc, engine.Cab(), engine.disk.durable, engine.index.entries, engine.seqNo,
        engine.bytesWrite, engine.reclaim, engine.model);
      if key == [] {
        return Err(BatchError.KeyIsEmpty);
      }
      var found := engine.Get(key);
      if found.Err? && key in pending {
        pending := pending - {key};
        return Ok(());
      }
      pending := pending[key := Item(key, [], RecordType.Delete)];
      return Ok(());
    }

    /** The part of `commit` that writes: the records, the record that finishes them, a sync if asked for. */
    method WriteRecords(order: seq<Item>) returns (positions: map<Bytes, Pos>)
      requires engine.Wired() && engine.seqNo < U64_LIMIT && ItemsWritable(order)
      modifies engine`active, engine`older, engine`seqNo, engine`bytesWrite, engine`model, engine.disk, engine.active
      ensures engine.Wired() && engine.seqNo == old(engine.seqNo) + 1
      ensures engine.active == old(engine.active) || fresh(engine.active)
      ensures engine.Cab() == CommitBytes(engine.crc, old(engine.Cab()), old(engine.seqNo), order,
          engine.o.dataFileSize)
      ensures BatchPlaced(positions, engine.crc, old(engine.Cab()), old(engine.seqNo), order, engine.o.dataFileSize)
      ensures old(engine.Valid() && OnNewest(engine.model)) ==>
        && engine.Valid() && OnNewest(engine.model)
        && engine.model == Written(engine.o, old(engine.model), order, syncWrites)
        && Positioned(positions, order, old(engine.model).log, engine.model.log)
    {
      hide AppendItems, Positioned, ItemsWritable, Stands, Places, Append, BatchBytes, BatchPlaced, AppendBytes, Encode;
      ghost var before, sound := engine.model, engine.Valid() && OnNewest(engine.model);
      var seqNo := engine.NextSeqNo();
      positions := engine.AppendBatch(seqNo, order);
      ghost var written := engine.model;
      engine.FinishBatch(seqNo);
      if syncWrites {
        engine.Sync();
      }
      if sound {
        PositionedLater(positions, order, before.log, written.log, engine.model.log);
      }
    }

    /** All of `commit` but its guards. */
    method WriteAndInstall(order: seq<Item>)
      requires engine.Wired() && engine.seqNo < U64_LIMIT
      requires ItemsWritable(order) && order != [] && |order| <= maxBatchNum
      modifies engine`active, engine`older, engine`seqNo, engine`bytesWrite, engine`reclaim, engine`model
      modifies engine.disk, engine.active, engine.index
      ensures engine.Wired() && engine.seqNo == old(engine.seqNo) + 1
      ensures engine.active == old(engine.active) || fresh(engine.active)
      ensures engine.Cab() == CommitBytes(engine.crc, old(engine.Cab()), old(engine.seqNo), order,
          engine.o.dataFileSize)
      ensures engine.index.entries ==
        CommitEntries(engine.crc, old(engine.Cab()), old(engine.seqNo), order, engine.o.dataFileSize,
          old(engine.index.entries))
      ensures old(engine.Valid() && OnNewest(engine.model)) ==>
        && engine.Valid() && OnNewest(engine.model)
        && engine.model == Machine.Commit(engine.o, old(engine.model), order, syncWrites, maxBatchNum)
    {
      CommitParts(engine.o, engine.model, order, syncWrites, maxBatchNum);
      hide InstallItems, Positioned, ItemsWritable, Machine.Commit, Stands, Places, Written, Engine.Valid,
        BatchPlaced, CommitBytes, CommitEntries, BatchEntries, BatchBytes, AppendBytes, ItemRecord, Encode;
      ghost var before, c, seqNo := engine.model.log, engine.Cab(), engine.seqNo;
      var positions := WriteRecords(order);
      PlacedKeys(positions, engine.crc, c, seqNo, order, engine.o.dataFileSize);
      EntriesPlaced(positions, engine.crc, c, seqNo, order, engine.o.dataFileSize, engine.index.entries);
      engine.UpdateBatch(order, positions, before);
    }

    /** `commit`. */
    method Commit() returns (r: Result<Unit, BatchError>, ghost items: seq<Item>)
      requires Staged(pending)
      requires engine.Wired() && engine.seqNo < U64_LIMIT
      modifies this, engine`active, engine`older, engine`seqNo, engine`bytesWrite, engine`reclaim, engine`model
      modifies engine.disk, engine.active, engine.index
      ensures engine.Wired() && Listing(items, old(pending)) && |items| == |old(pending)|
      ensures r == if |old(pending)| > maxBatchNum then Err(ExceedMaxBatchNum) else Ok(())
      ensures pending == if r.Ok? then map[] else old(pending)
      ensures items == [] || r.Err? ==>
        && engine.Cab() == old(engine.Cab())
        && engine.index.entries == old(engine.index.entries)
      ensures items != [] && r.Ok? ==>
        && engine.Cab() == CommitBytes(engine.crc, old(engine.Cab()), old(engine.seqNo), items, engine.o.dataFileSize)
        && engine.index.entries ==
             CommitEntries(engine.crc, old(engine.Cab()), old(engine.seqNo), items, engine.o.dataFileSize,
               old(engine.index.entries))
      ensures old(engine.Valid() && OnNewest(engine.model)) ==>
        && engine.Valid() && OnNewest(engine.model)
        && engine.model == Machine.Commit(engine.o, old(engine.model), items, syncWrites, maxBatchNum)
        && (r.Ok? ==> ValuesOf(engine.model.index) == Overlay(ValuesOf(old(engine.model).index), old(pending)))
    {
      hide Listing, Staged, Machine.Commit, Overlay, Stands, ValuesOf, ItemsWritable, Engine.Valid, CommitBytes,
        CommitEntries;
      var order := List(pending);
      items := order;
      assert pending == map[] <==> order == [];
      if pending == map[] {
        OverlayNothing(ValuesOf(engine.model.index));
        CommitNothing(engine.o, engine.model, order, syncWrites, maxBatchNum);
        return Ok(()), items;
      }
      if |pending| > maxBatchNum {
        CommitNothing(engine.o, engine.model, order, syncWrites, maxBatchNum);
        return Err(ExceedMaxBatchNum), items;
      }
      CommitMeans(engine.o, engine.model, order, syncWrites, maxBatchNum, pending);
      WriteAndInstall(order);
      pending := map[];
      return Ok(()), items;
    }
  }

  /** The files and the handle after a commit: the records of the batch and the record that finishes it. */
  function CommitBytes(crc: Checksum, c: Cabinet, seqNo: nat, items: seq<Item>, limit: nat): Cabinet
  {
    AppendBytes(BatchBytes(crc, c, seqNo, items, limit), Encode(crc, FinishRecord(seqNo)), limit)
  }

  /** The index after a commit, by where each append said its record went. */
  function CommitEntries(crc: Checksum, c: Cabinet, seqNo: nat, items: seq<Item>, limit: nat,
      entries: map<Bytes, Pos>): map<Bytes, Pos>
  {
    if items == [] then entries else
      var n, item := |items| - 1, items[|items| - 1];
      var before := CommitEntries(crc, c, seqNo, items[..n], limit, entries);
      match item.rtype
      case Normal =>
        var encoded := Encode(crc, ItemRecord(seqNo, item));
        before[item.key := AppendPos(BatchBytes(crc, c, seqNo, items[..n], limit), encoded, limit)]
      case Delete => before - {item.key}
      case TxnFinished => before
  }

  lemma {:induction false} PlacedKeys(positions: map<Bytes, Pos>, crc: Checksum, c: Cabinet, seqNo: nat,
      items: seq<Item>, limit: nat)
    requires BatchPlaced(positions, crc, c, seqNo, items, limit)
    ensures forall i :: 0 <= i < |items| ==> items[i].key in positions
  {
    hide AppendPos, BatchBytes, Encode;
  }

  lemma {:induction false} EntriesPlaced(positions: map<Bytes, Pos>, crc: Checksum, c: Cabinet, seqNo: nat,
      items: seq<Item>, limit: nat, entries: map<Bytes, Pos>)
    requires BatchPlaced(positions, crc, c, seqNo, items, limit)
    requires forall i :: 0 <= i < |items| ==> items[i].key in positions
    ensures BatchEntries(entries, items, positions) == CommitEntries(crc, c, seqNo, items, limit, entries)
    decreases |items|
  {
    hide AppendPos, BatchBytes, Encode, ItemRecord;
    if items != [] {
      var pre := items[..|items| - 1];
      forall i | 0 <= i < |pre|
        ensures positions[pre[i].key] ==
            AppendPos(BatchBytes(crc, c, seqNo, pre[..i], limit), Encode(crc, ItemRecord(seqNo, pre[i])), limit)
      {
        assert pre[i] == items[i] && pre[..i] == items[..i];
      }
      EntriesPlaced(positions, crc, c, seqNo, pre, limit, entries);
    }
  }

  /** The steps of a commit, one after the other. */
  lemma {:induction false} CommitParts(o: Options, s: Store, items: seq<Item>, sync: bool, maxNum: nat)
    requires items != [] && |items| <= maxNum
    ensures var u := Written(o, s, items, sync);
            && |u.log| == |s.log| + |items| + 1
            && Machine.Commit(o, s, items, sync, maxNum) == InstallItems(u, items, |s.log|)
            && u.index == s.index
  {
    hide Size, Place;
    AppendItemsKeep(o, s.(seqNo := s.seqNo + 1), s.seqNo, items);
  }

  lemma {:induction false} CommitMeans(o: Options, s: Store, items: seq<Item>, sync: bool, maxNum: nat,
      pending: Pending)
    requires items != [] && |items| <= maxNum && Listing(items, pending) && Staged(pending)
    ensures ValuesOf(Machine.Commit(o, s, items, sync, maxNum).index) == Overlay(ValuesOf(s.index), pending)
  {
    CommitParts(o, s, items, sync, maxNum);
    hide InstallItems, Listing, Staged, Machine.Commit, Overlay, ValuesOf, Written;
    CommitInstalls(Written(o, s, items, sync), items, pending, |s.log|);
  }

  /** Later records do not move the batch's. */
  lemma {:induction false} PositionedLater(positions: map<Bytes, Pos>, items: seq<Item>, before: seq<Logged>,
      log: seq<Logged>, after: seq<Logged>)
    requires Positioned(positions, items, before, log) && log <= after
    ensures Positioned(positions, items, before, after)
  {
  }
}
