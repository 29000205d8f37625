/**
 * When threads keep out of each other's keys. Nothing joins the append of an operation to its index update, and
 * `PutsCross` shows what that costs when two operations on one key overlap. That is the only way it can go wrong: in
 * every interleaving in which they do not, the index of an idle engine is what a replay of its log gives.
 */
module Exclusive {
  import opened Wire
  import opened LogRecord
  import opened Replay
  import Layout
  import opened Store
  import opened Invariant
  import opened Directory
  import opened Concurrent

  /** The thread is between the first and the last step of an operation on the key. */
  ghost predicate Busy(th: Thread, k: Bytes)
  {
    match th
    case Putting(key, _) => key == k
    case Deleting(key, _) => key == k
    case Committing(_, items, _, _, _) => exists i :: 0 <= i < |items| && items[i].key == k
    case _ => false
  }

  ghost predicate Free(w: World, k: Bytes)
  {
    forall t :: t in w.threads ==> !Busy(w.threads[t], k)
  }

  /** No two items of a batch have one key. */
  ghost predicate Distinct(items: seq<Item>)
  {
    && (forall i :: 0 <= i < |items| ==> !items[i].rtype.TxnFinished?)
    && forall i, j :: 0 <= i < j < |items| ==> items[i].key != items[j].key
  }

  /** An operation begins only on keys nobody is busy with; and no tombstone is one a replay takes for another key's. */
  ghost predicate KeepsOut(o: Options, w: World, a: Action)
  {
    match a
    case PutAppend(key, _) => Free(w, key)
    case DeleteCheck(key) => Free(w, key)
    case CommitBegin(items) => Distinct(items) && forall i :: 0 <= i < |items| ==> Free(w, items[i].key)
    case DeleteAppend => o.tombstone.SeqKey?
    case _ => true
  }

  ghost predicate AllKeepOut(o: Options, crc: Checksum, w: World, moves: seq<Move>)
  {
    moves == [] ||
    (&& AllKeepOut(o, crc, w, moves[..|moves| - 1])
     && KeepsOut(o, Interleave(o, crc, w, moves[..|moves| - 1]), moves[|moves| - 1].action))
  }

  // ---- What index and log say of one key ----

  /** The index has what a replay of the log gives. */
  ghost predicate Agree(s: Store, k: Bytes)
  {
    var image := ImageOf(s.log);
    if k in s.index then k in image && image[k] == Some(s.index[k]) else k !in image || image[k] == None
  }

  /** Neither the index nor a replay of the log has changed for the key. */
  ghost predicate SameAt(s: Store, v: Store, k: Bytes)
  {
    var a, b := ImageOf(s.log), ImageOf(v.log);
    && (k in s.index <==> k in v.index) && (k in s.index ==> s.index[k] == v.index[k])
    && (k in a <==> k in b) && (k in a ==> a[k] == b[k])
  }

  function ItemOutcome(item: Item, slot: Slot): Option<Slot>
  {
    if item.rtype.Delete? then None else Some(slot)
  }

  /** The updates a replay has buffered once these items are written. */
  function Planned(items: seq<Item>, slots: seq<Slot>): (us: seq<Update>)
    requires |slots| <= |items|
    ensures |us| == |slots|
  {
    if slots == [] then [] else
      var n := |slots| - 1;
      Planned(items, slots[..n]) + [Update(items[n].key, items[n].rtype, slots[n])]
  }

  ghost predicate Replays(image: Image, k: Bytes, out: Option<Slot>)
  {
    k in image && image[k] == out
  }

  /** What the log says of the keys the thread is busy with, and what is left of its work. */
  ghost predicate ThreadAgrees(s: Store, th: Thread)
  {
    match th
    case Putting(key, slot) => Replays(ImageOf(s.log), key, Some(slot))
    case Deleting(key, appended) => if appended then Replays(ImageOf(s.log), key, None) else Agree(s, key)
    case Committing(q, items, slots, finished, n) =>
      && Distinct(items) && |slots| <= |items| && n <= |items|
      && (forall i :: 0 <= i < (if finished then n else |items|) ==> Agree(s, items[i].key))
      && (if finished then
            && |slots| == |items|
            && forall i :: 0 <= i < |items| ==> Replays(ImageOf(s.log), items[i].key, ItemOutcome(items[i], slots[i]))
          else n == 0 && Pend(Run(s.log), q) == Planned(items, slots))
    case _ => true
  }

  /** Sequence numbers are fresh, and there is at most one commit at a time. */
  ghost predicate Numbered(w: World)
  {
    && 1 <= w.store.seqNo && SeqsBelow(w.store.log, w.store.seqNo)
    && (forall t :: t in w.threads && w.threads[t].Committing? ==> 1 <= w.threads[t].seqNo < w.store.seqNo)
    && (forall t, u ::
          t in w.threads && u in w.threads && w.threads[t].Committing? && w.threads[u].Committing? ==> t == u)
  }

  ghost predicate Apart(w: World)
  {
    forall t, u, k :: t in w.threads && u in w.threads && t != u && Busy(w.threads[t], k) ==> !Busy(w.threads[u], k)
  }

  ghost predicate KeyOrder(w: World)
  {
    && Numbered(w) && Apart(w)
    && (forall t :: t in w.threads ==> ThreadAgrees(w.store, w.threads[t]))
    && (forall k :: Free(w, k) ==> Agree(w.store, k))
  }

  // ---- One step ----

  lemma {:induction false} AgreeStays(s: Store, v: Store, k: Bytes)
    requires Agree(s, k) && SameAt(s, v, k)
    ensures Agree(v, k)
  {
    hide ImageOf;
  }

  /** What a thread knows stays true while others leave its keys and its batch alone. */
  lemma {:induction false} ThreadStays(s: Store, v: Store, th: Thread)
    requires ThreadAgrees(s, th) && forall k :: Busy(th, k) ==> SameAt(s, v, k)
    requires th.Committing? && !th.finished ==> Pend(Run(v.log), th.seqNo) == Pend(Run(s.log), th.seqNo)
    ensures ThreadAgrees(v, th)
  {
    hide ImageOf, Run, Distinct;
    match th {
    case Committing(q, items, slots, finished, n) =>
      hide Agree, SameAt;
      forall i | 0 <= i < |items|
        ensures Agree(s, items[i].key) ==> Agree(v, items[i].key)
        ensures SameAt(s, v, items[i].key)
      {
        assert Busy(th, items[i].key);
        if Agree(s, items[i].key) {
          AgreeStays(s, v, items[i].key);
        }
      }
      if finished {
        forall i | 0 <= i < |items|
          ensures Replays(ImageOf(v.log), items[i].key, ItemOutcome(items[i], slots[i]))
        {
          ReplaysStay(s, v, items[i].key, ItemOutcome(items[i], slots[i]));
        }
      }
    case Deleting(key, appended) =>
      assert Busy(th, key);
    case Putting(key, slot) =>
      assert Busy(th, key);
    case _ =>
    }
  }

  lemma {:induction false} ReplaysStay(s: Store, v: Store, k: Bytes, out: Option<Slot>)
    requires Replays(ImageOf(s.log), k, out) && SameAt(s, v, k)
    ensures Replays(ImageOf(v.log), k, out)
  {
    hide ImageOf;
  }

  /** Only the keys of the thread that moved may have changed, and those it is done with agree. */
  ghost predicate Moved(w: World, v: World, t: nat, th: Thread)
  {
    var before := ThreadOf(w, t);
    && v.threads == w.threads[t := th] && ThreadAgrees(v.store, th)
    && (forall k :: !Busy(before, k) && !Busy(th, k) ==> SameAt(w.store, v.store, k))
    && (forall k :: Busy(th, k) && !Busy(before, k) ==> Free(w, k))
    && (forall k :: Busy(before, k) && !Busy(th, k) ==> Agree(v.store, k))
    && (forall q :: !(before.Committing? && before.seqNo == q) ==>
          Pend(Run(v.store.log), q) == Pend(Run(w.store.log), q))
  }

  lemma {:induction false} MovedApart(w: World, v: World, t: nat, th: Thread)
    requires Apart(w) && Moved(w, v, t, th)
    ensures Apart(v)
  {
    hide SameAt, Agree, ThreadAgrees, Run, Busy;
    forall a, b, k | a in v.threads && b in v.threads && a != b && Busy(v.threads[a], k)
      ensures !Busy(v.threads[b], k)
    {
      NotBothBusy(w, v, t, th, a, b, k);
    }
  }

  lemma {:induction false} NotBothBusy(w: World, v: World, t: nat, th: Thread, a: nat, b: nat, k: Bytes)
    requires Apart(w) && Moved(w, v, t, th) && a in v.threads && b in v.threads && a != b && Busy(v.threads[a], k)
    ensures !Busy(v.threads[b], k)
  {
    hide SameAt, Agree, ThreadAgrees, Run;
    if a != t && b != t {
    } else {
      var u := if a == t then b else a;
      assert u in w.threads && v.threads[u] == w.threads[u];
      if Busy(th, k) && !Busy(ThreadOf(w, t), k) {
        assert Free(w, k);
      }
    }
  }

  lemma {:induction false} MovedThreads(w: World, v: World, t: nat, th: Thread)
    requires KeyOrder(w) && Moved(w, v, t, th)
    ensures forall u :: u in v.threads ==> ThreadAgrees(v.store, v.threads[u])
  {
    MovedApart(w, v, t, th);
    hide SameAt, Agree, ThreadAgrees, Run, Busy, SeqsBelow;
    forall u | u in v.threads ensures ThreadAgrees(v.store, v.threads[u]) {
      if u != t {
        forall k | Busy(w.threads[u], k) ensures SameAt(w.store, v.store, k) {
          assert !Busy(th, k);
          if t in w.threads {
            assert !Busy(w.threads[t], k);
          } else {
            IdleFree(k);
          }
        }
        ThreadStays(w.store, v.store, w.threads[u]);
      }
    }
  }

  lemma {:induction false} IdleFree(k: Bytes)
    ensures !Busy(Idle, k)
  {
  }

  lemma {:induction false} MovedKeys(w: World, v: World, t: nat, th: Thread)
    requires KeyOrder(w) && Moved(w, v, t, th)
    ensures forall k :: Free(v, k) ==> Agree(v.store, k)
  {
    hide SameAt, Agree, ThreadAgrees, Run, Busy, SeqsBelow;
    forall k | Free(v, k) ensures Agree(v.store, k) {
      assert !Busy(v.threads[t], k);
      if !Busy(ThreadOf(w, t), k) {
        forall u | u in w.threads ensures !Busy(w.threads[u], k) {
          if u != t {
            assert v.threads[u] == w.threads[u];
          }
        }
        assert Free(w, k);
        AgreeStays(w.store, v.store, k);
      }
    }
  }

  /** The numbers are still fresh, and a commit only begins when there is no other. */
  ghost predicate Counted(w: World, v: World, t: nat, th: Thread)
  {
    && w.store.seqNo <= v.store.seqNo && SeqsBelow(v.store.log, v.store.seqNo)
    && (th.Committing? ==>
          && 1 <= th.seqNo < v.store.seqNo
          && (ThreadOf(w, t).Committing? || forall u :: u in w.threads ==> !w.threads[u].Committing?))
  }

  lemma {:induction false} CountedNumbered(w: World, v: World, t: nat, th: Thread)
    requires Numbered(w) && Counted(w, v, t, th) && v.threads == w.threads[t := th]
    ensures Numbered(v)
  {
    hide SeqsBelow;
  }

  lemma {:induction false} MovedOk(w: World, v: World, t: nat, th: Thread)
    requires KeyOrder(w) && Moved(w, v, t, th) && Counted(w, v, t, th)
    ensures KeyOrder(v)
  {
    MovedApart(w, v, t, th);
    MovedThreads(w, v, t, th);
    MovedKeys(w, v, t, th);
    assert v.threads == w.threads[t := th];
    hide Moved, Apart, Agree, ThreadAgrees, Counted;
    CountedNumbered(w, v, t, th);
    hide Numbered;
  }

  // ---- The appends ----

  /** A record outside of any batch is replayed at once. */
  lemma {:induction false} PlainAppend(o: Options, s: Store, key: Bytes, value: Bytes, rtype: RecordType)
    requires !rtype.TxnFinished? && 1 <= s.seqNo && SeqsBelow(s.log, s.seqNo)
    ensures var v := Append(o, s, Record(EncodeKey(NON_TRANSACTION, key), value, rtype));
            && v.log != [] && v.index == s.index && v.seqNo == s.seqNo && SeqsBelow(v.log, v.seqNo)
            && Replays(ImageOf(v.log), key, if rtype.Delete? then None else Some(Slot(LastPos(v), value)))
            && (forall k :: k != key ==> SameAt(s, v, k))
            && (forall q :: Pend(Run(v.log), q) == Pend(Run(s.log), q))
  {
    hide ViewOf, Append, EncodeKey;
    AppendView(o, s, NON_TRANSACTION, key, value, rtype);
    AppendKeeps(o, s, Record(EncodeKey(NON_TRANSACTION, key), value, rtype));
    var v := Append(o, s, Record(EncodeKey(NON_TRANSACTION, key), value, rtype));
    RunSnoc(s.log, v.log[|s.log|]);
    hide Freed;
  }

  /** A record of a batch is only buffered. */
  lemma {:induction false} BatchAppend(o: Options, s: Store, q: nat, item: Item)
    requires !item.rtype.TxnFinished? && 1 <= q < s.seqNo && q < U64_LIMIT && SeqsBelow(s.log, s.seqNo)
    ensures var v := Append(o, s, ItemRecord(q, item));
            && v.log != [] && v.index == s.index && v.seqNo == s.seqNo && SeqsBelow(v.log, v.seqNo)
            && Run(v.log).image == Run(s.log).image
            && Pend(Run(v.log), q) ==
                 Pend(Run(s.log), q) + [Update(item.key, item.rtype, Slot(LastPos(v), item.value))]
            && (forall p :: p != q ==> Pend(Run(v.log), p) == Pend(Run(s.log), p))
  {
    hide ViewOf, Append, EncodeKey, Apply, Freed, ApplyAll, FreedAll;
    AppendView(o, s, q, item.key, item.value, item.rtype);
    AppendKeeps(o, s, ItemRecord(q, item));
    var v := Append(o, s, ItemRecord(q, item));
    RunSnoc(s.log, v.log[|s.log|]);
  }

  /** The finishing record applies what was buffered. */
  lemma {:induction false} FinishAppend(o: Options, s: Store, q: nat)
    requires 1 <= q < s.seqNo && q < U64_LIMIT && SeqsBelow(s.log, s.seqNo)
    ensures var v := Append(o, s, FinishRecord(q));
            && v.log != [] && v.index == s.index && v.seqNo == s.seqNo && SeqsBelow(v.log, v.seqNo)
            && ImageOf(v.log) == ApplyAll(ImageOf(s.log), Pend(Run(s.log), q))
            && (forall p :: p != q ==> Pend(Run(v.log), p) == Pend(Run(s.log), p))
  {
    hide ViewOf, Append, EncodeKey, Apply, Freed, ApplyAll, FreedAll;
    AppendView(o, s, q, TXN_FIN_KEY, [], TxnFinished);
    AppendKeeps(o, s, FinishRecord(q));
    var v := Append(o, s, FinishRecord(q));
    RunSnoc(s.log, v.log[|s.log|]);
  }

  lemma {:induction false} PlannedSnoc(image: Image, items: seq<Item>, slots: seq<Slot>)
    requires |slots| <= |items| && slots != []
    ensures var n := |slots| - 1;
            ApplyAll(image, Planned(items, slots)) ==
              Apply(ApplyAll(image, Planned(items, slots[..n])), Update(items[n].key, items[n].rtype, slots[n]))
  {
    hide Apply;
    var n := |slots| - 1;
    ApplySnoc(image, Planned(items, slots[..n]), Update(items[n].key, items[n].rtype, slots[n]));
  }

  lemma {:induction false} PlannedOther(image: Image, items: seq<Item>, slots: seq<Slot>, k: Bytes)
    requires |slots| <= |items| && forall i :: 0 <= i < |slots| ==> items[i].key != k
    ensures var after := ApplyAll(image, Planned(items, slots));
            (k in after <==> k in image) && (k in image ==> after[k] == image[k])
    decreases |slots|
  {
    if slots != [] {
      PlannedOther(image, items, slots[..|slots| - 1], k);
      PlannedSnoc(image, items, slots);
      hide ApplyAll, Planned;
    }
  }

  lemma {:induction false} PlannedAt(image: Image, items: seq<Item>, slots: seq<Slot>, i: nat)
    requires i < |slots| <= |items| && Distinct(items)
    ensures Replays(ApplyAll(image, Planned(items, slots)), items[i].key, ItemOutcome(items[i], slots[i]))
    decreases |slots|
  {
    if i < |slots| - 1 {
      PlannedAt(image, items, slots[..|slots| - 1], i);
    }
    PlannedSnoc(image, items, slots);
    hide ApplyAll, Planned;
  }

  /** A whole batch with distinct keys: each key as its item says, all others as they were. */
  lemma {:induction false} PlannedApplied(image: Image, items: seq<Item>, slots: seq<Slot>)
    requires |slots| <= |items| && Distinct(items)
    ensures var after := ApplyAll(image, Planned(items, slots));
            && (forall i :: 0 <= i < |slots| ==> Replays(after, items[i].key, ItemOutcome(items[i], slots[i])))
            && (forall k :: (forall i :: 0 <= i < |slots| ==> items[i].key != k) ==>
                  (k in after <==> k in image) && (k in image ==> after[k] == image[k]))
  {
    hide ApplyAll, Planned, Distinct, Replays;
    var after := ApplyAll(image, Planned(items, slots));
    forall i | 0 <= i < |slots| ensures Replays(after, items[i].key, ItemOutcome(items[i], slots[i])) {
      PlannedAt(image, items, slots, i);
    }
    forall k | forall i :: 0 <= i < |slots| ==> items[i].key != k
      ensures (k in after <==> k in image) && (k in image ==> after[k] == image[k])
    {
      PlannedOther(image, items, slots, k);
    }
  }

  // ---- The steps ----

  lemma {:induction false} ImageSame(s: Store, v: Store)
    requires v.index == s.index && ImageOf(v.log) == ImageOf(s.log)
    ensures forall k :: SameAt(s, v, k)
  {
    hide ImageOf;
  }

  /** What every step has from the invariant. */
  lemma {:induction false} OrderParts(w: World, t: nat)
    requires KeyOrder(w)
    ensures 1 <= w.store.seqNo && SeqsBelow(w.store.log, w.store.seqNo) && ThreadAgrees(w.store, ThreadOf(w, t))
    ensures ThreadOf(w, t).Committing? ==> 1 <= ThreadOf(w, t).seqNo < w.store.seqNo
  {
    hide ThreadAgrees, SeqsBelow, Apart, Agree;
    if t !in w.threads {
      IdleAgrees(w.store);
    }
  }

  lemma {:induction false} IdleAgrees(s: Store)
    ensures ThreadAgrees(s, Idle) && forall k :: !Busy(Idle, k)
  {
  }

  lemma {:induction false} PutLogged(o: Options, s: Store, key: Bytes, value: Bytes)
    requires 1 <= s.seqNo && SeqsBelow(s.log, s.seqNo)
    ensures var v := Append(o, s, Record(EncodeKey(NON_TRANSACTION, key), value, Normal));
            && v.log != [] && v.seqNo == s.seqNo && SeqsBelow(v.log, v.seqNo)
            && ThreadAgrees(v, Putting(key, Slot(LastPos(v), value)))
            && (forall k :: k != key ==> SameAt(s, v, k))
            && (forall q :: Pend(Run(v.log), q) == Pend(Run(s.log), q))
  {
    PlainAppend(o, s, key, value, Normal);
    hide Append, EncodeKey, ImageOf, Run, SeqsBelow, SameAt;
  }

  lemma {:induction false} PutAppendMoves(o: Options, crc: Checksum, w: World, t: nat, key: Bytes, value: Bytes)
    requires KeyOrder(w) && KeepsOut(o, w, PutAppend(key, value)) && ThreadOf(w, t).Idle? && Concurrent.Fits(key, value)
    ensures KeyOrder(Do(o, crc, w, t, PutAppend(key, value)))
  {
    OrderParts(w, t);
    PutLogged(o, w.store, key, value);
    assert Free(w, key);
    hide KeyOrder, KeepsOut, Free, Append, EncodeKey, ImageOf, Run, SeqsBelow, SameAt, Agree, AppendBytes, Encode,
      Concurrent.Fits, ThreadAgrees;
    var v := Do(o, crc, w, t, PutAppend(key, value));
    var th := Putting(key, Slot(LastPos(v.store), value));
    assert v.threads == w.threads[t := th];
    hide Do;
    assert Moved(w, v, t, th);
    hide Moved;
    MovedOk(w, v, t, th);
  }

  /** A deletion that is in the log: no index has changed, and the counter does not matter. */
  lemma {:induction false} TombstoneLogged(o: Options, s: Store, key: Bytes, v: Store)
    requires o.tombstone.SeqKey? && 1 <= s.seqNo && SeqsBelow(s.log, s.seqNo)
    requires var u := Append(o, s, Record(TombstoneKey(o, key), [], RecordType.Delete));
             v == u.(reclaim := v.reclaim)
    ensures SeqsBelow(v.log, v.seqNo) && v.seqNo == s.seqNo && ThreadAgrees(v, Deleting(key, true))
    ensures (forall k :: k != key ==> SameAt(s, v, k)) && forall q :: Pend(Run(v.log), q) == Pend(Run(s.log), q)
  {
    PlainAppend(o, s, key, [], RecordType.Delete);
    hide Append, EncodeKey, ImageOf, Run, SeqsBelow;
  }

  lemma {:induction false} DeleteAppendMoves(o: Options, crc: Checksum, w: World, t: nat)
    requires KeyOrder(w) && o.tombstone.SeqKey? && ThreadOf(w, t).Deleting? && !ThreadOf(w, t).appended
    ensures KeyOrder(Do(o, crc, w, t, DeleteAppend))
  {
    OrderParts(w, t);
    hide KeyOrder, Free, Append, EncodeKey, ImageOf, Run, SeqsBelow, Agree, AppendBytes, Encode, TombstoneKey, SameAt,
      ThreadAgrees;
    var key, th := ThreadOf(w, t).key, Deleting(ThreadOf(w, t).key, true);
    var v := Do(o, crc, w, t, DeleteAppend);
    TombstoneLogged(o, w.store, key, v.store);
    assert v.threads == w.threads[t := th];
    hide Do;
    assert Moved(w, v, t, th);
    hide Moved;
    MovedOk(w, v, t, th);
  }

  /** One more record of a batch is buffered, and nothing else has happened. */
  lemma {:induction false} ItemLogged(o: Options, s: Store, th: Thread)
    requires th.Committing? && !th.finished && th.updated == 0 && |th.slots| < |th.items| && ThreadAgrees(s, th)
    requires 1 <= th.seqNo < s.seqNo && th.seqNo < U64_LIMIT && SeqsBelow(s.log, s.seqNo)
    ensures var item := th.items[|th.slots|];
            var v := Append(o, s, ItemRecord(th.seqNo, item));
            && v.log != [] && v.seqNo == s.seqNo && SeqsBelow(v.log, v.seqNo)
            && ThreadAgrees(v, th.(slots := th.slots + [Slot(LastPos(v), item.value)]))
            && (forall k :: SameAt(s, v, k))
            && (forall p :: p != th.seqNo ==> Pend(Run(v.log), p) == Pend(Run(s.log), p))
  {
    var item := th.items[|th.slots|];
    BatchAppend(o, s, th.seqNo, item);
    hide Append, Run, SeqsBelow, SameAt, Agree, ItemRecord, Distinct;
    var v := Append(o, s, ItemRecord(th.seqNo, item));
    var slots := th.slots + [Slot(LastPos(v), item.value)];
    assert slots[..|slots| - 1] == th.slots;
    ImageSame(s, v);
    AgreesAll(s, v, th.items);
  }

  lemma {:induction false} DoCommitAppend(o: Options, crc: Checksum, w: World, t: nat)
    requires ThreadOf(w, t).Committing? && !ThreadOf(w, t).finished && ThreadOf(w, t).updated == 0
    requires |ThreadOf(w, t).slots| < |ThreadOf(w, t).items| && ThreadOf(w, t).seqNo < U64_LIMIT
    ensures var v, th := Do(o, crc, w, t, CommitAppend), ThreadOf(w, t);
            var item := th.items[|th.slots|];
            && v.store == Append(o, w.store, ItemRecord(th.seqNo, item)) && v.store.log != []
            && v.threads == w.threads[t := th.(slots := th.slots + [Slot(LastPos(v.store), item.value)])]
  {
    hide AppendBytes, Encode, ItemRecord, Size, Layout.Place;
  }

  lemma {:induction false} CommitAppendMoves(o: Options, crc: Checksum, w: World, t: nat)
    requires KeyOrder(w)
    ensures KeyOrder(Do(o, crc, w, t, CommitAppend))
  {
    var th := ThreadOf(w, t);
    if th.Committing? && !th.finished && th.updated == 0 && |th.slots| < |th.items| && th.seqNo < U64_LIMIT {
      hide KeyOrder, Append, Run, SeqsBelow, ItemRecord, ThreadAgrees, Do, SameAt, Busy;
      OrderParts(w, t);
      ItemLogged(o, w.store, th);
      DoCommitAppend(o, crc, w, t);
      var v := Do(o, crc, w, t, CommitAppend);
      BatchLands(w, v, t, v.threads[t]);
    }
  }

  lemma {:induction false} SameBusy(a: Thread, b: Thread)
    requires a.Committing? && b.Committing? && a.items == b.items
    ensures forall k :: Busy(a, k) <==> Busy(b, k)
  {
  }

  /** A step of a commit that leaves everybody else's keys and batches alone. */
  lemma {:induction false} BatchLands(w: World, v: World, t: nat, th: Thread)
    requires KeyOrder(w) && ThreadOf(w, t).Committing? && v.threads == w.threads[t := th]
    requires th.Committing? && th.items == ThreadOf(w, t).items && th.seqNo == ThreadOf(w, t).seqNo
    requires ThreadAgrees(v.store, th)
    requires v.store.seqNo == w.store.seqNo && SeqsBelow(v.store.log, v.store.seqNo)
    requires forall k :: !Busy(th, k) ==> SameAt(w.store, v.store, k)
    requires forall q :: q != th.seqNo ==> Pend(Run(v.store.log), q) == Pend(Run(w.store.log), q)
    ensures KeyOrder(v)
  {
    OrderParts(w, t);
    SameBusy(ThreadOf(w, t), th);
    hide KeyOrder, Busy, ThreadAgrees, SameAt, Agree, Run, SeqsBelow, Free;
    assert Moved(w, v, t, th);
    assert Counted(w, v, t, th);
    hide Moved, Counted;
    MovedOk(w, v, t, th);
  }

  lemma {:induction false} AgreesAll(s: Store, v: Store, items: seq<Item>)
    requires forall i :: 0 <= i < |items| ==> Agree(s, items[i].key)
    requires forall k :: SameAt(s, v, k)
    ensures forall i :: 0 <= i < |items| ==> Agree(v, items[i].key)
  {
    hide SameAt, Agree;
    forall i | 0 <= i < |items| ensures Agree(v, items[i].key) {
      AgreeStays(s, v, items[i].key);
    }
  }

  /** After the finishing record the log speaks for every key of the batch, and for no other. */
  lemma {:induction false} BatchReplays(o: Options, s: Store, th: Thread)
    requires th.Committing? && !th.finished && |th.slots| == |th.items| && ThreadAgrees(s, th)
    requires 1 <= th.seqNo < s.seqNo && th.seqNo < U64_LIMIT && SeqsBelow(s.log, s.seqNo)
    ensures var v := Append(o, s, FinishRecord(th.seqNo));
            && v.log != [] && v.seqNo == s.seqNo && SeqsBelow(v.log, v.seqNo)
            && ThreadAgrees(v, th.(finished := true))
            && (forall k :: !Busy(th, k) ==> SameAt(s, v, k))
            && (forall p :: p != th.seqNo ==> Pend(Run(v.log), p) == Pend(Run(s.log), p))
  {
    FinishAppend(o, s, th.seqNo);
    var v := Append(o, s, FinishRecord(th.seqNo));
    BatchImage(s, th, v);
    hide Append, Run, ImageOf, SeqsBelow, FinishRecord, Agree, Distinct, ThreadAgrees, SameAt, Busy;
  }

  lemma {:induction false} BatchImage(s: Store, th: Thread, v: Store)
    requires th.Committing? && !th.finished && |th.slots| == |th.items| && ThreadAgrees(s, th)
    requires v.index == s.index && ImageOf(v.log) == ApplyAll(ImageOf(s.log), Pend(Run(s.log), th.seqNo))
    ensures ThreadAgrees(v, th.(finished := true))
    ensures forall k :: !Busy(th, k) ==> SameAt(s, v, k)
  {
    hide ImageOf, Run, Planned, ApplyAll, Agree;
    PlannedApplied(ImageOf(s.log), th.items, th.slots);
    hide Distinct, Replays;
    forall k | !Busy(th, k) ensures SameAt(s, v, k) {
      assert forall i :: 0 <= i < |th.slots| ==> th.items[i].key != k;
    }
  }

  lemma {:induction false} DoCommitFinish(o: Options, crc: Checksum, w: World, t: nat)
    requires ThreadOf(w, t).Committing? && !ThreadOf(w, t).finished && ThreadOf(w, t).updated == 0
    requires |ThreadOf(w, t).slots| == |ThreadOf(w, t).items| && ThreadOf(w, t).seqNo < U64_LIMIT
    ensures var v, th := Do(o, crc, w, t, CommitFinish), ThreadOf(w, t);
            && v.store == Append(o, w.store, FinishRecord(th.seqNo))
            && v.threads == w.threads[t := th.(finished := true)]
  {
    hide AppendBytes, Encode, FinishRecord, Size, Layout.Place;
  }

  lemma {:induction false} CommitFinishMoves(o: Options, crc: Checksum, w: World, t: nat)
    requires KeyOrder(w)
    ensures KeyOrder(Do(o, crc, w, t, CommitFinish))
  {
    var th := ThreadOf(w, t);
    if th.Committing? && !th.finished && th.updated == 0 && |th.slots| == |th.items| && th.seqNo < U64_LIMIT {
      hide KeyOrder, Append, Run, SeqsBelow, FinishRecord, ThreadAgrees, Do, SameAt, Busy;
      OrderParts(w, t);
      BatchReplays(o, w.store, th);
      DoCommitFinish(o, crc, w, t);
      SameBusy(th, th.(finished := true));
      var v := Do(o, crc, w, t, CommitFinish);
      BatchLands(w, v, t, v.threads[t]);
    }
  }

  lemma {:induction false} CommitBeginMoves(o: Options, crc: Checksum, w: World, t: nat, items: seq<Item>)
    requires KeyOrder(w) && KeepsOut(o, w, CommitBegin(items))
    ensures KeyOrder(Do(o, crc, w, t, CommitBegin(items)))
  {
    var v, s := Do(o, crc, w, t, CommitBegin(items)), w.store;
    if v != w {
      PendingBelow(s.log, s.seqNo);
      hide Run, ImageOf, BatchFits, SameAt, Agree;
      var th := Committing(s.seqNo, items, [], false, 0);
      ImageSame(s, v.store);
      hide SeqsBelow;
      BeginsBatch(o, w, items);
      AgreesAll(s, v.store, items);
      UnlockedAlone(w);
      BelowMore(s.log, s.seqNo);
      assert Moved(w, v, t, th);
      MovedOk(w, v, t, th);
    }
  }

  lemma {:induction false} BelowMore(log: seq<Logged>, bound: nat)
    requires SeqsBelow(log, bound)
    ensures SeqsBelow(log, bound + 1)
  {
    hide ViewOf;
  }

  lemma {:induction false} UnlockedAlone(w: World)
    requires !Locked(w)
    ensures forall t :: t in w.threads ==> !w.threads[t].Committing?
  {
  }

  lemma {:induction false} BeginsBatch(o: Options, w: World, items: seq<Item>)
    requires KeyOrder(w) && KeepsOut(o, w, CommitBegin(items))
    ensures forall i :: 0 <= i < |items| ==> Agree(w.store, items[i].key)
    ensures forall q, k :: Busy(Committing(q, items, [], false, 0), k) ==> Free(w, k)
  {
    hide Agree, Numbered, Apart, ThreadAgrees;
  }

  /** The index entry the log already speaks for. */
  lemma {:induction false} KeyEntered(s: Store, th: Thread, v: Store, key: Bytes)
    requires ThreadAgrees(s, th)
    requires (th.Putting? && th.key == key && v == PutIndex(s, key, th.slot)) ||
             (th.Deleting? && th.appended && th.key == key && v == DropIndex(s, key))
    ensures Agree(v, key) && forall k :: k != key ==> SameAt(s, v, k)
    ensures v.log == s.log && v.seqNo == s.seqNo
  {
    hide ImageOf;
  }

  lemma {:induction false} UpdateMoves(o: Options, crc: Checksum, w: World, t: nat, a: Action)
    requires KeyOrder(w) && (a.PutUpdate? || a.DeleteUpdate?)
    ensures KeyOrder(Do(o, crc, w, t, a))
  {
    var v, th := Do(o, crc, w, t, a), ThreadOf(w, t);
    if v != w {
      OrderParts(w, t);
      hide KeyOrder, Free, ImageOf, Run, SeqsBelow, PutIndex, DropIndex, ThreadAgrees, Agree, SameAt;
      KeyEntered(w.store, th, v.store, th.key);
      IdleAgrees(v.store);
      assert v.threads == w.threads[t := Idle];
      hide Do;
      assert Moved(w, v, t, Idle);
      hide Moved;
      MovedOk(w, v, t, Idle);
    }
  }

  lemma {:induction false} CommitUpdateMoves(o: Options, crc: Checksum, w: World, t: nat)
    requires KeyOrder(w)
    ensures KeyOrder(Do(o, crc, w, t, CommitUpdate))
  {
    var th := ThreadOf(w, t);
    if th.Committing? && th.finished {
      hide KeyOrder, Do, ThreadAgrees;
      OrderParts(w, t);
      EnoughSlots(w.store, th);
      if th.updated < |th.items| {
        ItemMoves(o, crc, w, t);
      } else {
        LastMoves(o, crc, w, t);
      }
    }
  }

  lemma {:induction false} DoCommitUpdate(o: Options, crc: Checksum, w: World, t: nat)
    requires ThreadOf(w, t).Committing? && ThreadOf(w, t).finished
    requires ThreadOf(w, t).updated <= |ThreadOf(w, t).items| == |ThreadOf(w, t).slots|
    ensures var v, th := Do(o, crc, w, t, CommitUpdate), ThreadOf(w, t);
            if th.updated < |th.items| then
              var item := th.items[th.updated];
              && v.store ==
                   (if item.rtype.Normal? then PutIndex(w.store, item.key, th.slots[th.updated])
                    else DropIndex(w.store, item.key))
              && v.threads == w.threads[t := th.(updated := th.updated + 1)]
            else v.store == w.store && v.threads == w.threads[t := Idle]
  {
    hide PutIndex, DropIndex;
  }

  lemma {:induction false} ItemMoves(o: Options, crc: Checksum, w: World, t: nat)
    requires KeyOrder(w) && ThreadOf(w, t).Committing? && ThreadOf(w, t).finished
    requires ThreadOf(w, t).updated < |ThreadOf(w, t).items|
    ensures KeyOrder(Do(o, crc, w, t, CommitUpdate))
  {
    hide KeyOrder, Run, SeqsBelow, ThreadAgrees, Do, SameAt, Busy, PutIndex, DropIndex;
    var th := ThreadOf(w, t);
    OrderParts(w, t);
    EnoughSlots(w.store, th);
    DoCommitUpdate(o, crc, w, t);
    var v := Do(o, crc, w, t, CommitUpdate);
    ItemEntered(w.store, v.store, th);
    FrameOf(w.store, v.store, th);
    ItemBusy(th.(updated := th.updated + 1), th.updated);
    BatchLands(w, v, t, v.threads[t]);
  }

  lemma {:induction false} LastMoves(o: Options, crc: Checksum, w: World, t: nat)
    requires KeyOrder(w) && ThreadOf(w, t).Committing? && ThreadOf(w, t).finished
    requires ThreadOf(w, t).updated == |ThreadOf(w, t).items|
    ensures KeyOrder(Do(o, crc, w, t, CommitUpdate))
  {
    var th := ThreadOf(w, t);
    OrderParts(w, t);
    EnoughSlots(w.store, th);
    DoCommitUpdate(o, crc, w, t);
    var v := Do(o, crc, w, t, CommitUpdate);
    hide KeyOrder, ImageOf, Run, SeqsBelow, Agree, SameAt, ThreadAgrees, Do, Busy, Free;
    ImageSame(w.store, v.store);
    IdleAgrees(v.store);
    BatchDone(w.store, v.store, th);
    assert Moved(w, v, t, Idle);
    hide Moved;
    assert Counted(w, v, t, Idle);
    hide Counted;
    MovedOk(w, v, t, Idle);
  }

  lemma {:induction false} EnoughSlots(s: Store, th: Thread)
    requires th.Committing? && th.finished && ThreadAgrees(s, th)
    ensures |th.slots| == |th.items| && th.updated <= |th.items|
    ensures forall i :: 0 <= i < |th.items| ==> !th.items[i].rtype.TxnFinished?
  {
    hide ImageOf, Run, Agree;
  }

  lemma {:induction false} FrameOf(s: Store, v: Store, th: Thread)
    requires th.Committing? && th.updated < |th.items| && |th.slots| == |th.items|
    requires var item := th.items[th.updated];
             v == if item.rtype.Normal? then PutIndex(s, item.key, th.slots[th.updated]) else DropIndex(s, item.key)
    ensures v.log == s.log && v.seqNo == s.seqNo
  {
  }

  lemma {:induction false} ItemBusy(th: Thread, i: nat)
    requires th.Committing? && i < |th.items|
    ensures Busy(th, th.items[i].key)
  {
  }

  /** All of the batch is in the index. */
  lemma {:induction false} BatchDone(s: Store, v: Store, th: Thread)
    requires th.Committing? && th.finished && th.updated == |th.items| && ThreadAgrees(s, th)
    requires v.log == s.log && v.index == s.index
    ensures forall k :: Busy(th, k) ==> Agree(v, k)
  {
    hide ImageOf, Run;
    forall k | Busy(th, k) ensures Agree(v, k) {
      var i :| 0 <= i < |th.items| && th.items[i].key == k;
      assert Agree(s, th.items[i].key);
    }
  }

  /** One more item of a finished batch is in the index. */
  lemma {:induction false} ItemEntered(s: Store, v: Store, th: Thread)
    requires th.Committing? && th.finished && th.updated < |th.items| && ThreadAgrees(s, th)
    requires var item := th.items[th.updated];
             v == if item.rtype.Normal? then PutIndex(s, item.key, th.slots[th.updated]) else DropIndex(s, item.key)
    ensures ThreadAgrees(v, th.(updated := th.updated + 1))
    ensures forall k :: k != th.items[th.updated].key ==> SameAt(s, v, k)
  {
    hide ImageOf, Run;
    var items, n := th.items, th.updated;
    forall i | 0 <= i < n + 1 ensures Agree(v, items[i].key) {
      if i < n {
        assert items[i].key != items[n].key;
        assert Agree(s, items[i].key);
      }
    }
  }

  /** The steps that change neither the log nor the index. */
  lemma {:induction false} OtherMoves(o: Options, crc: Checksum, w: World, t: nat, a: Action)
    requires KeyOrder(w) && KeepsOut(o, w, a)
    requires a.DeleteCheck? || a.CommitSync? || a.Rotate? || a.GetIndex? || a.GetRead?
    ensures KeyOrder(Do(o, crc, w, t, a))
  {
    var v := Do(o, crc, w, t, a);
    if v != w {
      StepKeeps(o, crc, w, t, a);
      ThreadKeeps(o, crc, w, t, a);
      hide ImageOf, Run, SeqsBelow, Agree, Do, ThreadAgrees, Busy, Free;
      ImageSame(w.store, v.store);
      hide SameAt;
      assert Moved(w, v, t, v.threads[t]);
      MovedOk(w, v, t, v.threads[t]);
    }
  }

  lemma {:induction false} ThreadKeeps(o: Options, crc: Checksum, w: World, t: nat, a: Action)
    requires KeyOrder(w) && KeepsOut(o, w, a) && Do(o, crc, w, t, a) != w
    requires a.DeleteCheck? || a.CommitSync? || a.Rotate? || a.GetIndex? || a.GetRead?
    ensures var v, th := Do(o, crc, w, t, a), ThreadOf(w, t);
            && t in v.threads && v.threads == w.threads[t := v.threads[t]] && ThreadAgrees(v.store, v.threads[t])
            && (forall k :: Busy(v.threads[t], k) && !Busy(th, k) ==> Free(w, k))
            && (forall k :: Busy(th, k) ==> Busy(v.threads[t], k))
            && (v.threads[t].Committing? ==> th.Committing? && v.threads[t] == th)
  {
    hide ImageOf, Run, SeqsBelow, EmptyEngine, Apart, Numbered;
    StepKeeps(o, crc, w, t, a);
    if a.CommitSync? {
      assert ThreadAgrees(w.store, ThreadOf(w, t));
      AllSame(w.store, Do(o, crc, w, t, a).store, ThreadOf(w, t));
      hide ThreadAgrees;
    }
  }

  lemma {:induction false} StepKeeps(o: Options, crc: Checksum, w: World, t: nat, a: Action)
    requires a.DeleteCheck? || a.CommitSync? || a.Rotate? || a.GetIndex? || a.GetRead?
    ensures var v := Do(o, crc, w, t, a).store;
            v.log == w.store.log && v.index == w.store.index && v.seqNo == w.store.seqNo
  {
    hide EmptyEngine;
  }

  lemma {:induction false} AllSame(s: Store, v: Store, th: Thread)
    requires ThreadAgrees(s, th) && v.log == s.log && v.index == s.index
    ensures ThreadAgrees(v, th)
  {
    hide Run, ImageOf;
  }

  lemma {:induction false} StepKeepsOrder(o: Options, crc: Checksum, w: World, t: nat, a: Action)
    requires KeyOrder(w) && KeepsOut(o, w, a)
    ensures KeyOrder(Do(o, crc, w, t, a))
  {
    if Do(o, crc, w, t, a) != w {
      hide KeyOrder;
      match a
      case PutAppend(key, value) => PutAppendMoves(o, crc, w, t, key, value);
      case DeleteAppend => DeleteAppendMoves(o, crc, w, t);
      case CommitBegin(items) => CommitBeginMoves(o, crc, w, t, items);
      case CommitAppend => CommitAppendMoves(o, crc, w, t);
      case CommitFinish => CommitFinishMoves(o, crc, w, t);
      case CommitUpdate => CommitUpdateMoves(o, crc, w, t);
      case PutUpdate => UpdateMoves(o, crc, w, t, a);
      case DeleteUpdate => UpdateMoves(o, crc, w, t, a);
      case _ => OtherMoves(o, crc, w, t, a);
    }
  }

  /**
   * Any interleaving of any number of threads in which no two operations on one key overlap: at every moment the index
   * has, for every key nobody is busy with, what a replay of the log gives for it.
   */
  lemma {:induction false} KeysKept(o: Options, crc: Checksum, w: World, moves: seq<Move>)
    requires KeyOrder(w) && AllKeepOut(o, crc, w, moves)
    ensures KeyOrder(Interleave(o, crc, w, moves))
  {
    hide KeyOrder, KeepsOut, Do;
    if moves != [] {
      KeysKept(o, crc, w, moves[..|moves| - 1]);
      StepKeepsOrder(o, crc, Interleave(o, crc, w, moves[..|moves| - 1]), moves[|moves| - 1].thread,
        moves[|moves| - 1].action);
    }
  }

  lemma {:induction false} OpenedOrder(o: Options, s: Store, files: map<nat, Bytes>)
    requires LogOk(o, s) && IndexOk(s)
    ensures KeyOrder(Opened(s, files))
  {
    hide ImageOf, ViewOf, Layout.Laid;
  }

  /**
   * So from any opened engine: once such an interleaving is over, the index is that of its log, and an opening would
   * find what the engine shows.
   */
  lemma {:induction false} QuietIsReplay(o: Options, crc: Checksum, s: Store, files: map<nat, Bytes>, moves: seq<Move>)
    requires LogOk(o, s) && IndexOk(s) && AllKeepOut(o, crc, Opened(s, files), moves)
    ensures var w := Interleave(o, crc, Opened(s, files), moves);
            && (forall k :: Free(w, k) ==> (k in w.store.index <==> k in Live(ImageOf(w.store.log))))
            && (forall k :: Free(w, k) && k in w.store.index ==>
                  w.store.index[k] == Live(ImageOf(w.store.log))[k])
            && ((forall t :: t in w.threads ==> w.threads[t].Idle? || w.threads[t].Reading?) ==>
                  w.store.index == Live(ImageOf(w.store.log)))
  {
    OpenedOrder(o, s, files);
    KeysKept(o, crc, Opened(s, files), moves);
    var w := Interleave(o, crc, Opened(s, files), moves);
    hide Interleave, AllKeepOut, ImageOf, LogOk, IndexOk, Numbered, Apart, ThreadAgrees;
    forall k | Free(w, k)
      ensures k in w.store.index <==> k in Live(ImageOf(w.store.log))
      ensures k in w.store.index ==> w.store.index[k] == Live(ImageOf(w.store.log))[k]
    {
      assert Agree(w.store, k);
    }
    if forall t :: t in w.threads ==> w.threads[t].Idle? || w.threads[t].Reading? {
      forall k ensures Free(w, k) {
      }
      assert w.store.index == Live(ImageOf(w.store.log));
    }
  }
}
