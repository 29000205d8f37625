/**
 * The steps of one thread with nobody in between are the operation they are steps of: a put, a delete, a commit or the
 * rotation of a merge, as the state machine has them.
 */
module Serial {
  import opened Wire
  import opened LogRecord
  import opened Replay
  import Layout
  import opened Store
  import opened Invariant
  import opened Directory
  import opened Concurrent

  /** The same step of the same thread, again and again. */
  function Times(t: nat, a: Action, n: nat): (moves: seq<Move>)
    ensures |moves| == n
  {
    if n == 0 then [] else Times(t, a, n - 1) + [Move(t, a)]
  }

  lemma {:induction false} InterleaveAppend(o: Options, crc: Checksum, w: World, a: seq<Move>, b: seq<Move>)
    ensures Interleave(o, crc, w, a + b) == Interleave(o, crc, Interleave(o, crc, w, a), b)
    decreases |b|
  {
    hide Do;
    if b == [] {
      assert a + b == a;
    } else {
      assert (a + b)[..|a + b| - 1] == a + b[..|b| - 1];
      InterleaveAppend(o, crc, w, a, b[..|b| - 1]);
    }
  }

  lemma {:induction false} OneMove(o: Options, crc: Checksum, w: World, t: nat, a: Action)
    ensures Interleave(o, crc, w, [Move(t, a)]) == Do(o, crc, w, t, a)
  {
    hide Do;
    assert [Move(t, a)][..0] == [];
  }

  /** Only the thread that moves changes what it holds. */
  ghost predicate Others(w: World, v: World, t: nat)
  {
    forall u :: u != t ==> ThreadOf(v, u) == ThreadOf(w, u)
  }

  lemma {:induction false} OthersThen(w: World, v: World, x: World, t: nat)
    requires Others(w, v, t) && Others(v, x, t)
    ensures Others(w, x, t)
  {
  }

  // ---- Put and delete ----

  lemma {:induction false} PutAlone(o: Options, crc: Checksum, w: World, t: nat, key: Bytes, value: Bytes)
    requires ThreadOf(w, t).Idle? && Fits(key, value)
    ensures var v := Interleave(o, crc, w, [Move(t, PutAppend(key, value)), Move(t, PutUpdate)]);
            v.store == Put(o, w.store, key, value) && ThreadOf(v, t).Idle? && Others(w, v, t)
  {
    hide EncodeKey, Append, AppendBytes, Encode;
    var a, b := [Move(t, PutAppend(key, value))], [Move(t, PutUpdate)];
    assert a + b == [Move(t, PutAppend(key, value)), Move(t, PutUpdate)];
    InterleaveAppend(o, crc, w, a, b);
    OneMove(o, crc, w, t, PutAppend(key, value));
    var v := Interleave(o, crc, w, a);
    OneMove(o, crc, v, t, PutUpdate);
    hide Interleave;
    DoPut(o, crc, w, t, key, value);
  }

  /** A delete of a key that is not there takes no step. */
  lemma {:induction false} DeleteAlone(o: Options, crc: Checksum, w: World, t: nat, key: Bytes)
    requires ThreadOf(w, t).Idle? && Fits(key, [])
    ensures var v := Interleave(o, crc, w, [Move(t, DeleteCheck(key)), Move(t, DeleteAppend), Move(t, DeleteUpdate)]);
            v.store == DeleteKey(o, w.store, key) && ThreadOf(v, t).Idle?
            && Others(w, v, t)
  {
    hide EncodeKey, Append, AppendBytes, Encode;
    var a, b, c := [Move(t, DeleteCheck(key))], [Move(t, DeleteAppend)], [Move(t, DeleteUpdate)];
    assert a + b + c == [Move(t, DeleteCheck(key)), Move(t, DeleteAppend), Move(t, DeleteUpdate)];
    InterleaveAppend(o, crc, w, a + b, c);
    InterleaveAppend(o, crc, w, a, b);
    OneMove(o, crc, w, t, DeleteCheck(key));
    OneMove(o, crc, Interleave(o, crc, w, a), t, DeleteAppend);
    OneMove(o, crc, Interleave(o, crc, w, a + b), t, DeleteUpdate);
    hide Interleave;
    DeleteSteps(o, crc, w, t, key);
  }

  lemma {:induction false} DeleteSteps(o: Options, crc: Checksum, w: World, t: nat, key: Bytes)
    requires ThreadOf(w, t).Idle? && Fits(key, [])
    ensures var w1 := Do(o, crc, w, t, DeleteCheck(key));
            var v := Do(o, crc, Do(o, crc, w1, t, DeleteAppend), t, DeleteUpdate);
            v.store == DeleteKey(o, w.store, key) && ThreadOf(v, t).Idle? && Others(w, v, t)
  {
    hide Append, TombstoneKey;
    var w1 := Do(o, crc, w, t, DeleteCheck(key));
    if key in w.store.index {
      DoTombstone(o, crc, w1, t);
    } else {
      assert w1 == w;
    }
    hide AppendBytes, Encode, DropIndex;
  }

  lemma {:induction false} DoTombstone(o: Options, crc: Checksum, w: World, t: nat)
    requires ThreadOf(w, t).Deleting? && !ThreadOf(w, t).appended
    ensures var key := ThreadOf(w, t).key;
            var u := Append(o, w.store, Record(TombstoneKey(o, key), [], RecordType.Delete));
            var v := Do(o, crc, w, t, DeleteAppend);
            && u.log != [] && v.store == u.(reclaim := u.reclaim + LastPos(u).size)
            && v.threads == w.threads[t := Deleting(key, true)]
  {
    hide TombstoneKey, AppendBytes, Encode, Size, Layout.Place;
  }

  // ---- A commit ----

  /** The items written so far are in the log, each slot at its place, and the index is as it was. */
  ghost predicate Writing(o: Options, s: Store, items: seq<Item>, n: nat, v: Store, slots: seq<Slot>)
  {
    && n <= |items| && |slots| == n
    && v == AppendItems(o, s.(seqNo := s.seqNo + 1), s.seqNo, items[..n])
    && forall i :: 0 <= i < n ==> slots[i] == Slot(v.log[|s.log| + i].pos, items[i].value)
  }

  lemma {:induction false} AppendOne(o: Options, s: Store, items: seq<Item>, n: nat, v: Store, slots: seq<Slot>)
    requires Writing(o, s, items, n, v, slots) && n < |items|
    ensures var u := Append(o, v, ItemRecord(s.seqNo, items[n]));
            u.log != [] && Writing(o, s, items, n + 1, u, slots + [Slot(LastPos(u), items[n].value)])
  {
    hide Append, ItemRecord;
    var u := Append(o, v, ItemRecord(s.seqNo, items[n]));
    AppendKeeps(o, v, ItemRecord(s.seqNo, items[n]));
    assert items[..n + 1][..n] == items[..n];
    assert u == AppendItems(o, s.(seqNo := s.seqNo + 1), s.seqNo, items[..n + 1]);
    assert |u.log| == |s.log| + n + 1;
    var slots' := slots + [Slot(LastPos(u), items[n].value)];
    forall i | 0 <= i < n + 1 ensures slots'[i] == Slot(u.log[|s.log| + i].pos, items[i].value) {
      if i < n {
        assert u.log[|s.log| + i] == v.log[|s.log| + i];
      }
    }
  }

  lemma {:induction false} AppendStep(o: Options, crc: Checksum, w: World, t: nat, s: Store, items: seq<Item>, n: nat,
      slots: seq<Slot>)
    requires n < |items| && s.seqNo < U64_LIMIT && Writing(o, s, items, n, w.store, slots)
    requires ThreadOf(w, t) == Committing(s.seqNo, items, slots, false, 0)
    ensures var v := Do(o, crc, w, t, CommitAppend);
            && ThreadOf(v, t).Committing? && Others(w, v, t)
            && ThreadOf(v, t) == Committing(s.seqNo, items, ThreadOf(v, t).slots, false, 0)
            && Writing(o, s, items, n + 1, v.store, ThreadOf(v, t).slots)
  {
    WritingFits(o, s, items, n, w.store, slots);
    AppendOne(o, s, items, n, w.store, slots);
    hide Append, ItemRecord, Writing, AppendBytes, Encode;
  }

  lemma {:induction false} CommitAppends(o: Options, crc: Checksum, w: World, t: nat, s: Store, items: seq<Item>,
      n: nat)
    requires n <= |items| && s.seqNo < U64_LIMIT && w.store == s.(seqNo := s.seqNo + 1)
    requires ThreadOf(w, t) == Committing(s.seqNo, items, [], false, 0)
    ensures var v := Interleave(o, crc, w, Times(t, CommitAppend, n));
            && ThreadOf(v, t).Committing? && Others(w, v, t)
            && ThreadOf(v, t) == Committing(s.seqNo, items, ThreadOf(v, t).slots, false, 0)
            && Writing(o, s, items, n, v.store, ThreadOf(v, t).slots)
  {
    hide Writing, Do, Others;
    if n == 0 {
      NoneWritten(o, s, items);
      OthersSelf(w, t);
    } else {
      CommitAppends(o, crc, w, t, s, items, n - 1);
      var v := Interleave(o, crc, w, Times(t, CommitAppend, n - 1));
      AppendStep(o, crc, v, t, s, items, n - 1, ThreadOf(v, t).slots);
      InterleaveAppend(o, crc, w, Times(t, CommitAppend, n - 1), [Move(t, CommitAppend)]);
      OneMove(o, crc, v, t, CommitAppend);
      OthersThen(w, v, Do(o, crc, v, t, CommitAppend), t);
      hide Interleave;
    }
  }

  lemma {:induction false} OthersSelf(w: World, t: nat)
    ensures Others(w, w, t)
  {
  }

  lemma {:induction false} NoneWritten(o: Options, s: Store, items: seq<Item>)
    ensures Writing(o, s, items, 0, s.(seqNo := s.seqNo + 1), [])
  {
  }

  lemma {:induction false} WritingFits(o: Options, s: Store, items: seq<Item>, n: nat, v: Store, slots: seq<Slot>)
    requires Writing(o, s, items, n, v, slots)
    ensures |slots| == n
  {
  }

  lemma {:induction false} UpdateStep(o: Options, crc: Checksum, w: World, t: nat, items: seq<Item>, before: Store,
      at: nat, n: nat)
    requires n < |items| && at + |items| <= |before.log| && w.store == InstallItems(before, items[..n], at)
    requires ThreadOf(w, t).Committing? && ThreadOf(w, t).finished && ThreadOf(w, t).updated == n
    requires ThreadOf(w, t).items == items && |ThreadOf(w, t).slots| == |items|
    requires !items[n].rtype.TxnFinished? && ThreadOf(w, t).slots[n] == Slot(before.log[at + n].pos, items[n].value)
    ensures var v := Do(o, crc, w, t, CommitUpdate);
            && ThreadOf(v, t) == ThreadOf(w, t).(updated := n + 1) && Others(w, v, t)
            && v.store == InstallItems(before, items[..n + 1], at)
  {
    assert items[..n + 1][..n] == items[..n];
    hide PutIndex, DropIndex;
  }

  lemma {:induction false} CommitUpdates(o: Options, crc: Checksum, w: World, t: nat, q: nat, items: seq<Item>,
      slots: seq<Slot>, at: nat, n: nat)
    requires n <= |items| == |slots| && at + |items| <= |w.store.log|
    requires forall i :: 0 <= i < |items| ==>
      !items[i].rtype.TxnFinished? && slots[i] == Slot(w.store.log[at + i].pos, items[i].value)
    requires ThreadOf(w, t) == Committing(q, items, slots, true, 0)
    ensures var v := Interleave(o, crc, w, Times(t, CommitUpdate, n));
            && ThreadOf(v, t) == Committing(q, items, slots, true, n)
            && Others(w, v, t)
            && v.store == InstallItems(w.store, items[..n], at)
  {
    hide InstallItems, Do, Others, Interleave;
    if n == 0 {
      NoMoves(o, crc, w);
      NothingInstalled(w.store, at);
      OthersSelf(w, t);
    } else {
      CommitUpdates(o, crc, w, t, q, items, slots, at, n - 1);
      var v := Interleave(o, crc, w, Times(t, CommitUpdate, n - 1));
      UpdateStep(o, crc, v, t, items, w.store, at, n - 1);
      InterleaveAppend(o, crc, w, Times(t, CommitUpdate, n - 1), [Move(t, CommitUpdate)]);
      OneMove(o, crc, v, t, CommitUpdate);
      OthersThen(w, v, Do(o, crc, v, t, CommitUpdate), t);
    }
  }

  lemma {:induction false} NothingInstalled(s: Store, at: nat)
    requires at <= |s.log|
    ensures InstallItems(s, [], at) == s
  {
  }

  /** The steps of a commit that write, and those that enter what was written; the last one gives the lock back. */
  function WriteMoves(t: nat, items: seq<Item>, sync: bool): seq<Move>
  {
    [Move(t, CommitBegin(items))] + Times(t, CommitAppend, |items|)
      + ([Move(t, CommitFinish)] + if sync then [Move(t, CommitSync)] else [])
  }

  function CommitMoves(t: nat, items: seq<Item>, sync: bool): seq<Move>
  {
    WriteMoves(t, items, sync) + (Times(t, CommitUpdate, |items|) + [Move(t, CommitUpdate)])
  }

  lemma {:induction false} CommitBegins(o: Options, crc: Checksum, w: World, t: nat, items: seq<Item>)
    requires ThreadOf(w, t).Idle? && !Locked(w) && items != [] && BatchFits(items) && w.store.seqNo < U64_LIMIT
    ensures var v, s := Interleave(o, crc, w, [Move(t, CommitBegin(items))]), w.store;
            && v.store == s.(seqNo := s.seqNo + 1) && Others(w, v, t)
            && ThreadOf(v, t) == Committing(s.seqNo, items, [], false, 0)
  {
    OneMove(o, crc, w, t, CommitBegin(items));
    hide Interleave, Locked, BatchFits;
  }

  /** The finishing record, and the sync if there is one. */
  lemma {:induction false} CommitFinishes(o: Options, crc: Checksum, w: World, t: nat, s: Store, items: seq<Item>,
      slots: seq<Slot>, sync: bool)
    requires ThreadOf(w, t) == Committing(s.seqNo, items, slots, false, 0) && s.seqNo < U64_LIMIT
    requires Writing(o, s, items, |items|, w.store, slots)
    ensures var moves := [Move(t, CommitFinish)] + if sync then [Move(t, CommitSync)] else [];
            var v := Interleave(o, crc, w, moves);
            && v.store == Written(o, s, items, sync) && Others(w, v, t)
            && ThreadOf(v, t) == Committing(s.seqNo, items, slots, true, 0)
  {
    assert items[..|items|] == items;
    var a, b := [Move(t, CommitFinish)], if sync then [Move(t, CommitSync)] else [];
    InterleaveAppend(o, crc, w, a, b);
    OneMove(o, crc, w, t, CommitFinish);
    var v := Do(o, crc, w, t, CommitFinish);
    OneMove(o, crc, v, t, CommitSync);
    NoMoves(o, crc, v);
    DoFinish(o, crc, w, t);
    DoSync(o, crc, v, t);
    hide Interleave, Do, Sync, Append, FinishRecord, AppendItems;
  }

  lemma {:induction false} DoFinish(o: Options, crc: Checksum, w: World, t: nat)
    requires ThreadOf(w, t).Committing? && !ThreadOf(w, t).finished && ThreadOf(w, t).updated == 0
    requires |ThreadOf(w, t).slots| == |ThreadOf(w, t).items| && ThreadOf(w, t).seqNo < U64_LIMIT
    ensures var v := Do(o, crc, w, t, CommitFinish);
            && v.store == Append(o, w.store, FinishRecord(ThreadOf(w, t).seqNo))
            && ThreadOf(v, t) == ThreadOf(w, t).(finished := true) && Others(w, v, t)
  {
    hide Append, FinishRecord, AppendBytes, Encode;
  }

  lemma {:induction false} DoSync(o: Options, crc: Checksum, w: World, t: nat)
    requires ThreadOf(w, t).Committing? && ThreadOf(w, t).finished && ThreadOf(w, t).updated == 0
    ensures var v := Do(o, crc, w, t, CommitSync);
            v.store == Sync(w.store) && ThreadOf(v, t) == ThreadOf(w, t) && Others(w, v, t)
  {
    hide Sync;
  }

  lemma {:induction false} WrittenSlots(o: Options, s: Store, items: seq<Item>, v: Store, slots: seq<Slot>, sync: bool)
    requires Writing(o, s, items, |items|, v, slots)
    ensures var u := Written(o, s, items, sync);
            && |slots| == |items| && |u.log| == |s.log| + |items| + 1
            && forall i :: 0 <= i < |items| ==> slots[i] == Slot(u.log[|s.log| + i].pos, items[i].value)
  {
    assert items[..|items|] == items;
    hide AppendItems, Append, FinishRecord;
    AppendKeeps(o, v, FinishRecord(s.seqNo));
  }

  /** The thread has written the items behind place `at` and has entered none of them yet. */
  ghost predicate ToEnter(w: World, t: nat, q: nat, items: seq<Item>, at: nat)
  {
    && at + |items| <= |w.store.log|
    && ThreadOf(w, t).Committing? && |ThreadOf(w, t).slots| == |items|
    && ThreadOf(w, t) == Committing(q, items, ThreadOf(w, t).slots, true, 0)
    && forall i :: 0 <= i < |items| ==>
         ThreadOf(w, t).slots[i] == Slot(w.store.log[at + i].pos, items[i].value)
  }

  /** Everything is on disk, and nothing in the index yet. */
  lemma {:induction false} CommitWrites(o: Options, crc: Checksum, w: World, t: nat, items: seq<Item>, sync: bool)
    requires ThreadOf(w, t).Idle? && !Locked(w) && items != [] && BatchFits(items) && w.store.seqNo < U64_LIMIT
    ensures var v := Interleave(o, crc, w, WriteMoves(t, items, sync));
            && v.store == Written(o, w.store, items, sync) && Others(w, v, t)
            && ToEnter(v, t, w.store.seqNo, items, |w.store.log|)
  {
    hide Interleave, Do, Locked, Writing, Written, Times, BatchFits, Others;
    var s, n := w.store, |items|;
    var m1, m2 := [Move(t, CommitBegin(items))], Times(t, CommitAppend, n);
    var m3 := [Move(t, CommitFinish)] + if sync then [Move(t, CommitSync)] else [];
    InterleaveAppend(o, crc, w, m1 + m2, m3);
    InterleaveAppend(o, crc, w, m1, m2);
    var w1, w2 := Interleave(o, crc, w, m1), Interleave(o, crc, w, m1 + m2);
    CommitBegins(o, crc, w, t, items);
    CommitAppends(o, crc, w1, t, s, items, n);
    var slots := ThreadOf(w2, t).slots;
    CommitFinishes(o, crc, w2, t, s, items, slots, sync);
    WrittenSlots(o, s, items, w2.store, slots, sync);
    OthersThen(w, w1, w2, t);
    OthersThen(w, w2, Interleave(o, crc, w2, m3), t);
  }

  lemma {:induction false} CommitEnters(o: Options, crc: Checksum, w: World, t: nat, q: nat, items: seq<Item>, at: nat)
    requires ToEnter(w, t, q, items, at)
    requires forall i :: 0 <= i < |items| ==> !items[i].rtype.TxnFinished?
    ensures var v := Interleave(o, crc, w, Times(t, CommitUpdate, |items|) + [Move(t, CommitUpdate)]);
            v.store == InstallItems(w.store, items, at) && ThreadOf(v, t).Idle? && Others(w, v, t)
  {
    hide Interleave, Do, InstallItems, Times, Others;
    var th, n := ThreadOf(w, t), |items|;
    InterleaveAppend(o, crc, w, Times(t, CommitUpdate, n), [Move(t, CommitUpdate)]);
    CommitUpdates(o, crc, w, t, th.seqNo, items, th.slots, at, n);
    assert items[..n] == items;
    var v := Interleave(o, crc, w, Times(t, CommitUpdate, n));
    OneMove(o, crc, v, t, CommitUpdate);
    CommitEnds(o, crc, v, t);
    OthersThen(w, v, Do(o, crc, v, t, CommitUpdate), t);
  }

  /** A commit with nobody in between: all records, the finishing record, the sync, then the index. */
  lemma {:induction false} CommitAlone(o: Options, crc: Checksum, w: World, t: nat, items: seq<Item>, sync: bool)
    requires ThreadOf(w, t).Idle? && !Locked(w) && items != [] && BatchFits(items) && w.store.seqNo < U64_LIMIT
    ensures var v := Interleave(o, crc, w, CommitMoves(t, items, sync));
            && v.store == Commit(o, w.store, items, sync, |items|) && ThreadOf(v, t).Idle?
            && Others(w, v, t)
  {
    ItemsFit(items);
    CommitShape(o, w.store, items, sync);
    hide Interleave, Do, Locked, Written, InstallItems, Times, BatchFits, Others, WriteMoves, Commit, ToEnter;
    CommitWrites(o, crc, w, t, items, sync);
    var v, rest := Interleave(o, crc, w, WriteMoves(t, items, sync)), Times(t, CommitUpdate, |items|);
    InterleaveAppend(o, crc, w, WriteMoves(t, items, sync), rest + [Move(t, CommitUpdate)]);
    CommitEnters(o, crc, v, t, w.store.seqNo, items, |w.store.log|);
    OthersThen(w, v, Interleave(o, crc, v, rest + [Move(t, CommitUpdate)]), t);
  }

  lemma {:induction false} CommitShape(o: Options, s: Store, items: seq<Item>, sync: bool)
    requires items != []
    ensures Commit(o, s, items, sync, |items|) == InstallItems(Written(o, s, items, sync), items, |s.log|)
  {
    hide Written, InstallItems;
  }

  lemma {:induction false} ItemsFit(items: seq<Item>)
    requires BatchFits(items)
    ensures forall i :: 0 <= i < |items| ==> !items[i].rtype.TxnFinished?
  {
  }

  lemma {:induction false} CommitEnds(o: Options, crc: Checksum, w: World, t: nat)
    requires ThreadOf(w, t).Committing? && ThreadOf(w, t).finished && ThreadOf(w, t).updated == |ThreadOf(w, t).items|
    ensures var v := Do(o, crc, w, t, CommitUpdate);
            v.store == w.store && ThreadOf(v, t).Idle? && Others(w, v, t)
  {
  }

  // ---- One operation after the other ----

  datatype Op =
    | PutOp(key: Bytes, value: Bytes)
    | DeleteOp(key: Bytes)
    | CommitOp(items: seq<Item>, sync: bool)
    | RotateOp

  datatype Call = Call(thread: nat, op: Op)

  function MovesOf(c: Call): seq<Move>
  {
    match c.op
    case PutOp(key, value) => [Move(c.thread, PutAppend(key, value)), Move(c.thread, PutUpdate)]
    case DeleteOp(key) => [Move(c.thread, DeleteCheck(key)), Move(c.thread, DeleteAppend), Move(c.thread, DeleteUpdate)]
    case CommitOp(items, sync) => CommitMoves(c.thread, items, sync)
    case RotateOp => [Move(c.thread, Rotate)]
  }

  /** What the operation does when it is one step. */
  function Called(o: Options, s: Store, op: Op): Store
  {
    match op
    case PutOp(key, value) => Put(o, s, key, value)
    case DeleteOp(key) => DeleteKey(o, s, key)
    case CommitOp(items, sync) => Commit(o, s, items, sync, |items|)
    case RotateOp => MergeBegin(s)
  }

  predicate OpFits(op: Op)
  {
    match op
    case PutOp(key, value) => Concurrent.Fits(key, value)
    case DeleteOp(key) => Concurrent.Fits(key, [])
    case CommitOp(items, _) => items != [] && BatchFits(items)
    case RotateOp => true
  }

  ghost predicate AllIdle(w: World)
  {
    forall t :: ThreadOf(w, t).Idle?
  }

  lemma {:induction false} IdleUnlocked(w: World)
    requires AllIdle(w)
    ensures !Locked(w)
  {
    forall t | t in w.threads ensures !w.threads[t].Committing? {
      assert ThreadOf(w, t).Idle?;
    }
  }

  /** Any one operation, nobody else being busy. */
  lemma {:induction false} CallAlone(o: Options, crc: Checksum, w: World, c: Call)
    requires AllIdle(w) && OpFits(c.op) && w.store.seqNo < U64_LIMIT
    ensures var v := Interleave(o, crc, w, MovesOf(c));
            v.store == Called(o, w.store, c.op) && AllIdle(v)
  {
    hide Interleave, Do, Put, DeleteKey, Commit, MergeBegin, Concurrent.Fits, BatchFits, Locked, CommitMoves;
    IdleUnlocked(w);
    var v := Interleave(o, crc, w, MovesOf(c));
    assert ThreadOf(w, c.thread).Idle?;
    match c.op {
    case PutOp(key, value) => PutAlone(o, crc, w, c.thread, key, value);
    case DeleteOp(key) => DeleteAlone(o, crc, w, c.thread, key);
    case CommitOp(items, sync) => CommitAlone(o, crc, w, c.thread, items, sync);
    case RotateOp =>
      OneMove(o, crc, w, c.thread, Rotate);
      RotateAlone(o, crc, w, c.thread);
    }
    forall u ensures ThreadOf(v, u).Idle? {
      assert ThreadOf(w, u).Idle?;
    }
  }

  lemma {:induction false} RotateAlone(o: Options, crc: Checksum, w: World, t: nat)
    requires ThreadOf(w, t).Idle?
    ensures var v := Do(o, crc, w, t, Rotate);
            v.store == MergeBegin(w.store) && ThreadOf(v, t).Idle? && Others(w, v, t)
  {
    hide EmptyEngine;
  }

  function AllMoves(calls: seq<Call>): seq<Move>
  {
    if calls == [] then [] else AllMoves(calls[..|calls| - 1]) + MovesOf(calls[|calls| - 1])
  }

  function AllCalled(o: Options, s: Store, calls: seq<Call>): Store
  {
    if calls == [] then s else Called(o, AllCalled(o, s, calls[..|calls| - 1]), calls[|calls| - 1].op)
  }

  lemma {:induction false} CalledSeq(o: Options, s: Store, op: Op)
    ensures s.seqNo <= Called(o, s, op).seqNo <= s.seqNo + 1
  {
    hide Append, AppendItems, InstallItems, Written, EncodeKey;
    match op
    case PutOp(key, value) => AppendKeeps(o, s, Record(EncodeKey(NON_TRANSACTION, key), value, Normal));
    case DeleteOp(key) => AppendKeeps(o, s, Record(TombstoneKey(o, key), [], RecordType.Delete));
    case CommitOp(items, sync) =>
      CommitSeq(o, s, items, sync);
    case RotateOp =>
  }

  lemma {:induction false} CommitSeq(o: Options, s: Store, items: seq<Item>, sync: bool)
    ensures s.seqNo <= Commit(o, s, items, sync, |items|).seqNo <= s.seqNo + 1
  {
    hide Append, AppendItems, InstallItems, FinishRecord;
    var s1 := s.(seqNo := s.seqNo + 1);
    AppendItemsKeep(o, s1, s.seqNo, items);
    AppendKeeps(o, AppendItems(o, s1, s.seqNo, items), FinishRecord(s.seqNo));
    InstallFrame(Written(o, s, items, sync), items, |s.log|);
  }

  /**
   * Calls of any threads one after the other, whatever they are: the engine is what the operations make of it one by
   * one.
   */
  lemma {:induction false} SerialIsSequential(o: Options, crc: Checksum, w: World, calls: seq<Call>)
    requires AllIdle(w) && w.store.seqNo + |calls| <= U64_LIMIT
    requires forall c :: c in calls ==> OpFits(c.op)
    ensures var v := Interleave(o, crc, w, AllMoves(calls));
            v.store == AllCalled(o, w.store, calls) && AllIdle(v)
    ensures AllCalled(o, w.store, calls).seqNo <= w.store.seqNo + |calls|
  {
    hide Interleave, Called, OpFits, MovesOf, AllIdle;
    if calls == [] {
      NoMoves(o, crc, w);
    } else {
      var pre, c := calls[..|calls| - 1], calls[|calls| - 1];
      SerialIsSequential(o, crc, w, pre);
      InterleaveAppend(o, crc, w, AllMoves(pre), MovesOf(c));
      CallAlone(o, crc, Interleave(o, crc, w, AllMoves(pre)), c);
      CalledSeq(o, AllCalled(o, w.store, pre), c.op);
    }
  }

  lemma {:induction false} NoMoves(o: Options, crc: Checksum, w: World)
    ensures Interleave(o, crc, w, []) == w
  {
  }

  // ---- With others in between ----

  /** Whatever the others have done since: the step that ends a delete takes the key out of the index. */
  lemma {:induction false} DeleteTakesEffect(o: Options, crc: Checksum, w: World, t: nat, u: nat)
    requires ThreadOf(w, t).Deleting? && ThreadOf(w, t).appended && ThreadOf(w, u).Idle? && u != t
    ensures var key, v := ThreadOf(w, t).key, Do(o, crc, w, t, DeleteUpdate);
            && key !in v.store.index && ThreadOf(v, t).Idle?
            && v.store.index == (map k | k in w.store.index && k != key :: w.store.index[k])
            && !ThreadOf(Do(o, crc, v, u, GetIndex(key)), u).Reading?
  {
  }

  /** A get takes the slot the index has, keeps it while others go on, and is then done; a missing key is no get. */
  lemma {:induction false} GetAlone(o: Options, crc: Checksum, w: World, t: nat, key: Bytes)
    requires ThreadOf(w, t).Idle?
    ensures var v := Do(o, crc, w, t, GetIndex(key));
            && v.store == w.store && Others(w, v, t)
            && ThreadOf(v, t) == (if key in w.store.index then Reading(key, w.store.index[key]) else Idle)
            && ThreadOf(Do(o, crc, v, t, GetRead), t).Idle? && Do(o, crc, v, t, GetRead).store == w.store
  {
  }

  /** And the step that ends a put enters its record. */
  lemma {:induction false} PutTakesEffect(o: Options, crc: Checksum, w: World, t: nat, u: nat)
    requires ThreadOf(w, t).Putting? && ThreadOf(w, u).Idle? && u != t
    ensures var th, v := ThreadOf(w, t), Do(o, crc, w, t, PutUpdate);
            && v.store.index == w.store.index[th.key := th.slot] && ThreadOf(v, t).Idle?
            && ThreadOf(Do(o, crc, v, u, GetIndex(th.key)), u) == Reading(th.key, th.slot)
  {
  }
}
