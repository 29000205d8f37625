/**
 * What every step keeps: the log stays well laid, the index is what replaying the log gives, sequence numbers stay
 * fresh.
 */
module Invariant {
  import opened Wire
  import opened LogRecord
  import opened Replay
  import opened Layout
  import opened Store

  ghost predicate LogOk(o: Options, s: Store)
  {
    && Laid(s.log, s.active, s.writeOff)
    && Packed(s.log, o.dataFileSize)
    && Parses(s.log)
    && SeqsBelow(s.log, s.seqNo)
    && 1 <= s.seqNo
    && SplitAt(s.log, s.active) <= s.synced <= |s.log|
  }

  ghost predicate IndexOk(s: Store)
  {
    s.index == Live(ImageOf(s.log))
  }

  /** `t` is `s` with records added at the end of the log and nothing taken back. */
  ghost predicate Grows(s: Store, t: Store)
  {
    && s.log <= t.log
    && s.active <= t.active
    && s.synced <= t.synced
    && s.seqNo <= t.seqNo
    && (forall i :: |s.log| <= i < |t.log| ==> t.log[i].pos.fid >= s.active)
    && t.base == s.base && t.hint == s.hint && t.merge == s.merge
  }

  lemma {:induction false} GrowsTransitive(s: Store, t: Store, u: Store)
    requires Grows(s, t) && Grows(t, u)
    ensures Grows(s, u)
  {
    assert s.log <= u.log;
    forall i | |s.log| <= i < |u.log| ensures u.log[i].pos.fid >= s.active {
      if i < |t.log| {
        assert u.log[i] == t.log[i];
      }
    }
  }

  // ---- Append ----

  /** A record whose key parses, with a sequence number already handed out. */
  ghost predicate Loggable(s: Store, rec: Record)
  {
    ParseKey(rec.key).ParsedKey? && ParseKey(rec.key).seqNo < s.seqNo
  }

  lemma {:induction false} ParsesSnoc(log: seq<Logged>, l: Logged, bound: nat)
    requires Parses(log) && SeqsBelow(log, bound) && ParseKey(l.rec.key).ParsedKey? && ParseKey(l.rec.key).seqNo < bound
    ensures Parses(log + [l]) && SeqsBelow(log + [l], bound)
  {
  }

  lemma {:induction false} AppendOk(o: Options, s: Store, rec: Record)
    requires LogOk(o, s) && Loggable(s, rec)
    ensures LogOk(o, Append(o, s, rec)) && Grows(s, Append(o, s, rec))
    ensures Append(o, s, rec).log[..|s.log|] == s.log
    ensures Append(o, s, rec).index == s.index && Append(o, s, rec).reclaim == s.reclaim
  {
    hide Laid, ParseKey, Packed, Parses, SeqsBelow, Size, ViewOf;
    var t := Append(o, s, rec);
    var at := Place(Cursor(s.active, s.writeOff), Size(rec), o.dataFileSize);
    var l := Logged(rec, Pos(at.fid, at.off, Size(rec)));
    PlaceLaid(s.log, Cursor(s.active, s.writeOff), rec, o.dataFileSize);
    ParsesSnoc(s.log, l, s.seqNo);
    assert t.log == s.log + [l];
    SplitAppend(s.log, [l], t.active);
    SplitExact(s.log, s.active, s.writeOff, s.active);
  }

  // ---- Put and delete ----

  lemma {:induction false} LiveApply(image: Image, u: Update)
    requires !u.rtype.TxnFinished?
    ensures Live(Apply(image, u)) ==
              if u.rtype.Delete? then Live(image) - {u.key} else Live(image)[u.key := u.slot]
    ensures OldSize(image, u.key) == IndexedSize(Live(image), u.key)
  {
  }

  /** The view of the record an append adds. */
  lemma {:induction false} AppendView(o: Options, s: Store, seqNo: nat, key: Bytes, value: Bytes, rtype: RecordType)
    requires seqNo < U64_LIMIT
    ensures var rec := Record(EncodeKey(seqNo, key), value, rtype);
            var t := Append(o, s, rec);
            && t.log == s.log + [t.log[|s.log|]]
            && t.log[|s.log|].rec == rec
            && ViewOf(t.log[|s.log|]) == View(seqNo, Update(key, rtype, Slot(LastPos(t), value)))
            && ParseKey(rec.key) == ParsedKey(key, seqNo)
  {
    hide Size, Place, ParseKey, EncodeKey;
    var rec := Record(EncodeKey(seqNo, key), value, rtype);
    var t := Append(o, s, rec);
    ViewOfEncoded(seqNo, key, value, rtype, LastPos(t));
    KeyRoundTrip(seqNo, key);
  }

  lemma {:induction false} PutOk(o: Options, s: Store, key: Bytes, value: Bytes)
    requires LogOk(o, s) && IndexOk(s)
    ensures LogOk(o, Put(o, s, key, value)) && IndexOk(Put(o, s, key, value)) && Grows(s, Put(o, s, key, value))
    ensures key != [] ==>
      var t := Put(o, s, key, value);
      && |t.log| == |s.log| + 1
      && ImageOf(t.log) == ImageOf(s.log)[key := Some(Slot(LastPos(t), value))]
      && Run(t.log).reclaim - t.reclaim == Run(s.log).reclaim - s.reclaim
      && Run(t.log).pending == Run(s.log).pending
      && !ViewOf(t.log[|s.log|]).update.rtype.TxnFinished?
  {
    hide Append, ViewOf, LogOk, EncodeKey, ParseKey, Live;
    if key != [] {
      var rec := Record(EncodeKey(NON_TRANSACTION, key), value, Normal);
      var t := Append(o, s, rec);
      AppendView(o, s, NON_TRANSACTION, key, value, Normal);
      assert s.seqNo >= 1 by { LogOkSeq(o, s); }
      AppendOk(o, s, rec);
      RunSnoc(s.log, t.log[|s.log|]);
      LiveApply(ImageOf(s.log), ViewOf(t.log[|s.log|]).update);
      LogOkIndex(o, t, Put(o, s, key, value));
    }
  }

  lemma {:induction false} LogOkSeq(o: Options, s: Store)
    requires LogOk(o, s)
    ensures s.seqNo >= 1
  {
  }

  /** The invariant on the log does not look at the index. */
  lemma {:induction false} LogOkIndex(o: Options, s: Store, t: Store)
    requires LogOk(o, s) && t == s.(index := t.index, reclaim := t.reclaim)
    ensures LogOk(o, t)
  {
  }

  /**
   * A tombstone that carries the sequence number replay strips; the code's own form is the subject of module
   * Tombstone.
   */
  lemma {:induction false} DeleteOk(o: Options, s: Store, key: Bytes)
    requires LogOk(o, s) && IndexOk(s)
    requires o.tombstone.RawKey? ==> key == [] || key !in s.index
    ensures LogOk(o, DeleteKey(o, s, key)) && IndexOk(DeleteKey(o, s, key)) && Grows(s, DeleteKey(o, s, key))
    ensures key != [] && key in s.index ==>
      var t := DeleteKey(o, s, key);
      && |t.log| == |s.log| + 1
      && ImageOf(t.log) == ImageOf(s.log)[key := None]
      && Run(t.log).reclaim - t.reclaim == Run(s.log).reclaim - s.reclaim
      && Run(t.log).pending == Run(s.log).pending
      && !ViewOf(t.log[|s.log|]).update.rtype.TxnFinished?
  {
    hide Append, ViewOf, LogOk, EncodeKey, ParseKey, Live;
    if key != [] && key in s.index {
      var rec := Record(EncodeKey(NON_TRANSACTION, key), [], RecordType.Delete);
      var t := Append(o, s, rec);
      AppendView(o, s, NON_TRANSACTION, key, [], RecordType.Delete);
      assert s.seqNo >= 1 by { LogOkSeq(o, s); }
      AppendOk(o, s, rec);
      RunSnoc(s.log, t.log[|s.log|]);
      LiveApply(ImageOf(s.log), ViewOf(t.log[|s.log|]).update);
      LogOkIndex(o, t, DeleteKey(o, s, key));
    }
  }

  // ---- Commit ----

  ghost predicate ItemsOk(items: seq<Item>)
  {
    && (forall i :: 0 <= i < |items| ==> items[i].key != [] && !items[i].rtype.TxnFinished?)
    && (forall i, j :: 0 <= i < j < |items| ==> items[i].key != items[j].key)
  }

  /** The records a batch adds are its items, in order, under its sequence number. */
  ghost predicate Wrote(log: seq<Logged>, at: nat, seqNo: nat, items: seq<Item>)
  {
    && at + |items| <= |log|
    && forall i :: 0 <= i < |items| ==>
         ViewOf(log[at + i]) == View(seqNo, Update(items[i].key, items[i].rtype, Slot(log[at + i].pos, items[i].value)))
  }

  /** Writing the items adds their records to the log and leaves the index to the end of the commit. */
  lemma {:induction false} AppendItemsWrite(o: Options, s: Store, seqNo: nat, items: seq<Item>)
    requires seqNo < U64_LIMIT
    ensures var t := AppendItems(o, s, seqNo, items);
            && s.log <= t.log
            && t.index == s.index && t.reclaim == s.reclaim && t.seqNo == s.seqNo
            && Wrote(t.log, |s.log|, seqNo, items)
  {
    hide ViewOf, Append, ParseKey, EncodeKey;
    if items != [] {
      var pre, item := items[..|items| - 1], items[|items| - 1];
      AppendItemsWrite(o, s, seqNo, pre);
      var t := AppendItems(o, s, seqNo, pre);
      var u := Append(o, t, ItemRecord(seqNo, item));
      AppendView(o, t, seqNo, item.key, item.value, item.rtype);
      AppendKeeps(o, t, ItemRecord(seqNo, item));
      forall i | 0 <= i < |items|
        ensures ViewOf(u.log[|s.log| + i]) ==
                View(seqNo, Update(items[i].key, items[i].rtype, Slot(u.log[|s.log| + i].pos, items[i].value)))
      {
        if i < |pre| {
          assert u.log[|s.log| + i] == t.log[|s.log| + i];
        }
      }
    }
  }

  lemma {:induction false} AppendKeeps(o: Options, s: Store, rec: Record)
    ensures var t := Append(o, s, rec);
            s.log <= t.log && t.index == s.index && t.reclaim == s.reclaim && t.seqNo == s.seqNo
  {
  }

  /** And whatever the batch's number. */
  lemma {:induction false} AppendItemsKeep(o: Options, s: Store, seqNo: nat, items: seq<Item>)
    ensures var t := AppendItems(o, s, seqNo, items);
            s.log <= t.log && t.index == s.index && t.reclaim == s.reclaim && t.seqNo == s.seqNo
  {
    hide Append;
    if items != [] {
      var t := AppendItems(o, s, seqNo, items[..|items| - 1]);
      AppendItemsKeep(o, s, seqNo, items[..|items| - 1]);
      AppendKeeps(o, t, ItemRecord(seqNo, items[|items| - 1]));
    }
  }

  lemma {:induction false} CommitNothing(o: Options, s: Store, items: seq<Item>, sync: bool, maxNum: nat)
    requires items == [] || |items| > maxNum
    ensures Commit(o, s, items, sync, maxNum) == s
  {
  }

  lemma {:induction false} AppendItemsOk(o: Options, s: Store, seqNo: nat, items: seq<Item>)
    requires LogOk(o, s) && seqNo < s.seqNo && seqNo < U64_LIMIT
    ensures LogOk(o, AppendItems(o, s, seqNo, items)) && Grows(s, AppendItems(o, s, seqNo, items))
  {
    hide Append, ViewOf, LogOk, EncodeKey, ParseKey, Grows;
    if items == [] {
      GrowsRefl(s);
    } else {
      var pre, item := items[..|items| - 1], items[|items| - 1];
      AppendItemsOk(o, s, seqNo, pre);
      AppendItemsWrite(o, s, seqNo, pre);
      var t := AppendItems(o, s, seqNo, pre);
      KeyRoundTrip(seqNo, item.key);
      AppendOk(o, t, ItemRecord(seqNo, item));
      GrowsTransitive(s, t, Append(o, t, ItemRecord(seqNo, item)));
    }
  }

  lemma {:induction false} GrowsRefl(s: Store)
    ensures Grows(s, s)
  {
  }

  /** The bytes of the tombstones among a batch's records; a commit does not count them, a replay does. */
  function TombstoneBytes(log: seq<Logged>, at: nat, items: seq<Item>): nat
    requires at + |items| <= |log|
  {
    if items == [] then 0 else
      var own := if items[|items| - 1].rtype.Delete? then log[at + |items| - 1].pos.size else 0;
      TombstoneBytes(log, at, items[..|items| - 1]) + own
  }

  lemma {:induction false} UpdatesOfPrefix(log: seq<Logged>, at: nat, n: nat)
    requires n > 0 && at + n <= |log|
    ensures UpdatesOf(log[at..at + n]) == UpdatesOf(log[at..at + n - 1]) + [ViewOf(log[at + n - 1]).update]
  {
    assert log[at..at + n][..n - 1] == log[at..at + n - 1];
  }

  /** The index changes of a commit touch the index and the reclaim counter and nothing else. */
  lemma {:induction false} InstallFrame(s: Store, items: seq<Item>, at: nat)
    requires at + |items| <= |s.log|
    ensures var t := InstallItems(s, items, at);
            t == s.(index := t.index, reclaim := t.reclaim)
    decreases |items|
  {
    if items != [] {
      InstallFrame(s, items[..|items| - 1], at);
    }
  }

  /** The state of the index after the changes of a commit is that of a replay of the same records. */
  ghost predicate Installs(s: Store, items: seq<Item>, at: nat, image: Image)
    requires at + |items| <= |s.log|
  {
    var us, t := UpdatesOf(s.log[at..at + |items|]), InstallItems(s, items, at);
    && t.index == Live(ApplyAll(image, us))
    && t.reclaim + TombstoneBytes(s.log, at, items) == s.reclaim + FreedAll(image, us)
  }

  /** One more item. */
  lemma {:induction false} InstallsNext(s: Store, items: seq<Item>, at: nat, image: Image)
    requires items != [] && at + |items| <= |s.log|
    requires Installs(s, items[..|items| - 1], at, image)
    requires var item, l := items[|items| - 1], s.log[at + |items| - 1];
             !item.rtype.TxnFinished? && ViewOf(l).update == Update(item.key, item.rtype, Slot(l.pos, item.value))
    ensures Installs(s, items, at, image)
  {
    hide ViewOf, Live, Apply, ApplyAll, FreedAll, UpdatesOf, PutIndex, DropIndex;
    var n := |items|;
    var pre, u := items[..n - 1], ViewOf(s.log[at + n - 1]).update;
    UpdatesOfPrefix(s.log, at, n);
    var us := UpdatesOf(s.log[at..at + n - 1]);
    ApplySnoc(image, us, u);
    InstallOne(InstallItems(s, pre, at), ApplyAll(image, us), u);
  }

  lemma {:induction false} WroteParts(log: seq<Logged>, at: nat, seqNo: nat, items: seq<Item>)
    requires Wrote(log, at, seqNo, items) && items != []
    ensures at + |items| <= |log|
    ensures var n := |items| - 1;
            && Wrote(log, at, seqNo, items[..n])
            && ViewOf(log[at + n]).update == Update(items[n].key, items[n].rtype, Slot(log[at + n].pos, items[n].value))
  {
    hide ViewOf;
  }

  /**
   * Updating the index after the records are written is what replaying the batch does, except for the tombstones' own
   * bytes.
   */
  lemma {:induction false} InstallMatches(s: Store, items: seq<Item>, at: nat, seqNo: nat, image: Image)
    requires Wrote(s.log, at, seqNo, items) && s.index == Live(image)
    requires forall i :: 0 <= i < |items| ==> !items[i].rtype.TxnFinished?
    ensures Installs(s, items, at, image)
    decreases |items|
  {
    hide ViewOf, Live, ApplyAll, FreedAll, UpdatesOf;
    if items == [] {
      assert s.log[at..at] == [];
      EmptyBatch(image);
    } else {
      hide Wrote, Installs;
      WroteParts(s.log, at, seqNo, items);
      InstallMatches(s, items[..|items| - 1], at, seqNo, image);
      InstallsNext(s, items, at, image);
    }
  }

  /** One index change of a commit against one replayed update: the tombstone's own size is the only difference. */
  lemma {:induction false} InstallOne(t: Store, image: Image, u: Update)
    requires t.index == Live(image) && !u.rtype.TxnFinished?
    ensures var t' := if u.rtype.Delete? then DropIndex(t, u.key) else PutIndex(t, u.key, u.slot);
            && t'.index == Live(Apply(image, u))
            && t'.reclaim + (if u.rtype.Delete? then u.slot.pos.size else 0) == t.reclaim + Freed(image, u)
  {
    hide Live, Apply;
    LiveApply(image, u);
  }

  lemma {:induction false} EmptyBatch(image: Image)
    ensures UpdatesOf([]) == [] && ApplyAll(image, []) == image && FreedAll(image, []) == 0
  {
  }

  /** The records of a written batch form a batch in the sense of the replay. */
  lemma {:induction false} WroteBatch(log: seq<Logged>, at: nat, seqNo: nat, items: seq<Item>, n: nat)
    requires Wrote(log, at, seqNo, items) && ItemsOk(items) && seqNo != NON_TRANSACTION && n <= |items|
    ensures OfBatch(log[at..at + n], seqNo)
  {
    hide ViewOf;
    forall l | l in log[at..at + n] ensures ViewOf(l).seqNo == seqNo && !ViewOf(l).update.rtype.TxnFinished? {
      var i :| 0 <= i < n && log[at..at + n][i] == l;
      assert l == log[at + i] && !items[i].rtype.TxnFinished?;
    }
  }

  /** The records a commit writes, whatever was in the log before. */
  lemma {:induction false} WriteBatchWrites(o: Options, s: Store, items: seq<Item>)
    requires 0 < s.seqNo < U64_LIMIT
    ensures var t, n := WriteBatch(o, s, items), |s.log|;
            && s.log <= t.log
            && t.index == s.index && t.reclaim == s.reclaim
            && Wrote(t.log, n, s.seqNo, items)
            && Finishes(t.log[n + |items|], s.seqNo)
  {
    hide Append, ViewOf, EncodeKey, ParseKey;
    var s1 := s.(seqNo := s.seqNo + 1);
    AppendItemsWrite(o, s1, s.seqNo, items);
    var u := AppendItems(o, s1, s.seqNo, items);
    AppendView(o, u, s.seqNo, TXN_FIN_KEY, [], TxnFinished);
    AppendKeeps(o, u, FinishRecord(s.seqNo));
    var t, n := WriteBatch(o, s, items), |s.log|;
    forall i | 0 <= i < |items|
      ensures ViewOf(t.log[n + i]) ==
              View(s.seqNo, Update(items[i].key, items[i].rtype, Slot(t.log[n + i].pos, items[i].value)))
    {
      assert t.log[n + i] == u.log[n + i];
    }
  }

  /** What `WriteBatch` leaves: every strict part of the batch is invisible to a replay, all of it is one update. */
  lemma {:induction false} WriteBatchOk(o: Options, s: Store, items: seq<Item>)
    requires LogOk(o, s) && ItemsOk(items) && s.seqNo < U64_LIMIT
    ensures var t, n := WriteBatch(o, s, items), |s.log|;
            && LogOk(o, t) && Grows(s, t) && t.log[..n] == s.log
            && t.index == s.index && t.reclaim == s.reclaim
            && Wrote(t.log, n, s.seqNo, items)
            && Finishes(t.log[n + |items|], s.seqNo)
            && OfBatch(t.log[n..n + |items|], s.seqNo)
            && s.seqNo !in Run(s.log).pending
  {
    hide Append, ViewOf, LogOk, EncodeKey, ParseKey, Grows;
    var s1 := s.(seqNo := s.seqNo + 1);
    BumpOk(o, s);
    AppendItemsOk(o, s1, s.seqNo, items);
    AppendItemsWrite(o, s1, s.seqNo, items);
    var u, t := AppendItems(o, s1, s.seqNo, items), WriteBatch(o, s, items);
    KeyRoundTrip(s.seqNo, TXN_FIN_KEY);
    AppendOk(o, u, FinishRecord(s.seqNo));
    GrowsTransitive(s, s1, u);
    GrowsTransitive(s, u, t);
    WriteBatchWrites(o, s, items);
    WroteBatch(t.log, |s.log|, s.seqNo, items, |items|);
    assert SeqsBelow(s.log, s.seqNo) by { LogOkSeqs(o, s); }
    PendingBelow(s.log, s.seqNo);
  }

  lemma {:induction false} LogOkSeqs(o: Options, s: Store)
    requires LogOk(o, s)
    ensures SeqsBelow(s.log, s.seqNo)
  {
  }

  lemma {:induction false} BumpOk(o: Options, s: Store)
    requires LogOk(o, s)
    ensures LogOk(o, s.(seqNo := s.seqNo + 1)) && Grows(s, s.(seqNo := s.seqNo + 1)) && s.seqNo != NON_TRANSACTION
  {
    hide ViewOf;
  }

  /** An append goes through a handle on the newest file, which it may have started. */
  lemma {:induction false} BatchNewest(o: Options, s: Store, items: seq<Item>)
    ensures OnNewest(WriteBatch(o, s, items))
  {
    hide AppendItems, Size, Place;
  }

  /** Replaying the records of a commit applies its items, all at once. */
  lemma {:induction false} CommitReplay(o: Options, s: Store, items: seq<Item>, sync: bool)
    requires LogOk(o, s) && ItemsOk(items) && s.seqNo < U64_LIMIT
    ensures var u, n := Written(o, s, items, sync), |s.log|;
            var us := UpdatesOf(u.log[n..n + |items|]);
            && LogOk(o, u) && Grows(s, u)
            && u.index == s.index && u.reclaim == s.reclaim && (sync ==> u.synced == |u.log|)
            && Wrote(u.log, n, s.seqNo, items)
            && Run(u.log).image == ApplyAll(Run(s.log).image, us)
            && Run(u.log).reclaim == Run(s.log).reclaim + FreedAll(Run(s.log).image, us)
            && forall q :: Pend(Run(u.log), q) == Pend(Run(s.log), q)
  {
    hide ViewOf, LogOk, WriteBatch, ItemsOk, OfBatch, Wrote, Grows, ApplyAll, FreedAll, Finishes, Run, UpdatesOf;
    var w, n := WriteBatch(o, s, items), |s.log|;
    WriteBatchOk(o, s, items);
    SyncOk(o, w);
    BatchNewest(o, s, items);
    GrowsTransitive(s, w, Sync(w));
    var ls, fin := w.log[n..n + |items|], w.log[n + |items|];
    assert w.log == s.log + ls + [fin];
    BatchApplied(s.log, ls, fin, s.seqNo);
  }

  lemma {:induction false} CommitShape(o: Options, s: Store, items: seq<Item>, sync: bool, maxNum: nat)
    requires items != [] && |items| <= maxNum
    ensures var u := Written(o, s, items, sync);
            |u.log| == |s.log| + |items| + 1 && Commit(o, s, items, sync, maxNum) == InstallItems(u, items, |s.log|)
  {
  }

  lemma {:induction false} CommitInstalls(o: Options, s: Store, items: seq<Item>, sync: bool, maxNum: nat)
    requires LogOk(o, s) && IndexOk(s) && ItemsOk(items) && s.seqNo < U64_LIMIT && items != [] && |items| <= maxNum
    ensures var t, u, n := Commit(o, s, items, sync, maxNum), Written(o, s, items, sync), |s.log|;
            && t == u.(index := t.index, reclaim := t.reclaim)
            && IndexOk(t)
            && Run(t.log).reclaim - t.reclaim == Run(s.log).reclaim - s.reclaim + TombstoneBytes(t.log, n, items)
  {
    assert forall i :: 0 <= i < |items| ==> !items[i].rtype.TxnFinished?;
    CommitShape(o, s, items, sync, maxNum);
    hide ViewOf, LogOk, Live, ItemsOk, Wrote, Grows, ApplyAll, FreedAll, InstallItems, TombstoneBytes, Run, UpdatesOf,
      Pend, Commit, Written;
    CommitReplay(o, s, items, sync);
    InstallFrame(Written(o, s, items, sync), items, |s.log|);
    InstallMatches(Written(o, s, items, sync), items, |s.log|, s.seqNo, ImageOf(s.log));
  }

  lemma {:induction false} CommitOk(o: Options, s: Store, items: seq<Item>, sync: bool, maxNum: nat)
    requires LogOk(o, s) && IndexOk(s) && ItemsOk(items) && s.seqNo < U64_LIMIT
    ensures var t := Commit(o, s, items, sync, maxNum);
            LogOk(o, t) && IndexOk(t) && Grows(s, t)
    ensures items != [] && |items| <= maxNum ==>
      var t, n := Commit(o, s, items, sync, maxNum), |s.log|;
      && t.log == WriteBatch(o, s, items).log
      && (sync ==> t.synced == |t.log|)
      && ImageOf(t.log) == ApplyAll(ImageOf(s.log), UpdatesOf(t.log[n..n + |items|]))
      && Run(t.log).reclaim - t.reclaim == Run(s.log).reclaim - s.reclaim + TombstoneBytes(t.log, n, items)
      && (forall q :: Pend(Run(t.log), q) == Pend(Run(s.log), q))
  {
    if items != [] && |items| <= maxNum {
      CommitReplay(o, s, items, sync);
      CommitInstalls(o, s, items, sync, maxNum);
      var t, u := Commit(o, s, items, sync, maxNum), Written(o, s, items, sync);
      hide Commit, ViewOf, LogOk, IndexOk, Live, ItemsOk, Wrote, ApplyAll, FreedAll, TombstoneBytes, Run, UpdatesOf,
        Pend;
      LogOkIndex(o, u, t);
      GrowsIndex(s, u, t);
    } else {
      GrowsRefl(s);
    }
  }

  lemma {:induction false} GrowsIndex(s: Store, t: Store, u: Store)
    requires Grows(s, t) && u == t.(index := u.index, reclaim := u.reclaim, synced := u.synced) && u.synced >= t.synced
    ensures Grows(s, u)
  {
  }

  lemma {:induction false} SyncOk(o: Options, s: Store)
    requires LogOk(o, s)
    ensures LogOk(o, Sync(s)) && Grows(s, Sync(s)) && Sync(s).synced >= s.synced
    ensures OnNewest(s) ==> Sync(s).synced == |s.log|
  {
  }

  lemma {:induction false} TornOk(o: Options, s: Store, items: seq<Item>)
    requires LogOk(o, s) && IndexOk(s) && ItemsOk(items) && s.seqNo < U64_LIMIT
    ensures var t := TornCommit(o, s, items);
            && LogOk(o, t) && IndexOk(t) && Grows(s, t)
            && t.log[..|s.log|] == s.log
            && t.reclaim == s.reclaim
            && OfBatch(t.log[|s.log|..], s.seqNo)
            && ImageOf(t.log) == ImageOf(s.log)
            && Run(t.log).reclaim == Run(s.log).reclaim
  {
    hide Append, ViewOf, LogOk, Live, AppendItems, OfBatch, Grows;
    var s1 := s.(seqNo := s.seqNo + 1);
    BumpOk(o, s);
    AppendItemsOk(o, s1, s.seqNo, items);
    AppendItemsWrite(o, s1, s.seqNo, items);
    var t := TornCommit(o, s, items);
    GrowsTransitive(s, s1, t);
    WroteBatch(t.log, |s.log|, s.seqNo, items, |items|);
    assert |t.log| == |s.log| + |items|;
    var added := t.log[|s.log|..|s.log| + |items|];
    assert added == t.log[|s.log|..];
    assert t.log == s.log + added;
    BatchBuffered(s.log, added, s.seqNo);
  }
}
