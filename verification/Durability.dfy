/** What `sync` buys: which bytes may be lost, which operations can not, and the one case where a merge loses more. */
module Durability {
  import opened Wire
  import opened LogRecord
  import opened Replay
  import opened Layout
  import opened Store
  import opened Invariant
  import opened Merging
  import opened Reopening
  import opened Recovery
  import opened Accounting

  // ---- How much is unsynced ----

  /** The bytes of the records a power failure can take. */
  function Unsynced(s: Store): nat
    requires s.synced <= |s.log|
  {
    Total(s.log[s.synced..])
  }

  /**
   * The counters bound what a power failure can take: nothing with `sync_writes`, otherwise what the engine wrote
   * since its last sync, which is under `bytes_per_sync`, and what it found unsynced when it was opened.
   */
  ghost predicate SyncBound(o: Options, s: Store, found: nat)
  {
    && s.synced <= |s.log|
    && Unsynced(s) <= s.bytesWrite + found
    && (o.syncWrites ==> s.synced == |s.log|)
    && (o.bytesPerSync > 0 ==> s.bytesWrite < o.bytesPerSync)
  }

  lemma {:induction false} AppendBound(o: Options, s: Store, rec: Record, found: nat)
    requires SyncBound(o, s, found)
    ensures SyncBound(o, Append(o, s, rec), found)
  {
    hide Size, Place;
    var t := Append(o, s, rec);
    var l, tail := t.log[|s.log|], t.log[t.synced..];
    assert l.pos.size == Size(rec);
    if tail != [] {
      var pre := tail[..|tail| - 1];
      assert tail[|tail| - 1] == l;
      assert Total(tail) == Total(pre) + l.pos.size;
      assert pre == if t.synced == |s.log| then [] else s.log[s.synced..];
    }
  }

  lemma {:induction false} AppendItemsBound(o: Options, s: Store, seqNo: nat, items: seq<Item>, found: nat)
    requires SyncBound(o, s, found)
    ensures SyncBound(o, AppendItems(o, s, seqNo, items), found)
  {
    hide SyncBound, Append;
    if items != [] {
      var t := AppendItems(o, s, seqNo, items[..|items| - 1]);
      AppendItemsBound(o, s, seqNo, items[..|items| - 1], found);
      AppendBound(o, t, ItemRecord(seqNo, items[|items| - 1]), found);
    }
  }

  lemma {:induction false} SameBound(o: Options, s: Store, t: Store, found: nat)
    requires SyncBound(o, s, found) && t.log == s.log && t.bytesWrite == s.bytesWrite
      && (t.synced == s.synced || t.synced == |t.log|)
    ensures SyncBound(o, t, found)
  {
  }

  lemma {:induction false} OperateBound(o: Options, s: Store, e: Event, found: nat)
    requires SyncBound(o, s, found) && !Restarts(e)
    ensures SyncBound(o, Operate(o, s, e), found)
  {
    hide SyncBound, Append, AppendItems;
    match e
    case PutEvent(key, value) =>
      var rec := Record(EncodeKey(NON_TRANSACTION, key), value, Normal);
      AppendBound(o, s, rec, found);
      SameBound(o, Append(o, s, rec), if key == [] then Append(o, s, rec) else Put(o, s, key, value), found);
    case DeleteEvent(key) =>
      var rec := Record(TombstoneKey(o, key), [], RecordType.Delete);
      AppendBound(o, s, rec, found);
      if key != [] && key in s.index { SameBound(o, Append(o, s, rec), DeleteKey(o, s, key), found); }
    case CommitEvent(items, sync, maxNum) =>
      var s1 := s.(seqNo := s.seqNo + 1);
      SameBound(o, s, s1, found);
      AppendItemsBound(o, s1, s.seqNo, items, found);
      AppendBound(o, AppendItems(o, s1, s.seqNo, items), FinishRecord(s.seqNo), found);
      var u := Written(o, s, items, sync);
      SameBound(o, WriteBatch(o, s, items), u, found);
      if items != [] && |items| <= maxNum {
        InstallFrame(u, items, |s.log|);
        SameBound(o, u, Commit(o, s, items, sync, maxNum), found);
      }
    case TornEvent(items) =>
      SameBound(o, s, s.(seqNo := s.seqNo + 1), found);
      AppendItemsBound(o, s.(seqNo := s.seqNo + 1), s.seqNo, items, found);
    case SyncEvent => SameBound(o, s, Sync(s), found);
    case MergeBeginEvent => SameBound(o, s, MergeBegin(s), found);
    case MergeStepEvent => SameBound(o, s, MergeStep(o, s), found);
    case MergeFinishEvent => SameBound(o, s, MergeFinish(s), found);
    case _ =>
  }

  lemma {:induction false} TotalTail(log: seq<Logged>, a: nat, b: nat)
    requires a <= b <= |log|
    ensures Total(log[b..]) <= Total(log[a..])
    decreases |log|
  {
    if b < |log| {
      var n := |log| - 1;
      assert log[b..][..n - b] == log[..n][b..] && log[a..][..n - a] == log[..n][a..];
      TotalTail(log[..n], a, b);
    }
  }

  /** A restart syncs nothing: what was unsynced still is, unless a power failure took it or a merge replaced it. */
  lemma {:induction false} RestartBound(o: Options, s: Store, e: Event, found: nat)
    requires SyncBound(o, s, found) && Restarts(e) && Open(o, Left(s, e)).Some?
    ensures var t := Open(o, Left(s, e)).value;
            t.synced <= |t.log| && Unsynced(t) <= Unsynced(s) && SyncBound(o, t, Unsynced(t))
  {
    hide Scan, Seen, ToScan, Parses, EndOffset, Total;
    var d := Left(s, e);
    assert d.log[d.synced..] == if e.PowerEvent? then [] else d.log[d.synced..];
    assert Total([]) == 0 by { NoTotal(); }
    var t := Open(o, d).value;
    if d.merge.Merge? && d.merge.finished {
      var c := SplitAt(d.log, d.merge.nonMerge);
      assert t.log[t.synced..] == d.log[Max(c, d.synced)..];
      TotalTail(d.log, d.synced, Max(c, d.synced));
    }
  }

  lemma {:induction false} NoTotal()
    ensures Total([]) == 0
  {
  }

  /** Every record is written, and every file synced, through a handle on the newest file. */
  ghost predicate ThroughNewest(o: Options, m: Model, es: seq<Event>)
  {
    es == [] ||
    (&& ThroughNewest(o, m, es[..|es| - 1])
     && (RunEvents(o, m, es[..|es| - 1]).Some? && (Writes(es[|es| - 1]) || es[|es| - 1].MergeBeginEvent?) ==>
           OnNewest(RunEvents(o, m, es[..|es| - 1]).value.store)))
  }

  /** The bytes the engine that is running found unsynced when it was opened; none once everything has been synced. */
  ghost function Found(o: Options, es: seq<Event>): nat
  {
    if es == [] || RunEvents(o, START, es).None? then 0 else
      var t := RunEvents(o, START, es).value.store;
      if t.synced >= |t.log| then 0
      else if Restarts(es[|es| - 1]) then Unsynced(t)
      else Found(o, es[..|es| - 1])
  }

  function RestartCount(es: seq<Event>): nat
  {
    if es == [] then 0 else RestartCount(es[..|es| - 1]) + if Restarts(es[|es| - 1]) then 1 else 0
  }

  /**
   * In every reachable state, even over runs the recovery theorem does not allow, the counters bound the unsynced
   * bytes: with `bytes_per_sync` set and `k` restarts so far they are at most `k + 1` times `bytes_per_sync - 1`, not
   * once.
   */
  lemma {:induction false} SyncBoundHolds(o: Options, es: seq<Event>)
    requires RunEvents(o, START, es).Some? && ThroughNewest(o, START, es)
    ensures SyncBound(o, RunEvents(o, START, es).value.store, Found(o, es))
    ensures o.bytesPerSync > 0 ==> Found(o, es) <= RestartCount(es) * (o.bytesPerSync - 1)
    ensures o.bytesPerSync > 0 ==>
      Unsynced(RunEvents(o, START, es).value.store) <= (RestartCount(es) + 1) * (o.bytesPerSync - 1)
  {
    hide SyncBound, Operate, Open, Unsynced, Left;
    if es == [] {
      StartBound(o);
    } else {
      var pre, e := es[..|es| - 1], es[|es| - 1];
      SyncBoundHolds(o, pre);
      var s := RunEvents(o, START, pre).value.store;
      if Restarts(e) {
        RestartBound(o, s, e, Found(o, pre));
      } else {
        OperateBound(o, s, e, Found(o, pre));
      }
      var t := RunEvents(o, START, es).value.store;
      TighterBound(o, t, if Restarts(e) then Unsynced(t) else Found(o, pre), Found(o, es));
    }
    BoundInAll(o, RunEvents(o, START, es).value.store, Found(o, es), RestartCount(es));
  }

  lemma {:induction false} TighterBound(o: Options, s: Store, found: nat, found': nat)
    requires SyncBound(o, s, found) && found' == if s.synced >= |s.log| then 0 else found
    ensures SyncBound(o, s, found')
  {
    if s.synced >= |s.log| {
      assert s.log[s.synced..] == [];
    }
  }

  lemma {:induction false} BoundInAll(o: Options, s: Store, found: nat, k: nat)
    requires SyncBound(o, s, found) && (o.bytesPerSync > 0 ==> found <= k * (o.bytesPerSync - 1))
    ensures o.bytesPerSync > 0 ==> Unsynced(s) <= (k + 1) * (o.bytesPerSync - 1)
  {
    assert (k + 1) * (o.bytesPerSync - 1) == k * (o.bytesPerSync - 1) + (o.bytesPerSync - 1);
  }

  lemma {:induction false} StartBound(o: Options)
    ensures SyncBound(o, INIT, 0)
  {
  }

  /**
   * The bound for one restart is attained: two puts just short of the limit, a kill between them, and nothing is on
   * disk.
   */
  lemma {:induction false} UnsyncedTwice(o: Options, key: Bytes, v: Bytes)
    requires key != [] && !o.syncWrites
    requires var size := Size(Record(EncodeKey(NON_TRANSACTION, key), v, Normal));
             o.bytesPerSync == size + 1 && 2 * size <= o.dataFileSize
    ensures Open(o, Put(o, INIT, key, v)).Some?
    ensures var u := Put(o, Open(o, Put(o, INIT, key, v)).value, key, v);
            u.synced == 0 && Unsynced(u) == 2 * (o.bytesPerSync - 1)
  {
    hide Inv, ViewOf, Open, Size, EncodeKey, Atomic, Grows, FreshFinishes, LogOk, IndexOk, BaseOk, MergeOk, Live, Run;
    var rec := Record(EncodeKey(NON_TRANSACTION, key), v, Normal);
    var s := Put(o, INIT, key, v);
    assert Inv(o, INIT) by { StartOk(o); }
    PutAtomic(o, INIT, key, v);
    assert LogOk(o, s) by { InvParts(o, s); }
    KillRemains(o, s);
    assert s.log == [Logged(rec, Pos(0, 0, Size(rec)))] && s.synced == 0;
    OpenPlain(o, s, s);
    var t := Open(o, s).value;
    assert EndOffset(s.log, 0) == Size(rec);
    var u := Put(o, t, key, v);
    assert u.log[0..] == [s.log[0], Logged(rec, Pos(0, Size(rec), Size(rec)))];
    TwoTotal(u.log[0], u.log[1]);
  }

  lemma {:induction false} TwoTotal(a: Logged, b: Logged)
    ensures Total([a, b]) == a.pos.size + b.pos.size
  {
    assert [a, b][..1] == [a];
    assert Total([a]) == a.pos.size by { assert [a][..0] == []; }
  }

  // ---- What can not be lost any more ----

  /** The operation is in the history and no power failure takes its last record: that record was synced. */
  ghost predicate Durable(m: Model, d: Done)
  {
    && d in m.history
    && forall n :: m.store.synced <= n <= |m.store.log| ==>
         Kept(d.last, m.store.active, EndOffset(m.store.log[..n], m.store.active))
  }

  lemma {:induction false} SurvivorStays(h: seq<Done>, d: Done, active: nat, off: nat)
    requires d in h && Kept(d.last, active, off)
    ensures d in Surviving(h, active, off)
  {
    if h[|h| - 1] != d {
      assert d in h[..|h| - 1];
      SurvivorStays(h[..|h| - 1], d, active, off);
    } else if Kept(h[|h| - 1].last, active, off) {
    }
  }

  /** Growing the log keeps a durable operation durable. */
  lemma {:induction false} GrowDurable(o: Options, m: Model, m': Model, d: Done)
    requires LogOk(o, m.store) && LogOk(o, m'.store) && Grows(m.store, m'.store) && Durable(m, d)
      && m.history <= m'.history
    ensures Durable(m', d)
  {
    hide Parses, SeqsBelow, Packed, Kept, Laid;
    var s, t := m.store, m'.store;
    assert d in m'.history by {
      var i :| 0 <= i < |m.history| && m.history[i] == d;
      assert m'.history[i] == d;
    }
    FullEnd(o, s);
    assert Kept(d.last, s.active, s.writeOff);
    forall n | t.synced <= n <= |t.log| ensures Kept(d.last, t.active, EndOffset(t.log[..n], t.active)) {
      if n < |s.log| {
        SameActive(o, s, t, n);
        assert t.log[..n] == s.log[..n];
      } else {
        CutPastEnd(o, s, t, n);
      }
    }
  }

  lemma {:induction false} RotateDurable(o: Options, m: Model, m': Model, d: Done)
    requires LogOk(o, m.store) && Durable(m, d) && MergeBegin(m.store) != m.store
    requires m'.store == MergeBegin(m.store) && m'.history == m.history
    ensures Durable(m', d)
  {
    hide Parses, SeqsBelow, Packed;
    var s, t := m.store, MergeBegin(m.store);
    FullEnd(o, s);
    LaidLater(s.log, s.active, s.writeOff, t.active);
    EndOffsetIsWriteOff(t.log, t.active, 0);
    assert t.log[..|t.log|] == t.log;
  }

  /** A durable operation is still there, and still durable, after any further event. */
  lemma {:induction false} DurableStep(o: Options, m: Model, e: Event, d: Done)
    requires ModelOk(o, m) && Allowed(o, m, e) && Durable(m, d)
    ensures Next(o, m, e).Some? && Durable(Next(o, m, e).value, d)
  {
    hide Inv, HistoryOk, Next, MergeStep, Guarded, Allowed, Durable, LogOk, Atomic, Grows, FreshFinishes;
    var s := m.store;
    StepOk(o, m, e);
    InvParts(o, s);
    var m' := Next(o, m, e).value;
    if Restarts(e) {
      RestartDurable(o, m, e, d);
    } else {
      NextStore(o, m, e);
      InvParts(o, m'.store);
      HistoryGrows(o, m, e);
      if Writes(e) {
        assert Guarded(o, s, e) by { GuardedOf(o, m, e); }
        WriteOk(o, s, e);
        GrowDurable(o, m, m', d);
      } else {
        QuietDurable(o, m, m', e, d);
      }
    }
  }

  lemma {:induction false} HistoryGrows(o: Options, m: Model, e: Event)
    requires !Restarts(e)
    ensures Next(o, m, e).Some? && m.history <= Next(o, m, e).value.history
    ensures !Writes(e) ==> Next(o, m, e).value.history == m.history
  {
    hide Operate, ItemsEffect;
  }

  lemma {:induction false} QuietDurable(o: Options, m: Model, m': Model, e: Event, d: Done)
    requires LogOk(o, m.store) && Durable(m, d) && !Restarts(e) && !Writes(e)
    requires m'.store == Operate(o, m.store, e) && m'.history == m.history
    ensures Durable(m', d)
  {
    hide MergeStep;
    var s := m.store;
    match e
    case SyncEvent =>
      SyncOk(o, s);
      GrowDurable(o, m, m', d);
    case MergeBeginEvent =>
      if MergeBegin(s) != s { RotateDurable(o, m, m', d); }
    case MergeStepEvent =>
      MergeStepQuiet(o, s);
    case _ =>
  }

  /** A restart keeps what was synced, in the history and on disk, whether or not it installs a merge. */
  lemma {:induction false} RestartDurable(o: Options, m: Model, e: Event, d: Done)
    requires ModelOk(o, m) && Allowed(o, m, e) && Restarts(e) && Durable(m, d)
    ensures Next(o, m, e).Some? && Durable(Next(o, m, e).value, d)
  {
    hide Inv, HistoryOk, Durable, Open, LogOk, BaseOk, MergeOk, FloorAfter, InstalledLog, SkippedCovered,
      SurvivingCut, DiskOk;
    var s, r := m.store, Left(m.store, e);
    InvParts(o, s);
    RestartOk(o, m, e);
    LeftRemains(o, s, e);
    var m' := Next(o, m, e).value;
    if s.merge.Merge? && s.merge.finished {
      OpenInstalled(o, s, r);
      InstalledDurable(o, m, m', r, d);
    } else {
      OpenPlain(o, s, r);
      PlainDurable(m, m', r, d);
    }
  }

  lemma {:induction false} PlainDurable(m: Model, m': Model, r: Store, d: Done)
    requires Durable(m, d) && Remains(m.store, r) && m'.history == SurvivingCut(m, |r.log|)
    requires m'.store.log == r.log && m'.store.synced == r.synced && m'.store.active == m.store.active
    ensures Durable(m', d)
  {
    hide Durable, Kept, EndOffset, SurvivingCut;
    forall n | m'.store.synced <= n <= |r.log| ensures r.log[..n] == m.store.log[..n] {
    }
    ShiftDurable(m, m', 0, |r.log|, d);
  }

  lemma {:induction false} InstalledDurable(o: Options, m: Model, m': Model, r: Store, d: Done)
    requires Durable(m, d) && Remains(m.store, r) && m'.history == SurvivingCut(m, |r.log|)
    requires Inv(o, m.store) && m.store.merge.Merge? && SplitAt(m.store.log, m.store.merge.nonMerge) <= m.store.synced
    requires m'.store.log == InstalledLog(m.store, |r.log|) && m'.store.synced == InstalledAt(m.store, r.synced)
      && m'.store.active == m.store.active
    ensures Durable(m', d)
  {
    hide Inv, Durable, Kept, EndOffset, SurvivingCut, SplitAt, InstalledLog;
    var s, t := m.store, m'.store;
    var shift := |s.merge.out| - SplitAt(s.log, s.merge.nonMerge);
    InstalledPrefix(s, |r.log|, |r.log|);
    InstalledLength(s, |r.log|);
    forall n | t.synced <= n <= |t.log|
      ensures EndOffset(t.log[..n], t.active) == EndOffset(s.log[..n - shift], s.active)
    {
      InstalledPrefix(s, |r.log|, n - shift);
      InstalledEnds(o, s, n - shift);
    }
    ShiftDurable(m, m', shift, |r.log|, d);
  }

  lemma {:induction false} InstalledLength(s: Store, keep: nat)
    requires s.merge.Merge? && SplitAt(s.log, s.merge.nonMerge) <= keep <= |s.log|
    ensures |InstalledLog(s, keep)| == InstalledAt(s, keep)
  {
  }

  lemma {:induction false} ShiftDurable(m: Model, m': Model, shift: int, keep: nat, d: Done)
    requires Durable(m, d) && m.store.synced <= keep <= |m.store.log| && m'.history == SurvivingCut(m, keep)
    requires m'.store.synced - shift >= m.store.synced && |m'.store.log| == keep + shift
    requires forall n :: m'.store.synced <= n <= |m'.store.log| ==>
      EndOffset(m'.store.log[..n], m'.store.active) == EndOffset(m.store.log[..n - shift], m.store.active)
    requires m'.store.active == m.store.active
    ensures Durable(m', d)
  {
    hide Kept, EndOffset;
    SurvivorStays(m.history, d, m.store.active, EndOffset(m.store.log[..keep], m.store.active));
  }

  lemma {:induction false} DurableWhenSynced(o: Options, m: Model, d: Done)
    requires LogOk(o, m.store) && m.store.synced == |m.store.log|
    requires d in m.history && Kept(d.last, m.store.active, m.store.writeOff)
    ensures Durable(m, d)
  {
    FullEnd(o, m.store);
  }

  lemma {:induction false} DurableForever(o: Options, m: Model, es: seq<Event>, d: Done)
    requires ModelOk(o, m) && AllAllowed(o, m, es) && Durable(m, d)
    ensures RunEvents(o, m, es).Some?
    ensures ModelOk(o, RunEvents(o, m, es).value) && Durable(RunEvents(o, m, es).value, d)
  {
    hide ModelOk, Next, Allowed, Durable;
    if es != [] {
      DurableForever(o, m, es[..|es| - 1], d);
      var n, e := RunEvents(o, m, es[..|es| - 1]).value, es[|es| - 1];
      StepOk(o, n, e);
      DurableStep(o, n, e, d);
    }
  }

  // ---- What a clean close buys ----

  /** Every record is on disk for good. */
  predicate Clean(s: Store)
  {
    s.synced == |s.log|
  }

  lemma {:induction false} InstalledClean(o: Options, s: Store, d: Store)
    requires Inv(o, s) && s.merge.Merge? && s.merge.finished && Remains(s, d) && ScanComplete(o, d)
    ensures Open(o, d).Some? && (Clean(Open(o, d).value) <==> Clean(d))
  {
    hide Inv, Open, ScanComplete, SplitAt;
    OpenInstalled(o, s, d);
    assert |InstalledLog(s, |d.log|)| == InstalledAt(s, |d.log|);
  }

  /** An opening finds everything durable exactly when everything it found was. */
  lemma {:induction false} OpenedClean(o: Options, s: Store, d: Store)
    requires Inv(o, s) && Remains(s, d) && ScanComplete(o, d)
    ensures Open(o, d).Some? && (Clean(Open(o, d).value) <==> Clean(d))
  {
    hide Inv, Open, ScanComplete, SplitAt, Remains, Clean;
    if s.merge.Merge? && s.merge.finished {
      InstalledClean(o, s, d);
    } else {
      OpenPlain(o, s, d);
      assert Reopened(d, Open(o, d).value);
      SameClean(d, Open(o, d).value);
    }
  }

  lemma {:induction false} SameClean(d: Store, t: Store)
    requires Reopened(d, t)
    ensures Clean(t) <==> Clean(d)
  {
  }

  /**
   * A close and an opening lose nothing and leave everything durable, a finished merge to install or not, exactly when
   * the handle is on the newest file or there was nothing to sync.
   */
  lemma {:induction false} CloseIsClean(o: Options, m: Model)
    requires ModelOk(o, m) && Allowed(o, m, ReopenEvent)
    ensures Next(o, m, ReopenEvent).Some?
    ensures var t := Next(o, m, ReopenEvent).value;
            && ModelOk(o, t) && t.history == m.history
            && (t.store.synced == |t.store.log| <==> OnNewest(m.store) || m.store.synced == |m.store.log|)
  {
    InvParts(o, m.store);
    hide Inv, HistoryOk, Open, ScanComplete, LogOk, FloorAfter, SplitAt, SurvivingCut;
    RestartOk(o, m, ReopenEvent);
    LeftRemains(o, m.store, ReopenEvent);
    OpenedClean(o, m.store, Left(m.store, ReopenEvent));
    WholeHistory(o, m);
  }

  lemma {:induction false} WholeHistory(o: Options, m: Model)
    requires LogOk(o, m.store) && HistoryOk(m)
    ensures SurvivingCut(m, |m.store.log|) == m.history
  {
    hide LogOk, CutOk, EndOffset, Kept;
    FullEnd(o, m.store);
    AllSurvive(m.history, m.store.active, m.store.writeOff);
    assert m.store.log[..|m.store.log|] == m.store.log;
  }

  /**
   * What the next engine starts from: a kill leaves every record and syncs none, a power failure leaves the records it
   * spares and those are on disk, a close on the newest file syncs all; a finished merge takes the place of the records
   * it read.
   */
  lemma {:induction false} RestartLeaves(o: Options, m: Model, e: Event)
    requires ModelOk(o, m) && Allowed(o, m, e) && Restarts(e)
    ensures Next(o, m, e).Some?
    ensures var s, t := m.store, Next(o, m, e).value.store;
            var kept := if e.PowerEvent? then e.keep else |s.log|;
            var safe := if e.PowerEvent? then kept else if e.ReopenEvent? && OnNewest(s) then kept else s.synced;
            && safe <= kept <= |s.log| && t.bytesWrite == 0 && t.merge.NoMerge?
            && if s.merge.Merge? && s.merge.finished then
                 var c := SplitAt(s.log, s.merge.nonMerge);
                 c <= safe && t.log == s.merge.out + s.log[c..kept] && t.synced == |s.merge.out| + (safe - c)
               else t.log == s.log[..kept] && t.synced == safe
  {
    InvParts(o, m.store);
    hide Inv, HistoryOk, Open, ScanComplete, LogOk, FloorAfter, SplitAt, SurvivingCut, SkippedCovered;
    RestartOk(o, m, e);
    LeftRemains(o, m.store, e);
    var s, d := m.store, Left(m.store, e);
    LeftExactly(o, s, e);
    hide Left, Allowed;
    if s.merge.Merge? && s.merge.finished {
      OpenInstalled(o, s, d);
    } else {
      OpenPlain(o, s, d);
    }
  }

  lemma {:induction false} LeftExactly(o: Options, s: Store, e: Event)
    requires Restarts(e) && Guarded(o, s, e)
    ensures var d, kept := Left(s, e), if e.PowerEvent? then e.keep else |s.log|;
            && kept <= |s.log| && d.log == s.log[..kept]
            && d.synced == if e.PowerEvent? then kept else if e.ReopenEvent? && OnNewest(s) then kept else s.synced
  {
    hide ScanComplete, SkippedCovered, SplitAt;
    assert s.log[..|s.log|] == s.log;
  }

  /** A sync through a handle on the newest file leaves nothing to lose, and changes nothing else. */
  lemma {:induction false} SyncLeaves(o: Options, m: Model)
    requires ModelOk(o, m) && OnNewest(m.store)
    ensures Next(o, m, SyncEvent).Some?
    ensures var t := Next(o, m, SyncEvent).value;
            t.store == m.store.(synced := |m.store.log|) && t.history == m.history
  {
    hide Inv, HistoryOk;
    NextStore(o, m, SyncEvent);
  }

  lemma {:induction false} TornLog(o: Options, s: Store, items: seq<Item>)
    requires LogOk(o, s) && IndexOk(s) && ItemsOk(items) && s.seqNo < U64_LIMIT
    ensures var t := TornCommit(o, s, items);
            && |t.log| == |s.log| + |items| && s.log <= t.log && t.index == s.index && t.seqNo == s.seqNo + 1
            && Wrote(t.log, |s.log|, s.seqNo, items) && ImageOf(t.log) == ImageOf(s.log)
  {
    hide LogOk, IndexOk, ImageOf, AppendItems, Wrote, OfBatch, Grows, Run, ItemsOk;
    AppendItemsWrite(o, s.(seqNo := s.seqNo + 1), s.seqNo, items);
    TornOk(o, s, items);
  }

  /** A commit that stops early leaves its records in the log, with nothing in index or replayed image to show it. */
  lemma {:induction false} TornLeaves(o: Options, m: Model, items: seq<Item>)
    requires ModelOk(o, m) && Allowed(o, m, TornEvent(items))
    ensures Next(o, m, TornEvent(items)).Some?
    ensures var s, t := m.store, Next(o, m, TornEvent(items)).value.store;
            && |t.log| == |s.log| + |items| && s.log <= t.log && t.index == s.index && t.seqNo == s.seqNo + 1
            && Wrote(t.log, |s.log|, s.seqNo, items) && ImageOf(t.log) == ImageOf(s.log)
            && Next(o, m, TornEvent(items)).value.history == m.history
  {
    InvParts(o, m.store);
    TornLog(o, m.store, items);
    hide Inv, HistoryOk, LogOk, IndexOk, BaseOk, MergeOk, ImageOf, TornCommit, Wrote, ItemsOk;
    NextStore(o, m, TornEvent(items));
  }

  /** With everything durable no restart of whatever kind loses anything. */
  lemma {:induction false} CleanStays(o: Options, m: Model, e: Event)
    requires ModelOk(o, m) && Clean(m.store) && Restarts(e) && Allowed(o, m, e)
    ensures Next(o, m, e).Some?
    ensures var t := Next(o, m, e).value;
            ModelOk(o, t) && Clean(t.store) && t.history == m.history
  {
    InvParts(o, m.store);
    hide Inv, HistoryOk, Open, ScanComplete, LogOk, FloorAfter, SplitAt, SurvivingCut, SkippedCovered;
    RestartOk(o, m, e);
    LeftRemains(o, m.store, e);
    CleanLeft(m.store, e, Left(m.store, e));
    OpenedClean(o, m.store, Left(m.store, e));
    WholeHistory(o, m);
    hide Left, Remains, Clean, Allowed;
  }

  lemma {:induction false} CleanLeft(s: Store, e: Event, d: Store)
    requires Clean(s) && Remains(s, d)
    ensures Clean(d) && |d.log| == |s.log|
  {
  }

  lemma {:induction false} CleanRun(o: Options, m: Model, rs: seq<Event>)
    requires ModelOk(o, m) && OnNewest(m.store) && (forall e :: e in rs ==> Restarts(e))
    requires AllAllowed(o, m, [ReopenEvent] + rs)
    ensures RunEvents(o, m, [ReopenEvent] + rs).Some?
    ensures var t := RunEvents(o, m, [ReopenEvent] + rs).value;
            ModelOk(o, t) && Clean(t.store) && t.history == m.history
  {
    hide ModelOk, Next, Allowed;
    var es := [ReopenEvent] + rs;
    if rs == [] {
      assert es == [ReopenEvent] && es[..|es| - 1] == [];
      CloseIsClean(o, m);
    } else {
      var n := |rs| - 1;
      assert es[..|es| - 1] == [ReopenEvent] + rs[..n] && es[|es| - 1] == rs[n];
      CleanRun(o, m, rs[..n]);
      CleanStays(o, RunEvents(o, m, [ReopenEvent] + rs[..n]).value, rs[n]);
    }
  }

  /**
   * After a clean close of an engine that writes to its newest file, any number of kills, power failures and openings,
   * with nothing written meanwhile, show the map there was.
   */
  lemma {:induction false} ClosedForGood(o: Options, es: seq<Event>, rs: seq<Event>)
    requires AllAllowed(o, START, es) && forall e :: e in rs ==> Restarts(e)
    requires RunEvents(o, START, es).Some? ==>
      OnNewest(RunEvents(o, START, es).value.store)
        && AllAllowed(o, RunEvents(o, START, es).value, [ReopenEvent] + rs)
    ensures RunEvents(o, START, es).Some?
    ensures var m := RunEvents(o, START, es).value;
            && RunEvents(o, m, [ReopenEvent] + rs).Some?
            && ValuesOf(RunEvents(o, m, [ReopenEvent] + rs).value.store.index) == ValuesOf(m.store.index)
            && RunEvents(o, m, [ReopenEvent] + rs).value.history == m.history
  {
    RunOk(o, es);
    var m := RunEvents(o, START, es).value;
    CleanRun(o, m, rs);
    hide RunEvents, AllAllowed, HistoryOk, LogOk, IndexOk, BaseOk, MergeOk;
    ShownIsHistory(o, m);
    ShownIsHistory(o, RunEvents(o, m, [ReopenEvent] + rs).value);
  }

  lemma {:induction false} ShownIsHistory(o: Options, m: Model)
    requires ModelOk(o, m)
    ensures ValuesOf(m.store.index) == Shown(Meaning(m.history))
  {
    InvParts(o, m.store);
    hide Inv, LogOk, HistoryOk, ImageOf;
    CurrentValues(o, m);
  }

  /**
   * A commit that synced before it returned is never lost: over every later run, power failures included, the whole
   * batch stays in the history the index reflects, however many files its records span.
   */
  lemma {:induction false} CommitIsDurable(o: Options, m: Model, items: seq<Item>, maxNum: nat, es: seq<Event>)
    requires ModelOk(o, m) && ItemsOk(items) && m.store.seqNo < U64_LIMIT && items != [] && |items| <= maxNum
      && OnNewest(m.store)
    requires AllAllowed(o, Next(o, m, CommitEvent(items, true, maxNum)).value, es)
    ensures var m1 := Next(o, m, CommitEvent(items, true, maxNum)).value;
            && m1.history != [] && m1.history[|m1.history| - 1].effect == ItemsEffect(items)
            && RunEvents(o, m1, es).Some?
            && m1.history[|m1.history| - 1] in RunEvents(o, m1, es).value.history
  {
    hide ModelOk, Next, ItemsOk, ItemsEffect, Durable;
    var e := CommitEvent(items, true, maxNum);
    assert Allowed(o, m, e);
    hide Allowed;
    StepOk(o, m, e);
    CommitDone(o, m, items, maxNum);
    var m1 := Next(o, m, e).value;
    DurableForever(o, m1, es, m1.history[|m1.history| - 1]);
    DurableInHistory(RunEvents(o, m1, es).value, m1.history[|m1.history| - 1]);
  }

  lemma {:induction false} DurableInHistory(m: Model, d: Done)
    requires Durable(m, d)
    ensures d in m.history
  {
  }

  /** Right after a synced commit its history entry is durable. */
  lemma {:induction false} CommitDone(o: Options, m: Model, items: seq<Item>, maxNum: nat)
    requires ModelOk(o, m) && ItemsOk(items) && m.store.seqNo < U64_LIMIT && items != [] && |items| <= maxNum
      && OnNewest(m.store)
    ensures var m1 := Next(o, m, CommitEvent(items, true, maxNum)).value;
            && m1.history != [] && m1.history[|m1.history| - 1].effect == ItemsEffect(items)
            && Durable(m1, m1.history[|m1.history| - 1])
  {
    hide Inv, HistoryOk, Commit, ItemsOk, LogOk, Durable;
    var e, s := CommitEvent(items, true, maxNum), m.store;
    assert Allowed(o, m, e);
    StepOk(o, m, e);
    CommitSynced(o, s, items, maxNum);
    assert items[|items| - 1].key in ItemsEffect(items);
    WroteActive(o, s, e);
    hide ItemsEffect;
    var m1 := Next(o, m, e).value;
    InvParts(o, m1.store);
    LastKept(m1);
    DurableWhenSynced(o, m1, m1.history[|m1.history| - 1]);
  }

  lemma {:induction false} LastKept(m: Model)
    requires HistoryOk(m) && m.history != []
    ensures Kept(m.history[|m.history| - 1].last, m.store.active, m.store.writeOff)
  {
  }

  lemma {:induction false} CommitSynced(o: Options, s: Store, items: seq<Item>, maxNum: nat)
    requires Inv(o, s) && ItemsOk(items) && s.seqNo < U64_LIMIT && items != [] && |items| <= maxNum
    ensures Commit(o, s, items, true, maxNum).synced == |Commit(o, s, items, true, maxNum).log|
  {
    CommitOk(o, s, items, true, maxNum);
  }

  // ---- Merge and power failure ----

  /** With every write synced a finished merge never loses a key: a power failure has nothing to take. */
  lemma {:induction false} SyncedMergeSafe(o: Options, s: Store, found: nat, keep: nat)
    requires Inv(o, s) && SyncBound(o, s, found) && o.syncWrites && CanCut(s, keep)
    requires s.merge.Merge? && s.merge.finished
    ensures SplitAt(s.log, s.merge.nonMerge) <= keep && SkippedCovered(s, keep)
  {
    assert keep == |s.log|;
    FinishedCovers(o, s);
  }

  /**
   * Without it the code loses data it had: a key overwritten while a merge runs is not copied, the overwrite may
   * still be unsynced when the marker is written, and a power failure then takes the new value while the reopen
   * deletes the old one.
   */
  lemma {:induction false} LostKey(o: Options, key: Bytes, v: Bytes, w: Bytes)
    requires key != [] && !o.syncWrites && o.bytesPerSync == 0
    ensures var s0 := Put(o, INIT, key, v);
            var s1 := Put(o, MergeBegin(s0), key, w);
            var s2 := MergeFinish(MergeStep(o, s1));
            && CanCut(s2, 1)
            && Crash(o, s2, 1).Some?
            && ValuesOf(Live(ImageOf(s2.log[..1]))) == map[key := v]
            && ValuesOf(Crash(o, s2, 1).value.index) == map[]
  {
    hide Inv, Put, MergeBegin, MergeStep, MergeFinish, Crash, ScanComplete, ImageOf, SplitAt, ValuesOf, Live;
    var s2 := LosingRun(o, key, v, w);
    LostAtOnce(o, s2);
  }

  lemma {:induction false} LostAtOnce(o: Options, s: Store)
    requires Inv(o, s) && s.merge.Merge? && s.merge.finished && s.merge.out == []
    requires |s.log| == 2 && s.synced == 1 == SplitAt(s.log, s.merge.nonMerge) && ScanComplete(o, Cut(s, 1))
    ensures Crash(o, s, 1).Some? && ValuesOf(Crash(o, s, 1).value.index) == map[]
  {
    hide Inv, Open, ScanComplete, SplitAt;
    CutRemains(s, 1);
    OpenInstalled(o, s, Cut(s, 1));
    assert InstalledLog(s, 1) == [];
    NothingShown();
  }

  lemma {:induction false} NothingShown()
    ensures ValuesOf(Live(ImageOf([]))) == map[]
  {
    assert ImageOf([]) == map[];
  }

  /** The state both examples end in: one source record passed over, its overwrite not on disk, the marker written. */
  lemma {:induction false} LosingRun(o: Options, key: Bytes, v: Bytes, w: Bytes) returns (s2: Store)
    requires key != [] && !o.syncWrites && o.bytesPerSync == 0
    ensures var s0 := Put(o, INIT, key, v);
            var s1 := Put(o, MergeBegin(s0), key, w);
            && s2 == MergeFinish(MergeStep(o, s1))
            && Inv(o, s2) && |s2.log| == 2 && s2.synced == 1
            && s2.merge == Merge(s0.active + 1, 1, [], Cursor(0, 0), [], true)
            && SplitAt(s2.log, s2.merge.nonMerge) == 1
            && ValuesOf(Live(ImageOf(s2.log[..1]))) == map[key := v]
            && ScanComplete(o, s2) && ScanComplete(o, Cut(s2, 1))
            && ValuesOf(s2.index) == map[key := w]
  {
    hide ViewOf, Inv, Put, MergeBegin, Crash;
    var s0 := Put(o, INIT, key, v);
    var s1 := Put(o, MergeBegin(s0), key, w);
    OverwrittenDuring(o, key, v, w);
    SkipsOverwritten(o, s0, s1);
    MergeStepInv(o, s1);
    MergeFinishInv(o, MergeStep(o, s1));
    s2 := MergeFinish(MergeStep(o, s1));
    NewestScans(o, s2);
    NewestScans(o, Cut(s2, 1));
  }

  /** A log with nothing to scan but the newest file. */
  lemma {:induction false} NewestScans(o: Options, s: Store)
    requires s.merge.Merge? && s.merge.finished && s.merge.out == []
    requires forall i :: SplitAt(s.log, s.merge.nonMerge) <= i < |s.log| ==> s.log[i].pos.fid == s.active
    ensures ScanComplete(o, s)
  {
    hide SplitAt;
    var c := SplitAt(s.log, s.merge.nonMerge);
    var d := Install(s);
    assert d.log == s.log[c..];
    var scan := ToScan(d);
    assert forall i :: 0 <= i < |d.log| ==> d.log[i] == s.log[c + i];
    NewestTails(scan, d.active);
  }

  lemma {:induction false} NewestTails(log: seq<Logged>, newest: nat)
    requires forall i :: 0 <= i < |log| ==> log[i].pos.fid == newest
    ensures TailsLong(log, newest)
  {
  }

  /**
   * And not only at the install: if the process is killed first, the next engine installs the merge and shows the new
   * value, with nothing lost, but the new value is no more on disk than before, and the old one is gone. A power
   * failure then leaves neither.
   */
  lemma {:induction false} LostKeyLater(o: Options, key: Bytes, v: Bytes, w: Bytes)
    requires key != [] && !o.syncWrites && o.bytesPerSync == 0
    ensures var s2 := MergeFinish(MergeStep(o, Put(o, MergeBegin(Put(o, INIT, key, v)), key, w)));
            && Open(o, s2).Some?
            && var t := Open(o, s2).value;
            && ValuesOf(t.index) == map[key := w] && CanCut(t, 0)
            && Crash(o, t, 0).Some? && ValuesOf(Crash(o, t, 0).value.index) == map[]
  {
    hide Inv, Put, MergeBegin, MergeStep, MergeFinish, Crash, Open, ScanComplete, ImageOf, SplitAt, ValuesOf, Live;
    var s2 := LosingRun(o, key, v, w);
    LostAfterInstall(o, s2);
  }

  lemma {:induction false} LostAfterInstall(o: Options, s: Store)
    requires Inv(o, s) && s.merge.Merge? && s.merge.finished && s.merge.out == [] && ScanComplete(o, s)
    requires |s.log| == 2 && s.synced == 1 == SplitAt(s.log, s.merge.nonMerge)
    ensures Open(o, s).Some?
    ensures var t := Open(o, s).value;
            && ValuesOf(t.index) == ValuesOf(s.index) && CanCut(t, 0)
            && Crash(o, t, 0).Some? && ValuesOf(Crash(o, t, 0).value.index) == map[]
  {
    hide Inv, Open, ScanComplete, SplitAt;
    KillInstalled(o, s);
    var t := Open(o, s).value;
    NothingScans(o, Cut(t, 0));
    FailurePlain(o, t, 0);
    assert t.log[..0] == [];
    NothingShown();
  }

  lemma {:induction false} NothingScans(o: Options, s: Store)
    requires s.log == [] && s.merge.NoMerge?
    ensures ScanComplete(o, s)
  {
  }

  /**
   * A key put, a merge begun, the key put again: the old record is the only source record and the new one is not
   * synced.
   */
  lemma {:induction false} OverwrittenDuring(o: Options, key: Bytes, v: Bytes, w: Bytes)
    requires key != [] && !o.syncWrites && o.bytesPerSync == 0
    ensures var s0 := Put(o, INIT, key, v);
            var s1 := Put(o, MergeBegin(s0), key, w);
            && Inv(o, s1)
            && |s0.log| == 1 && |s1.log| == 2 && s1.log[..1] == s0.log && s1.synced == 1
            && s1.merge == Merge(s0.active + 1, 0, [], Cursor(0, 0), [], false)
            && s0.log[0].pos.fid <= s0.active && s1.log[1].pos.fid > s0.active
            && ParseKey(s0.log[0].rec.key).ParsedKey?
            && KeyOf(s0.log[0]) in s1.index && s1.index[KeyOf(s0.log[0])].pos.fid > s0.active
            && ValuesOf(Live(ImageOf(s0.log))) == map[key := v] && ValuesOf(s1.index) == map[key := w]
            && s1.log[1].pos.fid == s1.active
  {
    hide ViewOf, EncodeKey, ParseKey, Size, LogOk, IndexOk, BaseOk, MergeOk, Atomic, Place;
    var s0 := Put(o, INIT, key, v);
    var b := MergeBegin(s0);
    var s1 := Put(o, b, key, w);
    assert Inv(o, INIT) by { StartOk(o); }
    PutAtomic(o, INIT, key, v);
    PutOk(o, INIT, key, v);
    MergeBeginInv(o, s0);
    PutAtomic(o, b, key, w);
    AppendView(o, INIT, NON_TRANSACTION, key, v, Normal);
    KeyOfView(s0.log[0]);
    assert s1.log[..1] == s0.log;
    assert s1.index[key].pos == s1.log[1].pos;
    assert s0.log[0].pos.fid <= s0.active;
    assert ImageOf(INIT.log) == map[];
    assert ImageOf(s0.log) == map[key := Some(Slot(LastPos(s0), v))];
  }

  /** The single source record is not live any more, so the merge passes over it and finishes. */
  lemma {:induction false} SkipsOverwritten(o: Options, s0: Store, s1: Store)
    requires |s0.log| == 1 && |s1.log| == 2 && s1.log[..1] == s0.log
    requires s1.merge == Merge(s0.active + 1, 0, [], Cursor(0, 0), [], false)
    requires s0.log[0].pos.fid <= s0.active && s1.log[1].pos.fid > s0.active
    requires ParseKey(s0.log[0].rec.key).ParsedKey?
    requires KeyOf(s0.log[0]) in s1.index && s1.index[KeyOf(s0.log[0])].pos.fid > s0.active
    ensures SplitAt(s1.log, s0.active + 1) == 1
    ensures MergeFinish(MergeStep(o, s1)) ==
            s1.(merge := Merge(s0.active + 1, 1, [], Cursor(0, 0), [], true))
  {
    hide ViewOf, ParseKey, KeyOf;
    assert s1.log[0] == s0.log[0];
    assert s1.log[..1][0] == s0.log[0];
    KeyOfView(s0.log[0]);
    assert SplitAt(s1.log, s0.active + 1) == 1;
  }
}
