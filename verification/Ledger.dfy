/** Byte accounting over runs: what the reclaim counter means in every reachable state, and what it bounds. */
module Ledger {
  import opened Wire
  import opened LogRecord
  import opened Replay
  import opened Layout
  import opened Store
  import opened Invariant
  import opened Merging
  import opened Reopening
  import opened Recovery
  import opened Accounting

  /**
   * Tombstones of batches committed since the engine was opened: a commit does not count their bytes, a replay does.
   */
  datatype Book = Book(model: Model, uncounted: nat)

  function Uncounted(s: Store, t: Store, e: Event, before: nat): nat
  {
    match e
    case CommitEvent(items, _, maxNum) =>
      if items == [] || |items| > maxNum || |s.log| + |items| > |t.log| then before
      else before + TombstoneBytes(t.log, |s.log|, items)
    case _ => if Restarts(e) then 0 else before
  }

  ghost function NextBook(o: Options, b: Book, e: Event): Option<Book>
  {
    match Next(o, b.model, e)
    case None => None
    case Some(m) => Some(Book(m, Uncounted(b.model.store, m.store, e, b.uncounted)))
  }

  ghost function RunBook(o: Options, es: seq<Event>): Option<Book>
  {
    if es == [] then Some(Book(START, 0)) else
      match RunBook(o, es[..|es| - 1])
      case None => None
      case Some(b) => NextBook(o, b, es[|es| - 1])
  }

  ghost predicate BookOk(o: Options, b: Book)
  {
    ModelOk(o, b.model) && Run(b.model.store.log).reclaim == b.model.store.reclaim + b.uncounted
  }

  lemma {:induction false} CommitLedger(o: Options, s: Store, items: seq<Item>, sync: bool, maxNum: nat, uncounted: nat)
    requires Inv(o, s) && Guarded(o, s, CommitEvent(items, sync, maxNum)) && Run(s.log).reclaim == s.reclaim + uncounted
    ensures var t := Commit(o, s, items, sync, maxNum);
            Run(t.log).reclaim == t.reclaim + Uncounted(s, t, CommitEvent(items, sync, maxNum), uncounted)
  {
    InvParts(o, s);
    hide Inv, LogOk, IndexOk, Run, Commit, ItemsOk, WriteBatch, Grows, UpdatesOf, ImageOf, Pend, ApplyAll,
      TombstoneBytes;
    CommitOk(o, s, items, sync, maxNum);
    if items == [] || |items| > maxNum {
      CommitNothing(o, s, items, sync, maxNum);
    }
  }

  lemma {:induction false} PutLedger(o: Options, s: Store, key: Bytes, value: Bytes)
    requires LogOk(o, s) && IndexOk(s)
    ensures Run(Put(o, s, key, value).log).reclaim - Put(o, s, key, value).reclaim == Run(s.log).reclaim - s.reclaim
  {
    hide LogOk, IndexOk, Run, Put, ImageOf, ViewOf;
    PutOk(o, s, key, value);
    if key == [] {
      PutNothing(o, s, value);
    }
  }

  lemma {:induction false} DeleteLedger(o: Options, s: Store, key: Bytes)
    requires Inv(o, s) && Guarded(o, s, DeleteEvent(key))
    ensures Run(DeleteKey(o, s, key).log).reclaim - DeleteKey(o, s, key).reclaim == Run(s.log).reclaim - s.reclaim
  {
    hide Inv, LogOk, IndexOk, BaseOk, MergeOk, Run, DeleteKey, ImageOf, ViewOf;
    InvParts(o, s);
    DeleteOk(o, s, key);
    if key == [] || key !in s.index {
      DeleteNothing(o, s, key);
    }
  }

  /** What each writing operation does to the difference between the replayed counter and the live one. */
  lemma {:induction false} WriteLedger(o: Options, s: Store, e: Event, uncounted: nat)
    requires Inv(o, s) && Guarded(o, s, e) && Writes(e) && Run(s.log).reclaim == s.reclaim + uncounted
    ensures var t := Operate(o, s, e);
            Run(t.log).reclaim == t.reclaim + Uncounted(s, t, e, uncounted)
  {
    hide Inv, LogOk, IndexOk, BaseOk, MergeOk, Run, Commit, Put, TornCommit, DeleteKey, ItemsOk, Grows, OfBatch,
      ImageOf, TombstoneBytes, ViewOf;
    InvParts(o, s);
    match e
    case PutEvent(key, value) =>
      PutLedger(o, s, key, value);
    case DeleteEvent(key) =>
      DeleteLedger(o, s, key);
    case CommitEvent(items, sync, maxNum) =>
      CommitLedger(o, s, items, sync, maxNum, uncounted);
    case TornEvent(items) =>
      TornOk(o, s, items);
    case _ =>
  }

  lemma {:induction false} RestartLedger(o: Options, b: Book, e: Event)
    requires BookOk(o, b) && Allowed(o, b.model, e) && Restarts(e)
    ensures NextBook(o, b, e).Some? && BookOk(o, NextBook(o, b, e).value)
  {
    hide ModelOk, Inv, Run, Open, Allowed, Guarded, SurvivingCut, FloorAfter, LogOk;
    var s, d := b.model.store, Left(b.model.store, e);
    ModelInv(o, b.model);
    StepOk(o, b.model, e);
    GuardedOf(o, b.model, e);
    InvParts(o, s);
    LeftRemains(o, s, e);
    if s.merge.Merge? && s.merge.finished {
      OpenInstalled(o, s, d);
    } else {
      OpenPlain(o, s, d);
    }
  }

  lemma {:induction false} ModelInv(o: Options, m: Model)
    requires ModelOk(o, m)
    ensures Inv(o, m.store)
  {
  }

  lemma {:induction false} WriteBook(o: Options, b: Book, e: Event)
    requires BookOk(o, b) && Allowed(o, b.model, e) && Writes(e)
    ensures NextBook(o, b, e).Some? && BookOk(o, NextBook(o, b, e).value)
  {
    hide ModelOk, Inv, Run, Allowed, Guarded, Operate, EffectOf, Uncounted;
    ModelInv(o, b.model);
    StepOk(o, b.model, e);
    GuardedOf(o, b.model, e);
    WriteLedger(o, b.model.store, e, b.uncounted);
  }

  lemma {:induction false} StepLedger(o: Options, b: Book, e: Event)
    requires BookOk(o, b) && Allowed(o, b.model, e)
    ensures NextBook(o, b, e).Some? && BookOk(o, NextBook(o, b, e).value)
  {
    hide BookOk, Allowed, NextBook;
    if Restarts(e) {
      RestartLedger(o, b, e);
    } else if Writes(e) {
      WriteBook(o, b, e);
    } else {
      QuietLedger(o, b, e);
    }
  }

  lemma {:induction false} QuietLedger(o: Options, b: Book, e: Event)
    requires BookOk(o, b) && Allowed(o, b.model, e) && !Restarts(e) && !Writes(e)
    ensures NextBook(o, b, e).Some? && BookOk(o, NextBook(o, b, e).value)
  {
    hide ModelOk, Run, Allowed, Next, MergeStep;
    StepOk(o, b.model, e);
    NextStore(o, b.model, e);
    MergeStepQuiet(o, b.model.store);
  }

  lemma {:induction false} RunLedger(o: Options, es: seq<Event>)
    requires AllAllowed(o, START, es)
    ensures RunBook(o, es).Some? && BookOk(o, RunBook(o, es).value)
    ensures RunEvents(o, START, es) == Some(RunBook(o, es).value.model)
  {
    hide BookOk, Next, Allowed, Uncounted;
    if es == [] {
      StartLedger(o);
    } else {
      RunLedger(o, es[..|es| - 1]);
      StepLedger(o, RunBook(o, es[..|es| - 1]).value, es[|es| - 1]);
    }
  }

  lemma {:induction false} StartLedger(o: Options)
    ensures BookOk(o, Book(START, 0))
  {
    StartOk(o);
  }

  /** The bytes of the records the live index points at. */
  ghost function IndexedBytes(index: Index): nat
  {
    Sum(map k | k in index :: index[k].pos.size)
  }

  lemma {:induction false} IndexedIsLive(image: Image)
    ensures IndexedBytes(Live(image)) == LiveBytes(image)
  {
    assert Sizes(image) == map k | k in Live(image) :: Live(image)[k].pos.size;
  }

  /**
   * In every reachable state the bytes of the data files are the indexed records, the reclaim counter, and an exactly
   * known rest: finishing records, records of unfinished batches, and batch tombstones committed since the last open.
   */
  lemma {:induction false} LedgerTheorem(o: Options, es: seq<Event>)
    requires AllAllowed(o, START, es)
    ensures RunBook(o, es).Some?
    ensures var b := RunBook(o, es).value;
            var s := b.model.store;
            var rest := b.uncounted + FinishBytes(s.log) + PendingBytes(Run(s.log));
            && Total(s.log) == IndexedBytes(s.index) + s.reclaim + rest
            && s.reclaim + IndexedBytes(s.index) <= Total(s.log)
  {
    RunLedger(o, es);
    var b := RunBook(o, es).value;
    var s := b.model.store;
    InvParts(o, s);
    hide Inv, Run, IndexedBytes, RunBook, AllAllowed;
    forall l | l in s.log ensures ViewOf(l).update.slot.pos == l.pos {
      ViewKeepsPos(l);
    }
    Balance(s.log);
    IndexedIsLive(ImageOf(s.log));
  }

  /** A restart with nothing lost and no merge to install moves the counter up by exactly the uncounted tombstones. */
  lemma {:induction false} ReopenCounter(o: Options, b: Book)
    requires BookOk(o, b) && !(b.model.store.merge.Merge? && b.model.store.merge.finished)
    requires ScanComplete(o, b.model.store)
    ensures var s := b.model.store;
            Open(o, s).Some? && Open(o, s).value.reclaim == s.reclaim + b.uncounted
  {
    var s := b.model.store;
    InvParts(o, s);
    hide Inv, Open, HistoryOk, ScanComplete, Run, LogOk;
    KillRemains(o, s);
    OpenPlain(o, s, s);
  }

  // ---- How much a merge writes ----

  /** Distinct keys with no more bytes each than the map has for them take no more bytes in all. */
  lemma {:induction false} DistinctBound(ls: seq<Logged>, m: map<Bytes, nat>)
    requires forall i :: 0 <= i < |ls| ==> KeyOf(ls[i]) in m && ls[i].pos.size <= m[KeyOf(ls[i])]
    requires forall i, j :: 0 <= i < j < |ls| ==> KeyOf(ls[i]) != KeyOf(ls[j])
    ensures Total(ls) <= Sum(m)
  {
    hide KeyOf, Sum;
    if ls != [] {
      var n := |ls| - 1;
      SumWithout(m, KeyOf(ls[n]));
      DistinctBound(ls[..n], m - {KeyOf(ls[n])});
    }
  }

  /** The rewritten records take no more bytes than the records live when the merge began. */
  lemma {:induction false} MergeWritesLess(o: Options, s: Store)
    requires Inv(o, s) && s.merge.Merge?
    ensures Total(s.merge.out) <= IndexedBytes(OldIndex(s))
    ensures IndexedBytes(OldIndex(s)) + Run(OldPart(s)).reclaim <= Total(OldPart(s))
  {
    hide ViewOf, LogOk, IndexOk, BaseOk, MergeBounds, Covered, NoCarry, KeyOf, Scanned, OldPart, Run;
    var before := OldIndex(s);
    var m := map k | k in before :: before[k].pos.size;
    DistinctBound(s.merge.out, m);
    IndexedIsLive(ImageOf(OldPart(s)));
    ReclaimBounded(OldPart(s));
  }

  /** What may happen while a merge runs: anything but its start and a restart. */
  predicate During(e: Event)
  {
    !Restarts(e) && !e.MergeBeginEvent?
  }

  /** Nothing that happens meanwhile changes what the merge reads. */
  lemma {:induction false} OldPartStays(o: Options, m: Model, e: Event)
    requires ModelOk(o, m) && Allowed(o, m, e) && During(e) && m.store.merge.Merge?
    ensures Next(o, m, e).Some? && Next(o, m, e).value.store.merge.Merge?
    ensures OldPart(Next(o, m, e).value.store) == OldPart(m.store)
  {
    hide ModelOk, Inv, Next, Allowed, Guarded, MergeStep, Atomic, FreshFinishes, Grows, SplitAt;
    var s, t := m.store, Operate(o, m.store, e);
    ModelInv(o, m);
    NextStore(o, m, e);
    GuardedOf(o, m, e);
    if Writes(e) {
      WriteOk(o, s, e);
      assert s.merge.nonMerge <= s.active by { InvParts(o, s); MergeParts(o, s); }
      GrowsMergeSame(s, t);
      GrownParts(s, t, s.merge.nonMerge);
    } else {
      MergeStepQuiet(o, s);
      StepSource(o, s);
    }
  }

  lemma {:induction false} GrowsMergeSame(s: Store, t: Store)
    requires Grows(s, t)
    ensures t.merge == s.merge
  {
  }

  lemma {:induction false} StepSource(o: Options, s: Store)
    requires s.merge.Merge?
    ensures MergeStep(o, s).merge.Merge? && MergeStep(o, s).merge.nonMerge == s.merge.nonMerge
  {
    hide IsLive, ParseKey, MergedRecord, Place;
  }

  lemma {:induction false} DuringStays(o: Options, m: Model, es: seq<Event>)
    requires ModelOk(o, m) && AllAllowed(o, m, es) && m.store.merge.Merge?
    requires forall i :: 0 <= i < |es| ==> During(es[i])
    ensures RunEvents(o, m, es).Some?
    ensures var n := RunEvents(o, m, es).value;
            ModelOk(o, n) && n.store.merge.Merge? && OldPart(n.store) == OldPart(m.store)
  {
    hide ModelOk, Next, Allowed, OldPart;
    if es != [] {
      DuringStays(o, m, es[..|es| - 1]);
      var n := RunEvents(o, m, es[..|es| - 1]).value;
      StepOk(o, n, es[|es| - 1]);
      OldPartStays(o, n, es[|es| - 1]);
    }
  }

  /** A merge that starts reads the whole log. */
  lemma {:induction false} BeginReadsAll(o: Options, s: Store)
    requires Inv(o, s) && MergeBegin(s) != s
    ensures MergeBegin(s).merge.Merge? && OldPart(MergeBegin(s)) == s.log
  {
    InvParts(o, s);
    LogParts(o, s);
    hide Inv, LogOk, Laid;
    SplitExact(s.log, s.active, s.writeOff, s.active + 1);
    if s.log != [] {
      LaidPrefix(s.log, s.active, s.writeOff, |s.log| - 1);
    }
  }

  /**
   * The estimate `merge` checks the free disk space against is enough: whatever runs between its steps, what it has
   * written takes no more than the bytes of the data files less the live reclaim counter, both as they were when it
   * began.
   */
  lemma {:induction false} MergeFitsEstimate(o: Options, b: Book, es: seq<Event>)
    requires BookOk(o, b) && Allowed(o, b.model, MergeBeginEvent) && MergeBegin(b.model.store) != b.model.store
    requires AllAllowed(o, Next(o, b.model, MergeBeginEvent).value, es)
    requires forall i :: 0 <= i < |es| ==> During(es[i])
    ensures var m := Next(o, b.model, MergeBeginEvent).value;
            && RunEvents(o, m, es).Some? && RunEvents(o, m, es).value.store.merge.Merge?
            && Total(RunEvents(o, m, es).value.store.merge.out) <= Total(b.model.store.log) - b.model.store.reclaim
  {
    hide ModelOk, Inv, Next, Allowed, MergeBegin, Run, OldPart, OldIndex, IndexedBytes, AllAllowed, RunEvents;
    var s := b.model.store;
    ModelInv(o, b.model);
    StepOk(o, b.model, MergeBeginEvent);
    NextStore(o, b.model, MergeBeginEvent);
    var m := Next(o, b.model, MergeBeginEvent).value;
    BeginReadsAll(o, s);
    DuringStays(o, m, es);
    var n := RunEvents(o, m, es).value;
    ModelInv(o, n);
    MergeWritesLess(o, n.store);
  }

  /** A merge that is not refused for want of space writes less than there is. */
  lemma {:induction false} MergeFitsDisk(o: Options, b: Book, es: seq<Event>, total: nat, available: nat)
    requires BookOk(o, b) && Allowed(o, b.model, MergeBeginEvent) && MergeBegin(b.model.store) != b.model.store
    requires AllAllowed(o, Next(o, b.model, MergeBeginEvent).value, es)
    requires forall i :: 0 <= i < |es| ==> During(es[i])
    requires Total(b.model.store.log) <= total && total - b.model.store.reclaim < available
    ensures var m := Next(o, b.model, MergeBeginEvent).value;
            && RunEvents(o, m, es).Some? && RunEvents(o, m, es).value.store.merge.Merge?
            && Total(RunEvents(o, m, es).value.store.merge.out) < available
  {
    hide ModelOk, Inv, Next, Allowed, MergeBegin, Run, AllAllowed, RunEvents;
    MergeFitsEstimate(o, b, es);
  }
}
