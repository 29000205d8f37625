/**
 * What a merge is for: run to its end with nothing written meanwhile, it leaves the next opening one record for every
 * key of the map, and nothing else.
 */
module Compaction {
  import opened Wire
  import opened LogRecord
  import opened Replay
  import opened Layout
  import opened Store
  import opened Invariant
  import opened Merging
  import opened Reopening
  import opened Recovery
  import opened Accounting
  import opened Ledger

  // ---- One record for each key ----

  function KeysOf(ls: seq<Logged>): set<Bytes>
  {
    set l | l in ls :: KeyOf(l)
  }

  lemma {:induction false} KeysCount(ls: seq<Logged>, hints: seq<Hint>)
    requires MergedPart(ls, hints)
    ensures |KeysOf(ls)| == |ls|
  {
    hide KeyOf, Rewritten;
    if ls == [] {
      assert KeysOf(ls) == {};
    } else {
      var n := |ls| - 1;
      MergedPrefix(ls, hints, n);
      KeysCount(ls[..n], hints[..n]);
      assert ls == ls[..n] + [ls[n]];
      assert KeysOf(ls) == KeysOf(ls[..n]) + {KeyOf(ls[n])};
      forall l | l in ls[..n] ensures KeyOf(l) != KeyOf(ls[n]) {
        var i :| 0 <= i < n && ls[..n][i] == l;
      }
    }
  }

  /** The index has exactly one record of the log for every key, and every record of the log is one of them. */
  ghost predicate Compact(log: seq<Logged>, index: Index)
  {
    && |log| == |index|
    && (forall i :: 0 <= i < |log| ==>
          && log[i].rec.rtype.Normal? && KeyOf(log[i]) in index
          && index[KeyOf(log[i])] == Slot(log[i].pos, log[i].rec.value))
    && (forall k :: k in index ==> exists i :: 0 <= i < |log| && KeyOf(log[i]) == k)
  }

  lemma {:induction false} MergedEntries(ls: seq<Logged>, hints: seq<Hint>)
    requires MergedPart(ls, hints)
    ensures var index := Live(ImageOf(ls));
            && (forall k :: k in index <==> HasKey(ls, k))
            && (forall i :: 0 <= i < |ls| ==>
                  && ls[i].rec.rtype.Normal? && KeyOf(ls[i]) in index
                  && index[KeyOf(ls[i])] == Slot(ls[i].pos, ls[i].rec.value))
  {
    MergedImage(ls, hints);
    hide ViewOf, ParseKey, ImageOf, KeyOf, Rewritten;
    forall i | 0 <= i < |ls| ensures ls[i].rec.rtype.Normal? {
      RewrittenNormal(ls[i]);
    }
    forall k ensures HasKey(ls, k) ==> k in Live(ImageOf(ls)) {
    }
  }

  lemma {:induction false} SameCount(ls: seq<Logged>, hints: seq<Hint>, index: Index)
    requires MergedPart(ls, hints) && forall k :: k in index <==> HasKey(ls, k)
    ensures |index| == |ls|
  {
    KeysCount(ls, hints);
    hide KeyOf, MergedPart;
    assert index.Keys == KeysOf(ls);
    assert |index| == |index.Keys|;
  }

  lemma {:induction false} MergedCompact(ls: seq<Logged>, hints: seq<Hint>)
    requires MergedPart(ls, hints)
    ensures Compact(ls, Live(ImageOf(ls)))
  {
    hide ImageOf, Live, KeyOf, MergedPart;
    MergedEntries(ls, hints);
    SameCount(ls, hints, Live(ImageOf(ls)));
  }

  lemma {:induction false} RewrittenNormal(l: Logged)
    requires Rewritten(l)
    ensures l.rec.rtype.Normal? && ViewOf(l).update.slot.pos == l.pos
    ensures !ViewOf(l).update.rtype.TxnFinished?
  {
  }

  lemma {:induction false} NothingFinishes(ls: seq<Logged>, hints: seq<Hint>)
    requires MergedPart(ls, hints)
    ensures FinishBytes(ls) == 0
  {
    hide KeyOf;
    if ls != [] {
      var n := |ls| - 1;
      MergedPrefix(ls, hints, n);
      NothingFinishes(ls[..n], hints[..n]);
      assert Rewritten(ls[n]);
      RewrittenNormal(ls[n]);
      hide ViewOf;
    }
  }

  /** No byte of the rewritten files is garbage. */
  lemma {:induction false} NoGarbage(ls: seq<Logged>, hints: seq<Hint>)
    requires MergedPart(ls, hints)
    ensures Total(ls) == IndexedBytes(Live(ImageOf(ls)))
  {
    MergedImage(ls, hints);
    forall l | l in ls ensures ViewOf(l).update.slot.pos == l.pos {
      var i :| 0 <= i < |ls| && ls[i] == l;
      assert Rewritten(ls[i]);
      RewrittenNormal(l);
    }
    Balance(ls);
    NothingFinishes(ls, hints);
    IndexedIsLive(ImageOf(ls));
    NothingPending(Run(ls));
  }

  lemma {:induction false} NothingPending(st: State)
    requires st.pending == map[]
    ensures PendingBytes(st) == 0
  {
  }

  // ---- A merge with nothing written meanwhile ----

  /** The source records are all there is. */
  predicate ReadsAll(s: Store)
  {
    s.merge.Merge? && SplitAt(s.log, s.merge.nonMerge) == |s.log|
  }

  lemma {:induction false} CompactWhenInstalled(o: Options, s: Store)
    requires Inv(o, s) && ReadsAll(s) && s.merge.finished && ScanComplete(o, s)
    ensures Open(o, s).Some?
    ensures var t := Open(o, s).value;
            && Inv(o, t) && ValuesOf(t.index) == ValuesOf(s.index)
            && Compact(t.log, t.index) && t.reclaim == 0 && Total(t.log) == IndexedBytes(t.index)
  {
    InvParts(o, s);
    MergeParts(o, s);
    hide Inv, Open, ScanComplete, LogOk, MergeOk, BaseOk, SplitAt, MergedPart, Compact, IndexedBytes, Run, Copied,
      Covered, NoCarry, MergeBounds;
    KillInstalled(o, s);
    KillRemains(o, s);
    OpenInstalled(o, s, s);
    var t := Open(o, s).value;
    assert t.log == s.merge.out;
    MergedCompact(s.merge.out, s.merge.hints);
    NoGarbage(s.merge.out, s.merge.hints);
    MergedImage(s.merge.out, s.merge.hints);
  }

  /** One step of the merge: one source record further, until they have all been looked at. */
  lemma {:induction false} StepAdvances(o: Options, s: Store)
    requires Inv(o, s) && ReadsAll(s) && !s.merge.finished
    ensures var t := MergeStep(o, s);
            && t == s.(merge := t.merge) && ReadsAll(t) && !t.merge.finished
            && t.merge.next == if s.merge.next < |s.log| then s.merge.next + 1 else s.merge.next
  {
    InvParts(o, s);
    LogParts(o, s);
    MergeParts(o, s);
    hide Inv, LogOk, MergeOk, BaseOk, IndexOk, ViewOf, Laid, Packed, SplitAt, IsLive, MergeBounds, MergedPart, Copied,
      Covered, NoCarry, ParseKey, CopyRecord;
    if s.merge.next < |s.log| {
      AllParse(s.log, s.merge.next);
      CopyAdvances(o, s.merge, s.log[s.merge.next]);
    }
  }

  lemma {:induction false} AllParse(log: seq<Logged>, i: nat)
    requires Parses(log) && i < |log|
    ensures ParseKey(log[i].rec.key).ParsedKey?
  {
    assert log[i] in log;
  }

  lemma {:induction false} CopyAdvances(o: Options, m: MergeDir, l: Logged)
    requires m.Merge?
    ensures var t := CopyRecord(o, m, l);
            t.Merge? && t.next == m.next + 1 && t.nonMerge == m.nonMerge && t.finished == m.finished
  {
    hide Size, Place;
  }

  function Steps(n: nat): (es: seq<Event>)
    ensures |es| == n
  {
    if n == 0 then [] else Steps(n - 1) + [MergeStepEvent]
  }

  /** A whole merge, then what restarts the engine. */
  function FullMerge(n: nat, restart: Event): seq<Event>
  {
    [MergeBeginEvent] + Steps(n) + [MergeFinishEvent] + [restart]
  }

  lemma {:induction false} StepsAdvance(o: Options, m: Model, n: nat)
    requires ModelOk(o, m) && ReadsAll(m.store) && !m.store.merge.finished && m.store.merge.next == 0
    ensures RunEvents(o, m, Steps(n)).Some?
    ensures var t := RunEvents(o, m, Steps(n)).value;
            && ModelOk(o, t) && ReadsAll(t.store) && !t.store.merge.finished
            && t.store.merge.next == (if n <= |t.store.log| then n else |t.store.log|)
            && t.store == m.store.(merge := t.store.merge)
  {
    hide ModelOk, Next, ReadsAll, RunEvents;
    if n == 0 {
      NoEvents(o, m);
    } else {
      StepsAdvance(o, m, n - 1);
      var t := RunEvents(o, m, Steps(n - 1)).value;
      OneMore(o, m, Steps(n - 1), MergeStepEvent);
      OneStep(o, t);
    }
  }

  lemma {:induction false} NoEvents(o: Options, m: Model)
    ensures RunEvents(o, m, []) == Some(m)
  {
  }

  lemma {:induction false} OneMore(o: Options, m: Model, es: seq<Event>, e: Event)
    requires RunEvents(o, m, es).Some?
    ensures RunEvents(o, m, es + [e]) == Next(o, RunEvents(o, m, es).value, e)
  {
    hide Next;
    assert (es + [e])[..|es|] == es;
  }

  lemma {:induction false} OneStep(o: Options, m: Model)
    requires ModelOk(o, m) && ReadsAll(m.store) && !m.store.merge.finished
    ensures Next(o, m, MergeStepEvent).Some?
    ensures var t := Next(o, m, MergeStepEvent).value;
            && ModelOk(o, t) && ReadsAll(t.store) && !t.store.merge.finished
            && t.store == m.store.(merge := t.store.merge)
            && t.store.merge.next ==
                 if m.store.merge.next < |m.store.log| then m.store.merge.next + 1 else m.store.merge.next
  {
    ModelInv(o, m);
    NextStore(o, m, MergeStepEvent);
    StepAdvances(o, m.store);
    StepAllowed(o, m);
    hide ModelOk, Inv, MergeStep, ReadsAll, Next, Allowed, Operate;
    StepOk(o, m, MergeStepEvent);
  }

  lemma {:induction false} StepAllowed(o: Options, m: Model)
    ensures Allowed(o, m, MergeStepEvent) && Allowed(o, m, MergeFinishEvent)
    ensures Operate(o, m.store, MergeStepEvent) == MergeStep(o, m.store)
    ensures Operate(o, m.store, MergeFinishEvent) == MergeFinish(m.store)
  {
    hide MergeStep, MergeFinish;
  }

  /** All source records have been looked at, and everything is on disk. */
  ghost predicate Merged(o: Options, before: Store, m: Model)
  {
    && ModelOk(o, m) && ReadsAll(m.store) && m.store.merge.finished && m.store.synced == |m.store.log|
    && m.store.index == before.index
  }

  lemma {:induction false} MergeBegins(o: Options, m: Model)
    requires ModelOk(o, m) && OnNewest(m.store) && !EmptyEngine(m.store)
    ensures RunEvents(o, m, [MergeBeginEvent]).Some?
    ensures var t := RunEvents(o, m, [MergeBeginEvent]).value;
            && ModelOk(o, t) && ReadsAll(t.store) && !t.store.merge.finished && t.store.merge.next == 0
            && t.store.index == m.store.index && t.store.synced == |t.store.log|
  {
    assert [MergeBeginEvent][..0] == [];
    StepOk(o, m, MergeBeginEvent);
    NextStore(o, m, MergeBeginEvent);
    InvParts(o, m.store);
    hide Inv, HistoryOk, EmptyEngine, SplitAt;
    BeginReadsAll(o, m.store);
  }

  lemma {:induction false} RunAppend(o: Options, m: Model, a: seq<Event>, b: seq<Event>)
    requires RunEvents(o, m, a).Some?
    ensures RunEvents(o, m, a + b) == RunEvents(o, RunEvents(o, m, a).value, b)
    decreases |b|
  {
    hide Next;
    if b == [] {
      assert a + b == a;
    } else {
      assert (a + b)[..|a + b| - 1] == a + b[..|b| - 1];
      RunAppend(o, m, a, b[..|b| - 1]);
    }
  }

  lemma {:induction false} MergeEnds(o: Options, m: Model)
    requires ModelOk(o, m) && ReadsAll(m.store) && m.store.merge.next == |m.store.log|
    requires m.store.synced == |m.store.log|
    ensures Next(o, m, MergeFinishEvent).Some? && Merged(o, m.store, Next(o, m, MergeFinishEvent).value)
  {
    NextStore(o, m, MergeFinishEvent);
    StepAllowed(o, m);
    hide ModelOk, Next, Allowed, Operate, SplitAt;
    StepOk(o, m, MergeFinishEvent);
  }

  lemma {:induction false} MergeRuns(o: Options, m: Model, n: nat)
    requires ModelOk(o, m) && OnNewest(m.store) && !EmptyEngine(m.store) && n >= |m.store.log|
    ensures var es := [MergeBeginEvent] + Steps(n) + [MergeFinishEvent];
            RunEvents(o, m, es).Some? && Merged(o, m.store, RunEvents(o, m, es).value)
  {
    hide ModelOk, Next, ReadsAll, OnNewest, EmptyEngine, Merged;
    var a, b := [MergeBeginEvent], [MergeBeginEvent] + Steps(n);
    MergeBegins(o, m);
    SameLog(o, m);
    var m1 := RunEvents(o, m, a).value;
    StepsAdvance(o, m1, n);
    RunAppend(o, m, a, Steps(n));
    var m2 := RunEvents(o, m, b).value;
    MergeEnds(o, m2);
    assert (b + [MergeFinishEvent])[..|b|] == b;
    MergedSame(o, m2.store, m.store, Next(o, m2, MergeFinishEvent).value);
  }

  lemma {:induction false} MergedSame(o: Options, a: Store, b: Store, m: Model)
    requires Merged(o, a, m) && a.index == b.index
    ensures Merged(o, b, m)
  {
  }

  lemma {:induction false} SameLog(o: Options, m: Model)
    requires RunEvents(o, m, [MergeBeginEvent]).Some?
    ensures RunEvents(o, m, [MergeBeginEvent]).value.store.log == m.store.log
  {
    assert [MergeBeginEvent][..0] == [];
    NextStore(o, m, MergeBeginEvent);
    hide EmptyEngine;
  }

  /** With everything on disk a restart of any kind finds the same. */
  lemma {:induction false} NothingToLose(s: Store, e: Event)
    requires s.synced == |s.log| && Restarts(e) && (e.PowerEvent? ==> CanCut(s, e.keep))
    ensures Left(s, e) == s
  {
    assert s.log[..|s.log|] == s.log;
  }

  lemma {:induction false} RestartCompacts(o: Options, before: Store, m: Model, e: Event)
    requires Merged(o, before, m) && Restarts(e) && Allowed(o, m, e)
    ensures Next(o, m, e).Some?
    ensures var t := Next(o, m, e).value.store;
            && ModelOk(o, Next(o, m, e).value) && ValuesOf(t.index) == ValuesOf(before.index)
            && Compact(t.log, t.index) && t.reclaim == 0 && Total(t.log) == IndexedBytes(t.index)
  {
    RestartOk(o, m, e);
    NothingToLose(m.store, e);
    hide Inv, HistoryOk, ReadsAll, Open, ScanComplete, Compact, SkippedCovered, FloorAfter, SurvivingCut, Left;
    CompactWhenInstalled(o, m.store);
  }

  /**
   * From any state the theorem of `Recovery` reaches: a whole merge with nothing written meanwhile and a restart of any
   * kind leave the same map, one record for each of its keys, no reclaimable byte, and no other byte in the files.
   */
  lemma {:induction false} MergeCompacts(o: Options, m: Model, n: nat, restart: Event)
    requires ModelOk(o, m) && OnNewest(m.store) && !EmptyEngine(m.store) && n >= |m.store.log|
    requires Restarts(restart) && AllAllowed(o, m, FullMerge(n, restart))
    ensures RunEvents(o, m, FullMerge(n, restart)).Some?
    ensures var t := RunEvents(o, m, FullMerge(n, restart)).value.store;
            && ValuesOf(t.index) == ValuesOf(m.store.index)
            && Compact(t.log, t.index) && t.reclaim == 0 && Total(t.log) == IndexedBytes(t.index)
  {
    hide ModelOk, Next, OnNewest, EmptyEngine, Merged, Allowed, Compact, Inv;
    MergeRuns(o, m, n);
    var es := [MergeBeginEvent] + Steps(n) + [MergeFinishEvent];
    assert FullMerge(n, restart)[..|es|] == es && FullMerge(n, restart)[|es|] == restart;
    RestartCompacts(o, m.store, RunEvents(o, m, es).value, restart);
  }

  /** What the guard of `merge` tests: nothing has ever been written, or everything in it was merged away. */
  lemma {:induction false} EmptyExact(o: Options, s: Store)
    requires Inv(o, s)
    ensures EmptyEngine(s) <==> s.log == [] && s.active == s.base
  {
    InvParts(o, s);
    LogParts(o, s);
    hide Inv, LogOk, IndexOk, MergeOk, MergedPart;
    if s.log != [] {
      LaidPrefix(s.log, s.active, s.writeOff, 0);
      LaidPrefix(s.log, s.active, s.writeOff, |s.log| - 1);
    }
  }
}
