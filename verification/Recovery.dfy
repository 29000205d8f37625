/**
 * Whole runs: any sequence of puts, deletes, commits, torn commits, syncs, merge steps, kills, power failures and
 * reopens. The abstract side is the history of operations whose last record survived; the live index always holds
 * exactly their map.
 */
module Recovery {
  import opened Wire
  import opened LogRecord
  import opened Replay
  import opened Layout
  import opened Store
  import opened Invariant
  import opened Merging
  import opened Reopening

  /** What an operation means to the map: a new value, or None for a deletion. */
  type Effect = map<Bytes, Option<Bytes>>

  /** An operation that took effect, and the place of the last record it wrote. */
  datatype Done = Done(effect: Effect, last: Pos)

  /**
   * `floor` is where installed merges leave off being safe: after a power failure that keeps fewer records, a key
   * some merge passed over may be gone although the operation that put it is not.
   */
  datatype Model = Model(store: Store, history: seq<Done>, floor: nat)

  datatype Event =
    | PutEvent(key: Bytes, value: Bytes)
    | DeleteEvent(key: Bytes)
    | CommitEvent(items: seq<Item>, sync: bool, maxNum: nat)
    | TornEvent(items: seq<Item>)
    | SyncEvent
    | MergeBeginEvent
    | MergeStepEvent
    | MergeFinishEvent
    | KillEvent
    | PowerEvent(keep: nat)
    | ReopenEvent

  function Meaning(h: seq<Done>): Effect
  {
    if h == [] then map[] else Meaning(h[..|h| - 1]) + h[|h| - 1].effect
  }

  /** The key/value map an effect leaves. */
  function Shown(e: Effect): Values
  {
    map k | k in e && e[k].Some? :: e[k].value
  }

  function ItemsEffect(items: seq<Item>): Effect
  {
    if items == [] then map[] else
      var item := items[|items| - 1];
      ItemsEffect(items[..|items| - 1])[item.key := if item.rtype.Delete? then None else Some(item.value)]
  }

  function EffectOf(s: Store, e: Event): Effect
  {
    match e
    case PutEvent(key, value) => if key == [] then map[] else map[key := Some(value)]
    case DeleteEvent(key) => if key == [] || key !in s.index then map[] else map[key := None]
    case CommitEvent(items, _, maxNum) => if |items| > maxNum then map[] else ItemsEffect(items)
    case _ => map[]
  }

  /** The record at `p` is among those left when the active file ends at `off`. */
  predicate Kept(p: Pos, active: nat, off: nat)
  {
    p.fid < active || (p.fid == active && p.offset < off)
  }

  /** The operations whose last record survived. */
  function Surviving(h: seq<Done>, active: nat, off: nat): seq<Done>
  {
    if h == [] then []
    else if Kept(h[|h| - 1].last, active, off) then Surviving(h[..|h| - 1], active, off) + [h[|h| - 1]]
    else Surviving(h[..|h| - 1], active, off)
  }

  function SurvivingCut(m: Model, keep: nat): seq<Done>
    requires keep <= |m.store.log|
  {
    Surviving(m.history, m.store.active, EndOffset(m.store.log[..keep], m.store.active))
  }

  /** The engine between restarts. */
  function Operate(o: Options, s: Store, e: Event): Store
  {
    match e
    case PutEvent(key, value) => Put(o, s, key, value)
    case DeleteEvent(key) => DeleteKey(o, s, key)
    case CommitEvent(items, sync, maxNum) => Commit(o, s, items, sync, maxNum)
    case TornEvent(items) => TornCommit(o, s, items)
    case SyncEvent => Sync(s)
    case MergeBeginEvent => MergeBegin(s)
    case MergeStepEvent => MergeStep(o, s)
    case MergeFinishEvent => MergeFinish(s)
    case _ => s
  }

  predicate Restarts(e: Event)
  {
    e.KillEvent? || e.PowerEvent? || e.ReopenEvent?
  }

  /**
   * What the next engine finds: all that was written, what a power failure left of it, or all of it synced by
   * `close`.
   */
  function Left(s: Store, e: Event): (d: Store)
    requires Restarts(e)
    ensures |d.log| <= |s.log|
  {
    match e
    case PowerEvent(keep) => Cut(s, if keep <= |s.log| then keep else |s.log|)
    case ReopenEvent => Sync(s)
    case _ => s
  }

  /** The least cut from which on the records kept cover what the merge skipped. */
  ghost function CoverFrom(s: Store, from: nat, end: nat): (n: nat)
    requires s.merge.Merge? && SplitAt(s.log, s.merge.nonMerge) <= from <= end <= |s.log|
    ensures from <= n <= end
    decreases end
  {
    if end > from && SkippedCovered(s, end - 1) then CoverFrom(s, from, end - 1) else end
  }

  /** An installed merge moves the floor up to the first cut that covers what it skipped. */
  ghost function FloorAfter(m: Model, d: Store): nat
  {
    var s := m.store;
    if s.merge.Merge? && s.merge.finished && SplitAt(s.log, s.merge.nonMerge) <= d.synced <= |d.log| <= |s.log|
      then InstalledAt(s, CoverFrom(s, d.synced, |d.log|))
    else Max(m.floor, d.synced)
  }

  ghost function Next(o: Options, m: Model, e: Event): Option<Model>
  {
    if Restarts(e) then
      var d := Left(m.store, e);
      match Open(o, d)
      case None => None
      case Some(t) => Some(Model(t, SurvivingCut(m, |d.log|), FloorAfter(m, d)))
    else
      var t, effect := Operate(o, m.store, e), EffectOf(m.store, e);
      Some(Extended(m, t, effect))
  }

  /** The history grows by what the operation did, if anything. */
  function Extended(m: Model, t: Store, e: Effect): (m': Model)
    ensures m'.store == t
  {
    var floor := Max(m.floor, t.synced);
    if e == map[] || t.log == [] then Model(t, m.history, floor) else Model(t, m.history + [Done(e, LastPos(t))], floor)
  }

  /**
   * What the theorem asks of an event. Batches come from a hash map of non-empty keys; sequence numbers fit in 64
   * bits; a power failure loses only what was never synced. The other conditions are where the code as written goes
   * wrong: a raw tombstone is never written for a live key (`RawDeleteExact`), nothing is written through a handle
   * that is not on the newest file (`MisplacedExact`), an opening scan sees every record (`SeenAll`), and a power
   * failure under a finished merge keeps the skipped keys covered (`InstallExact`).
   */
  ghost predicate Guarded(o: Options, s: Store, e: Event)
  {
    match e
    case PutEvent(key, _) => key != [] ==> OnNewest(s)
    case DeleteEvent(key) => key != [] && key in s.index ==> OnNewest(s) && o.tombstone.SeqKey?
    case CommitEvent(items, _, maxNum) =>
      ItemsOk(items) && s.seqNo < U64_LIMIT && (items != [] && |items| <= maxNum ==> OnNewest(s))
    case TornEvent(items) => ItemsOk(items) && s.seqNo < U64_LIMIT && (items != [] ==> OnNewest(s))
    case MergeBeginEvent => OnNewest(s)
    case KillEvent => ScanComplete(o, s)
    case ReopenEvent => ScanComplete(o, Sync(s))
    case PowerEvent(keep) =>
      && CanCut(s, keep)
      && ScanComplete(o, Cut(s, keep))
      && (s.merge.Merge? && s.merge.finished && SplitAt(s.log, s.merge.nonMerge) <= keep ==> SkippedCovered(s, keep))
    case _ => true
  }

  /** And a power failure keeps what the merges installed earlier rely on (`FailureAllowed`). */
  ghost predicate Allowed(o: Options, m: Model, e: Event)
  {
    Guarded(o, m.store, e) && (e.PowerEvent? ==> m.floor <= e.keep)
  }

  // ---- The invariant ----

  /**
   * Of all a power failure may leave, replaying it gives the map of the operations whose last record is left exactly
   * when it reaches the floor.
   */
  ghost predicate HistoryOk(m: Model)
  {
    && (forall i :: 0 <= i < |m.history| ==> Kept(m.history[i].last, m.store.active, m.store.writeOff))
    && m.store.synced <= m.floor <= |m.store.log|
    && (m.store.merge.Merge? ==> m.floor == m.store.synced)
    && (forall n :: m.store.synced <= n <= |m.store.log| ==> (CutOk(m, n) <==> m.floor <= n))
  }

  /** A log cut there has the values of the operations that survive there. */
  ghost predicate CutOk(m: Model, n: nat)
    requires n <= |m.store.log|
  {
    ValuesOf(Live(ImageOf(m.store.log[..n]))) == Shown(Meaning(SurvivingCut(m, n)))
  }

  ghost predicate ModelOk(o: Options, m: Model)
  {
    Inv(o, m.store) && HistoryOk(m)
  }

  // ---- Surviving operations ----

  lemma {:induction false} AllSurvive(h: seq<Done>, active: nat, off: nat)
    requires forall i :: 0 <= i < |h| ==> Kept(h[i].last, active, off)
    ensures Surviving(h, active, off) == h
  {
    if h != [] {
      AllSurvive(h[..|h| - 1], active, off);
    }
  }

  /** Cutting twice is cutting at the earlier place. */
  lemma {:induction false} SurvivingTwice(h: seq<Done>, active: nat, off: nat, off': nat)
    requires off' <= off
    ensures Surviving(Surviving(h, active, off), active, off') == Surviving(h, active, off')
  {
    hide Kept;
    if h != [] {
      var pre, d := h[..|h| - 1], h[|h| - 1];
      SurvivingTwice(pre, active, off, off');
      assert Kept(d.last, active, off') ==> Kept(d.last, active, off) by { KeptEarlier(d.last, active, off, off'); }
      if Kept(d.last, active, off) {
        SurvivingSnoc(Surviving(pre, active, off), d, active, off');
      }
    }
  }

  lemma {:induction false} KeptEarlier(p: Pos, active: nat, off: nat, off': nat)
    requires off' <= off
    ensures Kept(p, active, off') ==> Kept(p, active, off)
  {
  }

  lemma {:induction false} SurvivingKept(h: seq<Done>, active: nat, off: nat)
    ensures forall i :: 0 <= i < |Surviving(h, active, off)| ==> Kept(Surviving(h, active, off)[i].last, active, off)
  {
    if h != [] {
      SurvivingKept(h[..|h| - 1], active, off);
    }
  }

  lemma {:induction false} SurvivingSnoc(h: seq<Done>, d: Done, active: nat, off: nat)
    ensures Surviving(h + [d], active, off) == Surviving(h, active, off) + if Kept(d.last, active, off) then [d] else []
  {
    assert (h + [d])[..|h|] == h;
  }

  // ---- Values and effects ----

  lemma {:induction false} ShownOverride(a: Effect, b: Effect, e: Effect)
    requires Shown(a) == Shown(b)
    ensures Shown(a + e) == Shown(b + e)
  {
    var x, y := Shown(a + e), Shown(b + e);
    forall k ensures (k in x <==> k in y) && (k in x ==> x[k] == y[k]) {
      if k !in e {
        assert k in a + e <==> k in a;
        assert k in b + e <==> k in b;
        assert k in Shown(a) <==> k in Shown(b);
        if k in x { assert Shown(a)[k] == x[k]; }
        if k in y { assert Shown(b)[k] == y[k]; }
      }
    }
    assert x == y;
  }

  lemma {:induction false} MeaningSnoc(h: seq<Done>, d: Done)
    ensures Meaning(h + [d]) == Meaning(h) + d.effect
  {
    assert (h + [d])[..|h|] == h;
  }

  /** The image seen as an effect: positions forgotten. */
  function ContentsOf(image: Image): Effect
  {
    map k | k in image :: if image[k].Some? then Some(image[k].value.value) else None
  }

  lemma {:induction false} ContentsShown(image: Image)
    ensures Shown(ContentsOf(image)) == ValuesOf(Live(image))
  {
  }

  /** The operation's records, replayed whole, have the operation's effect. */
  ghost predicate Takes(before: Image, after: Image, e: Effect)
  {
    ContentsOf(after) == ContentsOf(before) + e
  }

  lemma {:induction false} ApplyTakes(image: Image, u: Update)
    requires !u.rtype.TxnFinished?
    ensures ContentsOf(Apply(image, u)) ==
        ContentsOf(image)[u.key := if u.rtype.Delete? then None else Some(u.slot.value)]
  {
  }

  ghost predicate Matches(us: seq<Update>, items: seq<Item>)
  {
    && |us| == |items|
    && forall i :: 0 <= i < |items| ==>
         us[i].key == items[i].key && us[i].rtype == items[i].rtype && us[i].slot.value == items[i].value
           && !us[i].rtype.TxnFinished?
  }

  lemma {:induction false} ItemsTake(image: Image, us: seq<Update>, items: seq<Item>)
    requires Matches(us, items)
    ensures Takes(image, ApplyAll(image, us), ItemsEffect(items))
  {
    hide Apply, ContentsOf, ApplyAll, FreedAll, Matches;
    if items == [] {
      NoItems(image, us, items);
    } else {
      var n := |items| - 1;
      MatchesSnoc(us, items);
      ItemsTake(image, us[..n], items[..n]);
      assert us == us[..n] + [us[n]];
      ApplySnoc(image, us[..n], us[n]);
      var x := ApplyAll(image, us[..n]);
      ApplyTakes(x, us[n]);
      OverrideOne(ContentsOf(image), ItemsEffect(items[..n]), items[n].key,
                  if items[n].rtype.Delete? then None else Some(items[n].value));
    }
  }

  lemma {:induction false} OverrideOne(a: Effect, b: Effect, key: Bytes, v: Option<Bytes>)
    ensures (a + b)[key := v] == a + b[key := v]
  {
  }

  lemma {:induction false} NoItems(image: Image, us: seq<Update>, items: seq<Item>)
    requires Matches(us, items) && items == []
    ensures Takes(image, ApplyAll(image, us), ItemsEffect(items))
  {
    assert ContentsOf(image) + map[] == ContentsOf(image);
  }

  lemma {:induction false} MatchesSnoc(us: seq<Update>, items: seq<Item>)
    requires Matches(us, items) && items != []
    ensures |us| == |items|
    ensures var n := |items| - 1;
            && Matches(us[..n], items[..n])
            && us[n].key == items[n].key && us[n].rtype == items[n].rtype && us[n].slot.value == items[n].value
            && !us[n].rtype.TxnFinished?
  {
  }

  lemma {:induction false} WroteTakes(log: seq<Logged>, at: nat, seqNo: nat, items: seq<Item>, image: Image)
    requires Wrote(log, at, seqNo, items) && ItemsOk(items)
    ensures Takes(image, ApplyAll(image, UpdatesOf(log[at..at + |items|])), ItemsEffect(items))
  {
    hide ViewOf, Takes;
    var ls := log[at..at + |items|];
    forall i | 0 <= i < |items|
      ensures var u := UpdatesOf(ls)[i];
              u.key == items[i].key && u.rtype == items[i].rtype && u.slot.value == items[i].value
                && !u.rtype.TxnFinished?
    {
      UpdatesOfAt(ls, i);
      assert ls[i] == log[at + i];
    }
    assert Matches(UpdatesOf(ls), items);
    ItemsTake(image, UpdatesOf(ls), items);
  }

  // ---- One operation ----

  /** Every strict part of what an operation wrote is invisible; all of it has the operation's effect. */
  ghost predicate Atomic(s: Store, t: Store, e: Effect)
  {
    && s.log <= t.log
    && (forall n :: |s.log| <= n < |t.log| ==> ImageOf(t.log[..n]) == ImageOf(s.log))
    && Takes(ImageOf(s.log), ImageOf(t.log), e)
  }

  lemma {:induction false} PutAtomic(o: Options, s: Store, key: Bytes, value: Bytes)
    requires Inv(o, s)
    ensures var t := Put(o, s, key, value);
            Inv(o, t) && Grows(s, t) && FreshFinishes(s, t) && Atomic(s, t, EffectOf(s, PutEvent(key, value)))
  {
    hide ViewOf, LogOk, IndexOk, BaseOk, MergeOk, Put, ImageOf;
    var t := Put(o, s, key, value);
    PutOk(o, s, key, value);
    if key == [] {
      NothingDone(o, s);
      assert t == s by { PutNothing(o, s, value); }
    } else {
      assert t.log[..|s.log|] == s.log;
      PlainFresh(s, t);
      GrowsInv(o, s, t);
      assert ContentsOf(ImageOf(t.log)) == ContentsOf(ImageOf(s.log)) + map[key := Some(value)];
    }
  }

  lemma {:induction false} PutNothing(o: Options, s: Store, value: Bytes)
    ensures Put(o, s, [], value) == s
  {
  }

  lemma {:induction false} NothingDone(o: Options, s: Store)
    ensures Atomic(s, s, map[]) && Grows(s, s) && FreshFinishes(s, s)
  {
    hide ImageOf;
    assert ContentsOf(ImageOf(s.log)) + map[] == ContentsOf(ImageOf(s.log));
  }

  /** A single record outside any batch finishes none. */
  lemma {:induction false} PlainFresh(s: Store, t: Store)
    requires |t.log| == |s.log| + 1 && !ViewOf(t.log[|s.log|]).update.rtype.TxnFinished?
    ensures FreshFinishes(s, t)
  {
    hide ViewOf;
  }

  lemma {:induction false} DeleteAtomic(o: Options, s: Store, key: Bytes)
    requires Inv(o, s) && Guarded(o, s, DeleteEvent(key))
    ensures var t := DeleteKey(o, s, key);
            Inv(o, t) && Grows(s, t) && FreshFinishes(s, t) && Atomic(s, t, EffectOf(s, DeleteEvent(key)))
  {
    hide ViewOf, LogOk, IndexOk, BaseOk, MergeOk, ImageOf, DeleteKey, ContentsOf, FreshFinishes;
    var t := DeleteKey(o, s, key);
    DeleteOk(o, s, key);
    if key == [] || key !in s.index {
      NothingDone(o, s);
      DeleteNothing(o, s, key);
    } else {
      assert t.log[..|s.log|] == s.log;
      PlainFresh(s, t);
      GrowsInv(o, s, t);
      DroppedContents(ImageOf(s.log), key);
    }
  }

  lemma {:induction false} DroppedContents(image: Image, key: Bytes)
    ensures ContentsOf(image[key := None]) == ContentsOf(image) + map[key := None]
  {
  }

  lemma {:induction false} DeleteNothing(o: Options, s: Store, key: Bytes)
    requires key == [] || key !in s.index
    ensures DeleteKey(o, s, key) == s
  {
  }

  /** A strict prefix of a batch changes nothing in the image. */
  lemma {:induction false} PartInvisible(log: seq<Logged>, base: nat, n: nat, end: nat, seqNo: nat)
    requires base <= n <= end <= |log| && OfBatch(log[base..end], seqNo)
    ensures ImageOf(log[..n]) == ImageOf(log[..base])
  {
    hide ViewOf;
    var part := log[base..n];
    assert log[..n] == log[..base] + part;
    forall l | l in part ensures ViewOf(l).seqNo == seqNo && !ViewOf(l).update.rtype.TxnFinished? {
      var i :| 0 <= i < |part| && part[i] == l;
      assert log[base..end][i] == l;
    }
    BatchBuffered(log[..base], part, seqNo);
  }

  lemma {:induction false} CommitAtomic(o: Options, s: Store, items: seq<Item>, sync: bool, maxNum: nat)
    requires Inv(o, s) && Guarded(o, s, CommitEvent(items, sync, maxNum))
    ensures var t := Commit(o, s, items, sync, maxNum);
            Inv(o, t) && Grows(s, t) && FreshFinishes(s, t)
              && Atomic(s, t, EffectOf(s, CommitEvent(items, sync, maxNum)))
  {
    hide ViewOf, LogOk, IndexOk, BaseOk, MergeOk, ImageOf, Append, WriteBatch, Commit, ItemsOk, ItemsEffect, Takes,
      OfBatch;
    var t := Commit(o, s, items, sync, maxNum);
    CommitOk(o, s, items, sync, maxNum);
    if items == [] || |items| > maxNum {
      NothingDone(o, s);
      CommitNothing(o, s, items, sync, maxNum);
      NoCommitEffect(s, items, sync, maxNum);
    } else {
      var n := |s.log|;
      WriteBatchOk(o, s, items);
      assert |t.log| == n + |items| + 1;
      forall k | n <= k < |t.log| ensures ImageOf(t.log[..k]) == ImageOf(s.log) {
        PartInvisible(t.log, n, k, n + |items|, s.seqNo);
      }
      WroteTakes(t.log, n, s.seqNo, items, ImageOf(s.log));
      CommitFresh(s, t, items);
      GrowsInv(o, s, t);
    }
  }

  lemma {:induction false} NoCommitEffect(s: Store, items: seq<Item>, sync: bool, maxNum: nat)
    requires items == [] || |items| > maxNum
    ensures EffectOf(s, CommitEvent(items, sync, maxNum)) == map[]
  {
  }

  lemma {:induction false} CommitFresh(s: Store, t: Store, items: seq<Item>)
    requires |t.log| == |s.log| + |items| + 1
    requires OfBatch(t.log[|s.log|..|s.log| + |items|], s.seqNo)
    requires Finishes(t.log[|s.log| + |items|], s.seqNo)
    ensures FreshFinishes(s, t)
  {
    hide ViewOf;
    forall i, q: nat | |s.log| <= i < |t.log| && Finishes(t.log[i], q) ensures q >= s.seqNo {
      var ls := t.log[|s.log|..|s.log| + |items|];
      assert forall k :: 0 <= k < |ls| ==> ls[k] in ls && ls[k] == t.log[|s.log| + k];
    }
  }

  lemma {:induction false} TornAtomic(o: Options, s: Store, items: seq<Item>)
    requires Inv(o, s) && Guarded(o, s, TornEvent(items))
    ensures var t := TornCommit(o, s, items);
            Inv(o, t) && Grows(s, t) && FreshFinishes(s, t) && Atomic(s, t, map[])
  {
    hide ViewOf, LogOk, IndexOk, BaseOk, MergeOk, ImageOf, Append, ItemsOk, TornCommit, OfBatch;
    var t, n := TornCommit(o, s, items), |s.log|;
    TornOk(o, s, items);
    assert t.log[n..] == t.log[n..|t.log|];
    forall k | n <= k <= |t.log| ensures ImageOf(t.log[..k]) == ImageOf(s.log) {
      PartInvisible(t.log, n, k, |t.log|, s.seqNo);
    }
    assert ContentsOf(ImageOf(s.log)) + map[] == ContentsOf(ImageOf(s.log));
    TornFresh(s, t);
    GrowsInv(o, s, t);
  }

  lemma {:induction false} TornFresh(s: Store, t: Store)
    requires s.log <= t.log && OfBatch(t.log[|s.log|..], s.seqNo)
    ensures FreshFinishes(s, t)
  {
    hide ViewOf;
    var ls := t.log[|s.log|..];
    assert forall k :: 0 <= k < |ls| ==> ls[k] in ls && ls[k] == t.log[|s.log| + k];
    assert forall i :: |s.log| <= i < |t.log| ==> t.log[i] == ls[i - |s.log|];
  }

  // ---- Histories ----

  /** The end of a cut that keeps all of an older log is not before that log's end. */
  lemma {:induction false} CutPastEnd(o: Options, s: Store, t: Store, n: nat)
    requires LogOk(o, s) && LogOk(o, t) && Grows(s, t) && |s.log| <= n <= |t.log|
    requires SplitAt(t.log, t.active) <= n
    ensures forall p :: Kept(p, s.active, s.writeOff) ==> Kept(p, t.active, EndOffset(t.log[..n], t.active))
  {
    hide ViewOf, Parses, SeqsBelow, Packed;
    LaidCut(t.log, t.active, t.writeOff, n);
    if s.active == t.active && n > |s.log| {
      SplitExact(t.log, t.active, t.writeOff, t.active);
      LaidPrefix(t.log, t.active, t.writeOff, n - 1);
      assert t.log[..n][n - 1] == t.log[n - 1] && t.log[n - 1].pos.fid >= s.active;
      CutPastEndSame(s, t, n);
    } else if s.active == t.active {
      assert t.log[..n] == s.log;
      EndOffsetIsWriteOff(s.log, s.active, s.writeOff);
    }
  }

  lemma {:induction false} CutPastEndSame(s: Store, t: Store, n: nat)
    requires Laid(s.log, s.active, s.writeOff) && Laid(t.log, t.active, t.writeOff)
    requires s.log <= t.log && s.active == t.active && |s.log| < n <= |t.log| && t.log[n - 1].pos.fid == s.active
    ensures EndOffset(t.log[..n], t.active) >= s.writeOff
  {
    EndOffsetIsWriteOff(s.log, s.active, s.writeOff);
    if s.log != [] {
      assert s.log[|s.log| - 1] == t.log[|s.log| - 1];
      LaidOrder(t.log, t.active, t.writeOff, |s.log| - 1, n - 1);
    }
  }

  /** The last record of the log is lost by every cut that loses a record. */
  lemma {:induction false} LastLost(o: Options, t: Store, n: nat)
    requires LogOk(o, t) && t.log != [] && SplitAt(t.log, t.active) <= n <= |t.log|
    ensures Kept(LastPos(t), t.active, EndOffset(t.log[..n], t.active)) <==>
              n == |t.log| || LastPos(t).fid < t.active
  {
    hide ViewOf, Parses, SeqsBelow, Packed;
    EndOffsetIsWriteOff(t.log, t.active, t.writeOff);
    LaidPrefix(t.log, t.active, t.writeOff, |t.log| - 1);
    if n == |t.log| {
      assert t.log[..n] == t.log;
    } else if LastPos(t).fid == t.active && n > 0 {
      LaidOrder(t.log, t.active, t.writeOff, n - 1, |t.log| - 1);
    }
  }

  /** An operation extends the history by what it did. */
  lemma {:induction false} OperateHistory(o: Options, m: Model, t: Store, e: Effect)
    requires ModelOk(o, m) && Inv(o, t) && Grows(m.store, t) && Atomic(m.store, t, e)
    requires e != map[] ==> |t.log| > |m.store.log| && LastPos(t).fid == t.active
    ensures HistoryOk(Extended(m, t, e))
  {
    hide ViewOf, BaseOk, MergeOk, IndexOk, Takes, ImageOf, Parses, SeqsBelow, Packed, Laid, Kept, CutOk;
    var s := m.store;
    var m' := Extended(m, t, e);
    forall n | t.synced <= n <= |t.log| ensures CutOk(m', n) <==> m'.floor <= n {
      if n < |s.log| {
        HistoryBefore(o, m, t, e, n);
      } else {
        HistoryAfter(o, m, t, e, n);
      }
    }
    FullEnd(o, t);
    CutPastEnd(o, s, t, |t.log|);
    if e != map[] {
      LastLost(o, t, |t.log|);
    }
  }

  lemma {:induction false} FullEnd(o: Options, t: Store)
    requires LogOk(o, t)
    ensures t.log[..|t.log|] == t.log && EndOffset(t.log, t.active) == t.writeOff && SplitAt(t.log, t.active) <= |t.log|
  {
    hide ViewOf;
    EndOffsetIsWriteOff(t.log, t.active, t.writeOff);
  }

  /** A cut inside what was there before the operation. */
  lemma {:induction false} HistoryBefore(o: Options, m: Model, t: Store, e: Effect, n: nat)
    requires ModelOk(o, m) && Inv(o, t) && Grows(m.store, t) && t.log != []
    requires e != map[] ==> LastPos(t).fid == t.active
    requires t.synced <= n < |m.store.log|
    ensures CutOk(Extended(m, t, e), n) <==> m.floor <= n
  {
    hide ViewOf, BaseOk, MergeOk, IndexOk, ImageOf, Parses, SeqsBelow, Packed, Laid, Kept;
    var s := m.store;
    assert t.log[..n] == s.log[..n];
    SameActive(o, s, t, n);
    if e != map[] {
      LastLost(o, t, n);
      SurvivingSnoc(m.history, Done(e, LastPos(t)), t.active, EndOffset(t.log[..n], t.active));
    }
    assert CutOk(m, n) <==> m.floor <= n;
  }

  /** A cut inside the older log is possible only if no file was started since. */
  lemma {:induction false} SameActive(o: Options, s: Store, t: Store, n: nat)
    requires LogOk(o, s) && LogOk(o, t) && Grows(s, t) && t.synced <= n < |s.log|
    ensures t.active == s.active
  {
    hide ViewOf, Parses, SeqsBelow, Packed;
    SplitExact(t.log, t.active, t.writeOff, t.active);
    assert t.log[n].pos.fid >= t.active;
    assert t.log[n] == s.log[n];
    LaidPrefix(s.log, s.active, s.writeOff, n);
  }

  /** A cut that leaves all that was there before the operation. */
  lemma {:induction false} HistoryAfter(o: Options, m: Model, t: Store, e: Effect, n: nat)
    requires ModelOk(o, m) && Inv(o, t) && Grows(m.store, t) && Atomic(m.store, t, e)
    requires e != map[] ==> |t.log| > |m.store.log| && LastPos(t).fid == t.active
    requires t.synced <= n <= |t.log| && |m.store.log| <= n
    ensures CutOk(Extended(m, t, e), n)
  {
    hide ViewOf, BaseOk, MergeOk, IndexOk, ImageOf, Parses, SeqsBelow, Packed, Laid, Kept;
    var s, off := m.store, EndOffset(t.log[..n], t.active);
    CutPastEnd(o, s, t, n);
    AllSurvive(m.history, t.active, off);
    CurrentValues(o, m);
    ContentsShown(ImageOf(s.log));
    ContentsShown(ImageOf(t.log[..n]));
    ShownOverride(ContentsOf(ImageOf(s.log)), Meaning(m.history), e);
    assert n == |t.log| ==> t.log[..n] == t.log;
    if e != map[] {
      var d := Done(e, LastPos(t));
      LastLost(o, t, n);
      SurvivingSnoc(m.history, d, t.active, off);
      MeaningSnoc(m.history, d);
      assert Surviving(m.history + [d], t.active, off) == m.history + (if n == |t.log| then [d] else []);
      assert m.history + [] == m.history;
    } else {
      assert Meaning(m.history) + e == Meaning(m.history);
    }
  }

  /** Steps that add no record: sync, and the steps of a merge. */
  lemma {:induction false} QuietHistory(o: Options, m: Model, t: Store)
    requires ModelOk(o, m) && LogOk(o, t) && t.log == m.store.log && t.synced >= m.store.synced
    requires t.active == m.store.active && t.writeOff == m.store.writeOff
    requires t.merge.Merge? ==> m.store.merge.Merge?
    ensures HistoryOk(Extended(m, t, map[]))
  {
    SyncedBound(o, t);
    hide Inv, LogOk, ImageOf, Kept;
    forall n | t.synced <= n <= |t.log| ensures CutOk(Extended(m, t, map[]), n) <==> CutOk(m, n) {
    }
  }

  /** The whole log has the values of the whole history. */
  lemma {:induction false} CurrentValues(o: Options, m: Model)
    requires LogOk(o, m.store) && HistoryOk(m)
    ensures ValuesOf(Live(ImageOf(m.store.log))) == Shown(Meaning(m.history))
  {
    hide ImageOf;
    FullEnd(o, m.store);
    AllSurvive(m.history, m.store.active, m.store.writeOff);
    assert CutOk(m, |m.store.log|);
    assert SurvivingCut(m, |m.store.log|) == m.history;
  }

  /** Starting a file loses nothing: everything before it is synced, so there is only one cut to look at. */
  lemma {:induction false} RotateHistory(o: Options, m: Model, t: Store)
    requires ModelOk(o, m) && LogOk(o, m.store) && LogOk(o, t) && t.log == m.store.log
    requires t.active > m.store.active && t.synced == |t.log|
    ensures HistoryOk(Extended(m, t, map[]))
  {
    hide Inv, ImageOf, LogOk, Live, ValuesOf, Shown, Meaning, EndOffset, Surviving;
    CurrentValues(o, m);
    FullEnd(o, t);
    assert forall i :: 0 <= i < |m.history| ==> Kept(m.history[i].last, t.active, t.writeOff);
    hide Kept;
    AllSurvive(m.history, t.active, t.writeOff);
    assert CutOk(Extended(m, t, map[]), |t.log|);
  }

  // ---- Restarts ----

  /** What a restart finds is what remains of the log. */
  lemma {:induction false} LeftRemains(o: Options, s: Store, e: Event)
    requires LogOk(o, s) && Restarts(e) && Guarded(o, s, e)
    ensures Remains(s, Left(s, e)) && ScanComplete(o, Left(s, e))
  {
    hide LogOk, ScanComplete, SkippedCovered;
    KillRemains(o, s);
    if e.PowerEvent? {
      CutRemains(s, e.keep);
    }
  }

  /** A longer cut does not end before a shorter one. */
  lemma {:induction false} EndsInOrder(log: seq<Logged>, active: nat, off: nat, a: nat, b: nat)
    requires Laid(log, active, off) && a <= b <= |log|
    ensures EndOffset(log[..a], active) <= EndOffset(log[..b], active)
  {
    hide Laid;
    if 0 < a < b && log[a - 1].pos.fid == active {
      LaidPrefix(log, active, off, b - 1);
      LaidOrder(log, active, off, a - 1, b - 1);
    }
  }

  /** Cutting what a restart left is cutting what was there. */
  lemma {:induction false} LeftCut(o: Options, m: Model, keep: nat, n: nat)
    requires LogOk(o, m.store) && n <= keep <= |m.store.log|
    ensures var s := m.store;
            Surviving(SurvivingCut(m, keep), s.active, EndOffset(s.log[..n], s.active)) == SurvivingCut(m, n)
  {
    var s := m.store;
    LogParts(o, s);
    hide LogOk, Laid, EndOffset;
    EndsInOrder(s.log, s.active, s.writeOff, n, keep);
    SurvivingTwice(m.history, s.active, EndOffset(s.log[..keep], s.active), EndOffset(s.log[..n], s.active));
  }

  lemma {:induction false} CoverExact(o: Options, s: Store, from: nat, end: nat)
    requires s.merge.Merge? && SplitAt(s.log, s.merge.nonMerge) <= from <= end <= |s.log| && SkippedCovered(s, end)
    ensures forall n :: from <= n <= end ==> (SkippedCovered(s, n) <==> CoverFrom(s, from, end) <= n)
    decreases end
  {
    hide SkippedCovered;
    if end > from && SkippedCovered(s, end - 1) {
      CoverExact(o, s, from, end - 1);
    } else {
      forall n | from <= n < end ensures !SkippedCovered(s, n) {
        if SkippedCovered(s, n) {
          CoveredGrows(o, s, n, end - 1);
        }
      }
    }
  }

  /** `HistoryOk` taken apart and put together. */
  lemma {:induction false} HistoryParts(m: Model)
    requires HistoryOk(m)
    ensures m.store.synced <= m.floor <= |m.store.log|
    ensures forall n :: m.store.synced <= n <= |m.store.log| ==> (CutOk(m, n) <==> m.floor <= n)
  {
  }

  lemma {:induction false} HistoryFrom(m: Model)
    requires forall i :: 0 <= i < |m.history| ==> Kept(m.history[i].last, m.store.active, m.store.writeOff)
    requires m.store.synced <= m.floor <= |m.store.log| && !m.store.merge.Merge?
    requires forall n :: m.store.synced <= n <= |m.store.log| ==> (CutOk(m, n) <==> m.floor <= n)
    ensures HistoryOk(m)
  {
  }

  /** Opening without a finished merge: the log is a prefix of the old one, and so are its cuts. */
  lemma {:induction false} PlainHistory(o: Options, m: Model, d: Store)
    requires ModelOk(o, m) && Remains(m.store, d) && ScanComplete(o, d) && m.floor <= |d.log|
    requires !(m.store.merge.Merge? && m.store.merge.finished)
    ensures Open(o, d).Some?
    ensures ModelOk(o, Model(Open(o, d).value, SurvivingCut(m, |d.log|), FloorAfter(m, d)))
  {
    hide Inv, HistoryOk, Open, ImageOf, LogOk, MergeOk, BaseOk, Kept, EndOffset, ScanComplete, CutOk;
    var s := m.store;
    OpenPlain(o, s, d);
    InvParts(o, s);
    var t := Open(o, d).value;
    var m' := Model(t, SurvivingCut(m, |d.log|), FloorAfter(m, d));
    HistoryParts(m);
    forall n | t.synced <= n <= |t.log| ensures CutOk(m', n) <==> m'.floor <= n {
      PlainCut(o, m, m', |d.log|, n);
    }
    SurvivingKept(m.history, s.active, EndOffset(d.log, s.active));
    HistoryFrom(m');
  }

  lemma {:induction false} PlainCut(o: Options, m: Model, m': Model, keep: nat, n: nat)
    requires LogOk(o, m.store) && n <= keep <= |m.store.log|
    requires m'.store.log == m.store.log[..keep] && m'.store.active == m.store.active
    requires m'.history == SurvivingCut(m, keep)
    ensures CutOk(m', n) <==> CutOk(m, n)
  {
    hide LogOk, EndOffset, ImageOf, ValuesOf, Live, Shown, Meaning, Surviving;
    assert m'.store.log[..n] == m.store.log[..n];
    LeftCut(o, m, keep, n);
  }

  /** While a merge is around every cut is safe. */
  lemma {:induction false} MergeCuts(o: Options, m: Model, n: nat)
    requires ModelOk(o, m) && m.store.merge.Merge? && m.store.synced <= n <= |m.store.log|
    ensures SplitAt(m.store.log, m.store.merge.nonMerge) <= m.store.synced
    ensures CutOk(m, n)
  {
    hide Inv, CutOk;
    SplitSynced(o, m.store);
  }

  lemma {:induction false} InstalledPrefix(s: Store, keep: nat, n: nat)
    requires s.merge.Merge? && SplitAt(s.log, s.merge.nonMerge) <= n <= keep <= |s.log|
    ensures InstalledAt(s, n) <= |InstalledLog(s, keep)|
    ensures InstalledLog(s, keep)[..InstalledAt(s, n)] == InstalledLog(s, n)
  {
    hide SplitAt;
  }

  /**
   * Opening with one: a cut of the new log is a cut of the old one further on, safe where it covers the skipped keys.
   */
  lemma {:induction false} InstalledCut(o: Options, m: Model, m': Model, keep: nat, n: nat)
    requires ModelOk(o, m) && m.store.merge.Merge? && m.store.merge.finished
    requires m.store.synced <= n <= keep <= |m.store.log|
    requires SplitAt(m.store.log, m.store.merge.nonMerge) <= m.store.synced
    requires m'.store.log == InstalledLog(m.store, keep) && m'.store.active == m.store.active
    requires m'.history == SurvivingCut(m, keep)
    ensures InstalledAt(m.store, n) <= |m'.store.log|
    ensures CutOk(m', InstalledAt(m.store, n)) <==> SkippedCovered(m.store, n)
  {
    hide Inv, HistoryOk, SkippedCovered, LogOk, BaseOk, MergeOk, EndOffset, ImageOf, ValuesOf, Live, Shown, Meaning,
      SplitAt, Surviving, InstalledLog, InstalledAt;
    var s := m.store;
    InvParts(o, s);
    MergeCuts(o, m, n);
    InstalledExact(o, s, n);
    InstalledEnds(o, s, n);
    LeftCut(o, m, keep, n);
    InstalledPrefix(s, keep, n);
  }

  lemma {:induction false} InstalledHistory(o: Options, m: Model, d: Store)
    requires ModelOk(o, m) && Remains(m.store, d) && ScanComplete(o, d)
    requires m.store.merge.Merge? && m.store.merge.finished
    requires SplitAt(m.store.log, m.store.merge.nonMerge) <= |d.log| ==> SkippedCovered(m.store, |d.log|)
    ensures Open(o, d).Some?
    ensures ModelOk(o, Model(Open(o, d).value, SurvivingCut(m, |d.log|), FloorAfter(m, d)))
  {
    hide Inv, HistoryOk, Open, SkippedCovered, CoverFrom, ScanComplete, Kept, LogOk, BaseOk, MergeOk, EndOffset,
      ImageOf, CutOk, InstalledLog, SplitAt, DiskOk;
    var s := m.store;
    OpenInstalled(o, s, d);
    InvParts(o, s);
    InstalledDisk(o, s, d);
    var t := Open(o, d).value;
    var m' := Model(t, SurvivingCut(m, |d.log|), FloorAfter(m, d));
    CoverExact(o, s, d.synced, |d.log|);
    InstalledPrefix(s, |d.log|, |d.log|);
    var shift := |s.merge.out| - SplitAt(s.log, s.merge.nonMerge);
    assert m'.floor == CoverFrom(s, d.synced, |d.log|) + shift;
    assert t.synced == d.synced + shift && |t.log| == |d.log| + shift;
    forall n | t.synced <= n <= |t.log| ensures CutOk(m', n) <==> m'.floor <= n {
      InstalledCut(o, m, m', |d.log|, n - shift);
      assert n == InstalledAt(s, n - shift);
    }
    SurvivingKept(m.history, s.active, EndOffset(d.log, s.active));
    HistoryFrom(m');
  }

  /** A restart keeps the engine and the history in agreement. */
  lemma {:induction false} RestartOk(o: Options, m: Model, e: Event)
    requires ModelOk(o, m) && Allowed(o, m, e) && Restarts(e)
    ensures Next(o, m, e).Some? && ModelOk(o, Next(o, m, e).value)
  {
    hide Inv, HistoryOk, SkippedCovered, LogOk, ScanComplete, Open, FloorAfter, SplitAt, SurvivingCut;
    var s := m.store;
    InvParts(o, s);
    LeftRemains(o, s, e);
    HistoryParts(m);
    if s.merge.Merge? && s.merge.finished {
      FinishedCovers(o, s);
      InstalledHistory(o, m, Left(s, e));
    } else {
      PlainHistory(o, m, Left(s, e));
    }
  }

  lemma {:induction false} OpenedIndex(o: Options, s: Store)
    requires Inv(o, s)
    ensures s.index == Live(ImageOf(s.log))
  {
  }

  /**
   * In every state a run can reach, the engine opened after a power failure shows exactly the map of the operations
   * whose last record is left if and only if the failure is one the theorem allows.
   */
  lemma {:induction false} FailureAllowed(o: Options, m: Model, keep: nat)
    requires ModelOk(o, m) && CanCut(m.store, keep) && ScanComplete(o, Cut(m.store, keep))
    ensures Crash(o, m.store, keep).Some?
    ensures ValuesOf(Crash(o, m.store, keep).value.index) == Shown(Meaning(SurvivingCut(m, keep))) <==>
            Allowed(o, m, PowerEvent(keep))
  {
    hide Inv, SkippedCovered, ScanComplete, Open, ImageOf, ValuesOf, Live, Shown, Meaning, SurvivingCut;
    var s := m.store;
    assert CutOk(m, keep) <==> m.floor <= keep;
    CutRemains(s, keep);
    if s.merge.Merge? && s.merge.finished {
      MergeCuts(o, m, keep);
      InstallExact(o, s, Cut(s, keep));
    } else {
      FailurePlain(o, s, keep);
      OpenedIndex(o, Crash(o, s, keep).value);
    }
  }

  // ---- Steps and runs ----

  lemma {:induction false} AppendEndsActive(o: Options, s: Store, rec: Record)
    ensures Append(o, s, rec).log != [] && LastPos(Append(o, s, rec)).fid == Append(o, s, rec).active
  {
  }

  lemma {:induction false} WroteActive(o: Options, s: Store, e: Event)
    requires EffectOf(s, e) != map[]
    ensures var t := Operate(o, s, e);
            |t.log| > |s.log| && LastPos(t).fid == t.active
  {
    match e
    case PutEvent(key, value) =>
      AppendEndsActive(o, s, Record(EncodeKey(NON_TRANSACTION, key), value, Normal));
    case DeleteEvent(key) =>
      AppendEndsActive(o, s, Record(TombstoneKey(o, key), [], RecordType.Delete));
    case CommitEvent(items, sync, maxNum) =>
      var t := WriteBatch(o, s, items);
      AppendEndsActive(o, AppendItems(o, s.(seqNo := s.seqNo + 1), s.seqNo, items), FinishRecord(s.seqNo));
      InstallFrame(Written(o, s, items, sync), items, |s.log|);
    case _ =>
  }

  /** The operations that write records. */
  predicate Writes(e: Event)
  {
    e.PutEvent? || e.DeleteEvent? || e.CommitEvent? || e.TornEvent?
  }

  lemma {:induction false} WriteOk(o: Options, s: Store, e: Event)
    requires Inv(o, s) && Guarded(o, s, e) && Writes(e)
    ensures var t := Operate(o, s, e);
            Inv(o, t) && Grows(s, t) && FreshFinishes(s, t) && Atomic(s, t, EffectOf(s, e))
  {
    hide Inv, Atomic, Grows, Put, DeleteKey, Commit, TornCommit;
    match e
    case PutEvent(key, value) => PutAtomic(o, s, key, value);
    case DeleteEvent(key) => DeleteAtomic(o, s, key);
    case CommitEvent(items, sync, maxNum) => CommitAtomic(o, s, items, sync, maxNum);
    case TornEvent(items) => TornAtomic(o, s, items);
    case _ =>
  }

  lemma {:induction false} WriteHistory(o: Options, m: Model, e: Event)
    requires ModelOk(o, m) && Guarded(o, m.store, e) && Writes(e)
    ensures Next(o, m, e).Some? && ModelOk(o, Next(o, m, e).value)
  {
    hide Inv, HistoryOk, Operate, Atomic, Grows, EffectOf, Guarded, Extended;
    var t, effect := Operate(o, m.store, e), EffectOf(m.store, e);
    WriteOk(o, m.store, e);
    if effect != map[] {
      WroteActive(o, m.store, e);
    }
    OperateHistory(o, m, t, effect);
  }

  lemma {:induction false} BeginOk(o: Options, m: Model)
    requires ModelOk(o, m)
    ensures ModelOk(o, Extended(m, MergeBegin(m.store), map[]))
  {
    hide Inv, HistoryOk;
    var s := m.store;
    if MergeBegin(s) == s {
      InvParts(o, s);
      QuietHistory(o, m, s);
    } else {
      MergeBeginInv(o, s);
      InvParts(o, MergeBegin(s));
      InvParts(o, s);
      RotateHistory(o, m, MergeBegin(s));
    }
  }

  /** One event, whatever it is, keeps the engine and the history in agreement. */
  lemma {:induction false} StepOk(o: Options, m: Model, e: Event)
    requires ModelOk(o, m) && Allowed(o, m, e)
    ensures Next(o, m, e).Some? && ModelOk(o, Next(o, m, e).value)
  {
    if Restarts(e) {
      RestartOk(o, m, e);
    } else if Writes(e) {
      WriteHistory(o, m, e);
    } else {
      hide Inv, HistoryOk, MergeStep, Guarded, Extended;
      QuietOk(o, m, e);
    }
  }

  lemma {:induction false} QuietOk(o: Options, m: Model, e: Event)
    requires ModelOk(o, m) && !Restarts(e) && !Writes(e)
    ensures ModelOk(o, Extended(m, Operate(o, m.store, e), map[]))
  {
    hide Inv, HistoryOk, MergeStep, Guarded, Extended;
    var s := m.store;
    match e
    case SyncEvent =>
      SyncInv(o, s);
      QuietHistory(o, m, Sync(s));
    case MergeBeginEvent =>
      BeginOk(o, m);
    case MergeStepEvent =>
      MergeStepInv(o, s);
      InvParts(o, MergeStep(o, s));
      MergeStepQuiet(o, s);
      QuietHistory(o, m, MergeStep(o, s));
    case MergeFinishEvent =>
      MergeFinishInv(o, s);
      InvParts(o, MergeFinish(s));
      QuietHistory(o, m, MergeFinish(s));
    case _ =>
  }

  lemma {:induction false} MergeStepQuiet(o: Options, s: Store)
    ensures MergeStep(o, s) == s.(merge := MergeStep(o, s).merge)
    ensures MergeStep(o, s).merge.Merge? <==> s.merge.Merge?
  {
  }

  lemma {:induction false} SyncedBound(o: Options, s: Store)
    requires LogOk(o, s)
    ensures s.synced <= |s.log|
  {
  }

  lemma {:induction false} SyncInv(o: Options, s: Store)
    requires Inv(o, s)
    ensures Inv(o, Sync(s)) && LogOk(o, Sync(s)) && Sync(s).synced >= s.synced
  {
    hide LogOk, BaseOk, MergeOk, ImageOf;
    SyncOk(o, s);
    SyncedBound(o, s);
    assert FreshFinishes(s, Sync(s));
    GrowsInv(o, s, Sync(s));
  }

  ghost function RunEvents(o: Options, m: Model, es: seq<Event>): Option<Model>
  {
    if es == [] then Some(m) else
      match RunEvents(o, m, es[..|es| - 1])
      case None => None
      case Some(n) => Next(o, n, es[|es| - 1])
  }

  const START := Model(INIT, [], 0)

  ghost predicate AllAllowed(o: Options, m: Model, es: seq<Event>)
  {
    es == [] ||
    (&& AllAllowed(o, m, es[..|es| - 1])
     && (RunEvents(o, m, es[..|es| - 1]).Some? ==> Allowed(o, RunEvents(o, m, es[..|es| - 1]).value, es[|es| - 1])))
  }

  lemma {:induction false} StartOk(o: Options)
    ensures ModelOk(o, START)
  {
    EmptyMerged();
  }

  lemma {:induction false} RunOk(o: Options, es: seq<Event>)
    requires AllAllowed(o, START, es)
    ensures RunEvents(o, START, es).Some? && ModelOk(o, RunEvents(o, START, es).value)
  {
    hide ModelOk, Next, Allowed;
    if es == [] {
      StartOk(o);
    } else {
      RunOk(o, es[..|es| - 1]);
      StepOk(o, RunEvents(o, START, es[..|es| - 1]).value, es[|es| - 1]);
    }
  }

  /**
   * Over every run, with any number of kills, power failures, reopens and merges: the live index holds exactly the
   * map of the operations whose last record survived; and of all the prefixes the next power failure can leave,
   * exactly those that reach the floor have the map of the operations whose last record they keep.
   */
  lemma {:induction false} RecoveryTheorem(o: Options, es: seq<Event>)
    requires AllAllowed(o, START, es)
    ensures RunEvents(o, START, es).Some?
    ensures var m := RunEvents(o, START, es).value;
            && ValuesOf(m.store.index) == Shown(Meaning(m.history))
            && m.store.synced <= m.floor <= |m.store.log|
            && forall n :: m.store.synced <= n <= |m.store.log| ==>
                 (ValuesOf(Live(ImageOf(m.store.log[..n]))) == Shown(Meaning(SurvivingCut(m, n))) <==> m.floor <= n)
  {
    RunOk(o, es);
    var m := RunEvents(o, START, es).value;
    InvParts(o, m.store);
    hide Inv, ImageOf, Next, Allowed;
    CurrentValues(o, m);
    forall n | m.store.synced <= n <= |m.store.log|
      ensures ValuesOf(Live(ImageOf(m.store.log[..n]))) == Shown(Meaning(SurvivingCut(m, n))) <==> m.floor <= n
    {
      assert CutOk(m, n) <==> m.floor <= n;
    }
  }

  // ---- Torn batches ----

  /** No record that was added finishes a batch that a replay still had buffered before. */
  ghost predicate FinishesNone(before: seq<Logged>, after: seq<Logged>)
  {
    forall i, q: nat :: 0 <= i < |after| && q in Run(before).pending && Finishes(after[i], q) ==> after[i] in before
  }

  lemma {:induction false} FreshFinishesNone(o: Options, s: Store, t: Store)
    requires LogOk(o, s) && s.log <= t.log && FreshFinishes(s, t)
    ensures FinishesNone(s.log, t.log)
  {
    hide Finishes, Run;
    assert SeqsBelow(s.log, s.seqNo) by { LogOkSeqs(o, s); }
    PendingBelow(s.log, s.seqNo);
    forall i, q: nat | 0 <= i < |t.log| && q in Run(s.log).pending && Finishes(t.log[i], q) ensures t.log[i] in s.log {
      if i < |s.log| {
        assert t.log[i] == s.log[i];
      }
    }
  }

  /** Rewritten records belong to no batch. */
  lemma {:induction false} RewrittenFinishesNone(out: seq<Logged>, hints: seq<Hint>, log: seq<Logged>, c: nat,
      keep: nat)
    requires MergedPart(out, hints) && c <= keep <= |log|
    ensures FinishesNone(log, out + log[c..keep])
  {
    hide ViewOf, Run, KeyOf;
    var after := out + log[c..keep];
    forall i, q: nat | 0 <= i < |out| ensures !Finishes(out[i], q) {
      assert Rewritten(out[i]);
    }
    forall i, q: nat | 0 <= i < |after| && Finishes(after[i], q) ensures after[i] in log {
      if i >= |out| {
        assert after[i] == log[c + i - |out|];
      }
    }
  }

  lemma {:induction false} StepFinishesNone(o: Options, m: Model, e: Event)
    requires ModelOk(o, m) && Allowed(o, m, e)
    ensures Next(o, m, e).Some? && FinishesNone(m.store.log, Next(o, m, e).value.store.log)
  {
    StepOk(o, m, e);
    var s, t := m.store, Next(o, m, e).value.store;
    hide Inv, HistoryOk, FinishesNone, FreshFinishes, Atomic, LogOk, Next, Allowed, Operate, Guarded, EffectOf;
    if Restarts(e) {
      RestartFinishesNone(o, m, e);
    } else if Writes(e) {
      assert Guarded(o, s, e) by { GuardedOf(o, m, e); }
      WriteOk(o, s, e);
      assert t == Operate(o, s, e) by { NextStore(o, m, e); }
      assert LogOk(o, s) by { InvParts(o, s); }
      FreshFinishesNone(o, s, t);
    } else {
      assert t == Operate(o, s, e) by { NextStore(o, m, e); }
      assert t.log == s.log by { QuietLog(o, s, e); }
      SameFinishesNone(s.log, t.log);
    }
  }

  lemma {:induction false} QuietLog(o: Options, s: Store, e: Event)
    requires !Restarts(e) && !Writes(e)
    ensures Operate(o, s, e).log == s.log
  {
    hide MergeStep;
    MergeStepQuiet(o, s);
  }

  lemma {:induction false} GuardedOf(o: Options, m: Model, e: Event)
    requires Allowed(o, m, e)
    ensures Guarded(o, m.store, e)
  {
  }

  lemma {:induction false} NextStore(o: Options, m: Model, e: Event)
    requires !Restarts(e)
    ensures Next(o, m, e).Some? && Next(o, m, e).value.store == Operate(o, m.store, e)
  {
    hide Operate, EffectOf;
  }

  lemma {:induction false} SameFinishesNone(before: seq<Logged>, after: seq<Logged>)
    requires forall l :: l in after ==> l in before
    ensures FinishesNone(before, after)
  {
    hide Finishes, Run;
  }

  lemma {:induction false} RestartFinishesNone(o: Options, m: Model, e: Event)
    requires ModelOk(o, m) && Allowed(o, m, e) && Restarts(e) && Next(o, m, e).Some?
    ensures FinishesNone(m.store.log, Next(o, m, e).value.store.log)
  {
    var s, d := m.store, Left(m.store, e);
    InvParts(o, s);
    LeftRemains(o, s, e);
    hide Inv, HistoryOk, FinishesNone, Allowed, Open, Guarded, LogOk, BaseOk, MergeOk, MergedPart, ScanComplete,
      FloorAfter, SurvivingCut, SplitAt;
    var t := Next(o, m, e).value.store;
    if s.merge.Merge? && s.merge.finished {
      OpenInstalled(o, s, d);
      assert MergedPart(s.merge.out, s.merge.hints) by { InvParts(o, s); MergeParts(o, s); }
      RewrittenFinishesNone(s.merge.out, s.merge.hints, s.log, SplitAt(s.log, s.merge.nonMerge), |d.log|);
    } else {
      OpenPlain(o, s, d);
      SameFinishesNone(s.log, t.log);
    }
  }

  /**
   * A torn batch is never completed by a later one. Over every run the next sequence number is above every one in the
   * log and every one a replay still has buffered, and whatever event is next, no record it adds finishes a batch
   * buffered before it.
   */
  lemma {:induction false} NeverResurrected(o: Options, es: seq<Event>, e: Event)
    requires AllAllowed(o, START, es)
    ensures RunEvents(o, START, es).Some?
    ensures var m := RunEvents(o, START, es).value;
            && SeqsBelow(m.store.log, m.store.seqNo)
            && (forall q :: q in Run(m.store.log).pending ==> q < m.store.seqNo)
            && (Allowed(o, m, e) ==> Next(o, m, e).Some? && FinishesNone(m.store.log, Next(o, m, e).value.store.log))
  {
    RunOk(o, es);
    var m := RunEvents(o, START, es).value;
    InvParts(o, m.store);
    LogOkSeqs(o, m.store);
    hide Inv, HistoryOk, Run, Next, Allowed, FinishesNone;
    PendingBelow(m.store.log, m.store.seqNo);
    if Allowed(o, m, e) {
      StepFinishesNone(o, m, e);
    }
  }

  // ---- When the active handle is where it should be ----

  lemma {:induction false} ItemsNewest(o: Options, s: Store, seqNo: nat, items: seq<Item>)
    requires OnNewest(s)
    ensures OnNewest(AppendItems(o, s, seqNo, items))
  {
    hide Size, Place;
    if items != [] {
      ItemsNewest(o, s, seqNo, items[..|items| - 1]);
    }
  }

  /**
   * Once on the newest file the handle stays there, except over a restart: the code then needs there to be only one
   * file.
   */
  lemma {:induction false} NewestKept(o: Options, m: Model, e: Event)
    requires OnNewest(m.store) && Next(o, m, e).Some?
    ensures var t := Next(o, m, e).value.store;
            OnNewest(t) <==> (Restarts(e) ==> o.activeOnOpen.NewestFile? || OldestId(t) == t.active)
  {
    hide Size, Scan, Seen, ToScan, IsLive, CopyRecord, ParseKey, SurvivingCut, EffectOf;
    var s := m.store;
    match e
    case CommitEvent(items, sync, maxNum) =>
      ItemsNewest(o, s.(seqNo := s.seqNo + 1), s.seqNo, items);
      if items != [] && |items| <= maxNum {
        BatchNewest(o, s, items);
        InstallFrame(Written(o, s, items, sync), items, |s.log|);
      }
    case TornEvent(items) => ItemsNewest(o, s.(seqNo := s.seqNo + 1), s.seqNo, items);
    case _ =>
  }
}
