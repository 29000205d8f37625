/**
 * The merge: what its per-record copying keeps while other operations run between its steps, why its files never
 * collide with files written after it started, and what installing its result does to the log.
 */
module Merging {
  import opened Wire
  import opened LogRecord
  import opened Replay
  import opened Layout
  import opened Store
  import opened Invariant

  function KeyOf(l: Logged): Bytes
  {
    ViewOf(l).update.key
  }

  // ---- Rewritten records and their hints ----

  /** A rewritten record: a put outside any batch. */
  predicate Rewritten(l: Logged)
  {
    && ParseKey(l.rec.key).ParsedKey?
    && ViewOf(l) == View(NON_TRANSACTION, Update(KeyOf(l), Normal, Slot(l.pos, l.rec.value)))
  }

  /** Rewritten records, one per key, each with its hint. */
  ghost predicate MergedPart(ls: seq<Logged>, hints: seq<Hint>)
  {
    && |hints| == |ls|
    && (forall i :: 0 <= i < |ls| ==> Rewritten(ls[i]) && hints[i] == Hint(KeyOf(ls[i]), ls[i].pos))
    && (forall i, j :: 0 <= i < j < |ls| ==> KeyOf(ls[i]) != KeyOf(ls[j]))
  }

  ghost predicate HasKey(ls: seq<Logged>, key: Bytes)
  {
    exists i :: 0 <= i < |ls| && KeyOf(ls[i]) == key
  }

  lemma {:induction false} MergedPrefix(ls: seq<Logged>, hints: seq<Hint>, n: nat)
    requires MergedPart(ls, hints) && n <= |ls|
    ensures MergedPart(ls[..n], hints[..n])
  {
    hide Rewritten, KeyOf;
  }

  /** Replaying rewritten records just fills the image: one slot per key, nothing buffered, nothing reclaimable. */
  lemma {:induction false} MergedImage(ls: seq<Logged>, hints: seq<Hint>)
    requires MergedPart(ls, hints)
    ensures forall k :: k in ImageOf(ls) <==> HasKey(ls, k)
    ensures forall i :: 0 <= i < |ls| ==>
      && KeyOf(ls[i]) in ImageOf(ls)
      && ImageOf(ls)[KeyOf(ls[i])] == Some(Slot(ls[i].pos, ls[i].rec.value))
    ensures Run(ls).pending == map[] && Run(ls).maxSeq == 0 && Run(ls).reclaim == 0
  {
    hide ViewOf, KeyOf, ParseKey;
    if ls != [] {
      var n := |ls| - 1;
      var pre, l := ls[..n], ls[n];
      assert ls == pre + [l];
      MergedPrefix(ls, hints, n);
      MergedImage(pre, hints[..n]);
      RunSnoc(pre, l);
      assert Rewritten(l);
      KeyOfView(l);
      assert KeyOf(l) !in ImageOf(pre);
      hide Rewritten, Run, HasKey;
      forall k ensures k in ImageOf(ls) <==> HasKey(ls, k) {
        HasKeySnoc(pre, l, k);
      }
    }
  }

  lemma {:induction false} KeyOfView(l: Logged)
    ensures KeyOf(l) == ViewOf(l).update.key
  {
  }

  /** Loading hints gives the same image as replaying the records they stand for. */
  lemma {:induction false} HintsMatch(log: seq<Logged>, active: nat, off: nat, n: nat, hints: seq<Hint>)
    requires Laid(log, active, off) && n <= |log| && MergedPart(log[..n], hints)
    ensures HintImage(log, hints) == ImageOf(log[..n])
    decreases n
  {
    hide ViewOf, Laid, ParseKey, MergedPart, Rewritten, KeyOf;
    MergedLengths(log[..n], hints);
    if n == 0 {
      assert log[..n] == [];
    } else {
      var l := log[n - 1];
      MergedPrefix(log[..n], hints, n - 1);
      assert log[..n][..n - 1] == log[..n - 1];
      HintsMatch(log, active, off, n - 1, hints[..n - 1]);
      LookUpFinds(log, active, off, n - 1);
      assert log[..n] == log[..n - 1] + [l];
      RunSnoc(log[..n - 1], l);
      assert log[..n][n - 1] == l;
      MergedLast(log[..n], hints);
    }
  }

  lemma {:induction false} MergedLengths(ls: seq<Logged>, hints: seq<Hint>)
    requires MergedPart(ls, hints)
    ensures |hints| == |ls|
  {
  }

  lemma {:induction false} MergedLast(ls: seq<Logged>, hints: seq<Hint>)
    requires MergedPart(ls, hints) && ls != []
    ensures var l := ls[|ls| - 1];
            && |hints| == |ls| && hints[|hints| - 1] == Hint(ViewOf(l).update.key, l.pos)
            && ViewOf(l) == View(NON_TRANSACTION, Update(ViewOf(l).update.key, Normal, Slot(l.pos, l.rec.value)))
  {
    assert Rewritten(ls[|ls| - 1]);
  }

  // ---- The installed base ----

  ghost predicate BaseOk(s: Store)
  {
    s.base <= s.active && MergedPart(s.log[..SplitAt(s.log, s.base)], s.hint)
  }

  /** A scan sees every record if and only if no mapped file has a short tail. */
  lemma {:induction false} SeenAll(log: seq<Logged>, next: nat)
    ensures Seen(true, log, next) == log <==> TailsLong(log, next)
    ensures Seen(false, log, next) == log
    ensures |Seen(true, log, next)| <= |log|
  {
    if log != [] {
      var n := |log| - 1;
      var pre, l := log[..n], log[n];
      SeenAll(pre, l.pos.fid);
      assert log == pre + [l];
      TailsSnoc(pre, l, next);
      if l.pos.fid < next && l.pos.size < MAX_HEADER_SIZE {
        assert |Seen(true, log, next)| < |log|;
      } else {
        assert Seen(true, log, next) == Seen(true, pre, l.pos.fid) + [l];
        assert Seen(true, log, next) == log ==> Seen(true, log, next)[..|Seen(true, pre, l.pos.fid)|] == pre;
      }
    }
  }

  lemma {:induction false} TailsSnoc(log: seq<Logged>, l: Logged, next: nat)
    ensures TailsLong(log + [l], next) <==>
            TailsLong(log, l.pos.fid) && (l.pos.fid < next ==> l.pos.size >= MAX_HEADER_SIZE)
  {
    var all := log + [l];
    assert forall i :: 0 <= i < |log| ==> log[i] == all[i] && NextFile(log, i, l.pos.fid) == NextFile(all, i, next);
    assert all[|log|] == l && NextFile(all, |log|, next) == next;
  }

  /** Hints and the files above the marker say what a full replay of all files says. */
  lemma {:induction false} ScanIsRun(o: Options, s: Store)
    requires Laid(s.log, s.active, EndOffset(s.log, s.active)) && BaseOk(s)
    requires s.merge.NoMerge? && ScanComplete(o, s)
    ensures Seen(o.mmapAtStartup, ToScan(s), s.active) == ToScan(s)
    ensures Scan(o, s) == Run(s.log)
  {
    hide Seen, TailsLong, ViewOf, Laid, MergedPart, HintImage;
    var n := SplitAt(s.log, s.base);
    SeenAll(ToScan(s), s.active);
    HintsMatch(s.log, s.active, EndOffset(s.log, s.active), n, s.hint);
    var st := Run(s.log[..n]);
    assert st == State(st.image, map[], 0, 0) by { MergedImage(s.log[..n], s.hint); }
    assert s.log == s.log[..n] + s.log[n..];
    RunFromAppend(EMPTY, s.log[..n], s.log[n..]);
  }

  // ---- A merge in progress ----

  /** The records being merged: those of the files below the one the merge opened. */
  function OldPart(s: Store): seq<Logged>
    requires s.merge.Merge?
  {
    s.log[..SplitAt(s.log, s.merge.nonMerge)]
  }

  /** The records written since. */
  function NewPart(s: Store): seq<Logged>
    requires s.merge.Merge?
  {
    s.log[SplitAt(s.log, s.merge.nonMerge)..]
  }

  function OldIndex(s: Store): Index
    requires s.merge.Merge?
  {
    Live(ImageOf(OldPart(s)))
  }

  ghost predicate Scanned(log: seq<Logged>, n: nat, pos: Pos)
  {
    exists j :: 0 <= j < n && j < |log| && log[j].pos == pos
  }

  /** Where the source of the merge has been read up to. */
  function SourceEnd(log: seq<Logged>, next: nat): Cursor
    requires next <= |log|
  {
    if next == 0 then Cursor(0, 0) else Cursor(log[next - 1].pos.fid, log[next - 1].pos.offset + log[next - 1].pos.size)
  }

  /**
   * The merge writer is never ahead of the place it reads from, so its files stay below the files written meanwhile.
   */
  ghost predicate MergeBounds(o: Options, s: Store)
    requires s.merge.Merge?
  {
    var m, c := s.merge, SplitAt(s.log, s.merge.nonMerge);
    && 1 <= m.nonMerge <= s.active
    && m.next <= c
    && (m.finished ==> m.next == c)
    && Laid(m.out, m.at.fid, m.at.off) && Packed(m.out, o.dataFileSize)
    && (m.at.fid >= 1 ==> m.at.off > 0)
    && AtMost(m.at, SourceEnd(s.log, m.next))
    && m.at.fid < m.nonMerge
  }

  /** Every copied record carries the value its key had when the merge began, in no more bytes, from a scanned place. */
  ghost predicate Copied(s: Store)
    requires s.merge.Merge?
  {
    var m, before := s.merge, OldIndex(s);
    forall i :: 0 <= i < |m.out| ==>
      var k := KeyOf(m.out[i]);
      && k in before
      && before[k].value == m.out[i].rec.value
      && m.out[i].pos.size <= before[k].pos.size
      && Scanned(s.log, m.next, before[k].pos)
  }

  /** Every key whose record has been scanned was copied, or has been overwritten or deleted since the merge began. */
  ghost predicate Covered(s: Store)
    requires s.merge.Merge?
  {
    var m, before, since := s.merge, OldIndex(s), ImageOf(NewPart(s));
    forall k :: k in before && Scanned(s.log, m.next, before[k].pos) ==> HasKey(m.out, k) || k in since
  }

  ghost predicate MergeOk(o: Options, s: Store)
  {
    s.merge.Merge? ==>
      && MergeBounds(o, s)
      && MergedPart(s.merge.out, s.merge.hints)
      && Copied(s)
      && Covered(s)
      && NoCarry(OldPart(s), NewPart(s))
  }

  ghost predicate Inv(o: Options, s: Store)
  {
    LogOk(o, s) && IndexOk(s) && BaseOk(s) && MergeOk(o, s)
  }

  lemma {:induction false} InvParts(o: Options, s: Store)
    requires Inv(o, s)
    ensures LogOk(o, s) && IndexOk(s) && BaseOk(s) && MergeOk(o, s)
  {
  }

  lemma {:induction false} LogParts(o: Options, s: Store)
    requires LogOk(o, s)
    ensures Laid(s.log, s.active, s.writeOff) && Packed(s.log, o.dataFileSize) && Parses(s.log)
    ensures SplitAt(s.log, s.active) <= s.synced <= |s.log|
  {
  }

  lemma {:induction false} MergeParts(o: Options, s: Store)
    requires MergeOk(o, s) && s.merge.Merge?
    ensures MergeBounds(o, s) && MergedPart(s.merge.out, s.merge.hints)
    ensures Copied(s) && Covered(s) && NoCarry(OldPart(s), NewPart(s))
    ensures 1 <= s.merge.nonMerge <= s.active && s.merge.next <= SplitAt(s.log, s.merge.nonMerge)
  {
  }

  // ---- Steps that only grow the log ----

  /** A batch finished by the new records got its number after `s`. */
  ghost predicate FreshFinishes(s: Store, t: Store)
  {
    |s.log| <= |t.log| && forall i, q: nat :: |s.log| <= i < |t.log| && Finishes(t.log[i], q) ==> q >= s.seqNo
  }

  lemma {:induction false} GrownParts(s: Store, t: Store, fid: nat)
    requires Grows(s, t) && fid <= s.active
    ensures SplitAt(t.log, fid) == SplitAt(s.log, fid)
    ensures t.log[..SplitAt(t.log, fid)] == s.log[..SplitAt(s.log, fid)]
    ensures t.log[SplitAt(t.log, fid)..] == s.log[SplitAt(s.log, fid)..] + t.log[|s.log|..]
  {
    var more := t.log[|s.log|..];
    assert t.log == s.log + more;
    forall l | l in more ensures l.pos.fid >= fid {
      var i :| 0 <= i < |more| && more[i] == l;
      assert l == t.log[|s.log| + i];
    }
    SplitAppend(s.log, more, fid);
  }

  lemma {:induction false} GrowsBase(s: Store, t: Store)
    requires BaseOk(s) && Grows(s, t)
    ensures BaseOk(t)
  {
    hide MergedPart;
    GrownParts(s, t, s.base);
  }

  lemma {:induction false} ScannedGrows(s: Store, t: Store, n: nat, pos: Pos)
    requires s.log <= t.log && n <= |s.log|
    ensures Scanned(t.log, n, pos) <==> Scanned(s.log, n, pos)
  {
  }

  lemma {:induction false} GrowsMerge(o: Options, s: Store, t: Store)
    requires LogOk(o, s) && MergeOk(o, s) && Grows(s, t) && FreshFinishes(s, t)
    ensures MergeOk(o, t)
  {
    hide ViewOf, Laid, LogOk, MergedPart, Packed;
    if s.merge.Merge? {
      var m, c := s.merge, SplitAt(s.log, s.merge.nonMerge);
      GrownParts(s, t, m.nonMerge);
      assert OldPart(t) == OldPart(s);
      var more := t.log[|s.log|..];
      assert NewPart(t) == NewPart(s) + more;
      ImageGrows(NewPart(s), more);
      forall pos ensures Scanned(t.log, m.next, pos) <==> Scanned(s.log, m.next, pos) {
        ScannedGrows(s, t, m.next, pos);
      }
      assert SeqsBelow(OldPart(s), s.seqNo) by { LogOkSeqs(o, s); }
      PendingBelow(OldPart(s), s.seqNo);
      NoCarryGrows(OldPart(s), NewPart(s), more, s.seqNo, t.log, |s.log|);
    }
  }

  lemma {:induction false} NoCarryGrows(before: seq<Logged>, since: seq<Logged>, more: seq<Logged>, seqNo: nat,
      log: seq<Logged>, at: nat)
    requires NoCarry(before, since) && at <= |log| && more == log[at..]
    requires forall q :: q in Run(before).pending ==> q < seqNo
    requires forall i, q: nat :: at <= i < |log| && Finishes(log[i], q) ==> q >= seqNo
    ensures NoCarry(before, since + more)
  {
    hide Finishes, Run;
    forall l, q | l in since + more && q in Run(before).pending ensures !Finishes(l, q) {
      if l in more {
        var i :| 0 <= i < |more| && more[i] == l;
        assert l == log[at + i];
      }
    }
  }

  lemma {:induction false} GrowsInv(o: Options, s: Store, t: Store)
    requires Inv(o, s) && LogOk(o, t) && IndexOk(t) && Grows(s, t) && FreshFinishes(s, t)
    ensures Inv(o, t)
  {
    hide LogOk, IndexOk, MergeOk, BaseOk, Grows, FreshFinishes;
    GrowsBase(s, t);
    GrowsMerge(o, s, t);
  }

  // ---- The steps of the merge itself ----

  lemma {:induction false} MergeBeginInv(o: Options, s: Store)
    requires Inv(o, s)
    ensures Inv(o, MergeBegin(s))
  {
    if MergeBegin(s) != s {
      RotateInv(o, s);
    }
  }

  lemma {:induction false} RotateInv(o: Options, s: Store)
    requires Inv(o, s) && MergeBegin(s) != s
    ensures Inv(o, MergeBegin(s))
  {
    hide ViewOf, MergedPart, ImageOf, Inv, Parses, SeqsBelow, Packed, BaseOk;
    InvParts(o, s);
    var t := MergeBegin(s);
    LaidLater(s.log, s.active, s.writeOff, s.active + 1);
    SplitExact(s.log, s.active, s.writeOff, s.active + 1);
    if s.log != [] {
      LaidPrefix(s.log, s.active, s.writeOff, |s.log| - 1);
    }
    hide Laid;
    assert SplitAt(t.log, t.merge.nonMerge) == |t.log|;
    assert NewPart(t) == [];
    assert MergedPart([], []) by { EmptyMerged(); }
    assert LogOk(o, t);
    assert MergeOk(o, t) by {
      assert Laid([], 0, 0) by { EmptyLaid(); }
      assert Packed([], o.dataFileSize) by { EmptyLaid(); }
    }
    assert BaseOk(t) by { BaseOkRotate(s, t); }
    InvFromParts(o, t);
  }

  lemma {:induction false} EmptyLaid()
    ensures Laid([], 0, 0) && forall limit :: Packed([], limit)
  {
  }

  lemma {:induction false} BaseOkRotate(s: Store, t: Store)
    requires BaseOk(s) && t.log == s.log && t.base == s.base && t.hint == s.hint && s.active <= t.active
    ensures BaseOk(t)
  {
  }

  lemma {:induction false} InvFromParts(o: Options, s: Store)
    requires LogOk(o, s) && IndexOk(s) && BaseOk(s) && MergeOk(o, s)
    ensures Inv(o, s)
  {
  }

  lemma {:induction false} EmptyMerged()
    ensures MergedPart([], [])
  {
  }

  /** Rewriting never makes a record larger: the key loses its sequence number and gets a one-byte zero. */
  lemma {:induction false} MergedSize(l: Logged)
    requires ParseKey(l.rec.key).ParsedKey?
    ensures 0 < Size(MergedRecord(l)) <= Size(l.rec)
  {
    hide Varint.LengthOf;
    assert |Varint.Encode(NON_TRANSACTION)| == 1;
    Varint.LengthMonotone(|MergedRecord(l).key|, |l.rec.key|);
  }

  /** A step that does something reads the next source record and copies it exactly if it is live. */
  lemma {:induction false} StepReads(o: Options, s: Store)
    requires MergeStep(o, s) != s
    ensures s.merge.Merge? && !s.merge.finished && s.merge.next < SplitAt(s.log, s.merge.nonMerge) <= |s.log|
    ensures ParseKey(s.log[s.merge.next].rec.key).ParsedKey?
    ensures var m, l := s.merge, s.log[s.merge.next];
            MergeStep(o, s) == s.(merge := if IsLive(s.index, l) then CopyRecord(o, m, l) else m.(next := m.next + 1))
  {
    hide IsLive, CopyRecord;
  }

  /** The copy is placed by the rotation rule, and the writer stays where the source has been read up to, or before. */
  lemma {:induction false} CopyBounds(o: Options, m: MergeDir, l: Logged)
    requires m.Merge? && ParseKey(l.rec.key).ParsedKey? && l.pos.size == Size(l.rec) && Fits(o.dataFileSize, l.pos)
    requires Laid(m.out, m.at.fid, m.at.off) && Packed(m.out, o.dataFileSize) && (m.at.fid >= 1 ==> m.at.off > 0)
    requires AtMost(m.at, Cursor(l.pos.fid, l.pos.offset))
    ensures var m' := CopyRecord(o, m, l);
            && Laid(m'.out, m'.at.fid, m'.at.off) && Packed(m'.out, o.dataFileSize) && m'.at.off > 0
            && AtMost(m'.at, Cursor(l.pos.fid, l.pos.offset + l.pos.size))
  {
    hide ViewOf, Size, Laid, Packed, Fits, AtMost, ParseKey, MergedRecord;
    MergedSize(l);
    PlaceLaid(m.out, m.at, MergedRecord(l), o.dataFileSize);
    PlaceMonotone(m.at, Size(MergedRecord(l)), o.dataFileSize, l.pos);
  }

  lemma {:induction false} MergeStepBounds(o: Options, s: Store)
    requires Inv(o, s) && MergeStep(o, s) != s
    ensures MergeBounds(o, MergeStep(o, s))
  {
    hide ViewOf, Size, Inv, LogOk, MergeOk, Laid, Packed, IsLive, SplitAt, Fits, AtMost, SourceEnd, ParseKey,
      MergeStep, Place;
    StepReads(o, s);
    InvParts(o, s);
    LogParts(o, s);
    MergeParts(o, s);
    var m := s.merge;
    var l, m' := s.log[m.next], MergeStep(o, s).merge;
    SplitExact(s.log, s.active, s.writeOff, m.nonMerge);
    SourceBefore(s.log, s.active, s.writeOff, m.next, m.at);
    if IsLive(s.index, l) {
      LaidPrefix(s.log, s.active, s.writeOff, m.next);
      PackedAt(s.log, o.dataFileSize, m.next);
      CopyBounds(o, m, l);
    }
    SourceAfter(s.log, m.next, m'.at, m.nonMerge);
  }

  lemma {:induction false} PackedAt(log: seq<Logged>, limit: nat, i: nat)
    requires Packed(log, limit) && i < |log|
    ensures Fits(limit, log[i].pos)
  {
  }

  lemma {:induction false} SourceBefore(log: seq<Logged>, active: nat, off: nat, i: nat, at: Cursor)
    requires Laid(log, active, off) && i < |log| && AtMost(at, SourceEnd(log, i))
    ensures AtMost(at, Cursor(log[i].pos.fid, log[i].pos.offset))
  {
    hide Laid;
    LaidPrefix(log, active, off, i);
    if i > 0 {
      LaidAdjacent(log, active, off, i);
    }
  }

  lemma {:induction false} SourceAfter(log: seq<Logged>, i: nat, at: Cursor, nonMerge: nat)
    requires i < |log| && log[i].pos.fid < nonMerge
    requires AtMost(at, Cursor(log[i].pos.fid, log[i].pos.offset + log[i].pos.size))
          || AtMost(at, Cursor(log[i].pos.fid, log[i].pos.offset))
    ensures AtMost(at, SourceEnd(log, i + 1)) && at.fid < nonMerge
  {
  }

  /** An index entry points at a put of its key. */
  lemma {:induction false} IndexPoints(o: Options, s: Store, key: Bytes) returns (j: nat)
    requires LogOk(o, s) && IndexOk(s) && key in s.index
    ensures j < |s.log| && ViewOf(s.log[j]).update == Update(key, Normal, s.index[key])
    ensures s.index[key] == Slot(s.log[j].pos, s.log[j].rec.value) && s.log[j].rec.rtype.Normal?
  {
    hide ViewOf, LogOk;
    ReplayKnown(s.log);
    var u := Update(key, Normal, s.index[key]);
    var i :| 0 <= i < |s.log| && ViewOf(s.log[i]).update == u;
    ViewFields(s.log[i]);
    j := i;
  }

  lemma {:induction false} LiveSlot(o: Options, s: Store, i: nat)
    requires LogOk(o, s) && IndexOk(s) && i < |s.log| && IsLive(s.index, s.log[i])
    ensures s.index[KeyOf(s.log[i])] == Slot(s.log[i].pos, s.log[i].rec.value) && s.log[i].rec.rtype.Normal?
  {
    hide ViewOf, Laid, Packed;
    var j := IndexPoints(o, s, KeyOf(s.log[i]));
    LaidDistinct(s.log, s.active, s.writeOff, i, j);
  }

  /** The replay of the whole log is the replay of the new part over the replay of the old part. */
  lemma {:induction false} Halves(o: Options, s: Store)
    requires Inv(o, s) && s.merge.Merge?
    ensures s.log == OldPart(s) + NewPart(s)
    ensures s.index == Live(ImageOf(OldPart(s)) + ImageOf(NewPart(s)))
  {
    hide ViewOf, Live, LogOk, MergedPart, Covered, Copied, MergeBounds, NoCarry, BaseOk;
    assert s.log == OldPart(s) + NewPart(s);
    RunCompose(OldPart(s), NewPart(s));
  }

  /** Slots of the new part lie in files the merge does not read. */
  lemma {:induction false} NewSlots(o: Options, s: Store, key: Bytes)
    requires LogOk(o, s) && s.merge.Merge?
    requires key in Live(ImageOf(NewPart(s)))
    ensures Live(ImageOf(NewPart(s)))[key].pos.fid >= s.merge.nonMerge
  {
    hide ViewOf, Laid, Packed;
    var recent, c := NewPart(s), SplitAt(s.log, s.merge.nonMerge);
    ReplayKnown(recent);
    var u := Update(key, Normal, Live(ImageOf(recent))[key]);
    var n :| 0 <= n < |recent| && ViewOf(recent[n]).update == u;
    ViewFields(recent[n]);
    SplitExact(s.log, s.active, s.writeOff, s.merge.nonMerge);
    assert recent[n] == s.log[c + n];
  }

  /** What a live record tells: it is the put that its key had before the merge, and nothing newer touched the key. */
  lemma {:induction false} LiveIsOld(o: Options, s: Store, i: nat)
    requires Inv(o, s) && s.merge.Merge? && i < SplitAt(s.log, s.merge.nonMerge)
    requires IsLive(s.index, s.log[i])
    ensures var l := s.log[i];
            && l.rec.rtype.Normal?
            && KeyOf(l) in OldIndex(s)
            && OldIndex(s)[KeyOf(l)] == Slot(l.pos, l.rec.value)
  {
    hide ViewOf, MergedPart, Covered, Copied, MergeBounds, NoCarry, ImageOf, BaseOk;
    LiveSlot(o, s, i);
    Halves(o, s);
    var key := KeyOf(s.log[i]);
    SplitExact(s.log, s.active, s.writeOff, s.merge.nonMerge);
    if key in Live(ImageOf(NewPart(s))) {
      NewSlots(o, s, key);
    }
  }

  lemma {:induction false} ViewFields(l: Logged)
    ensures ViewOf(l).update.slot == Slot(l.pos, l.rec.value)
    ensures ViewOf(l).update.rtype.Normal? ==> l.rec.rtype.Normal?
    ensures ParseKey(l.rec.key).ParsedKey? ==> ViewOf(l).update.rtype == l.rec.rtype
  {
  }

  lemma {:induction false} RewrittenRecord(l: Logged, pos: Pos)
    requires l.rec.rtype.Normal?
    ensures var r := Logged(MergedRecord(l), pos);
            Rewritten(r) && KeyOf(r) == KeyOf(l) && r.rec.value == l.rec.value
  {
    hide ParseKey, EncodeKey;
    ViewOfEncoded(NON_TRANSACTION, KeyOf(l), l.rec.value, Normal, pos);
  }

  /** The position a key had before the merge is the place of a record of that key. */
  lemma {:induction false} OldPosition(o: Options, s: Store, i: nat, key: Bytes)
    requires Inv(o, s) && s.merge.Merge? && i < SplitAt(s.log, s.merge.nonMerge)
    requires key in OldIndex(s) && OldIndex(s)[key].pos == s.log[i].pos
    ensures KeyOf(s.log[i]) == key
  {
    hide ViewOf, Laid, MergedPart, Covered, Copied, MergeBounds;
    ReplayKnown(OldPart(s));
    var u := Update(key, Normal, OldIndex(s)[key]);
    var j :| 0 <= j < |OldPart(s)| && ViewOf(OldPart(s)[j]).update == u;
    ViewFields(s.log[j]);
    LaidDistinct(s.log, s.active, s.writeOff, i, j);
    KeyOfView(s.log[i]);
  }

  lemma {:induction false} ScannedNext(log: seq<Logged>, n: nat, pos: Pos)
    requires n < |log|
    ensures Scanned(log, n + 1, pos) <==> Scanned(log, n, pos) || log[n].pos == pos
  {
  }

  lemma {:induction false} SkipKeepsCopied(o: Options, s: Store)
    requires Inv(o, s) && MergeStep(o, s) != s && !IsLive(s.index, s.log[s.merge.next])
    ensures Copied(MergeStep(o, s))
  {
    var m, t := s.merge, MergeStep(o, s);
    StepReads(o, s);
    hide ViewOf, MergedPart, MergeBounds, LogOk, IsLive, KeyOf, BaseOk, ImageOf, MergeStep, Covered, NoCarry;
    assert OldPart(t) == OldPart(s);
    forall i | 0 <= i < |m.out| ensures Scanned(t.log, t.merge.next, OldIndex(t)[KeyOf(m.out[i])].pos) {
      ScannedNext(s.log, m.next, OldIndex(s)[KeyOf(m.out[i])].pos);
    }
  }

  lemma {:induction false} SkipKeepsCovered(o: Options, s: Store)
    requires Inv(o, s) && MergeStep(o, s) != s && !IsLive(s.index, s.log[s.merge.next])
    ensures Covered(MergeStep(o, s))
  {
    var m, t := s.merge, MergeStep(o, s);
    StepReads(o, s);
    hide ViewOf, MergedPart, MergeBounds, LogOk, IsLive, KeyOf, BaseOk, ImageOf, MergeStep, Copied, NoCarry, HasKey;
    assert OldPart(t) == OldPart(s) && NewPart(t) == NewPart(s);
    forall k | k in OldIndex(t) && Scanned(t.log, t.merge.next, OldIndex(t)[k].pos)
      ensures HasKey(t.merge.out, k) || k in ImageOf(NewPart(t))
    {
      ScannedNext(s.log, m.next, OldIndex(s)[k].pos);
      if !Scanned(s.log, m.next, OldIndex(s)[k].pos) {
        SkippedIsTouched(o, s, k);
      }
    }
  }

  lemma {:induction false} MergeStepSkip(o: Options, s: Store)
    requires Inv(o, s) && MergeStep(o, s) != s && !IsLive(s.index, s.log[s.merge.next])
    ensures Inv(o, MergeStep(o, s))
  {
    var m, t := s.merge, MergeStep(o, s);
    StepReads(o, s);
    MergeStepBounds(o, s);
    SkipKeepsCopied(o, s);
    SkipKeepsCovered(o, s);
    hide ViewOf, MergedPart, MergeBounds, LogOk, IsLive, BaseOk, ImageOf, MergeStep, Copied, Covered, NoCarry;
    assert OldPart(t) == OldPart(s) && NewPart(t) == NewPart(s);
    BaseOkMerge(s, t);
    LogOkMerge(o, s, t);
  }

  /** A record that is not live any more had its key overwritten or deleted since the merge began. */
  lemma {:induction false} SkippedIsTouched(o: Options, s: Store, k: Bytes)
    requires Inv(o, s) && s.merge.Merge? && s.merge.next < SplitAt(s.log, s.merge.nonMerge)
    requires !IsLive(s.index, s.log[s.merge.next])
    requires k in OldIndex(s) && OldIndex(s)[k].pos == s.log[s.merge.next].pos
    ensures k in ImageOf(NewPart(s))
  {
    OldPosition(o, s, s.merge.next, k);
    hide ViewOf, MergedPart, Covered, Copied, MergeBounds, LogOk, NoCarry, ImageOf, BaseOk;
    Halves(o, s);
  }

  lemma {:induction false} BaseOkMerge(s: Store, t: Store)
    requires BaseOk(s) && t == s.(merge := t.merge)
    ensures BaseOk(t)
  {
  }

  lemma {:induction false} LogOkMerge(o: Options, s: Store, t: Store)
    requires LogOk(o, s) && t == s.(merge := t.merge)
    ensures LogOk(o, t)
  {
  }

  /** A key is copied at most once: two copies would come from one place. */
  lemma {:induction false} NotCopiedYet(o: Options, s: Store, i: nat)
    requires Inv(o, s) && s.merge.Merge? && s.merge.next < SplitAt(s.log, s.merge.nonMerge)
    requires i < |s.merge.out|
    requires KeyOf(s.log[s.merge.next]) in OldIndex(s)
      && OldIndex(s)[KeyOf(s.log[s.merge.next])].pos == s.log[s.merge.next].pos
    ensures KeyOf(s.merge.out[i]) != KeyOf(s.log[s.merge.next])
  {
    hide ViewOf, Laid, MergedPart, Covered, MergeBounds, KeyOf, BaseOk;
    var n := s.merge.next;
    if KeyOf(s.merge.out[i]) == KeyOf(s.log[n]) {
      var j :| 0 <= j < n && j < |s.log| && s.log[j].pos == OldIndex(s)[KeyOf(s.log[n])].pos;
      LaidDistinct(s.log, s.active, s.writeOff, j, n);
    }
  }

  lemma {:induction false} MergedSnoc(ls: seq<Logged>, hints: seq<Hint>, l: Logged)
    requires MergedPart(ls, hints) && Rewritten(l)
    requires forall i :: 0 <= i < |ls| ==> KeyOf(ls[i]) != KeyOf(l)
    ensures MergedPart(ls + [l], hints + [Hint(KeyOf(l), l.pos)])
  {
    hide KeyOf, Rewritten;
  }

  lemma {:induction false} HasKeySnoc(ls: seq<Logged>, l: Logged, k: Bytes)
    ensures HasKey(ls + [l], k) <==> HasKey(ls, k) || KeyOf(l) == k
  {
    hide KeyOf;
    var all := ls + [l];
    if KeyOf(l) == k {
      assert KeyOf(all[|ls|]) == k;
    }
    if HasKey(ls, k) {
      var i :| 0 <= i < |ls| && KeyOf(ls[i]) == k;
      assert KeyOf(all[i]) == k;
    }
  }

  /** The copying step appends one rewritten record of the live key and its hint. */
  lemma {:induction false} CopyAppends(o: Options, s: Store)
    requires Inv(o, s) && MergeStep(o, s) != s && IsLive(s.index, s.log[s.merge.next])
    ensures var m, t, l := s.merge, MergeStep(o, s), s.log[s.merge.next];
            && t == s.(merge := t.merge) && t.merge.Merge? && t.merge.nonMerge == m.nonMerge
              && t.merge.next == m.next + 1
            && |t.merge.out| == |m.out| + 1
            && var r := t.merge.out[|m.out|];
            && t.merge.out == m.out + [r] && t.merge.hints == m.hints + [Hint(KeyOf(r), r.pos)]
            && Rewritten(r) && KeyOf(r) == KeyOf(l) && r.rec.value == l.rec.value && r.pos.size <= l.pos.size
  {
    hide ViewOf, MergedPart, Copied, Covered, BaseOk, IsLive, NoCarry, ImageOf, MergeStep, MergedRecord, Place;
    StepReads(o, s);
    var l, t := s.log[s.merge.next], MergeStep(o, s);
    KeyOfView(l);
    LiveIsOld(o, s, s.merge.next);
    RewrittenRecord(l, t.merge.out[|s.merge.out|].pos);
    MergedSize(l);
    LaidPrefix(s.log, s.active, s.writeOff, s.merge.next);
  }

  lemma {:induction false} CopyKeepsCopied(o: Options, s: Store)
    requires Inv(o, s) && MergeStep(o, s) != s && IsLive(s.index, s.log[s.merge.next])
    ensures Copied(MergeStep(o, s)) && MergedPart(MergeStep(o, s).merge.out, MergeStep(o, s).merge.hints)
  {
    var m, t, l := s.merge, MergeStep(o, s), s.log[s.merge.next];
    hide ViewOf, Inv, LogOk, MergeOk, MergedPart, MergeBounds, IsLive, KeyOf, Rewritten, ImageOf, MergeStep, Covered,
      Copied, NoCarry;
    StepReads(o, s);
    InvParts(o, s);
    MergeParts(o, s);
    CopyAppends(o, s);
    LiveIsOld(o, s, m.next);
    forall i | 0 <= i < |m.out| ensures KeyOf(m.out[i]) != KeyOf(l) {
      NotCopiedYet(o, s, i);
    }
    var r := t.merge.out[|m.out|];
    MergedSnoc(m.out, m.hints, r);
    CopiedSnoc(s, t, r);
  }

  /** One more copied record, from the place just scanned. */
  lemma {:induction false} CopiedSnoc(s: Store, t: Store, r: Logged)
    requires s.merge.Merge? && t == s.(merge := t.merge) && t.merge.Merge? && t.merge.nonMerge == s.merge.nonMerge
    requires Copied(s) && t.merge.out == s.merge.out + [r] && t.merge.next == s.merge.next + 1 && s.merge.next < |s.log|
    requires KeyOf(r) in OldIndex(s) && OldIndex(s)[KeyOf(r)].value == r.rec.value
    requires OldIndex(s)[KeyOf(r)].pos == s.log[s.merge.next].pos && r.pos.size <= OldIndex(s)[KeyOf(r)].pos.size
    ensures Copied(t)
  {
    hide KeyOf, ImageOf, Live;
    var n := s.merge.next;
    assert OldPart(t) == OldPart(s);
    ScannedNext(s.log, n, s.log[n].pos);
    forall i | 0 <= i < |t.merge.out|
      ensures var k := KeyOf(t.merge.out[i]);
              && k in OldIndex(t) && OldIndex(t)[k].value == t.merge.out[i].rec.value
              && t.merge.out[i].pos.size <= OldIndex(t)[k].pos.size
              && Scanned(t.log, t.merge.next, OldIndex(t)[k].pos)
    {
      if i < |s.merge.out| {
        assert t.merge.out[i] == s.merge.out[i];
        ScannedNext(s.log, n, OldIndex(s)[KeyOf(s.merge.out[i])].pos);
      }
    }
  }

  lemma {:induction false} CopyKeepsCovered(o: Options, s: Store)
    requires Inv(o, s) && MergeStep(o, s) != s && IsLive(s.index, s.log[s.merge.next])
    ensures Covered(MergeStep(o, s))
  {
    var m, t := s.merge, MergeStep(o, s);
    CopyAppends(o, s);
    hide ViewOf, MergedPart, MergeBounds, LogOk, IsLive, KeyOf, BaseOk, Rewritten, ImageOf, MergeStep, Copied,
      NoCarry, HasKey;
    assert OldPart(t) == OldPart(s) && NewPart(t) == NewPart(s);
    forall k | k in OldIndex(t) && Scanned(t.log, t.merge.next, OldIndex(t)[k].pos)
      ensures HasKey(t.merge.out, k) || k in ImageOf(NewPart(t))
    {
      HasKeySnoc(m.out, t.merge.out[|m.out|], k);
      ScannedNext(s.log, m.next, OldIndex(s)[k].pos);
      if !Scanned(s.log, m.next, OldIndex(s)[k].pos) {
        OldPosition(o, s, m.next, k);
      }
    }
  }

  lemma {:induction false} MergeStepCopy(o: Options, s: Store)
    requires Inv(o, s) && MergeStep(o, s) != s && IsLive(s.index, s.log[s.merge.next])
    ensures Inv(o, MergeStep(o, s))
  {
    hide ViewOf, Inv, LogOk, IndexOk, BaseOk, MergedPart, MergeBounds, IsLive, KeyOf, Rewritten, ImageOf, Copied,
      Covered, NoCarry, MergeStep;
    var t := MergeStep(o, s);
    StepReads(o, s);
    InvParts(o, s);
    MergeParts(o, s);
    MergeStepBounds(o, s);
    CopyAppends(o, s);
    CopyKeepsCopied(o, s);
    CopyKeepsCovered(o, s);
    assert OldPart(t) == OldPart(s) && NewPart(t) == NewPart(s);
    BaseOkMerge(s, t);
    LogOkMerge(o, s, t);
    IndexOkMerge(s, t);
    InvFromParts(o, t);
  }

  lemma {:induction false} IndexOkMerge(s: Store, t: Store)
    requires IndexOk(s) && t == s.(merge := t.merge)
    ensures IndexOk(t)
  {
  }

  lemma {:induction false} MergeStepInv(o: Options, s: Store)
    requires Inv(o, s)
    ensures Inv(o, MergeStep(o, s))
  {
    hide Inv;
    if MergeStep(o, s) != s {
      if IsLive(s.index, s.log[s.merge.next]) {
        MergeStepCopy(o, s);
      } else {
        MergeStepSkip(o, s);
      }
    }
  }

  lemma {:induction false} MergeFinishInv(o: Options, s: Store)
    requires Inv(o, s)
    ensures Inv(o, MergeFinish(s))
  {
    hide ViewOf, Laid, MergedPart, NoCarry, Packed;
  }

  /**
   * The packing bound: the merge never gets ahead of what it reads, so its files stay below the marker and an install
   * never overwrites a file written after the rotation.
   */
  lemma {:induction false} PackingBound(o: Options, s: Store)
    requires Inv(o, s) && s.merge.Merge?
    ensures AtMost(s.merge.at, SourceEnd(s.log, s.merge.next))
    ensures s.merge.at.fid < s.merge.nonMerge && forall i :: 0 <= i < |s.merge.out| ==>
      s.merge.out[i].pos.fid < s.merge.nonMerge
  {
    hide ViewOf, MergedPart, Copied, Covered, NoCarry, BaseOk, IndexOk, LogOk;
    var m := s.merge;
    forall i | 0 <= i < |m.out| ensures m.out[i].pos.fid < m.nonMerge {
      LaidPrefix(m.out, m.at.fid, m.at.off, i);
    }
  }
}
