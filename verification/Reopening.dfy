/**
 * Restarts: what the opened engine holds after a kill or a power failure, and exactly when an installed merge loses
 * nothing.
 */
module Reopening {
  import opened Wire
  import opened LogRecord
  import opened Replay
  import opened Layout
  import opened Store
  import opened Invariant
  import opened Merging

  /** What opening needs to find in the data directory. */
  ghost predicate DiskOk(o: Options, s: Store)
  {
    && Laid(s.log, s.active, EndOffset(s.log, s.active))
    && Packed(s.log, o.dataFileSize)
    && Parses(s.log)
    && BaseOk(s)
    && s.merge.NoMerge?
    && SplitAt(s.log, s.active) <= s.synced <= |s.log|
  }

  /**
   * The opened engine: the index of the whole log, a sequence number above every one in it, the end of the active
   * file. What was not synced before is not synced now.
   */
  ghost predicate Reopened(disk: Store, t: Store)
  {
    && t.log == disk.log && t.active == disk.active && t.base == disk.base && t.hint == disk.hint
    && t.writeOff == EndOffset(disk.log, disk.active)
    && t.synced == disk.synced && t.bytesWrite == 0
    && t.index == Live(ImageOf(t.log))
    && t.reclaim == Run(t.log).reclaim
    && t.merge.NoMerge?
  }

  lemma {:induction false} OpenOk(o: Options, disk: Store)
    requires DiskOk(o, disk) && ScanComplete(o, disk)
    ensures Open(o, disk).Some?
    ensures Inv(o, Open(o, disk).value) && Reopened(disk, Open(o, disk).value)
  {
    hide ViewOf, Laid, MergedPart, Packed, Seen, ScanComplete;
    ScanIsRun(o, disk);
    MaxSeqIsMax(disk.log);
    var t := Open(o, disk).value;
    assert Run(t.log).maxSeq < t.seqNo;
    SeqsBelowMonotone(t.log, Run(t.log).maxSeq + 1, t.seqNo);
    assert Parses(disk.log[SplitAt(disk.log, disk.base)..]);
  }

  lemma {:induction false} SeqsBelowMonotone(log: seq<Logged>, a: nat, b: nat)
    requires SeqsBelow(log, a) && a <= b
    ensures SeqsBelow(log, b)
  {
    hide ViewOf;
  }

  // ---- What a restart finds ----

  /**
   * The data directory after the engine went away: a prefix of the log with every synced record in it. A kill leaves
   * all of it, a power failure any such prefix.
   */
  ghost predicate Remains(s: Store, d: Store)
  {
    && s.synced <= d.synced <= |d.log| <= |s.log|
    && d == s.(log := s.log[..|d.log|], synced := d.synced)
  }

  ghost predicate CanCut(s: Store, keep: nat)
  {
    s.synced <= keep <= |s.log|
  }

  lemma {:induction false} CutRemains(s: Store, keep: nat)
    requires CanCut(s, keep)
    ensures Remains(s, Cut(s, keep)) && Cut(s, keep).log == s.log[..keep]
  {
  }

  lemma {:induction false} KillRemains(o: Options, s: Store)
    requires LogOk(o, s)
    ensures Remains(s, s) && Remains(s, Sync(s)) && Sync(s).log == s.log
  {
    assert s.log[..|s.log|] == s.log;
  }

  lemma {:induction false} CutSplit(o: Options, s: Store, keep: nat, fid: nat)
    requires LogOk(o, s) && CanCut(s, keep) && fid <= s.active
    ensures SplitAt(s.log, fid) <= keep
    ensures SplitAt(s.log[..keep], fid) == SplitAt(s.log, fid)
    ensures s.log[..keep][..SplitAt(s.log, fid)] == s.log[..SplitAt(s.log, fid)]
  {
    hide Laid, Packed, Parses, SeqsBelow;
    SplitMonotone(s.log, fid, s.active);
    SplitPrefix(s.log, fid, keep);
  }

  lemma {:induction false} RemainsDisk(o: Options, s: Store, d: Store)
    requires Inv(o, s) && Remains(s, d)
    ensures DiskOk(o, d.(merge := NoMerge))
  {
    hide ViewOf, Laid, MergedPart, MergeOk;
    CutSplit(o, s, |d.log|, s.base);
    CutSplit(o, s, |d.log|, s.active);
    LaidCut(s.log, s.active, s.writeOff, |d.log|);
  }

  /** Opening with no finished merge: exactly the records that are there. */
  lemma {:induction false} OpenPlain(o: Options, s: Store, d: Store)
    requires Inv(o, s) && Remains(s, d) && !(s.merge.Merge? && s.merge.finished)
    requires ScanComplete(o, d)
    ensures Open(o, d).Some?
    ensures Inv(o, Open(o, d).value) && Reopened(d, Open(o, d).value)
  {
    hide Inv, DiskOk, Open, TailsLong, ToScan;
    RemainsDisk(o, s, d);
    OpenOk(o, d.(merge := NoMerge));
    SameInstall(o, d);
  }

  lemma {:induction false} SameInstall(o: Options, s: Store)
    requires !(s.merge.Merge? && s.merge.finished)
    ensures Open(o, s) == Open(o, s.(merge := NoMerge))
  {
  }

  // ---- Installing a finished merge ----

  function InstalledLog(s: Store, keep: nat): seq<Logged>
    requires s.merge.Merge? && SplitAt(s.log, s.merge.nonMerge) <= keep <= |s.log|
  {
    s.merge.out + s.log[SplitAt(s.log, s.merge.nonMerge)..keep]
  }

  /** The place in the installed log of a cut of the old one. */
  function InstalledAt(s: Store, n: nat): nat
    requires s.merge.Merge? && SplitAt(s.log, s.merge.nonMerge) <= n
  {
    |s.merge.out| + (n - SplitAt(s.log, s.merge.nonMerge))
  }

  function Installed(s: Store, d: Store): Store
    requires s.merge.Merge? && SplitAt(s.log, s.merge.nonMerge) <= d.synced <= |d.log| <= |s.log|
  {
    d.(log := InstalledLog(s, |d.log|), synced := InstalledAt(s, d.synced),
       base := s.merge.nonMerge, hint := s.merge.hints, merge := NoMerge)
  }

  lemma {:induction false} SplitBase(out: seq<Logged>, recent: seq<Logged>, fid: nat)
    requires forall i :: 0 <= i < |out| ==> out[i].pos.fid < fid
    requires forall l :: l in recent ==> l.pos.fid >= fid
    ensures SplitAt(out + recent, fid) == |out|
  {
    SplitAppend(out, recent, fid);
    if out != [] {
      assert out[|out| - 1].pos.fid < fid;
    }
  }

  /** The records of well laid files behind the split are in files from `fid` on. */
  lemma {:induction false} BehindSplit(log: seq<Logged>, active: nat, off: nat, fid: nat, keep: nat)
    requires Laid(log, active, off) && SplitAt(log, fid) <= keep <= |log|
    ensures forall l :: l in log[SplitAt(log, fid)..keep] ==> l.pos.fid >= fid
  {
    hide Laid;
    SplitExact(log, active, off, fid);
    var c := SplitAt(log, fid);
    forall l | l in log[c..keep] ensures l.pos.fid >= fid {
      var i :| 0 <= i < |log[c..keep]| && log[c..keep][i] == l;
      assert log[c + i] == l;
    }
  }

  lemma {:induction false} LaidUpTo(log: seq<Logged>, fid: nat, off: nat)
    requires Laid(log, fid, off)
    ensures forall i :: 0 <= i < |log| ==> log[i].pos.fid <= fid
  {
    hide Laid;
    forall i | 0 <= i < |log| ensures log[i].pos.fid <= fid {
      LaidPrefix(log, fid, off, i);
    }
  }

  lemma {:induction false} RecentFiles(o: Options, s: Store, keep: nat)
    requires Inv(o, s) && s.merge.Merge? && CanCut(s, keep) && SplitAt(s.log, s.merge.nonMerge) <= keep
    ensures forall l :: l in s.log[SplitAt(s.log, s.merge.nonMerge)..keep] ==> l.pos.fid >= s.merge.nonMerge
    ensures forall i :: 0 <= i < |s.merge.out| ==> s.merge.out[i].pos.fid < s.merge.nonMerge
  {
    hide ViewOf, MergedPart, Copied, Covered, NoCarry, BaseOk, IndexOk, Laid, Packed, Parses, SeqsBelow, SplitAt;
    BehindSplit(s.log, s.active, s.writeOff, s.merge.nonMerge, keep);
    assert MergeBounds(o, s);
    LaidUpTo(s.merge.out, s.merge.at.fid, s.merge.at.off);
  }

  /** The merge read only synced files. */
  lemma {:induction false} SplitSynced(o: Options, s: Store)
    requires Inv(o, s) && s.merge.Merge?
    ensures SplitAt(s.log, s.merge.nonMerge) <= s.synced <= |s.log|
  {
    hide ViewOf, Laid, MergedPart, Copied, Covered, NoCarry, BaseOk, IndexOk, Parses, SeqsBelow, Packed;
    assert CanCut(s, s.synced);
    CutSplit(o, s, s.synced, s.merge.nonMerge);
  }

  lemma {:induction false} InstallIs(o: Options, s: Store, d: Store)
    requires Inv(o, s) && s.merge.Merge? && s.merge.finished && Remains(s, d)
    ensures SplitAt(s.log, s.merge.nonMerge) <= s.synced
    ensures Install(d) == Installed(s, d)
  {
    hide Inv, Laid;
    SplitSynced(o, s);
    assert LogOk(o, s) && s.merge.nonMerge <= s.active by { InvParts(o, s); MergeParts(o, s); }
    CutSplit(o, s, |d.log|, s.merge.nonMerge);
    var c := SplitAt(s.log, s.merge.nonMerge);
    assert s.log[..|d.log|][c..] == s.log[c..|d.log|];
  }

  lemma {:induction false} InstalledDisk(o: Options, s: Store, d: Store)
    requires Inv(o, s) && s.merge.Merge? && s.merge.finished && Remains(s, d)
    ensures SplitAt(s.log, s.merge.nonMerge) <= s.synced
    ensures DiskOk(o, Installed(s, d))
    ensures EndOffset(InstalledLog(s, |d.log|), s.active) == EndOffset(d.log, s.active)
  {
    SplitSynced(o, s);
    InstalledEnds(o, s, |d.log|);
    InstalledParses(o, s, |d.log|);
    InstalledSynced(o, s, d);
    hide ViewOf, Copied, Covered, NoCarry, IndexOk, Laid, LogOk, MergedPart, Packed;
    var m, log := s.merge, InstalledLog(s, |d.log|);
    RecentFiles(o, s, |d.log|);
    SplitBase(m.out, s.log[SplitAt(s.log, m.nonMerge)..|d.log|], m.nonMerge);
    assert log[..|m.out|] == m.out;
  }

  /** The rewritten records and those of the newer files are well laid, and end where the newer ones end. */
  lemma {:induction false} InstalledEnds(o: Options, s: Store, keep: nat)
    requires Inv(o, s) && s.merge.Merge? && SplitAt(s.log, s.merge.nonMerge) <= s.synced && CanCut(s, keep)
    ensures EndOffset(InstalledLog(s, keep), s.active) == EndOffset(s.log[..keep], s.active)
    ensures Laid(InstalledLog(s, keep), s.active, EndOffset(InstalledLog(s, keep), s.active))
  {
    hide ViewOf, Copied, Covered, NoCarry, IndexOk, BaseOk, MergedPart;
    var m, c, log := s.merge, SplitAt(s.log, s.merge.nonMerge), InstalledLog(s, keep);
    CutSplit(o, s, keep, m.nonMerge);
    LaidCut(s.log, s.active, s.writeOff, keep);
    LaidReplace(s.log[..keep], s.active, EndOffset(s.log[..keep], s.active), m.nonMerge, m.out, m.at);
    assert s.log[..keep][c..] == s.log[c..keep];
    EndOffsetIsWriteOff(log, s.active, EndOffset(s.log[..keep], s.active));
  }

  /** What follows a synced record is in the newest file. */
  lemma {:induction false} SplitTop(o: Options, s: Store, n: nat)
    requires LogOk(o, s) && s.synced <= n <= |s.log|
    ensures forall i :: n <= i < |s.log| ==> s.log[i].pos.fid >= s.active
  {
    hide ViewOf, Packed, Parses, SeqsBelow, Laid;
    SplitExact(s.log, s.active, s.writeOff, s.active);
  }

  /** Every record below the newest file is still synced once the merge is installed. */
  lemma {:induction false} InstalledSynced(o: Options, s: Store, d: Store)
    requires Inv(o, s) && s.merge.Merge? && Remains(s, d) && SplitAt(s.log, s.merge.nonMerge) <= s.synced
    ensures SplitAt(InstalledLog(s, |d.log|), s.active) <= InstalledAt(s, d.synced) <= |InstalledLog(s, |d.log|)|
  {
    assert LogOk(o, s) by { InvParts(o, s); }
    SplitTop(o, s, d.synced);
    hide Inv, LogOk;
    SplitWithin(s.merge.out, s.log, SplitAt(s.log, s.merge.nonMerge), d.synced, |d.log|, s.active);
  }

  /** Two logs one after the other parse and fit if each does. */
  lemma {:induction false} JoinPacked(a: seq<Logged>, log: seq<Logged>, c: nat, keep: nat, limit: nat)
    requires c <= keep <= |log| && Parses(a) && Packed(a, limit) && Parses(log) && Packed(log, limit)
    ensures Parses(a + log[c..keep]) && Packed(a + log[c..keep], limit)
  {
    hide Fits, ParseKey;
    forall i | 0 <= i < |a| + keep - c
      ensures Fits(limit, (a + log[c..keep])[i].pos) && ParseKey((a + log[c..keep])[i].rec.key).ParsedKey?
    {
      if i < |a| {
        assert (a + log[c..keep])[i] == a[i];
      } else {
        assert (a + log[c..keep])[i] == log[c + i - |a|];
      }
    }
  }

  lemma {:induction false} MergedParses(ls: seq<Logged>, hints: seq<Hint>)
    requires MergedPart(ls, hints)
    ensures Parses(ls)
  {
    hide ViewOf, ParseKey;
    forall i | 0 <= i < |ls| ensures ParseKey(ls[i].rec.key).ParsedKey? {
      assert Rewritten(ls[i]);
    }
  }

  lemma {:induction false} InstalledParses(o: Options, s: Store, keep: nat)
    requires Inv(o, s) && s.merge.Merge? && SplitAt(s.log, s.merge.nonMerge) <= keep <= |s.log|
    ensures Parses(InstalledLog(s, keep)) && Packed(InstalledLog(s, keep), o.dataFileSize)
  {
    assert Parses(s.log) && Packed(s.log, o.dataFileSize) by {
      InvParts(o, s);
      LogParts(o, s);
    }
    assert MergedPart(s.merge.out, s.merge.hints) && Packed(s.merge.out, o.dataFileSize) by {
      hide ViewOf, Copied, Covered, NoCarry, IndexOk, Laid, BaseOk, LogOk, MergedPart, Packed;
      assert MergeBounds(o, s);
    }
    hide Inv, Parses, Packed, MergedPart;
    MergedParses(s.merge.out, s.merge.hints);
    JoinPacked(s.merge.out, s.log, SplitAt(s.log, s.merge.nonMerge), keep, o.dataFileSize);
  }

  /**
   * Opening after a finished merge: the rewritten records, then those of the newer files, and of the newer ones only
   * what was synced is on disk for good.
   */
  lemma {:induction false} OpenInstalled(o: Options, s: Store, d: Store)
    requires Inv(o, s) && s.merge.Merge? && s.merge.finished && Remains(s, d)
    requires ScanComplete(o, d)
    ensures SplitAt(s.log, s.merge.nonMerge) <= s.synced
    ensures Open(o, d).Some?
    ensures Inv(o, Open(o, d).value) && Reopened(Installed(s, d), Open(o, d).value)
  {
    hide Inv, TailsLong, ToScan, DiskOk, Reopened, Open;
    InstallIs(o, s, d);
    InstalledDisk(o, s, d);
    InstallTwice(o, Installed(s, d), d);
    SameScan(o, Installed(s, d), d);
    OpenOk(o, Installed(s, d));
  }

  lemma {:induction false} SameScan(o: Options, a: Store, b: Store)
    requires a == Install(b) && a.merge.NoMerge?
    ensures ScanComplete(o, a) <==> ScanComplete(o, b)
  {
    assert Install(a) == a;
  }

  lemma {:induction false} InstallTwice(o: Options, a: Store, b: Store)
    requires a == Install(b) && a.merge.NoMerge?
    ensures Open(o, a) == Open(o, b)
  {
    assert Install(a) == a;
  }

  // ---- Exactly when nothing is lost ----

  /** Keys that were live when the merge began and that it did not copy. */
  ghost predicate Skipped(s: Store, key: Bytes)
    requires s.merge.Merge?
  {
    key in OldIndex(s) && !HasKey(s.merge.out, key)
  }

  /** Every key the merge skipped is still overwritten or deleted by a record that survives. */
  ghost predicate SkippedCovered(s: Store, keep: nat)
    requires s.merge.Merge? && SplitAt(s.log, s.merge.nonMerge) <= keep <= |s.log|
  {
    forall k :: Skipped(s, k) ==> k in ImageOf(s.log[SplitAt(s.log, s.merge.nonMerge)..keep])
  }

  lemma {:induction false} HalvesAt(o: Options, s: Store, keep: nat)
    requires Inv(o, s) && s.merge.Merge? && SplitAt(s.log, s.merge.nonMerge) <= keep <= |s.log|
    ensures var recent := s.log[SplitAt(s.log, s.merge.nonMerge)..keep];
            && ImageOf(s.log[..keep]) == ImageOf(OldPart(s)) + ImageOf(recent)
            && ImageOf(InstalledLog(s, keep)) == ImageOf(s.merge.out) + ImageOf(recent)
  {
    hide ViewOf, Laid, LogOk, Copied, Covered, MergeBounds, BaseOk, MergedPart, Run;
    var c := SplitAt(s.log, s.merge.nonMerge);
    var recent := s.log[c..keep];
    assert s.log[..keep] == OldPart(s) + recent;
    assert NoCarry(OldPart(s), recent) by {
      assert forall l :: l in recent ==> l in NewPart(s);
    }
    RunCompose(OldPart(s), recent);
    MergedImage(s.merge.out, s.merge.hints);
    assert NoCarry(s.merge.out, recent);
    RunCompose(s.merge.out, recent);
  }

  /**
   * The values of two images over a common newer part agree exactly when they agree on the keys the newer part leaves
   * alone.
   */
  lemma {:induction false} OverrideValues(a: Image, b: Image, recent: Image)
    requires forall k :: k in Live(a) && k in Live(b) ==> Live(a)[k].value == Live(b)[k].value
    requires Live(a).Keys <= Live(b).Keys
    ensures ValuesOf(Live(a + recent)) == ValuesOf(Live(b + recent))
            <==> forall k :: k in Live(b) && k !in Live(a) ==> k in recent
  {
    var x, y := ValuesOf(Live(a + recent)), ValuesOf(Live(b + recent));
    if forall k :: k in Live(b) && k !in Live(a) ==> k in recent {
      forall k ensures (k in x <==> k in y) && (k in x ==> x[k] == y[k]) {
        if k !in recent {
          assert k in x <==> k in Live(a);
          assert k in y <==> k in Live(b);
        }
      }
      assert x == y;
    } else {
      var k :| k in Live(b) && k !in Live(a) && k !in recent;
      assert k in y && k !in x;
    }
  }

  /** The index of the rewritten records: a part of the old index, with the same values. */
  lemma {:induction false} OutIndex(o: Options, s: Store)
    requires Inv(o, s) && s.merge.Merge?
    ensures var out := Live(ImageOf(s.merge.out));
            && (forall k :: k in out <==> HasKey(s.merge.out, k))
            && (forall k :: k in out ==> k in OldIndex(s) && out[k].value == OldIndex(s)[k].value)
  {
    hide ViewOf, Laid, LogOk, Covered, MergeBounds, BaseOk, KeyOf, Run, NoCarry;
    MergedImage(s.merge.out, s.merge.hints);
    var out := Live(ImageOf(s.merge.out));
    forall k | HasKey(s.merge.out, k)
      ensures k in out && k in OldIndex(s) && out[k].value == OldIndex(s)[k].value
    {
      var i :| 0 <= i < |s.merge.out| && KeyOf(s.merge.out[i]) == k;
    }
  }

  /**
   * Installing a finished merge gives exactly the map of the records that are there if and only if every key the
   * merge skipped is touched by one of the newer records that are there. The code does not make sure of that: it
   * never syncs the active file before the marker is written (see `LostKey`).
   */
  lemma {:induction false} InstallExact(o: Options, s: Store, d: Store)
    requires Inv(o, s) && s.merge.Merge? && s.merge.finished && Remains(s, d)
    requires ScanComplete(o, d)
    ensures SplitAt(s.log, s.merge.nonMerge) <= s.synced
    ensures Open(o, d).Some?
    ensures ValuesOf(Open(o, d).value.index) == ValuesOf(Live(ImageOf(d.log))) <==> SkippedCovered(s, |d.log|)
  {
    OpenInstalled(o, s, d);
    hide Inv, Open, KeyOf, HasKey, SkippedCovered;
    InstalledExact(o, s, |d.log|);
  }

  /** The map of the installed log is that of the log before it exactly when the skipped keys are covered. */
  lemma {:induction false} InstalledExact(o: Options, s: Store, n: nat)
    requires Inv(o, s) && s.merge.Merge? && SplitAt(s.log, s.merge.nonMerge) <= n <= |s.log|
    ensures ValuesOf(Live(ImageOf(InstalledLog(s, n)))) == ValuesOf(Live(ImageOf(s.log[..n]))) <==> SkippedCovered(s, n)
  {
    hide Inv, KeyOf, HasKey;
    HalvesAt(o, s, n);
    OutIndex(o, s);
    var recent := s.log[SplitAt(s.log, s.merge.nonMerge)..n];
    OverrideValues(ImageOf(s.merge.out), ImageOf(OldPart(s)), ImageOf(recent));
  }

  /** With nothing lost, a finished merge always covers what it skipped. */
  lemma {:induction false} FinishedCovers(o: Options, s: Store)
    requires Inv(o, s) && s.merge.Merge? && s.merge.finished
    ensures SkippedCovered(s, |s.log|)
  {
    hide ViewOf, Laid, Copied, MergedPart, BaseOk, HasKey;
    var c := SplitAt(s.log, s.merge.nonMerge);
    assert s.log[c..|s.log|] == NewPart(s);
    ReplayKnown(OldPart(s));
    forall k | Skipped(s, k) ensures k in ImageOf(NewPart(s)) {
      var u := Update(k, Normal, OldIndex(s)[k]);
      var j :| 0 <= j < |OldPart(s)| && ViewOf(OldPart(s)[j]).update == u;
      ViewFields(OldPart(s)[j]);
      assert s.log[j].pos == OldIndex(s)[k].pos;
      assert Scanned(s.log, s.merge.next, OldIndex(s)[k].pos);
    }
  }

  /** Once covered at some length, covered at every longer one. */
  lemma {:induction false} CoveredGrows(o: Options, s: Store, m: nat, n: nat)
    requires s.merge.Merge? && SplitAt(s.log, s.merge.nonMerge) <= m <= n <= |s.log|
    requires SkippedCovered(s, m)
    ensures SkippedCovered(s, n)
  {
    hide ViewOf, Skipped;
    var c := SplitAt(s.log, s.merge.nonMerge);
    assert s.log[c..n] == s.log[c..m] + s.log[m..n];
    ImageGrows(s.log[c..m], s.log[m..n]);
  }

  /** After this power failure the engine opens and shows the map of the records that are left. */
  ghost predicate Faithful(o: Options, s: Store, keep: nat)
    requires keep <= |s.log|
  {
    Crash(o, s, keep).Some? && ValuesOf(Crash(o, s, keep).value.index) == ValuesOf(Live(ImageOf(s.log[..keep])))
  }

  /** The opening scan sees every record, whatever a power failure leaves. */
  ghost predicate FailuresScan(o: Options, s: Store)
  {
    forall keep: nat :: CanCut(s, keep) ==> ScanComplete(o, Cut(s, keep))
  }

  /**
   * No power failure under a finished merge loses a key if and only if the synced records cover the skipped keys,
   * which can be looked up before any failure.
   */
  lemma {:induction false} NoFailureLoses(o: Options, s: Store)
    requires Inv(o, s) && s.merge.Merge? && s.merge.finished && FailuresScan(o, s)
    ensures SplitAt(s.log, s.merge.nonMerge) <= s.synced <= |s.log|
    ensures (forall keep: nat :: CanCut(s, keep) ==> Faithful(o, s, keep)) <==> SkippedCovered(s, s.synced)
  {
    SplitSynced(o, s);
    hide Inv, ScanComplete, SkippedCovered, Crash, ValuesOf;
    assert CanCut(s, s.synced);
    forall keep: nat | CanCut(s, keep)
      ensures Faithful(o, s, keep) <==> SkippedCovered(s, keep)
      ensures SkippedCovered(s, s.synced) ==> SkippedCovered(s, keep)
    {
      FailureExact(o, s, keep);
      if SkippedCovered(s, s.synced) {
        CoveredGrows(o, s, s.synced, keep);
      }
    }
  }

  /** One power failure under a finished merge. */
  lemma {:induction false} FailureExact(o: Options, s: Store, keep: nat)
    requires Inv(o, s) && s.merge.Merge? && s.merge.finished && CanCut(s, keep) && ScanComplete(o, Cut(s, keep))
    ensures SplitAt(s.log, s.merge.nonMerge) <= keep
    ensures Faithful(o, s, keep) <==> SkippedCovered(s, keep)
  {
    hide Inv, ScanComplete, SkippedCovered, Open, ValuesOf, Live, ImageOf;
    CutRemains(s, keep);
    InstallExact(o, s, Cut(s, keep));
  }

  /** A kill under a finished merge: everything is there and the live map is unchanged. */
  lemma {:induction false} KillInstalled(o: Options, s: Store)
    requires Inv(o, s) && s.merge.Merge? && s.merge.finished && ScanComplete(o, s)
    ensures SplitAt(s.log, s.merge.nonMerge) <= s.synced <= |s.log| && Open(o, s).Some?
    ensures var t := Open(o, s).value;
            && Inv(o, t) && t.merge.NoMerge? && t.log == InstalledLog(s, |s.log|)
            && t.synced == InstalledAt(s, s.synced)
            && ValuesOf(t.index) == ValuesOf(s.index)
  {
    InvParts(o, s);
    hide Inv, Open, SkippedCovered, ScanComplete, LogOk, MergeOk, BaseOk;
    KillRemains(o, s);
    OpenInstalled(o, s, s);
    FinishedCovers(o, s);
    InstallExact(o, s, s);
  }

  /**
   * A kill loses nothing at once, but what was not synced is still not synced when the merge has been installed: a
   * power failure then keeps the map of the records it leaves under exactly the condition there was before the
   * install.
   */
  lemma {:induction false} InstallThenFailure(o: Options, s: Store, n: nat, t: Store, keep: nat)
    requires Inv(o, s) && s.merge.Merge? && s.merge.finished && ScanComplete(o, s) && CanCut(s, n)
    requires Open(o, s) == Some(t) && keep + |s.log| == |t.log| + n && ScanComplete(o, Cut(t, keep))
    ensures SplitAt(s.log, s.merge.nonMerge) <= n && CanCut(t, keep) && t.log[..keep] == InstalledLog(s, n)
    ensures ValuesOf(t.index) == ValuesOf(s.index)
    ensures Crash(o, t, keep).Some?
    ensures ValuesOf(Crash(o, t, keep).value.index) == ValuesOf(Live(ImageOf(s.log[..n]))) <==> SkippedCovered(s, n)
  {
    hide Inv, Open, SkippedCovered, ScanComplete, ValuesOf, Live, ImageOf;
    KillInstalled(o, s);
    InstalledExact(o, s, n);
    FailurePlain(o, t, keep);
  }

  /** A power failure with no finished merge around. */
  lemma {:induction false} FailurePlain(o: Options, s: Store, keep: nat)
    requires Inv(o, s) && CanCut(s, keep) && !(s.merge.Merge? && s.merge.finished) && ScanComplete(o, Cut(s, keep))
    ensures Crash(o, s, keep).Some?
    ensures Inv(o, Crash(o, s, keep).value) && Reopened(Cut(s, keep), Crash(o, s, keep).value)
  {
    hide Inv, Open, ScanComplete;
    CutRemains(s, keep);
    OpenPlain(o, s, Cut(s, keep));
  }

  /**
   * The merge is invisible: opening after the marker, with every record in place, gives exactly the live map, whatever
   * operations ran between the copy steps; opening before it discards the merge and gives the live map as well.
   */
  lemma {:induction false} MergeInvisible(o: Options, s: Store)
    requires Inv(o, s) && ScanComplete(o, s)
    ensures Open(o, s).Some?
    ensures Inv(o, Open(o, s).value)
    ensures ValuesOf(Open(o, s).value.index) == ValuesOf(s.index)
  {
    if s.merge.Merge? && s.merge.finished {
      KillInstalled(o, s);
    } else {
      InvParts(o, s);
      hide Inv, Open, ScanComplete, LogOk, MergeOk, BaseOk;
      KillRemains(o, s);
      OpenPlain(o, s, s);
    }
  }
}
