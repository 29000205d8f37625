/**
 * The tombstone as the code writes it: `delete` logs the bare key, while replay strips a sequence number off every key.
 * The deletion of a live key therefore never survives a reopen; exactly the deletions that write nothing do.
 */
module Tombstone {
  import opened Wire
  import opened LogRecord
  import opened Replay
  import opened Layout
  import opened Store
  import opened Invariant
  import opened Merging
  import opened Reopening

  /** A raw tombstone is, to a replay, a deletion of some other key: at once, or as part of a batch nobody wrote. */
  lemma {:induction false} RawTombstoneView(key: Bytes, pos: Pos)
    requires key != []
    ensures ViewOf(Logged(Record(key, [], RecordType.Delete), pos)).update.key != key
    ensures 1 <= key[0] < 128 ==>
              ViewOf(Logged(Record(key, [], RecordType.Delete), pos)) ==
                View(key[0], Update(key[1..], RecordType.Delete, Slot(pos, [])))
  {
    RawKeyParse(key);
  }

  /** One more record, that is not a finishing record and names another key, leaves a key's slot alone. */
  lemma {:induction false} OtherKeyUnchanged(log: seq<Logged>, l: Logged, key: Bytes)
    requires ViewOf(l).update.key != key
    requires ViewOf(l).update.rtype.TxnFinished? ==> ViewOf(l).seqNo == NON_TRANSACTION
    ensures key in ImageOf(log + [l]) <==> key in ImageOf(log)
    ensures key in ImageOf(log) ==> ImageOf(log + [l])[key] == ImageOf(log)[key]
  {
    hide ViewOf;
    RunSnoc(log, l);
  }

  lemma {:induction false} DeleteLogs(o: Options, s: Store, key: Bytes)
    requires LogOk(o, s) && o.tombstone.RawKey? && key != [] && key in s.index
    ensures var t := DeleteKey(o, s, key);
            && |t.log| == |s.log| + 1
            && t.log == s.log + [t.log[|s.log|]]
            && t.log[|s.log|].rec == Record(key, [], RecordType.Delete)
            && t.log[|s.log|].pos.fid >= s.active
            && Laid(t.log, t.active, t.writeOff) && Packed(t.log, o.dataFileSize)
            && t.index == s.index - {key}
            && t.merge == s.merge && t.base == s.base && t.hint == s.hint && t.active >= s.active
  {
    hide ViewOf, ParseKey;
    PlaceLaid(s.log, Cursor(s.active, s.writeOff), Record(key, [], RecordType.Delete), o.dataFileSize);
  }

  /** The log a full reopen would load. */
  function Loaded(s: Store): seq<Logged>
  {
    Install(s).log
  }

  lemma {:induction false} LoadedSnoc(o: Options, s: Store, key: Bytes)
    requires Inv(o, s) && o.tombstone.RawKey? && key != [] && key in s.index
    ensures var t := DeleteKey(o, s, key);
            Loaded(t) == Loaded(s) + [t.log[|s.log|]]
  {
    hide ViewOf, Inv, LogOk, MergeOk, BaseOk, IndexOk, DeleteKey, SplitAt, Laid, Packed, Covered, Copied, MergedPart,
      NoCarry, MergeBounds;
    InvParts(o, s);
    var t := DeleteKey(o, s, key);
    DeleteLogs(o, s, key);
    if s.merge.Merge? && s.merge.finished {
      MergeParts(o, s);
      var c, l := SplitAt(s.log, s.merge.nonMerge), t.log[|s.log|];
      SplitAppend(s.log, [l], s.merge.nonMerge);
      assert (s.log + [l])[c..] == s.log[c..] + [l];
    }
  }

  /** Opening either fails or gives the index of the loaded log. */
  lemma {:induction false} OpenedIndex(o: Options, s: Store)
    requires Laid(s.log, s.active, s.writeOff) && Packed(s.log, o.dataFileSize)
    requires DiskParts(o, s) && ScanComplete(o, s)
    ensures Open(o, s).Some? ==> Open(o, s).value.index == Live(ImageOf(Loaded(s)))
  {
    var d := Install(s);
    if Open(o, s).Some? {
      hide ViewOf, MergedPart, Laid, Packed;
      assert Install(d) == d;
      ScanIsRun(o, d);
    }
  }

  /** The directory after `load_merge_files`, up to the parsing of its keys. */
  ghost predicate DiskParts(o: Options, s: Store)
  {
    var d := Install(s);
    Laid(d.log, d.active, EndOffset(d.log, d.active)) && BaseOk(d)
  }

  lemma {:induction false} InvDiskParts(o: Options, s: Store)
    requires Inv(o, s)
    ensures DiskParts(o, s)
  {
    assert LogOk(o, s) by { InvParts(o, s); }
    KillRemains(o, s);
    if s.merge.Merge? && s.merge.finished {
      hide Inv, Install, LogOk;
      InstallIs(o, s, s);
      InstalledDisk(o, s, s);
    } else {
      RemainsDisk(o, s, s);
    }
  }

  lemma {:induction false} SnocDiskParts(o: Options, s: Store, key: Bytes)
    requires Inv(o, s) && o.tombstone.RawKey? && key != [] && key in s.index
    ensures DiskParts(o, DeleteKey(o, s, key))
  {
    hide ViewOf, DeleteKey, Packed, Install, Open;
    DeleteLogs(o, s, key);
    LoadedSnoc(o, s, key);
    InvDiskParts(o, s);
    var t := DeleteKey(o, s, key);
    SnocInstall(o, s, t, t.log[|s.log|]);
  }

  lemma {:induction false} SnocLaid(o: Options, s: Store, l: Logged)
    requires Inv(o, s) && Laid(s.log, l.pos.fid, l.pos.offset) && l.pos.fid >= s.active
    ensures Laid(Install(s).log, l.pos.fid, l.pos.offset)
  {
    hide ViewOf, Packed, Copied, Covered, NoCarry, IndexOk, MergedPart, LogOk, BaseOk;
    if s.merge.Merge? && s.merge.finished {
      LaidReplace(s.log, l.pos.fid, l.pos.offset, s.merge.nonMerge, s.merge.out, s.merge.at);
    }
  }

  lemma {:induction false} SnocInstall(o: Options, s: Store, t: Store, l: Logged)
    requires Inv(o, s) && DiskParts(o, s)
    requires t.log == s.log + [l] && Laid(t.log, t.active, t.writeOff) && l.pos.fid >= s.active && t.active >= s.active
    requires t.merge == s.merge && t.base == s.base && t.hint == s.hint
    requires Install(t).log == Install(s).log + [l]
    ensures DiskParts(o, t)
  {
    hide ViewOf, Inv, MergedPart, Packed, SplitAt;
    var d, x := Install(t), Install(s).log;
    assert d.log[..|x|] == x;
    assert t.log[..|s.log|] == s.log;
    SnocLaid(o, s, l);
    assert Laid(d.log, t.active, EndOffset(d.log, t.active));
    assert d.base == Install(s).base && d.base <= s.active;
    SplitAppend(x, [l], d.base);
    assert d.log[..SplitAt(d.log, d.base)] == x[..SplitAt(x, d.base)];
  }

  /**
   * The code as written: after a delete, reopening shows the live map if and only if the key was not live, which is the
   * case in which `delete` returns early and writes nothing.
   */
  lemma {:induction false} RawDeleteExact(o: Options, s: Store, key: Bytes)
    requires Inv(o, s) && o.tombstone.RawKey? && key != []
    requires ScanComplete(o, s) && ScanComplete(o, DeleteKey(o, s, key))
    ensures var t := DeleteKey(o, s, key);
            (Open(o, t).Some? && ValuesOf(Open(o, t).value.index) == ValuesOf(t.index)) <==>
              key !in s.index
  {
    hide ViewOf, Open, Inv, ParseKey, Install, ScanComplete;
    var t := DeleteKey(o, s, key);
    MergeInvisible(o, s);
    assert LogOk(o, s) by { InvParts(o, s); }
    if key in s.index {
      hide LogOk, DeleteKey;
      DeleteLogs(o, s, key);
      LoadedSnoc(o, s, key);
      InvDiskParts(o, s);
      SnocDiskParts(o, s, key);
      OpenedIndex(o, t);
      assert Open(o, s).value.index ==
        Live(ImageOf(Loaded(s))) by { InvParts(o, s); LogParts(o, s); OpenedIndex(o, s); }
      var l := t.log[|s.log|];
      RawTombstoneView(key, l.pos);
      assert !ViewOf(l).update.rtype.TxnFinished? || ViewOf(l).seqNo == NON_TRANSACTION by { TombstoneType(l); }
      OtherKeyUnchanged(Loaded(s), l, key);
      assert key in ValuesOf(Open(o, s).value.index) by { assert key in ValuesOf(s.index); }
      assert key !in ValuesOf(t.index);
    }
  }

  lemma {:induction false} TombstoneType(l: Logged)
    requires l.rec.rtype.Delete?
    ensures !ViewOf(l).update.rtype.TxnFinished? || ViewOf(l).seqNo == NON_TRANSACTION
  {
  }

  /**
   * Worse, the tombstone of a key whose first byte is the next sequence number joins the next batch: replaying the log
   * after that batch deletes the rest of the key, a different key that no operation deleted.
   */
  lemma {:induction false} StrayDeletion(o: Options, s: Store, key: Bytes, items: seq<Item>)
    requires Inv(o, s) && o.tombstone.RawKey? && |key| >= 2 && key in s.index && key[1..] in s.index
    requires key[0] == s.seqNo && key[0] < 128
    requires ItemsOk(items) && items != [] && forall i :: 0 <= i < |items| ==> items[i].key != key[1..]
    ensures var u := Commit(o, DeleteKey(o, s, key), items, true, |items|);
            && key[1..] in u.index
            && key[1..] in ImageOf(u.log) && ImageOf(u.log)[key[1..]].None?
  {
    hide ViewOf, ParseKey, Append, LogOk, AppendItems;
    var t := DeleteKey(o, s, key);
    assert LogOk(o, s) by { InvParts(o, s); }
    LogOkSeq(o, s);
    DeleteLogs(o, s, key);
    var l := t.log[|s.log|];
    RawTombstoneView(key, l.pos);
    AppendKeeps(o, s, l.rec);
    RunSnoc(s.log, l);
    StepBuffers(Run(s.log), ViewOf(l));
    assert SeqsBelow(s.log, s.seqNo) by { LogOkSeqs(o, s); }
    PendingBelow(s.log, s.seqNo);
    var tomb := ViewOf(l).update;
    assert Pend(Run(t.log), s.seqNo) == [] + [tomb];
    BatchAfter(o, t, items, tomb);
  }

  lemma {:induction false} BatchAfter(o: Options, t: Store, items: seq<Item>, tomb: Update)
    requires ItemsOk(items) && items != [] && 0 < t.seqNo < U64_LIMIT
    requires Pend(Run(t.log), t.seqNo) == [tomb] && tomb.rtype.Delete? && tomb.key in t.index
    requires forall i :: 0 <= i < |items| ==> items[i].key != tomb.key
    ensures var u := Commit(o, t, items, true, |items|);
            && tomb.key in u.index
            && tomb.key in ImageOf(u.log) && ImageOf(u.log)[tomb.key].None?
  {
    hide ViewOf, Append, ParseKey, EncodeKey, ItemsOk, AppendItems, WriteBatch;
    var w, n, q := WriteBatch(o, t, items), |t.log|, t.seqNo;
    WriteBatchWrites(o, t, items);
    var ls, fin := w.log[n..n + |items|], w.log[n + |items|];
    assert w.log == t.log + ls + [fin];
    WroteBatch(w.log, n, q, items, |items|);
    BatchBuffered(t.log, ls, q);
    RunSnoc(t.log + ls, fin);
    var us := [tomb] + UpdatesOf(ls);
    forall i | 0 <= i < |items| ensures UpdatesOf(ls)[i].key != tomb.key {
      UpdatesOfKey(w.log, n, q, items, i);
    }
    StaysDeleted(Run(t.log).image, tomb, UpdatesOf(ls));
    InstallSpares(Sync(w), items, n, tomb.key);
  }

  lemma {:induction false} UpdatesOfKey(log: seq<Logged>, at: nat, seqNo: nat, items: seq<Item>, i: nat)
    requires Wrote(log, at, seqNo, items) && i < |items|
    ensures UpdatesOf(log[at..at + |items|])[i].key == items[i].key
  {
    hide ViewOf;
    UpdatesOfAt(log[at..at + |items|], i);
    assert log[at..at + |items|][i] == log[at + i];
  }

  lemma {:induction false} StaysDeleted(image: Image, tomb: Update, us: seq<Update>)
    requires tomb.rtype.Delete? && forall i :: 0 <= i < |us| ==> us[i].key != tomb.key
    ensures tomb.key in ApplyAll(image, [tomb] + us) && ApplyAll(image, [tomb] + us)[tomb.key].None?
  {
    var all := [tomb] + us;
    if us == [] {
      assert all[..0] == [] && all[0] == tomb;
    } else {
      assert all[..|all| - 1] == [tomb] + us[..|us| - 1];
      StaysDeleted(image, tomb, us[..|us| - 1]);
    }
  }

  lemma {:induction false} InstallSpares(s: Store, items: seq<Item>, at: nat, key: Bytes)
    requires at + |items| <= |s.log| && key in s.index
    requires forall i :: 0 <= i < |items| ==> items[i].key != key
    ensures key in InstallItems(s, items, at).index && InstallItems(s, items, at).log == s.log
    decreases |items|
  {
    if items != [] {
      InstallSpares(s, items[..|items| - 1], at, key);
    }
  }
}
