/** Opening an engine on a directory: installing a finished merge, choosing the active file, loading the index. */
module Startup {
  import opened Wire
  import opened LogRecord
  import opened Replay
  import opened Layout
  import opened Store
  import Machine = Store
  import opened DataFile
  import opened Directory
  import opened Indexer
  import opened Loading
  import opened Db
  import opened Invariant
  import opened Merging

  /** What a merge left beside the data directory; the marker is None until the merge finished. */
  datatype MergeFiles = MergeFiles(files: map<nat, Bytes>, durable: map<nat, nat>, hint: Bytes, marker: Option<nat>)

  function FileLengths(files: map<nat, Bytes>): map<nat, nat>
  {
    map f | f in files :: |files[f]|
  }

  /** A data directory with its hint file and marker, and the merge directory next to it. */
  class Home {
    const disk: Disk
    var hint: Option<Bytes>
    var marker: Option<nat>
    var mergeDir: Option<MergeFiles>

    constructor (disk: Disk)
      ensures this.disk == disk && hint == None && marker == None && mergeDir == None
    {
      this.disk, hint, marker, mergeDir := disk, None, None, None;
    }
  }

  ghost predicate DiskIs(crc: Checksum, files: map<nat, Bytes>, s: Store)
  {
    && Holds(crc, files, s.log) && AllReadable(s.log)
    && Laid(s.log, s.active, EndOffset(s.log, s.active))
    && Newest(files, s.active) && FilesAre(files, s)
  }

  ghost predicate SpecialsAre(crc: Checksum, hint: Option<Bytes>, marker: Option<nat>, s: Store)
  {
    && HintsReadable(s.hint)
    && (hint.None? ==> s.hint == [])
    && (hint.Some? ==> hint.value == EncodeAll(crc, HintRecords(s.hint)))
    && marker == if s.base == 0 then None else Some(s.base)
  }

  /** Every record below the newest file is synced, and of every file exactly the synced records are durable. */
  ghost predicate DurableAs(crc: Checksum, files: map<nat, Bytes>, durable: map<nat, nat>, s: Store)
  {
    SplitAt(s.log, s.active) <= s.synced <= |s.log| && durable.Keys == files.Keys && DurableIs(crc, durable, s)
  }

  /**
   * The rewritten records stay below the files the merge did not touch, and the merge directory holds them; all of
   * them are durable once the marker is there.
   */
  ghost predicate MergeIs(crc: Checksum, dir: Option<MergeFiles>, m: MergeDir)
  {
    match m
    case NoMerge => dir == None
    case Merge(nonMerge, _, out, at, hints, finished) =>
      && dir.Some?
      && Holds(crc, dir.value.files, out) && AllReadable(out) && Laid(out, at.fid, at.off)
      && at.fid < nonMerge && HintsReadable(hints)
      && dir.value.hint == EncodeAll(crc, HintRecords(hints))
      && dir.value.marker == (if finished then Some(nonMerge) else None)
      && (finished ==> dir.value.durable == FileLengths(dir.value.files))
  }

  ghost predicate Keeps(crc: Checksum, home: Home, s: Store)
    reads home, home.disk
  {
    && DiskIs(crc, home.disk.files, s)
    && DurableAs(crc, home.disk.files, home.disk.durable, s)
    && SpecialsAre(crc, home.hint, home.marker, s)
    && MergeIs(crc, home.mergeDir, s.merge)
    && (s.merge.Merge? ==> s.base <= s.merge.nonMerge <= s.active)
  }

  // ---- Installing a merge ----

  /** The files after an install: the old ones from the marker on, and the merged ones that hold anything. */
  function InstalledFiles(files: map<nat, Bytes>, merged: map<nat, Bytes>, nonMerge: nat): map<nat, Bytes>
  {
    (map f | f in files && f >= nonMerge :: files[f]) + (map f | f in merged && merged[f] != [] :: merged[f])
  }

  lemma {:induction false} NoBytesNoRecords(crc: Checksum, rs: seq<Record>)
    ensures EncodeAll(crc, rs) == [] <==> rs == []
  {
  }

  /** The records of the rewritten files and of the newer ones, file by file. */
  lemma {:induction false} InstalledFile(s: Store, f: nat)
    requires s.merge.Merge? && Laid(s.log, s.active, EndOffset(s.log, s.active))
    requires Laid(s.merge.out, s.merge.at.fid, s.merge.at.off) && s.merge.at.fid < s.merge.nonMerge
    ensures var m := s.merge;
            FileOf(m.out + s.log[SplitAt(s.log, m.nonMerge)..], f) == if f < m.nonMerge then FileOf(m.out, f)
              else FileOf(s.log, f)
  {
    hide Laid, FileOf;
    var m, c := s.merge, SplitAt(s.log, s.merge.nonMerge);
    var old', new' := s.log[..c], s.log[c..];
    SplitExact(s.log, s.active, EndOffset(s.log, s.active), m.nonMerge);
    FileOfAppend(m.out, new', f);
    FileOfAppend(old', new', f);
    assert s.log == old' + new';
    FileOfNothing(new', f);
    FileOfNothing(old', f);
    if f >= m.nonMerge {
      FileBeyond(m.out, m.at.fid, m.at.off, f);
      assert [] + FileOf(new', f) == FileOf(new', f);
    } else {
      assert FileOf(m.out, f) + [] == FileOf(m.out, f);
    }
  }

  /** The merged files that hold anything are those of the rewritten records, all below the marker. */
  lemma {:induction false} OutBelow(crc: Checksum, dir: MergeFiles, m: MergeDir)
    requires m.Merge? && MergeIs(crc, Some(dir), m)
    ensures forall f: nat :: FileOf(m.out, f) != [] <==> f in dir.files && dir.files[f] != []
    ensures forall f: nat :: FileOf(m.out, f) != [] ==> f < m.nonMerge
  {
    hide Laid, FileOf, EncodeAll, HintsReadable, HintRecords, AllReadable;
    RecordsInFiles(m.out, dir.files.Keys);
    forall f: nat
      ensures FileOf(m.out, f) != [] <==> f in dir.files && dir.files[f] != []
      ensures FileOf(m.out, f) != [] ==> f < m.nonMerge
    {
      NoBytesNoRecords(crc, FileOf(m.out, f));
      if f > m.at.fid {
        FileBeyond(m.out, m.at.fid, m.at.off, f);
      }
    }
  }

  lemma {:induction false} ReadableParts(a: seq<Logged>, log: seq<Logged>, c: nat)
    requires AllReadable(a) && AllReadable(log) && c <= |log|
    ensures AllReadable(a + log[c..])
  {
    hide Storable;
    forall l | l in a + log[c..] ensures l in a || l in log {
    }
  }

  lemma {:induction false} InstallHolds(crc: Checksum, files: map<nat, Bytes>, dir: MergeFiles, s: Store)
    requires DiskIs(crc, files, s) && MergeIs(crc, Some(dir), s.merge) && s.merge.Merge?
    requires s.merge.nonMerge <= s.active
    ensures var log := s.merge.out + s.log[SplitAt(s.log, s.merge.nonMerge)..];
            Holds(crc, InstalledFiles(files, dir.files, s.merge.nonMerge), log) && AllReadable(log)
  {
    hide Laid, FileOf, EncodeAll, SplitAt, Newest, FilesAre, HintRecords, HintsReadable, AllReadable;
    var m, c := s.merge, SplitAt(s.log, s.merge.nonMerge);
    var log, after := m.out + s.log[c..], InstalledFiles(files, dir.files, m.nonMerge);
    OutBelow(crc, dir, m);
    ReadableParts(m.out, s.log, c);
    RecordsInFiles(s.log, files.Keys);
    forall f: nat
      ensures FileOf(log, f) != [] ==> f in after
      ensures f in after ==> after[f] == EncodeAll(crc, FileOf(log, f))
    {
      InstalledFile(s, f);
    }
    RecordsInFiles(log, after.Keys);
  }

  lemma {:induction false} InstallDisk(crc: Checksum, files: map<nat, Bytes>, dir: MergeFiles, s: Store)
    requires DiskIs(crc, files, s) && MergeIs(crc, Some(dir), s.merge) && s.merge.Merge? && s.merge.finished
    requires s.base <= s.merge.nonMerge <= s.active
    ensures DiskIs(crc, InstalledFiles(files, dir.files, s.merge.nonMerge), Install(s))
  {
    InstallHolds(crc, files, dir, s);
    InstallFilesAre(crc, files, dir, s);
    hide Holds, AllReadable, FilesAre, Newest, InstalledFiles, FileOf, EncodeAll, HintRecords, HintsReadable;
    var m, t := s.merge, Install(s);
    LaidReplace(s.log, s.active, EndOffset(s.log, s.active), m.nonMerge, m.out, m.at);
    EndOffsetIsWriteOff(t.log, s.active, EndOffset(s.log, s.active));
  }

  lemma {:induction false} InstallFilesAre(crc: Checksum, files: map<nat, Bytes>, dir: MergeFiles, s: Store)
    requires DiskIs(crc, files, s) && MergeIs(crc, Some(dir), s.merge) && s.merge.Merge? && s.merge.finished
    requires s.base <= s.merge.nonMerge <= s.active
    ensures FilesAre(InstalledFiles(files, dir.files, s.merge.nonMerge), Install(s))
    ensures Newest(InstalledFiles(files, dir.files, s.merge.nonMerge), s.active)
  {
    hide Laid, FileOf, EncodeAll, SplitAt, Holds, AllReadable, HintRecords, HintsReadable;
    var m, t, after := s.merge, Install(s), InstalledFiles(files, dir.files, s.merge.nonMerge);
    OutBelow(crc, dir, m);
    forall f: nat ensures f in after <==> m.nonMerge <= f <= s.active || FileOf(t.log, f) != [] {
      InstalledFile(s, f);
    }
  }

  /** What is durable after an install. */
  function InstalledDurable(durable: map<nat, nat>, dir: MergeFiles, nonMerge: nat): map<nat, nat>
    requires dir.durable.Keys == dir.files.Keys
  {
    (map f | f in durable && f >= nonMerge :: durable[f]) + (map f | f in dir.files && dir.files[f] != [] ::
      dir.durable[f])
  }

  /** The synced records of the installed log, file by file. */
  lemma {:induction false} InstalledSyncedFile(s: Store, f: nat)
    requires s.merge.Merge? && Laid(s.log, s.active, EndOffset(s.log, s.active))
    requires Laid(s.merge.out, s.merge.at.fid, s.merge.at.off) && s.merge.at.fid < s.merge.nonMerge <= s.active
    requires SplitAt(s.log, s.active) <= s.synced <= |s.log|
    ensures SplitAt(s.log, s.merge.nonMerge) <= s.synced
    ensures FileOf(s.merge.out + s.log[SplitAt(s.log, s.merge.nonMerge)..s.synced], f) ==
            if f < s.merge.nonMerge then FileOf(s.merge.out, f) else FileOf(s.log[..s.synced], f)
  {
    hide Laid, FileOf;
    var m, n := s.merge, s.synced;
    SplitMonotone(s.log, m.nonMerge, s.active);
    SplitPrefix(s.log, m.nonMerge, n);
    LaidCut(s.log, s.active, EndOffset(s.log, s.active), n);
    assert s.log[..n][SplitAt(s.log, m.nonMerge)..] == s.log[SplitAt(s.log, m.nonMerge)..n];
    InstalledFile(s.(log := s.log[..n]), f);
  }

  /** What is left of a cut when the records before place `c` were replaced. */
  lemma {:induction false} ReplacedCut(out: seq<Logged>, log: seq<Logged>, c: nat, n: nat)
    requires c <= n <= |log|
    ensures log[c..|log|] == log[c..]
    ensures (out + log[c..])[..|out| + (n - c)] == out + log[c..n]
  {
    assert log[c..][..n - c] == log[c..n];
  }

  lemma {:induction false} InstallSynced(s: Store)
    requires s.merge.Merge? && s.merge.finished && Laid(s.log, s.active, EndOffset(s.log, s.active))
    requires s.merge.nonMerge <= s.active && SplitAt(s.log, s.active) <= s.synced <= |s.log|
    ensures var t, c := Install(s), SplitAt(s.log, s.merge.nonMerge);
            && c <= s.synced && SplitAt(t.log, t.active) <= t.synced <= |t.log|
            && t.log[..t.synced] == s.merge.out + s.log[c..s.synced]
  {
    hide Laid;
    SplitMonotone(s.log, s.merge.nonMerge, s.active);
    SplitExact(s.log, s.active, EndOffset(s.log, s.active), s.active);
    SplitWithin(s.merge.out, s.log, SplitAt(s.log, s.merge.nonMerge), s.synced, |s.log|, s.active);
    hide SplitAt;
    ReplacedCut(s.merge.out, s.log, SplitAt(s.log, s.merge.nonMerge), s.synced);
  }

  /** Installing moves synced files in and leaves what is durable of the others alone. */
  lemma {:induction false} InstallDurable(crc: Checksum, files: map<nat, Bytes>, durable: map<nat, nat>,
      dir: MergeFiles, s: Store)
    requires DiskIs(crc, files, s) && DurableAs(crc, files, durable, s)
    requires s.merge.Merge? && s.merge.finished && MergeIs(crc, Some(dir), s.merge) && s.merge.nonMerge <= s.active
    ensures dir.durable.Keys == dir.files.Keys
    ensures DurableAs(crc, InstalledFiles(files, dir.files, s.merge.nonMerge),
        InstalledDurable(durable, dir, s.merge.nonMerge), Install(s))
  {
    hide Laid, FileOf, EncodeAll, Newest, FilesAre, Install, SplitAt, Holds, AllReadable, HintsReadable, HintRecords;
    InstallSynced(s);
    var t := Install(s);
    var after := InstalledDurable(durable, dir, s.merge.nonMerge);
    forall f | f in after ensures after[f] == |EncodeAll(crc, FileOf(t.log[..t.synced], f))| {
      InstallDurableAt(crc, files, durable, dir, s, f);
    }
  }

  /** One file. */
  lemma {:induction false} InstallDurableAt(crc: Checksum, files: map<nat, Bytes>, durable: map<nat, nat>,
      dir: MergeFiles, s: Store, f: nat)
    requires DiskIs(crc, files, s) && DurableAs(crc, files, durable, s)
    requires s.merge.Merge? && s.merge.finished && MergeIs(crc, Some(dir), s.merge) && s.merge.nonMerge <= s.active
    ensures dir.durable.Keys == dir.files.Keys && SplitAt(s.log, s.merge.nonMerge) <= s.synced
    ensures var after := InstalledDurable(durable, dir, s.merge.nonMerge);
            f in after ==>
            after[f] == |EncodeAll(crc, FileOf(s.merge.out + s.log[SplitAt(s.log, s.merge.nonMerge)..s.synced], f))|
  {
    hide Laid, FileOf, EncodeAll, Newest, FilesAre, SplitAt, AllReadable, HintsReadable, HintRecords;
    OutBelow(crc, dir, s.merge);
    InstalledSyncedFile(s, f);
  }

  /** `load_merge_files`: an unfinished merge is thrown away, a finished one replaces the files below its marker. */
  method LoadMergeFiles(crc: Checksum, home: Home, ghost s: Store)
    requires Keeps(crc, home, s)
    modifies home, home.disk
    ensures Keeps(crc, home, Install(s))
  {
    hide Holds, AllReadable, FilesAre, Newest, FileOf, EncodeAll, Laid, InstalledFiles, InstalledDurable, SplitAt,
      DiskIs, DurableAs, HintsReadable, HintRecords;
    if home.mergeDir.None? {
      return;
    }
    var dir := home.mergeDir.value;
    home.mergeDir := None;
    if dir.marker.None? {
      UninstalledDisk(crc, home.disk.files, home.disk.durable, s);
      return;
    }
    var nonMerge := dir.marker.value;
    InstallDisk(crc, home.disk.files, dir, s);
    InstallDurable(crc, home.disk.files, home.disk.durable, dir, s);
    RemoveOld(home.disk, nonMerge);
    MoveIn(home.disk, dir, nonMerge, old(home.disk.files), old(home.disk.durable));
    home.hint, home.marker := Some(dir.hint), Some(nonMerge);
  }

  lemma {:induction false} UninstalledDisk(crc: Checksum, files: map<nat, Bytes>, durable: map<nat, nat>, s: Store)
    requires DiskIs(crc, files, s) && DurableAs(crc, files, durable, s)
    ensures DiskIs(crc, files, s.(merge := NoMerge)) && DurableAs(crc, files, durable, s.(merge := NoMerge))
  {
    hide Holds, AllReadable, Laid, Newest, SplitAt, FileOf, EncodeAll;
  }

  /** The old files below the marker are deleted. */
  method RemoveOld(disk: Disk, nonMerge: nat)
    modifies disk
    ensures disk.files == map f | f in old(disk.files) && f >= nonMerge :: old(disk.files)[f]
    ensures disk.durable == map f | f in old(disk.durable) && f >= nonMerge :: old(disk.durable)[f]
  {
    var fid := 0;
    while fid < nonMerge
      invariant fid <= nonMerge
      invariant disk.files == map f | f in old(disk.files) && !(0 <= f < fid) :: old(disk.files)[f]
      invariant disk.durable == map f | f in old(disk.durable) && !(0 <= f < fid) :: old(disk.durable)[f]
    {
      disk.files, disk.durable := disk.files - {fid}, disk.durable - {fid};
      fid := fid + 1;
    }
  }

  /** What of `values`, one for each merged file, has been moved so far. */
  function Moved<T>(merged: map<nat, Bytes>, values: map<nat, T>, rest: set<nat>): map<nat, T>
    requires values.Keys == merged.Keys
  {
    map f | f in merged && f !in rest && merged[f] != [] :: values[f]
  }

  lemma {:induction false} MoveOne<T>(kept: map<nat, T>, merged: map<nat, Bytes>, values: map<nat, T>, rest: set<nat>,
      f: nat)
    requires f in rest && f in merged && values.Keys == merged.Keys
    ensures kept + Moved(merged, values, rest - {f}) ==
            if merged[f] != [] then (kept + Moved(merged, values, rest))[f := values[f]]
              else kept + Moved(merged, values, rest)
  {
    assert Moved(merged, values, rest - {f}) ==
           if merged[f] != [] then Moved(merged, values, rest)[f := values[f]] else Moved(merged, values, rest);
  }

  lemma {:induction false} MoveEnds<T>(before: map<nat, T>, merged: map<nat, Bytes>, values: map<nat, T>, nonMerge: nat)
    requires values.Keys == merged.Keys
    ensures var kept := map f | f in before && f >= nonMerge :: before[f];
            && kept + Moved(merged, values, merged.Keys) == kept
            && kept + Moved(merged, values, {}) == kept + map f | f in merged && merged[f] != [] :: values[f]
  {
    assert Moved(merged, values, merged.Keys) == map[];
    assert Moved(merged, values, {}) == map f | f in merged && merged[f] != [] :: values[f];
  }

  /** The merged files that are not empty are moved into the directory, in whatever order it lists them. */
  method MoveIn(disk: Disk, dir: MergeFiles, nonMerge: nat, ghost before: map<nat, Bytes>, ghost durable: map<nat, nat>)
    requires dir.durable.Keys == dir.files.Keys
    requires disk.files == map f | f in before && f >= nonMerge :: before[f]
    requires disk.durable == map f | f in durable && f >= nonMerge :: durable[f]
    modifies disk
    ensures disk.files == InstalledFiles(before, dir.files, nonMerge)
    ensures disk.durable == InstalledDurable(durable, dir, nonMerge)
  {
    ghost var kept, keptDurable := disk.files, disk.durable;
    var merged := dir.files;
    var rest := merged.Keys;
    MoveEnds(before, merged, merged, nonMerge);
    MoveEnds(durable, merged, dir.durable, nonMerge);
    hide Moved;
    while rest != {}
      invariant rest <= merged.Keys && disk.files == kept + Moved(merged, merged, rest)
      invariant disk.durable == keptDurable + Moved(merged, dir.durable, rest)
      decreases |rest|
    {
      var f :| f in rest;
      MoveOne(kept, merged, merged, rest, f);
      MoveOne(keptDurable, merged, dir.durable, rest, f);
      if merged[f] != [] {
        disk.files, disk.durable := disk.files[f := merged[f]], disk.durable[f := dir.durable[f]];
      }
      rest := rest - {f};
    }
  }

  // ---- Opening ----

  predicate IsLeastId(ids: set<nat>, f: nat)
  {
    f in ids && forall g :: g in ids ==> f <= g
  }

  lemma {:induction false} LeastIdExists(ids: set<nat>)
    requires ids != {}
    ensures exists f :: IsLeastId(ids, f)
    decreases |ids|
  {
    var f :| f in ids;
    var rest := ids - {f};
    assert forall h :: h in ids ==> h == f || h in rest;
    if rest == {} {
      assert IsLeastId(ids, f);
    } else {
      LeastIdExists(rest);
      var g :| IsLeastId(rest, g);
      assert IsLeastId(ids, if f < g then f else g);
    }
  }

  lemma {:induction false} LeastIdIn(ids: set<nat>)
    requires ids != {}
    ensures exists f :: f in ids && IsLeastId(ids, f)
  {
    LeastIdExists(ids);
    var f :| IsLeastId(ids, f);
    assert f in ids;
  }

  /** The listed ids come before the ids still to be listed. */
  ghost predicate Sorting(ids: seq<nat>, rest: set<nat>, all: set<nat>)
  {
    && rest <= all
    && (forall f :: f in ids <==> f in all - rest)
    && (forall i, j :: 0 <= i < j < |ids| ==> ids[i] < ids[j])
    && (forall f, g :: f in ids && g in rest ==> f < g)
  }

  lemma {:induction false} SortOne(ids: seq<nat>, rest: set<nat>, all: set<nat>, f: nat)
    requires Sorting(ids, rest, all) && IsLeastId(rest, f)
    ensures Sorting(ids + [f], rest - {f}, all)
  {
    var more := ids + [f];
    forall i, j | 0 <= i < j < |more| ensures more[i] < more[j] {
      if j == |ids| {
        assert ids[i] in ids;
      }
    }
  }

  /** The ids of the data files, sorted. */
  method SortedIds(files: map<nat, Bytes>) returns (ids: seq<nat>)
    ensures Lists(ids, files)
  {
    hide Sorting, Lists, IsLeastId;
    ids := [];
    var rest := files.Keys;
    NothingSorted(rest);
    while rest != {}
      invariant Sorting(ids, rest, files.Keys)
      decreases |rest|
    {
      LeastIdIn(rest);
      var f :| f in rest && IsLeastId(rest, f);
      SortOne(ids, rest, files.Keys, f);
      ids := ids + [f];
      rest := rest - {f};
    }
    AllSorted(ids, files);
  }

  lemma {:induction false} NothingSorted(all: set<nat>)
    ensures Sorting([], all, all)
  {
  }

  lemma {:induction false} AllSorted(ids: seq<nat>, files: map<nat, Bytes>)
    requires Sorting(ids, {}, files.Keys)
    ensures Lists(ids, files)
  {
  }

  /** Which of the sorted files the engine goes on writing to; the code pops the others off the end of the list. */
  function ActiveOf(o: Options, ids: seq<nat>): nat
    requires ids != []
  {
    if o.activeOnOpen.OldestFile? then ids[0] else ids[|ids| - 1]
  }

  lemma {:induction false} ActiveIs(o: Options, files: map<nat, Bytes>, ids: seq<nat>, s: Store)
    requires Lists(ids, files) && FilesAre(files, s) && Newest(files, s.active)
      && Laid(s.log, s.active, EndOffset(s.log, s.active))
    ensures ids != [] && ActiveOf(o, ids) == if o.activeOnOpen.OldestFile? then OldestId(s) else s.active
  {
    OldestIsLeast(files, s.(writeOff := EndOffset(s.log, s.active)));
    hide Laid, FilesAre;
    assert s.active in ids && OldestId(s) in ids;
    var i :| 0 <= i < |ids| && ids[i] == s.active;
    var j :| 0 <= j < |ids| && ids[j] == OldestId(s);
    assert ids[0] in files && ids[|ids| - 1] in files;
  }

  /** The index from the hint file, if there is one. */
  method LoadHintFile(crc: Checksum, hint: Option<Bytes>, tree: Tree, ghost s: Store) returns (ok: bool)
    requires tree.entries == map[] && HintsReadable(s.hint)
    requires (hint.None? ==> s.hint == []) && (hint.Some? ==> hint.value == EncodeAll(crc, HintRecords(s.hint)))
    modifies tree
    ensures ok && tree.entries == Places(Live(HintImage(s.log, s.hint)))
  {
    hide EncodeAll, ScanFrom, HintImage, Places, Live, HintPlaces, HintRecords, HintsReadable;
    if hint.None? {
      EmptyHints(s.log);
      return true;
    }
    HintsLoad(crc, s.log, s.hint);
    var r := LoadHints(crc, hint.value, tree);
    return r.Ok?;
  }

  lemma {:induction false} Ready(o: Options, crc: Checksum, files: map<nat, Bytes>, ids: seq<nat>, s: Store)
    requires DiskIs(crc, files, s) && Lists(ids, files)
    ensures DirectoryOf(crc, files, ids, s) && ids != []
    ensures ActiveOf(o, ids) in files
      && ActiveOf(o, ids) == if o.activeOnOpen.OldestFile? then OldestId(s) else s.active
  {
    ActiveIs(o, files, ids, s);
    hide Laid, FilesAre, Holds, AllReadable;
  }

  /** The state machine's `Open` in terms of what the loading methods compute. */
  lemma {:induction false} OpenIs(o: Options, disk: Store, loaded: Loaded)
    requires var s := Install(disk);
             loaded == Replayed(State(HintImage(s.log, s.hint), map[], 0, 0),
               Seen(o.mmapAtStartup, ToScan(s), s.active), EndOffset(s.log, s.active))
    ensures loaded.Loaded? <==> Machine.Open(o, disk).Some?
    ensures loaded.Loaded? ==>
      var s, t, st := Install(disk), Machine.Open(o, disk).value, loaded.st;
      && loaded.end == EndOffset(s.log, s.active)
      && t == s.(handle := if o.activeOnOpen.OldestFile? then OldestId(s) else s.active,
                 writeOff := loaded.end, bytesWrite := 0,
                 index := Live(st.image), seqNo := if st.maxSeq > 0 then st.maxSeq + 1 else 1, reclaim := st.reclaim)
  {
    hide Install, HintImage, Seen, ToScan, Parses, RunFrom;
  }

  /** The opened engine stands for the opened store; what was not durable before is not durable now. */
  lemma {:induction false} OpenStands(crc: Checksum, files: map<nat, Bytes>, durable: map<nat, nat>, s: Store, t: Store)
    requires DiskIs(crc, files, s) && DurableAs(crc, files, durable, s)
    requires t == s.(handle := t.handle, writeOff := EndOffset(s.log, s.active), bytesWrite := 0,
                     index := t.index, seqNo := t.seqNo, reclaim := t.reclaim)
    ensures Stands(crc, Cabinet(files, t.handle, t.writeOff), durable, Places(t.index), t.seqNo, 0, t.reclaim, t)
    ensures DiskIs(crc, files, t) && DurableAs(crc, files, durable, t)
  {
    hide Laid, FileOf, EncodeAll, AllReadable, Places, SplitAt;
  }

  lemma {:induction false} OpenShape(o: Options, crc: Checksum, files: map<nat, Bytes>, durable: map<nat, nat>,
      hint: Option<Bytes>, marker: Option<nat>, disk: Store)
    requires DiskIs(crc, files, Install(disk)) && DurableAs(crc, files, durable, Install(disk))
    requires SpecialsAre(crc, hint, marker, Install(disk)) && Machine.Open(o, disk).Some?
    ensures var s, t := Install(disk), Machine.Open(o, disk).value;
            && t.handle == (if o.activeOnOpen.OldestFile? then OldestId(s) else s.active)
            && t.bytesWrite == 0 && t.merge == s.merge == NoMerge
            && Stands(crc, Cabinet(files, t.handle, t.writeOff), durable, Places(t.index), t.seqNo, 0, t.reclaim, t)
            && DiskIs(crc, files, t) && DurableAs(crc, files, durable, t) && SpecialsAre(crc, hint, marker, t)
  {
    hide Stands, DiskIs, DurableAs, HintsReadable, HintRecords, EncodeAll, Parses, Seen, Scan, ToScan;
    OpenStands(crc, files, durable, Install(disk), Machine.Open(o, disk).value);
  }

  // ---- What the opened index vouches for ----

  lemma {:induction false} InvSound(o: Options, s: Store)
    requires Inv(o, s)
    ensures Sound(s.log, s.index)
  {
    InvParts(o, s);
    ReplayedIsSound(s.log);
  }

  /** What a scan sees are records of the log. */
  lemma {:induction false} SeenPart(mapped: bool, log: seq<Logged>, next: nat)
    ensures forall l :: l in Seen(mapped, log, next) ==> l in log
  {
    if log != [] {
      SeenPart(mapped, log[..|log| - 1], log[|log| - 1].pos.fid);
    }
  }

  /** Even an opening whose scan misses a record leaves no entry that leads nowhere. */
  lemma {:induction false} OpenSound(o: Options, disk: Store)
    requires Machine.Open(o, disk).Some? && BaseOk(Install(disk))
    requires Laid(Install(disk).log, Install(disk).active, EndOffset(Install(disk).log, Install(disk).active))
    ensures Sound(Machine.Open(o, disk).value.log, Machine.Open(o, disk).value.index)
  {
    hide Laid, Install, MergedPart, Seen, HintImage, Parses, RunFrom, Known, EndOffset;
    var s := Install(disk);
    var n := SplitAt(s.log, s.base);
    HintsMatch(s.log, s.active, EndOffset(s.log, s.active), n, s.hint);
    ReplayKnown(s.log[..n]);
    KnownPrefix(s.log, n, ImageOf(s.log[..n]));
    SeenPart(o.mmapAtStartup, ToScan(s), s.active);
    ScanPart(s);
    RunKnown(s.log, State(HintImage(s.log, s.hint), map[], 0, 0), Seen(o.mmapAtStartup, ToScan(s), s.active));
  }

  lemma {:induction false} ScanPart(s: Store)
    ensures forall l :: l in ToScan(s) ==> l in s.log
  {
    hide SplitAt;
  }

  lemma {:induction false} KnownPrefix(log: seq<Logged>, n: nat, image: Image)
    requires n <= |log| && ImageKnown(log[..n], image)
    ensures ImageKnown(log, image)
  {
    hide Known;
    assert log == log[..n] + log[n..];
    forall k | k in image && image[k].Some? ensures Known(log, Update(k, Normal, image[k].value)) {
      KnownGrows(log[..n], log[n..], Update(k, Normal, image[k].value));
    }
  }

  /** The calls in `open` that fill the index and set the counters and the write offset. */
  method LoadIndex(engine: Engine, hint: Option<Bytes>, ids: seq<nat>, marker: Option<nat>, ghost disk: Store)
    returns (r: Result<Unit, LoadError>)
    requires DirectoryOf(engine.crc, engine.disk.files, ids, Install(disk))
      && SpecialsAre(engine.crc, hint, marker, Install(disk))
    requires engine.index.entries == map[] && engine.seqNo == 1
    modifies engine`seqNo, engine`reclaim, engine.active, engine.index
    ensures r.Ok? <==> Machine.Open(engine.o, disk).Some?
    ensures r.Ok? ==>
      var t := Machine.Open(engine.o, disk).value;
      && engine.index.entries == Places(t.index) && engine.seqNo == t.seqNo && engine.reclaim == t.reclaim
      && engine.active.writeOff == t.writeOff
  {
    hide DirectoryOf, EncodeAll, HintsReadable, HintRecords, Install, ScanFrom, Replayed, Seen, Places, Live, LoadIds,
      ToScan;
    ghost var s := Install(disk);
    var _ := LoadHintFile(engine.crc, hint, engine.index, s);
    ghost var st := State(HintImage(s.log, s.hint), map[], 0, 0);
    var files := engine.disk.files;
    var loaded, maxSeq, reclaim :=
      LoadDataFiles(engine.crc, engine.o.mmapAtStartup, files, ids, marker, engine.index, st);
    LoadIsScan(engine.o, engine.crc, files, ids, s, st);
    OpenIs(engine.o, disk, LoadIds(engine.crc, engine.o.mmapAtStartup, files, ids, s.base, |ids|, st));
    if loaded.Err? {
      return Err(loaded.error);
    }
    engine.active.writeOff := loaded.value;
    if maxSeq > 0 {
      engine.seqNo := maxSeq + 1;
    }
    engine.reclaim := reclaim;
    return Ok(());
  }

  lemma {:induction false} DiskLaid(crc: Checksum, files: map<nat, Bytes>, s: Store)
    requires DiskIs(crc, files, s)
    ensures Laid(s.log, s.active, EndOffset(s.log, s.active))
  {
  }

  lemma {:induction false} DurableKeys(crc: Checksum, files: map<nat, Bytes>, durable: map<nat, nat>, s: Store)
    requires DurableAs(crc, files, durable, s)
    ensures durable.Keys == files.Keys
  {
  }

  /** `open`, for a directory that a store left. No file is synced. */
  method Open(o: Options, crc: Checksum, home: Home, ghost disk: Store) returns (r: Result<Engine, LoadError>)
    requires Keeps(crc, home, disk)
    modifies home, home.disk
    ensures r.Ok? <==> Machine.Open(o, disk).Some?
    ensures r.Ok? ==>
      && fresh(r.value) && fresh(r.value.active) && fresh(r.value.index)
      && r.value.disk == home.disk && r.value.o == o && r.value.crc == crc
      && r.value.Valid() && r.value.model == Machine.Open(o, disk).value
      && Keeps(crc, home, r.value.model)
      && (BaseOk(Install(disk)) ==> Sound(r.value.model.log, r.value.model.index))
  {
    hide Holds, AllReadable, FilesAre, Newest, FileOf, EncodeAll, Laid, SplitAt, DiskIs, DurableAs, HintsReadable,
      HintRecords, Install, Stands, ScanFrom, Replayed, Seen, Places, Live, Lists, MergeIs, LoadIds, DirectoryOf,
      ActiveOf, SpecialsAre, Machine.Open, BaseOk, Sound, EndOffset;
    ghost var s := Install(disk);
    LoadMergeFiles(crc, home, disk);
    var files := home.disk.files;
    var ids := SortedIds(files);
    Ready(o, crc, files, ids, s);
    ghost var durable := home.disk.durable;
    DurableKeys(crc, files, durable, s);
    var active := new Handle(home.disk, ActiveOf(o, ids));
    var engine := new Engine(o, crc, home.disk, active, files.Keys - {ActiveOf(o, ids)}, s);
    assert home.disk.files == files && home.disk.durable == durable;
    var loaded := LoadIndex(engine, home.hint, ids, home.marker, disk);
    if loaded.Err? {
      return Err(loaded.error);
    }
    engine.model := Machine.Open(o, disk).value;
    OpenShape(o, crc, files, durable, home.hint, home.marker, disk);
    DiskLaid(crc, files, s);
    if BaseOk(s) {
      OpenSound(o, disk);
    }
    r := Ok(engine);
  }

  /** `open` on an empty directory: one empty file, nothing to load. */
  method OpenEmpty(o: Options, crc: Checksum, home: Home) returns (engine: Engine)
    requires home.disk.files == map[] && home.disk.durable == map[] && home.hint == None && home.marker == None
      && home.mergeDir == None
    modifies home.disk
    ensures fresh(engine) && fresh(engine.active) && fresh(engine.index) && engine.disk == home.disk
    ensures engine.o == o && engine.crc == crc
    ensures engine.Valid() && engine.model == INIT && Keeps(crc, home, INIT)
  {
    var active := new Handle(home.disk, 0);
    engine := new Engine(o, crc, home.disk, active, {}, INIT);
    assert home.disk.files == map[0 := []] && home.disk.durable == map[0 := 0];
    assert Places(INIT.index) == map[];
  }

  // ---- What a power failure leaves ----

  /** The files when all but the first `keep` records are lost: the newest file ends with the last of them. */
  function FilesCut(files: map<nat, Bytes>, s: Store, keep: nat): (left: map<nat, Bytes>)
    requires keep <= |s.log|
    ensures left.Keys == files.Keys + {s.active}
  {
    var end, newest := EndOffset(s.log[..keep], s.active), Contents(files, s.active);
    files[s.active := if end <= |newest| then newest[..end] else newest]
  }

  lemma {:induction false} CutFile(crc: Checksum, log: seq<Logged>, a: nat, b: nat, fid: nat)
    requires a <= b <= |log|
    ensures EncodeAll(crc, FileOf(log[..a], fid)) <= EncodeAll(crc, FileOf(log[..b], fid))
  {
    hide FileOf;
    assert log[..b] == log[..a] + log[a..b];
    FileOfAppend(log[..a], log[a..b], fid);
    EncodeAllAppend(crc, FileOf(log[..a], fid), FileOf(log[a..b], fid));
  }

  /** What is left of a file starts it and has what was durable of it; only the newest file loses anything. */
  predicate LeftBehind(file: Bytes, durable: nat, left: Bytes, newest: bool)
  {
    left <= file && durable <= |left| && (!newest ==> left == file)
  }

  /** One file after a power failure. */
  lemma {:induction false} LeftFile(crc: Checksum, files: map<nat, Bytes>, durable: map<nat, nat>, s: Store, keep: nat,
      f: nat)
    requires Refines(crc, files, durable, s) && s.synced <= keep <= |s.log| && f in files
    ensures var left := FilesCut(files, s, keep);
            && left[f] == EncodeAll(crc, FileOf(s.log[..keep], f))
            && left[f] <= files[f] && durable[f] <= |left[f]| && (f != s.active ==> left[f] == files[f])
            && (f == s.active ==> |left[f]| == EndOffset(s.log[..keep], f))
  {
    hide Laid, FileOf, EncodeAll, SplitAt, FilesAre, EndOffset;
    assert s.log[..|s.log|] == s.log;
    CutFile(crc, s.log, s.synced, keep, f);
    CutFile(crc, s.log, keep, |s.log|, f);
    if f == s.active {
      LaidCut(s.log, s.active, s.writeOff, keep);
      FileLength(crc, s.log[..keep], f, EndOffset(s.log[..keep], f));
    } else {
      SyncedFile(s.log, s.active, s.writeOff, keep, f);
    }
  }

  lemma {:induction false} PrefixReadable(crc: Checksum, files: map<nat, Bytes>, log: seq<Logged>, n: nat)
    requires Holds(crc, files, log) && AllReadable(log) && n <= |log|
    ensures AllReadable(log[..n]) && forall l :: l in log[..n] ==> l.pos.fid in files
  {
    hide FileOf, EncodeAll, Storable;
    forall l | l in log[..n] ensures l in log {
    }
  }

  lemma {:induction false} LeftHolds(crc: Checksum, files: map<nat, Bytes>, durable: map<nat, nat>, s: Store, keep: nat)
    requires Refines(crc, files, durable, s) && s.synced <= keep <= |s.log|
    ensures Holds(crc, FilesCut(files, s, keep), s.log[..keep]) && AllReadable(s.log[..keep])
  {
    RefinedKeys(crc, files, durable, s);
    PrefixReadable(crc, files, s.log, keep);
    hide Refines, FileOf, EncodeAll, EndOffset, AllReadable, FilesCut;
    var left := FilesCut(files, s, keep);
    forall f | f in left ensures left[f] == EncodeAll(crc, FileOf(s.log[..keep], f)) {
      LeftFile(crc, files, durable, s, keep, f);
    }
  }

  lemma {:induction false} CutFilesAre(files: map<nat, Bytes>, s: Store, keep: nat)
    requires FilesAre(files, s) && Newest(files, s.active) && Laid(s.log, s.active, s.writeOff)
    requires SplitAt(s.log, s.active) <= keep <= |s.log|
    ensures FilesAre(FilesCut(files, s, keep), Cut(s, keep)) && Newest(FilesCut(files, s, keep), s.active)
  {
    hide Laid, SplitAt, EndOffset, FileOf;
    var t := Cut(s, keep);
    forall f: nat ensures f in files <==> t.base <= f <= t.active || FileOf(t.log, f) != [] {
      if f != s.active {
        SyncedFile(s.log, s.active, s.writeOff, keep, f);
      }
    }
  }

  lemma {:induction false} LeftPlaces(crc: Checksum, files: map<nat, Bytes>, durable: map<nat, nat>, s: Store,
      keep: nat)
    requires Refines(crc, files, durable, s) && s.synced <= keep <= |s.log|
    ensures Laid(s.log[..keep], s.active, EndOffset(s.log[..keep], s.active))
        && SplitAt(s.log[..keep], s.active) <= keep
    ensures FilesAre(FilesCut(files, s, keep), Cut(s, keep)) && Newest(FilesCut(files, s, keep), s.active)
  {
    hide Laid, Holds, AllReadable, DurableIs, FilesAre, FilesCut, Newest, SplitAt;
    LaidCut(s.log, s.active, s.writeOff, keep);
    SplitPrefix(s.log, s.active, keep);
    CutFilesAre(files, s, keep);
  }

  /** A directory of which everything is durable. */
  lemma {:induction false} LengthsDurable(crc: Checksum, files: map<nat, Bytes>, s: Store)
    requires Holds(crc, files, s.log) && s.synced == |s.log| && SplitAt(s.log, s.active) <= s.synced
    ensures DurableAs(crc, files, FileLengths(files), s)
  {
    hide FileOf, EncodeAll, SplitAt;
    assert s.log[..s.synced] == s.log;
  }

  lemma {:induction false} LeftDisk(crc: Checksum, files: map<nat, Bytes>, durable: map<nat, nat>, s: Store, keep: nat)
    requires Refines(crc, files, durable, s) && s.synced <= keep <= |s.log|
    ensures var left := FilesCut(files, s, keep);
            DiskIs(crc, left, Cut(s, keep)) && DurableAs(crc, left, FileLengths(left), Cut(s, keep))
  {
    hide Refines, Holds, AllReadable, Laid, FilesAre, FilesCut, Newest, SplitAt, DurableAs, EndOffset;
    LeftHolds(crc, files, durable, s, keep);
    LeftPlaces(crc, files, durable, s, keep);
    LengthsDurable(crc, FilesCut(files, s, keep), Cut(s, keep));
  }

  lemma {:induction false} FileLeft(crc: Checksum, files: map<nat, Bytes>, durable: map<nat, nat>, s: Store, keep: nat,
      f: nat)
    requires Refines(crc, files, durable, s) && s.synced <= keep <= |s.log| && f in files
    ensures durable.Keys == files.Keys
    ensures LeftBehind(files[f], durable[f], FilesCut(files, s, keep)[f], f == s.active)
  {
    RefinedKeys(crc, files, durable, s);
    hide Refines, FilesCut, FileOf, EncodeAll, EndOffset;
    LeftFile(crc, files, durable, s, keep, f);
  }

  lemma {:induction false} FilesLeft(crc: Checksum, files: map<nat, Bytes>, durable: map<nat, nat>, s: Store, keep: nat)
    requires Refines(crc, files, durable, s) && s.synced <= keep <= |s.log|
    ensures FilesCut(files, s, keep).Keys == files.Keys == durable.Keys
    ensures forall f :: f in files ==> LeftBehind(files[f], durable[f], FilesCut(files, s, keep)[f], f == s.active)
  {
    RefinedKeys(crc, files, durable, s);
    hide Refines, FilesCut, LeftBehind;
    forall f | f in files ensures LeftBehind(files[f], durable[f], FilesCut(files, s, keep)[f], f == s.active) {
      FileLeft(crc, files, durable, s, keep, f);
    }
  }

  /**
   * The state machine's `Cut` on bytes: cutting the newest file behind a record takes nothing that was durable,
   * leaves every other file alone, and what is left is a directory the store with those records left, all of it
   * durable.
   */
  lemma {:induction false} FailureLeaves(crc: Checksum, files: map<nat, Bytes>, durable: map<nat, nat>, s: Store,
      keep: nat)
    requires Refines(crc, files, durable, s) && s.synced <= keep <= |s.log|
    ensures var left := FilesCut(files, s, keep);
            && left.Keys == files.Keys == durable.Keys && s.active in files
            && (forall f :: f in files ==> LeftBehind(files[f], durable[f], left[f], f == s.active))
            && |left[s.active]| == EndOffset(s.log[..keep], s.active)
            && DiskIs(crc, left, Cut(s, keep)) && DurableAs(crc, left, FileLengths(left), Cut(s, keep))
  {
    RefinedKeys(crc, files, durable, s);
    FilesLeft(crc, files, durable, s, keep);
    LeftDisk(crc, files, durable, s, keep);
    LeftFile(crc, files, durable, s, keep, s.active);
    hide Refines, DiskIs, DurableAs, FilesCut, FileOf, EncodeAll, EndOffset, LeftBehind, Cut, FileLengths;
  }

  lemma {:induction false} RefinedKeys(crc: Checksum, files: map<nat, Bytes>, durable: map<nat, nat>, s: Store)
    requires Refines(crc, files, durable, s)
    ensures s.active in files && durable.Keys == files.Keys
  {
    hide Holds, AllReadable, Laid, FilesAre, SplitAt, DurableIs;
  }

  // ---- Through which file the engine writes ----

  /** The code's choice of the active file is the newest file if and only if there is no other. */
  lemma {:induction false} ActiveExact(o: Options, crc: Checksum, files: map<nat, Bytes>, ids: seq<nat>, s: Store)
    requires DirectoryOf(crc, files, ids, s)
    ensures ids != []
    ensures ActiveOf(o, ids) == s.active <==> o.activeOnOpen.NewestFile? || |ids| == 1
  {
    LastId(crc, files, ids, s);
  }
}
