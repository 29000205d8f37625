/**
 * Rebuilding the index at startup: the hint file first, then a scan of the data files, batches buffered until they
 * finish.
 */
module Loading {
  import opened Wire
  import opened LogRecord
  import opened Replay
  import opened Layout
  import opened Store
  import opened DataFile
  import opened Directory
  import opened Indexer
  import Varint

  /** What the index keeps of its slots. */
  function Places(index: Index): map<Bytes, Pos>
  {
    map k | k in index :: index[k].pos
  }

  // ---- One update ----

  /** `update_index`; the bytes it frees are returned. */
  method UpdateIndex(tree: Tree, u: Update, ghost image: Image) returns (freed: nat)
    requires tree.entries == Places(Live(image))
    modifies tree
    ensures tree.entries == Places(Live(Apply(image, u))) && freed == Freed(image, u)
  {
    freed := 0;
    if u.rtype.Delete? {
      freed := u.slot.pos.size;
      var previous := tree.Delete(u.key);
      if previous.Some? {
        freed := freed + previous.value.size;
      }
    }
    if u.rtype.Normal? {
      var previous := tree.Put(u.key, u.slot.pos);
      if previous.Some? {
        freed := previous.value.size;
      }
    }
  }

  /** The updates of a finished batch, in the order they were buffered. */
  method UpdateAll(tree: Tree, us: seq<Update>, ghost image: Image) returns (freed: nat)
    requires tree.entries == Places(Live(image))
    modifies tree
    ensures tree.entries == Places(Live(ApplyAll(image, us))) && freed == FreedAll(image, us)
  {
    freed := 0;
    var i := 0;
    while i < |us|
      invariant i <= |us|
      invariant tree.entries == Places(Live(ApplyAll(image, us[..i]))) && freed == FreedAll(image, us[..i])
    {
      assert us[..i + 1] == us[..i] + [us[i]];
      ApplySnoc(image, us[..i], us[i]);
      var more := UpdateIndex(tree, us[i], ApplyAll(image, us[..i]));
      freed := freed + more;
      i := i + 1;
    }
    assert us[..|us|] == us;
  }

  // ---- One file ----

  /** The local variables of the load and the index, against the state of the replay. */
  ghost predicate Tracks(tree: Tree, batches: map<nat, seq<Update>>, maxSeq: nat, reclaim: nat, st: State)
    reads tree
  {
    tree.entries == Places(Live(st.image)) && batches == st.pending && maxSeq == st.maxSeq && reclaim == st.reclaim
  }

  /** One record that was read and whose key parsed. */
  method LoadRecord(tree: Tree, batches: map<nat, seq<Update>>, maxSeq: nat, reclaim: nat, v: View, ghost st: State)
    returns (batches': map<nat, seq<Update>>, maxSeq': nat, reclaim': nat)
    requires Tracks(tree, batches, maxSeq, reclaim, st)
    modifies tree
    ensures Tracks(tree, batches', maxSeq', reclaim', Step(st, v))
  {
    hide Apply, ApplyAll, Freed, FreedAll;
    batches', maxSeq', reclaim' := batches, maxSeq, reclaim;
    if v.seqNo == NON_TRANSACTION {
      var freed := UpdateIndex(tree, v.update, st.image);
      reclaim' := reclaim + freed;
    } else if v.update.rtype.TxnFinished? {
      if v.seqNo in batches {
        var freed := UpdateAll(tree, batches[v.seqNo], st.image);
        reclaim' := reclaim + freed;
        batches' := batches - {v.seqNo};
      } else {
        EmptyUpdate(st, v);
      }
    } else {
      var buffered := if v.seqNo in batches then batches[v.seqNo] else [];
      batches' := batches[v.seqNo := buffered + [v.update]];
    }
    if v.seqNo > maxSeq {
      maxSeq' := v.seqNo;
    }
  }

  /** A batch that finishes without records changes nothing. */
  lemma {:induction false} EmptyUpdate(st: State, v: View)
    requires v.seqNo != NON_TRANSACTION && v.update.rtype.TxnFinished? && v.seqNo !in st.pending
    ensures Step(st, v) == st.(maxSeq := Max(st.maxSeq, v.seqNo))
  {
    assert st.pending - {v.seqNo} == st.pending;
  }

  datatype LoadError = Unreadable(error: ReadError) | BadKey | BadPosition

  /** A record found in a file, as a record of the log. */
  function Placed(fid: nat, found: seq<Located>): (ls: seq<Logged>)
    ensures |ls| == |found|
    ensures forall i :: 0 <= i < |ls| ==> ls[i] == Logged(found[i].record, Pos(fid, found[i].offset, found[i].size))
  {
    if found == [] then [] else
      var f := found[|found| - 1];
      Placed(fid, found[..|found| - 1]) + [Logged(f.record, Pos(fid, f.offset, f.size))]
  }

  /** Where a scan that found these records stopped. */
  function ScanEnd(found: seq<Located>): nat
  {
    if found == [] then 0 else found[|found| - 1].offset + found[|found| - 1].size
  }

  /** A scan that has found `seen` and continues at `offset`. */
  ghost predicate ScanPrefix(io: IOType, crc: Checksum, file: Bytes, offset: nat, seen: seq<Located>)
  {
    ScanFrom(io, crc, file, 0) ==
      match ScanFrom(io, crc, file, offset)
      case Err(e) => Err(e)
      case Ok(rest) => Ok(seen + rest)
  }

  lemma {:induction false} ScanStart(io: IOType, crc: Checksum, file: Bytes)
    ensures ScanPrefix(io, crc, file, 0, [])
  {
    hide ScanFrom;
    if ScanFrom(io, crc, file, 0).Ok? {
      assert [] + ScanFrom(io, crc, file, 0).value == ScanFrom(io, crc, file, 0).value;
    }
  }

  lemma {:induction false} ScanMore(io: IOType, crc: Checksum, file: Bytes, offset: nat, seen: seq<Located>,
      read: ReadRecord)
    requires ScanPrefix(io, crc, file, offset, seen) && ReadAt(io, crc, file, offset) == Ok(read)
    ensures ScanPrefix(io, crc, file, offset + read.size, seen + [Located(read.record, offset, read.size)])
    ensures ScanFrom(io, crc, file, 0).Ok? ==>
      seen + [Located(read.record, offset, read.size)] <= ScanFrom(io, crc, file, 0).value
  {
    hide ReadAt;
    var l := Located(read.record, offset, read.size);
    match ScanFrom(io, crc, file, offset + read.size)
    case Err(_) =>
    case Ok(rest) => assert seen + ([l] + rest) == seen + [l] + rest;
  }

  /** Where the reader stops, the scan is over. */
  lemma {:induction false} ScanStops(io: IOType, crc: Checksum, file: Bytes, offset: nat, seen: seq<Located>,
      e: ReadError)
    requires ScanPrefix(io, crc, file, offset, seen) && ReadAt(io, crc, file, offset) == Err(e)
    ensures ScanFrom(io, crc, file, 0) == if e.Eof? then Ok(seen) else Err(e)
  {
    hide ReadAt;
    assert seen + [] == seen;
  }

  /** The place of a record just read, in the log and as an update. */
  lemma {:induction false} PlacedMore(fid: nat, seen: seq<Located>, l: Located, st: State)
    ensures var ls := Placed(fid, seen + [l]);
            && ls == Placed(fid, seen) + [Logged(l.record, Pos(fid, l.offset, l.size))]
            && RunFrom(st, ls) == Step(RunFrom(st, Placed(fid, seen)), ViewOf(ls[|seen|]))
            && (Parses(ls) <==> Parses(Placed(fid, seen)) && ParseKey(l.record.key).ParsedKey?)
  {
    hide Step, ViewOf, ParseKey;
    var ls := Placed(fid, seen + [l]);
    assert (seen + [l])[..|seen|] == seen;
    assert ls[..|seen|] == Placed(fid, seen);
    assert ls[|seen|] in ls;
  }

  lemma {:induction false} BadKeySeen(fid: nat, seen: seq<Located>, found: seq<Located>)
    requires seen <= found && !Parses(Placed(fid, seen))
    ensures !Parses(Placed(fid, found))
  {
    var l :| l in Placed(fid, seen) && !ParseKey(l.rec.key).ParsedKey?;
    var i :| 0 <= i < |seen| && Placed(fid, seen)[i] == l;
    assert Placed(fid, found)[i] == l;
  }

  /** Turning a record that was read into the update it stands for. */
  lemma {:induction false} ReadView(rec: Record, pos: Pos)
    requires ParseKey(rec.key).ParsedKey?
    ensures var p := ParseKey(rec.key);
            ViewOf(Logged(rec, pos)) == View(p.seqNo, Update(p.key, rec.rtype, Slot(pos, rec.value)))
  {
  }

  /** The inner loop: read records until the end of the file. */
  method LoadFile(io: IOType, crc: Checksum, file: Bytes, fid: nat, tree: Tree, batches: map<nat, seq<Update>>,
      maxSeq: nat, reclaim: nat, ghost st: State)
    returns (r: Result<nat, LoadError>, batches': map<nat, seq<Update>>, maxSeq': nat, reclaim': nat)
    requires Tracks(tree, batches, maxSeq, reclaim, st)
    modifies tree
    ensures match ScanFrom(io, crc, file, 0)
            case Err(_) => r.Err?
            case Ok(found) =>
              && (r.Ok? <==> Parses(Placed(fid, found)))
              && (r.Ok? ==>
                    && r.value == ScanEnd(found)
                    && Tracks(tree, batches', maxSeq', reclaim', RunFrom(st, Placed(fid, found))))
  {
    hide ReadAt, Step, ViewOf, ParseKey, Tracks, RunFrom, Parses, Placed, ScanPrefix, ScanFrom;
    batches', maxSeq', reclaim' := batches, maxSeq, reclaim;
    NothingPlaced(fid, st);
    ScanStart(io, crc, file);
    var offset := 0;
    ghost var seen: seq<Located> := [];
    while true
      invariant ScanPrefix(io, crc, file, offset, seen) && offset == ScanEnd(seen)
      invariant Parses(Placed(fid, seen))
      invariant Tracks(tree, batches', maxSeq', reclaim', RunFrom(st, Placed(fid, seen)))
      decreases |file| - offset
    {
      var read := ReadLogRecord(io, crc, file, offset);
      if read.Err? {
        ScanStops(io, crc, file, offset, seen, read.error);
        return if read.error.Eof? then Ok(offset) else Err(Unreadable(read.error)), batches', maxSeq', reclaim';
      }
      var record, pos := read.value.record, Pos(fid, offset, read.value.size);
      ghost var l := Located(record, offset, read.value.size);
      ScanMore(io, crc, file, offset, seen, read.value);
      PlacedMore(fid, seen, l, st);
      var parsed := ParseKey(record.key);
      if parsed.Unparsable? {
        if ScanFrom(io, crc, file, 0).Ok? {
          BadKeySeen(fid, seen + [l], ScanFrom(io, crc, file, 0).value);
        }
        return Err(BadKey), batches', maxSeq', reclaim';
      }
      ReadView(record, pos);
      var v := View(parsed.seqNo, Update(parsed.key, record.rtype, Slot(pos, record.value)));
      batches', maxSeq', reclaim' := LoadRecord(tree, batches', maxSeq', reclaim', v, RunFrom(st, Placed(fid, seen)));
      offset := offset + read.value.size;
      seen := seen + [l];
    }
  }

  lemma {:induction false} NothingPlaced(fid: nat, st: State)
    ensures Parses(Placed(fid, [])) && RunFrom(st, Placed(fid, [])) == st
  {
  }

  // ---- The hint file ----

  function HintRecord(h: Hint): Record
  {
    Record(h.key, EncodePos(h.pos), Normal)
  }

  function HintRecords(hints: seq<Hint>): (rs: seq<Record>)
    ensures |rs| == |hints|
    ensures forall i :: 0 <= i < |rs| ==> rs[i] == HintRecord(hints[i])
  {
    if hints == [] then [] else HintRecords(hints[..|hints| - 1]) + [HintRecord(hints[|hints| - 1])]
  }

  ghost predicate HintsReadable(hints: seq<Hint>)
  {
    forall h :: h in hints ==> h.key != [] && |h.key| < U32_LIMIT && PosFits(h.pos)
  }

  /** `write_hint_record`. */
  method WriteHintRecord(crc: Checksum, file: Handle, key: Bytes, pos: Pos)
    modifies file, file.disk
    ensures file.disk.files == old(file.disk.files)[file.fileId :=
        Contents(old(file.disk.files), file.fileId) + Encode(crc, HintRecord(Hint(key, pos)))]
    ensures file.disk.durable == old(file.disk.durable)
  {
    hide EncodePos;
    var value := EncodePosition(pos);
    var enc, _ := EncodeRecord(crc, Record(key, value, Normal));
    var _ := file.Write(enc);
  }

  lemma {:induction false} PosLength(pos: Pos)
    requires PosFits(pos)
    ensures 3 <= |EncodePos(pos)| <= 30
  {
    Varint.EncodedLength(pos.fid);
    Varint.EncodedLength(pos.offset);
    Varint.EncodedLength(pos.size);
    hide Varint.Encode;
  }

  lemma {:induction false} HintReadable(h: Hint)
    requires h.key != [] && |h.key| < U32_LIMIT && PosFits(h.pos)
    ensures Storable(HintRecord(h)) && DecodePos(HintRecord(h).value) == Some(h.pos)
  {
    hide EncodePos, DecodePos;
    PosRoundTrip(h.pos);
    PosLength(h.pos);
  }

  lemma {:induction false} HintsStorable(hints: seq<Hint>)
    requires HintsReadable(hints)
    ensures AllStorable(HintRecords(hints)) && forall q :: q in HintRecords(hints) ==> q.key != []
  {
    hide DecodePos, EncodePos;
    var rs := HintRecords(hints);
    forall q | q in rs ensures Storable(q) && q.key != [] {
      var i :| 0 <= i < |rs| && rs[i] == q;
      HintReadable(hints[i]);
    }
  }

  lemma {:induction false} HintNext(log: seq<Logged>, hints: seq<Hint>, j: nat)
    requires j < |hints|
    ensures Places(Live(HintImage(log, hints[..j + 1]))) ==
        Places(Live(HintImage(log, hints[..j])))[hints[j].key := hints[j].pos]
  {
    assert hints[..j + 1][..j] == hints[..j];
  }

  /** The index that a hint file with these records describes; None where a position does not decode. */
  function HintPlaces(found: seq<Located>): Option<map<Bytes, Pos>>
  {
    if found == [] then Some(map[]) else
      var last := found[|found| - 1].record;
      match HintPlaces(found[..|found| - 1])
      case None => None
      case Some(places) =>
        match DecodePos(last.value)
        case None => None
        case Some(pos) => Some(places[last.key := pos])
  }

  /** A hint file is refused if and only if a position in it does not decode. */
  lemma {:induction false} HintPlacesExact(found: seq<Located>)
    ensures HintPlaces(found).Some? <==> forall l :: l in found ==> DecodePos(l.record.value).Some?
  {
    hide DecodePos;
    if found != [] {
      var n := |found| - 1;
      HintPlacesExact(found[..n]);
      assert found == found[..n] + [found[n]];
    }
  }

  /** Every key in it has the position of its last hint, and there are no other keys. */
  lemma {:induction false} LastHintCounts(found: seq<Located>, i: nat, k: Bytes)
    requires HintPlaces(found).Some?
    ensures k in HintPlaces(found).value ==> exists l :: l in found && l.record.key == k
    ensures i < |found| && found[i].record.key == k && (forall j :: i < j < |found| ==> found[j].record.key != k) ==>
      k in HintPlaces(found).value && Some(HintPlaces(found).value[k]) == DecodePos(found[i].record.value)
  {
    hide DecodePos;
    if found != [] {
      var n := |found| - 1;
      LastHintCounts(found[..n], i, k);
      if k in HintPlaces(found).value && found[n].record.key != k {
        var l :| l in found[..n] && l.record.key == k;
        assert l in found;
      } else {
        assert found[n] in found;
      }
    }
  }

  lemma {:induction false} HintPlacesPrefix(seen: seq<Located>, found: seq<Located>)
    requires seen <= found && HintPlaces(seen).None?
    ensures HintPlaces(found).None?
    decreases |found|
  {
    if |seen| == |found| {
      assert seen == found;
    } else {
      HintPlacesPrefix(seen, found[..|found| - 1]);
    }
  }

  /** `load_index_from_hint_file`; the source panics on a position that does not decode. */
  method LoadHints(crc: Checksum, file: Bytes, tree: Tree) returns (r: Result<nat, LoadError>)
    requires tree.entries == map[]
    modifies tree
    ensures match ScanFrom(StandardFIO, crc, file, 0)
            case Err(_) => r.Err?
            case Ok(found) =>
              && (r.Ok? <==> HintPlaces(found).Some?)
              && (r.Ok? ==> HintPlaces(found) == Some(tree.entries))
  {
    hide ReadAt, DecodePos, ScanPrefix, ScanFrom;
    ScanStart(StandardFIO, crc, file);
    var offset := 0;
    ghost var seen: seq<Located> := [];
    while true
      invariant ScanPrefix(StandardFIO, crc, file, offset, seen)
      invariant HintPlaces(seen) == Some(tree.entries)
      decreases |file| - offset
    {
      var read := ReadLogRecord(StandardFIO, crc, file, offset);
      if read.Err? {
        ScanStops(StandardFIO, crc, file, offset, seen, read.error);
        return if read.error.Eof? then Ok(offset) else Err(Unreadable(read.error));
      }
      ghost var l := Located(read.value.record, offset, read.value.size);
      ScanMore(StandardFIO, crc, file, offset, seen, read.value);
      assert (seen + [l])[..|seen|] == seen;
      var pos := DecodePos(read.value.record.value);
      if pos.None? {
        if ScanFrom(StandardFIO, crc, file, 0).Ok? {
          HintPlacesPrefix(seen + [l], ScanFrom(StandardFIO, crc, file, 0).value);
        }
        return Err(BadPosition);
      }
      var _ := tree.Put(read.value.record.key, pos.value);
      offset := offset + read.value.size;
      seen := seen + [l];
    }
  }

  /** The hint file a merge writes loads as the hints it was given. */
  lemma {:induction false} HintsLoad(crc: Checksum, log: seq<Logged>, hints: seq<Hint>)
    requires HintsReadable(hints)
    ensures ScanFrom(StandardFIO, crc, EncodeAll(crc, HintRecords(hints)), 0).Ok?
    ensures HintPlaces(ScanFrom(StandardFIO, crc, EncodeAll(crc, HintRecords(hints)), 0).value) ==
        Some(Places(Live(HintImage(log, hints))))
  {
    hide ReadAt, EncodeAll, ScanFrom, HintImage, Places, Live, HintPlaces, Locate;
    var rs := HintRecords(hints);
    HintsStorable(hints);
    ScanFile(crc, rs);
    HintPlacesLocated(log, hints, |hints|);
    assert hints[..|hints|] == hints;
  }

  lemma {:induction false} HintPlacesLocated(log: seq<Logged>, hints: seq<Hint>, n: nat)
    requires HintsReadable(hints) && n <= |hints|
    ensures HintPlaces(Locate(HintRecords(hints), 0, n)) == Some(Places(Live(HintImage(log, hints[..n]))))
  {
    hide DecodePos, EncodePos, Places, Live, HintImage;
    if n == 0 {
      EmptyHints(log);
      assert hints[..0] == [];
    } else {
      HintPlacesLocated(log, hints, n - 1);
      LocateSnoc(HintRecords(hints), 0, n);
      HintNext(log, hints, n - 1);
      HintReadable(hints[n - 1]);
    }
  }

  lemma {:induction false} LocateSnoc(rs: seq<Record>, i: nat, n: nat)
    requires i < n <= |rs|
    ensures Locate(rs, i, n)[..n - 1 - i] == Locate(rs, i, n - 1)
    ensures Locate(rs, i, n)[n - 1 - i] == Located(rs[n - 1], OffsetOf(rs, n - 1), Size(rs[n - 1]))
    decreases n - i
  {
    if i + 1 < n {
      LocateSnoc(rs, i + 1, n);
    }
  }

  lemma {:induction false} EmptyHints(log: seq<Logged>)
    ensures Places(Live(HintImage(log, []))) == map[]
  {
  }

  // ---- All files ----

  /** What loading the first files gives: the state of the replay and the end of the last file scanned, or a failure. */
  datatype Loaded = Loaded(st: State, end: nat) | Broken

  /** Every file but the last is mapped, if files are mapped at startup. */
  function IoOf(mapped: bool, ids: seq<nat>, i: nat): IOType
  {
    if mapped && i + 1 < |ids| then MemoryMap else StandardFIO
  }

  /** Loading one more file on top of what the files before it gave. */
  function LoadNext(before: Loaded, fid: nat, scan: Result<seq<Located>, ReadError>): Loaded
  {
    match before
    case Broken => Broken
    case Loaded(st, _) =>
      match scan
      case Err(_) => Broken
      case Ok(found) =>
        if Parses(Placed(fid, found)) then Loaded(RunFrom(st, Placed(fid, found)), ScanEnd(found)) else Broken
  }

  function LoadIds(crc: Checksum, mapped: bool, files: map<nat, Bytes>, ids: seq<nat>, base: nat, n: nat,
      st: State): Loaded
    requires n <= |ids|
  {
    if n == 0 then Loaded(st, 0) else
      var before := LoadIds(crc, mapped, files, ids, base, n - 1, st);
      if ids[n - 1] < base then before
      else LoadNext(before, ids[n - 1], ScanFrom(IoOf(mapped, ids, n - 1), crc, Contents(files, ids[n - 1]), 0))
  }

  /** `load_index_from_data_files`. */
  method LoadDataFiles(crc: Checksum, mapped: bool, files: map<nat, Bytes>, ids: seq<nat>, marker: Option<nat>,
      tree: Tree, ghost st: State)
    returns (r: Result<nat, LoadError>, maxSeq: nat, reclaim: nat)
    requires Tracks(tree, map[], NON_TRANSACTION, 0, st)
    modifies tree
    ensures var all := LoadIds(crc, mapped, files, ids, if marker.Some? then marker.value else 0, |ids|, st);
            && (r.Ok? <==> all.Loaded?)
            && (r.Ok? ==> r.value == all.end && tree.entries == Places(Live(all.st.image))
                          && maxSeq == all.st.maxSeq && reclaim == all.st.reclaim)
  {
    hide ScanFrom, RunFrom, Parses, Placed, Live, Places;
    var batches: map<nat, seq<Update>> := map[];
    var end := 0;
    maxSeq, reclaim := NON_TRANSACTION, 0;
    ghost var base := if marker.Some? then marker.value else 0;
    var i := 0;
    while i < |ids|
      invariant i <= |ids|
      invariant LoadIds(crc, mapped, files, ids, base, i, st).Loaded?
      invariant end == LoadIds(crc, mapped, files, ids, base, i, st).end
      invariant Tracks(tree, batches, maxSeq, reclaim, LoadIds(crc, mapped, files, ids, base, i, st).st)
    {
      var fid := ids[i];
      if marker.Some? && fid < marker.value {
        i := i + 1;
        continue;
      }
      var io := if mapped && i + 1 < |ids| then MemoryMap else StandardFIO;
      ghost var before := LoadIds(crc, mapped, files, ids, base, i, st);
      var loaded: Result<nat, LoadError>;
      loaded, batches, maxSeq, reclaim :=
        LoadFile(io, crc, Contents(files, fid), fid, tree, batches, maxSeq, reclaim, before.st);
      if loaded.Err? {
        BrokenStays(crc, mapped, files, ids, base, i + 1, |ids|, st);
        return loaded, maxSeq, reclaim;
      }
      end := loaded.value;
      i := i + 1;
    }
    return Ok(end), maxSeq, reclaim;
  }

  lemma {:induction false} BrokenStays(crc: Checksum, mapped: bool, files: map<nat, Bytes>, ids: seq<nat>, base: nat,
      m: nat, n: nat, st: State)
    requires m <= n <= |ids| && LoadIds(crc, mapped, files, ids, base, m, st).Broken?
    ensures LoadIds(crc, mapped, files, ids, base, n, st).Broken?
    decreases n
  {
    hide ScanFrom;
    if m < n {
      BrokenStays(crc, mapped, files, ids, base, m, n - 1, st);
    }
  }

  // ---- Loading the files is replaying the log ----

  /** The file ids in order, as sorting the directory listing gives them. */
  ghost predicate Lists(ids: seq<nat>, files: map<nat, Bytes>)
  {
    && (forall f :: f in files <==> f in ids)
    && (forall i, j :: 0 <= i < j < |ids| ==> ids[i] < ids[j])
  }

  /** `ls` are these records of file `fid`, one after the other. */
  ghost predicate InFile(rs: seq<Record>, fid: nat, ls: seq<Logged>)
  {
    && |ls| == |rs|
    && forall j {:trigger ls[j]} :: 0 <= j < |ls| ==> ls[j] == Logged(rs[j], Pos(fid, OffsetOf(rs, j), Size(rs[j])))
  }

  lemma {:induction false} InFileSnoc(rs: seq<Record>, fid: nat, ls: seq<Logged>, r: Record)
    requires InFile(rs, fid, ls)
    ensures InFile(rs + [r], fid, ls + [Logged(r, Pos(fid, OffsetOf(rs, |rs|), Size(r)))])
  {
    hide Size, OffsetOf;
    var all, more := rs + [r], ls + [Logged(r, Pos(fid, OffsetOf(rs, |rs|), Size(r)))];
    forall j | 0 <= j < |more| ensures more[j] == Logged(all[j], Pos(fid, OffsetOf(all, j), Size(all[j]))) {
      OffsetOfPrefix(rs, [r], j);
    }
  }

  /** The records of a file are a stretch of the log. */
  lemma {:induction false} FileSlice(log: seq<Logged>, active: nat, off: nat, fid: nat)
    requires Laid(log, active, off)
    ensures SplitAt(log, fid) <= SplitAt(log, fid + 1)
    ensures InFile(FileOf(log, fid), fid, log[SplitAt(log, fid)..SplitAt(log, fid + 1)])
  {
    hide Size, InFile, OffsetOf;
    SplitMonotone(log, fid, fid + 1);
    if FileOf(log, fid) == [] { assert InFile([], fid, []) by { NothingInFile(fid); } }
    if log != [] {
      var pre, l := log[..|log| - 1], log[|log| - 1];
      FileSlice(pre, l.pos.fid, l.pos.offset, fid);
      if l.pos.fid < fid {
        FileBeyond(log, l.pos.fid, l.pos.offset + l.pos.size, fid);
        assert log[|log|..|log|] == [];
      } else if l.pos.fid == fid {
        assert log == pre + [l];
        FileSliceSnoc(pre, l, fid);
      } else {
        assert FileOf(log, fid) == FileOf(pre, fid) + [] == FileOf(pre, fid);
        assert SplitAt(log, fid) == SplitAt(pre, fid) && SplitAt(log, fid + 1) == SplitAt(pre, fid + 1);
        assert log == pre + [l];
        assert log[SplitAt(log, fid)..SplitAt(log, fid + 1)] == pre[SplitAt(pre, fid)..SplitAt(pre, fid + 1)];
      }
    }
  }

  /** One more record at the end of the file. */
  lemma {:induction false} FileSliceSnoc(pre: seq<Logged>, l: Logged, fid: nat)
    requires Laid(pre, fid, l.pos.offset) && l.pos.fid == fid && l.pos.size == Size(l.rec)
    requires SplitAt(pre, fid) <= SplitAt(pre, fid + 1)
      && InFile(FileOf(pre, fid), fid, pre[SplitAt(pre, fid)..SplitAt(pre, fid + 1)])
    ensures var log := pre + [l];
            && SplitAt(log, fid) <= SplitAt(log, fid + 1)
            && InFile(FileOf(log, fid), fid, log[SplitAt(log, fid)..SplitAt(log, fid + 1)])
  {
    hide Size, InFile, OffsetOf, Laid, FileOf;
    SplitAll(pre, fid, l.pos.offset);
    FileEnds(pre, fid, l.pos.offset);
    FileOfSnoc(pre, l, fid);
    var log, a := pre + [l], SplitAt(pre, fid);
    assert log[..|pre|] == pre;
    assert log[a..|log|] == pre[a..|pre|] + [l];
    assert l == Logged(l.rec, Pos(fid, l.pos.offset, Size(l.rec)));
    InFileSnoc(FileOf(pre, fid), fid, pre[a..|pre|], l.rec);
  }

  lemma {:induction false} NothingInFile(fid: nat)
    ensures InFile([], fid, [])
  {
  }

  lemma {:induction false} SplitAll(log: seq<Logged>, active: nat, off: nat)
    requires Laid(log, active, off)
    ensures SplitAt(log, active + 1) == |log|
  {
  }

  /** Past the end of the last record it does not matter how far away the next file is. */
  lemma {:induction false} SeenLater(mapped: bool, log: seq<Logged>, a: nat, b: nat)
    requires log != [] ==> log[|log| - 1].pos.fid < a && log[|log| - 1].pos.fid < b
    ensures Seen(mapped, log, a) == Seen(mapped, log, b)
  {
  }

  /** Inside one file everything is seen. */
  lemma {:induction false} SeenWithin(mapped: bool, log: seq<Logged>, ls: seq<Logged>, fid: nat)
    requires forall l :: l in ls ==> l.pos.fid == fid
    ensures Seen(mapped, log + ls, fid) == Seen(mapped, log, fid) + ls
    decreases |ls|
  {
    if ls == [] {
      assert log + ls == log;
      assert Seen(mapped, log, fid) + [] == Seen(mapped, log, fid);
    } else {
      var n := |ls| - 1;
      var all, pre, l := log + ls, ls[..n], ls[n];
      assert ls == pre + [l] && l in ls;
      assert all[..|all| - 1] == log + pre && all[|all| - 1] == l;
      SeenWithin(mapped, log, pre, fid);
      assert Seen(mapped, log, fid) + pre + [l] == Seen(mapped, log, fid) + ls;
    }
  }

  /** A whole file that is not the newest loses at most its last record. */
  lemma {:induction false} SeenTail(mapped: bool, log: seq<Logged>, pre: seq<Logged>, l: Logged, fid: nat, next: nat)
    requires (forall q :: q in pre ==> q.pos.fid == fid) && l.pos.fid == fid < next
    ensures Seen(mapped, log + pre + [l], next) ==
            Seen(mapped, log, fid) + if mapped && l.pos.size < MAX_HEADER_SIZE then pre else pre + [l]
  {
    var all, seen := log + pre + [l], Seen(mapped, log, fid);
    assert all[..|all| - 1] == log + pre && all[|all| - 1] == l;
    SeenWithin(mapped, log, pre, fid);
    assert seen + pre + [l] == seen + (pre + [l]);
  }

  /** What is seen of such a file is what a scan of it finds. */
  lemma {:induction false} SeenFile(mapped: bool, log: seq<Logged>, ls: seq<Logged>, fid: nat, next: nat,
      rs: seq<Record>)
    requires InFile(rs, fid, ls) && fid < next
    requires log != [] ==> log[|log| - 1].pos.fid < fid
    ensures Seen(mapped, log + ls, next) ==
        Seen(mapped, log, fid) + ls[..Visible(if mapped then MemoryMap else StandardFIO, rs)]
  {
    hide Size, Seen, OffsetOf;
    if ls == [] {
      assert log + ls == log && ls[..0] == [] && Seen(mapped, log, fid) + [] == Seen(mapped, log, fid);
      SeenLater(mapped, log, fid, next);
    } else {
      var n := |ls| - 1;
      var pre, l := ls[..n], ls[n];
      assert l.pos.size == Size(rs[n]);
      SeenTail(mapped, log, pre, l, fid, next);
      assert log + ls == log + pre + [l];
      assert ls[..n + 1] == pre + [l];
    }
  }

  /** The records a scan finds in a file of the log, where the log has them. */
  lemma {:induction false} PlacedLocated(rs: seq<Record>, fid: nat, ls: seq<Logged>, n: nat)
    requires InFile(rs, fid, ls) && n <= |rs|
    ensures Placed(fid, Locate(rs, 0, n)) == ls[..n]
    ensures ScanEnd(Locate(rs, 0, n)) == OffsetOf(rs, n)
  {
    assert n > 0 ==> OffsetOf(rs, n) == OffsetOf(rs, n - 1) + Size(rs[n - 1]);
    assert OffsetOf(rs, 0) == 0;
    hide Size, OffsetOf;
    if n > 0 {
      PlacedLocated(rs, fid, ls, n - 1);
      LocateSnoc(rs, 0, n);
      assert ls[..n] == ls[..n - 1] + [ls[n - 1]];
    }
  }

  /** What a scan of a file of the log finds. */
  lemma {:induction false} ScanOfFile(io: IOType, crc: Checksum, files: map<nat, Bytes>, log: seq<Logged>, active: nat,
      off: nat, fid: nat)
    requires Holds(crc, files, log) && Laid(log, active, off) && AllReadable(log) && fid in files
    ensures SplitAt(log, fid) <= SplitAt(log, fid + 1)
    ensures var rs, ls := FileOf(log, fid), log[SplitAt(log, fid)..SplitAt(log, fid + 1)];
            && InFile(rs, fid, ls)
            && ScanFrom(io, crc, files[fid], 0).Ok?
            && Placed(fid, ScanFrom(io, crc, files[fid], 0).value) == ls[..Visible(io, rs)]
            && ScanEnd(ScanFrom(io, crc, files[fid], 0).value) == OffsetOf(rs, Visible(io, rs))
  {
    hide ScanFrom, EncodeAll, FileOf, Placed, Locate, Size, Laid, Visible, SplitAt, OffsetOf, ScanEnd, AllStorable;
    FileSlice(log, active, off, fid);
    FileOfReadable(log, fid);
    var rs, ls := FileOf(log, fid), log[SplitAt(log, fid)..SplitAt(log, fid + 1)];
    ScanVisible(io, crc, rs);
    PlacedLocated(rs, fid, ls, Visible(io, rs));
  }

  /** The part of the log below file `bound` that is scanned. */
  function BelowFile(log: seq<Logged>, base: nat, bound: nat): seq<Logged>
  {
    if SplitAt(log, base) <= SplitAt(log, bound) then log[SplitAt(log, base)..SplitAt(log, bound)] else []
  }

  /** What loading gives if it replays these records. */
  function Replayed(st: State, ls: seq<Logged>, end: nat): Loaded
  {
    if Parses(ls) then Loaded(RunFrom(st, ls), end) else Broken
  }

  lemma {:induction false} ReplayMore(before: Loaded, st: State, ls: seq<Logged>, end: nat, fid: nat,
      found: seq<Located>)
    requires before == Replayed(st, ls, end)
    ensures LoadNext(before, fid, Ok(found)) == Replayed(st, ls + Placed(fid, found), ScanEnd(found))
  {
    hide Placed, ParseKey;
    var more := Placed(fid, found);
    RunFromAppend(st, ls, more);
    assert Parses(ls + more) <==> Parses(ls) && Parses(more) by {
      assert forall l :: l in ls + more <==> l in ls || l in more;
    }
  }

  /** A data directory that holds the log of a store. */
  ghost predicate DirectoryOf(crc: Checksum, files: map<nat, Bytes>, ids: seq<nat>, s: Store)
  {
    && Holds(crc, files, s.log) && AllReadable(s.log)
    && Laid(s.log, s.active, EndOffset(s.log, s.active))
    && Newest(files, s.active) && Lists(ids, files) && s.base <= s.active
  }

  /** No record lies between two neighbouring files. */
  lemma {:induction false} NoGap(log: seq<Logged>, lo: nat, hi: nat)
    requires lo <= hi
    requires forall l :: l in log ==> l.pos.fid < lo || l.pos.fid >= hi
    ensures SplitAt(log, lo) == SplitAt(log, hi)
  {
    if log != [] {
      assert log[|log| - 1] in log;
      NoGap(log[..|log| - 1], lo, hi);
    }
  }

  lemma {:induction false} Neighbours(crc: Checksum, files: map<nat, Bytes>, ids: seq<nat>, s: Store, n: nat)
    requires DirectoryOf(crc, files, ids, s) && n < |ids|
    ensures n == 0 ==> SplitAt(s.log, ids[n]) == 0
    ensures n > 0 ==> ids[n - 1] < ids[n] && SplitAt(s.log, ids[n]) == SplitAt(s.log, ids[n - 1] + 1)
    ensures ids[n] in files && (n == |ids| - 1 ==> ids[n] == s.active)
  {
    hide Laid, SplitAt, AllReadable, EncodeAll, FileOf;
    var lo := if n == 0 then 0 else ids[n - 1] + 1;
    forall l | l in s.log ensures l.pos.fid < lo || l.pos.fid >= ids[n] {
      var i :| 0 <= i < |ids| && ids[i] == l.pos.fid;
    }
    NoGap(s.log, lo, ids[n]);
    if n == 0 {
      SplitZero(s.log);
    }
    assert s.active in ids;
    var j :| 0 <= j < |ids| && ids[j] == s.active;
    assert ids[|ids| - 1] in files;
  }

  lemma {:induction false} SplitZero(log: seq<Logged>)
    ensures SplitAt(log, 0) == 0
  {
    if log != [] {
      SplitZero(log[..|log| - 1]);
    }
  }

  /** The scanned part below a file, and with that file. */
  lemma {:induction false} BelowNext(log: seq<Logged>, active: nat, off: nat, base: nat, fid: nat)
    requires Laid(log, active, off) && base <= fid
    ensures SplitAt(log, base) <= SplitAt(log, fid) <= SplitAt(log, fid + 1)
    ensures var x, y := BelowFile(log, base, fid), log[SplitAt(log, fid)..SplitAt(log, fid + 1)];
            && log[SplitAt(log, base)..SplitAt(log, fid + 1)] == x + y
            && (x != [] ==> x[|x| - 1].pos.fid < fid)
            && (forall l :: l in y ==> l.pos.fid == fid)
  {
    hide Laid, SplitAt;
    SplitMonotone(log, base, fid);
    SplitMonotone(log, fid, fid + 1);
    SplitExact(log, active, off, fid);
    SplitExact(log, active, off, fid + 1);
    var y := log[SplitAt(log, fid)..SplitAt(log, fid + 1)];
    forall l | l in y ensures l.pos.fid == fid {
      var i :| 0 <= i < |y| && y[i] == l;
      assert log[SplitAt(log, fid) + i] == l;
    }
  }

  /** Before file `n` is scanned, the replay has seen what a scan of the log sees below that file. */
  lemma {:induction false} LoadBelow(crc: Checksum, mapped: bool, files: map<nat, Bytes>, ids: seq<nat>, s: Store,
      n: nat, st: State) returns (end: nat)
    requires DirectoryOf(crc, files, ids, s) && n < |ids|
    ensures LoadIds(crc, mapped, files, ids, s.base, n, st) ==
            Replayed(st, Seen(mapped, BelowFile(s.log, s.base, ids[n]), ids[n]), end)
  {
    hide Laid, SplitAt, ScanFrom, AllReadable, Holds, Placed, ScanEnd, FileOf, Replayed, Newest, Lists, LoadNext,
      Seen, Visible, InFile;
    Neighbours(crc, files, ids, s, n);
    var log, off := s.log, EndOffset(s.log, s.active);
    NothingReplayed(mapped, st, ids[n]);
    if n == 0 {
      assert BelowFile(log, s.base, ids[n]) == [];
      end := 0;
    } else {
      var fid := ids[n - 1];
      var before := LoadBelow(crc, mapped, files, ids, s, n - 1, st);
      Neighbours(crc, files, ids, s, n - 1);
      NothingReplayed(mapped, st, fid);
      if fid < s.base {
        SplitMonotone(log, fid, fid + 1);
        SplitMonotone(log, fid + 1, s.base);
        assert BelowFile(log, s.base, fid) == [] && BelowFile(log, s.base, ids[n]) == [];
        end := before;
      } else {
        var io := IoOf(mapped, ids, n - 1);
        ScanOfFile(io, crc, files, log, s.active, off, fid);
        BelowNext(log, s.active, off, s.base, fid);
        var x, y := BelowFile(log, s.base, fid), log[SplitAt(log, fid)..SplitAt(log, fid + 1)];
        SeenFile(mapped, x, y, fid, ids[n], FileOf(log, fid));
        var found := ScanFrom(io, crc, files[fid], 0).value;
        ReplayMore(LoadIds(crc, mapped, files, ids, s.base, n - 1, st), st, Seen(mapped, x, fid), before, fid, found);
        assert BelowFile(log, s.base, ids[n]) == x + y;
        end := ScanEnd(found);
      }
    }
  }

  lemma {:induction false} NothingReplayed(mapped: bool, st: State, next: nat)
    ensures Seen(mapped, [], next) == [] && forall end: nat :: Replayed(st, [], end) == Loaded(st, end)
  {
  }

  /**
   * Loading the data files of a directory, mapped or not, is the scan of the log they hold: it fails where a key does
   * not parse, and otherwise leaves the index, the counters and the write offset of the scan.
   */
  lemma {:induction false} LoadIsScan(o: Options, crc: Checksum, files: map<nat, Bytes>, ids: seq<nat>, s: Store,
      st: State)
    requires DirectoryOf(crc, files, ids, s)
    ensures LoadIds(crc, o.mmapAtStartup, files, ids, s.base, |ids|, st) ==
            Replayed(st, Seen(o.mmapAtStartup, ToScan(s), s.active), EndOffset(s.log, s.active))
  {
    LastId(crc, files, ids, s);
    hide Laid, SplitAt, ScanFrom, Placed, ScanEnd, Replayed, Newest, LoadNext, Seen, DirectoryOf, ToScan, EndOffset,
      BelowFile;
    var n, mapped := |ids| - 1, o.mmapAtStartup;
    var end := LoadBelow(crc, mapped, files, ids, s, n, st);
    LastFile(crc, mapped, files, ids, s);
    var found := ScanFrom(StandardFIO, crc, files[s.active], 0);
    ReplayMore(LoadIds(crc, mapped, files, ids, s.base, n, st), st,
      Seen(mapped, BelowFile(s.log, s.base, s.active), s.active), end, s.active, found.value);
  }

  lemma {:induction false} LastId(crc: Checksum, files: map<nat, Bytes>, ids: seq<nat>, s: Store)
    requires DirectoryOf(crc, files, ids, s)
    ensures ids != [] && ids[|ids| - 1] == s.active && s.base <= s.active && s.active in files
  {
    hide Laid, SplitAt, AllReadable, Holds, FileOf, EncodeAll;
    assert s.active in ids;
    Neighbours(crc, files, ids, s, |ids| - 1);
  }

  /** The newest file is read to its end. */
  lemma {:induction false} LastFile(crc: Checksum, mapped: bool, files: map<nat, Bytes>, ids: seq<nat>, s: Store)
    requires DirectoryOf(crc, files, ids, s)
    ensures s.active in files && ScanFrom(StandardFIO, crc, files[s.active], 0).Ok?
    ensures var found := ScanFrom(StandardFIO, crc, files[s.active], 0).value;
            && ScanEnd(found) == EndOffset(s.log, s.active)
            && Seen(mapped, ToScan(s), s.active) ==
               Seen(mapped, BelowFile(s.log, s.base, s.active), s.active) + Placed(s.active, found)
  {
    hide Laid, SplitAt, ScanFrom, AllReadable, Holds, Placed, ScanEnd, FileOf, Seen, InFile, Size, EndOffset, OffsetOf;
    var log, fid, off := s.log, s.active, EndOffset(s.log, s.active);
    ScanOfFile(StandardFIO, crc, files, log, fid, off, fid);
    BelowNext(log, fid, off, s.base, fid);
    SplitAll(log, fid, off);
    var x, y, rs := BelowFile(log, s.base, fid), log[SplitAt(log, fid)..SplitAt(log, fid + 1)], FileOf(log, fid);
    assert ToScan(s) == x + y;
    SeenWithin(mapped, x, y, fid);
    FileEnds(log, fid, off);
    InFileLength(rs, fid, y);
    assert y[..|rs|] == y;
  }

  lemma {:induction false} InFileLength(rs: seq<Record>, fid: nat, ls: seq<Logged>)
    requires InFile(rs, fid, ls)
    ensures |ls| == |rs|
  {
  }
}
