/**
 * What a log means to the engine: the loop that rebuilds the index from the records of the data files, buffering the
 * records of a batch until the record that finishes it.
 *
 * The image a replay builds keeps deleted keys, mapped to None. The index is the image without them; keeping them makes
 * the replay of a concatenation the override of two replays.
 */
module Replay {
  import opened Wire
  import opened LogRecord

  /** A record together with the place the log gave it. */
  datatype Logged = Logged(rec: Record, pos: Pos)

  /** An index entry: the position the source stores, and the value found there. */
  datatype Slot = Slot(pos: Pos, value: Bytes)

  datatype Update = Update(key: Bytes, rtype: RecordType, slot: Slot)

  datatype View = View(seqNo: nat, update: Update)

  type Image = map<Bytes, Option<Slot>>

  type Index = map<Bytes, Slot>

  type Values = map<Bytes, Bytes>

  const NON_TRANSACTION: nat := 0

  /** A log record as replay sees it: its sequence number, its real key and where it lies. */
  function ViewOf(l: Logged): View
  {
    match ParseKey(l.rec.key)
    case ParsedKey(key, seqNo) => View(seqNo, Update(key, l.rec.rtype, Slot(l.pos, l.rec.value)))
    case Unparsable => View(NON_TRANSACTION, Update([], TxnFinished, Slot(l.pos, l.rec.value)))
  }

  /** Opening fails on the first record whose key does not parse. */
  predicate Parses(log: seq<Logged>)
  {
    forall l :: l in log ==> ParseKey(l.rec.key).ParsedKey?
  }

  lemma {:induction false} ViewOfEncoded(seqNo: nat, key: Bytes, value: Bytes, rtype: RecordType, pos: Pos)
    requires seqNo < U64_LIMIT
    ensures ViewOf(Logged(Record(EncodeKey(seqNo, key), value, rtype), pos)) ==
        View(seqNo, Update(key, rtype, Slot(pos, value)))
    ensures ParseKey(EncodeKey(seqNo, key)).ParsedKey?
  {
    KeyRoundTrip(seqNo, key);
  }

  // ---- Applying updates ----

  function Outcome(u: Update): Option<Slot>
  {
    if u.rtype.Delete? then None else Some(u.slot)
  }

  /** `update_index`, on the image. */
  function Apply(image: Image, u: Update): Image
  {
    if u.rtype.TxnFinished? then image else image[u.key := Outcome(u)]
  }

  function OldSize(image: Image, key: Bytes): nat
  {
    if key in image && image[key].Some? then image[key].value.pos.size else 0
  }

  /** `update_index`, the bytes it makes reclaimable. */
  function Freed(image: Image, u: Update): nat
  {
    match u.rtype
    case Delete => u.slot.pos.size + OldSize(image, u.key)
    case Normal => OldSize(image, u.key)
    case TxnFinished => 0
  }

  function ApplyAll(image: Image, us: seq<Update>): Image
  {
    if us == [] then image else Apply(ApplyAll(image, us[..|us| - 1]), us[|us| - 1])
  }

  function FreedAll(image: Image, us: seq<Update>): nat
  {
    if us == [] then 0
    else FreedAll(image, us[..|us| - 1]) + Freed(ApplyAll(image, us[..|us| - 1]), us[|us| - 1])
  }

  lemma {:induction false} ApplySnoc(image: Image, us: seq<Update>, u: Update)
    ensures ApplyAll(image, us + [u]) == Apply(ApplyAll(image, us), u)
    ensures FreedAll(image, us + [u]) == FreedAll(image, us) + Freed(ApplyAll(image, us), u)
  {
    hide Apply, Freed;
    assert (us + [u])[..|us|] == us;
  }

  // ---- The replay loop ----

  datatype State = State(image: Image, pending: map<nat, seq<Update>>, maxSeq: nat, reclaim: nat)

  const EMPTY := State(map[], map[], 0, 0)

  function Pend(st: State, s: nat): seq<Update>
  {
    if s in st.pending then st.pending[s] else []
  }

  function Max(a: nat, b: nat): nat
  {
    if a < b then b else a
  }

  /** One turn of the loop in `load_index_from_data_files`. */
  function Step(st: State, v: View): State
  {
    var u := v.update;
    var maxSeq := Max(st.maxSeq, v.seqNo);
    if v.seqNo == NON_TRANSACTION then
      State(Apply(st.image, u), st.pending, maxSeq, st.reclaim + Freed(st.image, u))
    else if u.rtype.TxnFinished? then
      var us := Pend(st, v.seqNo);
      State(ApplyAll(st.image, us), st.pending - {v.seqNo}, maxSeq, st.reclaim + FreedAll(st.image, us))
    else
      State(st.image, st.pending[v.seqNo := Pend(st, v.seqNo) + [u]], maxSeq, st.reclaim)
  }

  function RunFrom(st: State, log: seq<Logged>): State
  {
    if log == [] then st else Step(RunFrom(st, log[..|log| - 1]), ViewOf(log[|log| - 1]))
  }

  function Run(log: seq<Logged>): State
  {
    RunFrom(EMPTY, log)
  }

  function ImageOf(log: seq<Logged>): Image
  {
    Run(log).image
  }

  /** The index of the source: the keys the image does not record as deleted. */
  function Live(image: Image): Index
  {
    map k | k in image && image[k].Some? :: image[k].value
  }

  function ValuesOf(index: Index): Values
  {
    map k | k in index :: index[k].value
  }

  lemma {:induction false} RunFromAppend(st: State, a: seq<Logged>, b: seq<Logged>)
    ensures RunFrom(st, a + b) == RunFrom(RunFrom(st, a), b)
    decreases |b|
  {
    hide Step, ViewOf;
    if b == [] {
      assert a + b == a;
    } else {
      assert (a + b)[..|a + b| - 1] == a + b[..|b| - 1];
      RunFromAppend(st, a, b[..|b| - 1]);
    }
  }

  lemma {:induction false} RunSnoc(log: seq<Logged>, l: Logged)
    ensures Run(log + [l]) == Step(Run(log), ViewOf(l))
  {
    hide Step, ViewOf;
    assert (log + [l])[..|log|] == log;
  }

  // ---- Sequence numbers ----

  ghost predicate SeqsBelow(log: seq<Logged>, bound: nat)
  {
    forall l :: l in log ==> ViewOf(l).seqNo < bound
  }

  /** The largest sequence number replay reports is the largest in the log, finished or not. */
  lemma {:induction false} MaxSeqIsMax(log: seq<Logged>)
    ensures SeqsBelow(log, Run(log).maxSeq + 1)
    ensures Run(log).maxSeq == 0 || exists l :: l in log && ViewOf(l).seqNo == Run(log).maxSeq
  {
    hide ViewOf;
    if log != [] {
      var pre, last := log[..|log| - 1], log[|log| - 1];
      assert log == pre + [last];
      MaxSeqIsMax(pre);
      assert forall l :: l in log <==> l in pre || l == last;
      if Run(pre).maxSeq >= ViewOf(last).seqNo && Run(log).maxSeq != 0 {
        var l :| l in pre && ViewOf(l).seqNo == Run(pre).maxSeq;
        assert l in log;
      } else {
        assert last in log;
      }
    }
  }

  /** Only sequence numbers that occur in the log are buffered. */
  lemma {:induction false} PendingBelow(log: seq<Logged>, bound: nat)
    requires SeqsBelow(log, bound)
    ensures forall s :: s in Run(log).pending ==> s < bound
  {
    hide ViewOf;
    if log != [] {
      var pre, last := log[..|log| - 1], log[|log| - 1];
      assert log == pre + [last];
      PendingBelow(pre, bound);
      assert last in log;
    }
  }

  // ---- Replaying a concatenation ----

  lemma {:induction false} ApplyAllOverride(a: Image, b: Image, us: seq<Update>)
    ensures ApplyAll(a + b, us) == a + ApplyAll(b, us)
  {
    if us != [] {
      var pre, u := us[..|us| - 1], us[|us| - 1];
      ApplyAllOverride(a, b, pre);
      ApplyOverride(a, ApplyAll(b, pre), u);
    }
  }

  lemma {:induction false} ApplyOverride(a: Image, b: Image, u: Update)
    ensures Apply(a + b, u) == a + Apply(b, u)
  {
  }

  predicate Finishes(l: Logged, s: nat)
  {
    s != NON_TRANSACTION && ViewOf(l).seqNo == s && ViewOf(l).update.rtype.TxnFinished?
  }

  /** No batch left open by `a` is finished in `b`. */
  ghost predicate NoCarry(a: seq<Logged>, b: seq<Logged>)
  {
    forall l, s :: l in b && s in Run(a).pending ==> !Finishes(l, s)
  }

  /** `z` has seen what `x` saw and then what `y` saw. */
  ghost predicate Composes(x: State, y: State, z: State)
  {
    z.image == x.image + y.image && forall s :: Pend(z, s) == Pend(x, s) + Pend(y, s)
  }

  lemma {:induction false} StepComposes(x: State, y: State, z: State, v: View)
    requires Composes(x, y, z)
    requires v.seqNo != NON_TRANSACTION && v.update.rtype.TxnFinished? ==> Pend(x, v.seqNo) == []
    ensures Composes(x, Step(y, v), Step(z, v))
  {
    var s := v.seqNo;
    if s == NON_TRANSACTION {
      ApplyOverride(x.image, y.image, v.update);
    } else if v.update.rtype.TxnFinished? {
      assert Pend(z, s) == [] + Pend(y, s) == Pend(y, s);
      ApplyAllOverride(x.image, y.image, Pend(y, s));
    } else {
      var y', z' := Step(y, v), Step(z, v);
      assert Pend(z', s) == Pend(x, s) + Pend(y, s) + [v.update] == Pend(x, s) + Pend(y', s);
    }
  }

  /** The replay of a log is the replay of its end on top of the replay of its start, if no batch crosses the cut. */
  lemma {:induction false} RunCompose(a: seq<Logged>, b: seq<Logged>)
    requires NoCarry(a, b)
    ensures Composes(Run(a), Run(b), Run(a + b))
    ensures ImageOf(a + b) == ImageOf(a) + ImageOf(b)
    decreases |b|
  {
    hide ViewOf, Step;
    if b == [] {
      assert a + b == a;
    } else {
      var pre, last := b[..|b| - 1], b[|b| - 1];
      assert b == pre + [last];
      assert a + b == (a + pre) + [last];
      RunCompose(a, pre);
      RunSnoc(a + pre, last);
      RunSnoc(pre, last);
      assert last in b;
      assert Finishes(last, ViewOf(last).seqNo) ==> ViewOf(last).seqNo !in Run(a).pending;
      StepComposes(Run(a), Run(pre), Run(a + pre), ViewOf(last));
    }
  }

  /** A key once touched stays touched. */
  lemma {:induction false} ImageGrows(a: seq<Logged>, b: seq<Logged>)
    ensures ImageOf(a).Keys <= ImageOf(a + b).Keys
    decreases |b|
  {
    hide ViewOf;
    if b == [] {
      assert a + b == a;
    } else {
      var pre, last := b[..|b| - 1], b[|b| - 1];
      assert a + b == (a + pre) + [last];
      ImageGrows(a, pre);
      RunSnoc(a + pre, last);
      ApplyAllGrows(ImageOf(a + pre), Pend(Run(a + pre), ViewOf(last).seqNo));
    }
  }

  lemma {:induction false} ApplyAllGrows(image: Image, us: seq<Update>)
    ensures image.Keys <= ApplyAll(image, us).Keys
  {
    if us != [] {
      ApplyAllGrows(image, us[..|us| - 1]);
    }
  }

  // ---- A batch ----

  /** The records of one batch, without the record that finishes it. */
  ghost predicate OfBatch(ls: seq<Logged>, s: nat)
  {
    s != NON_TRANSACTION && forall l :: l in ls ==> ViewOf(l).seqNo == s && !ViewOf(l).update.rtype.TxnFinished?
  }

  function UpdatesOf(ls: seq<Logged>): (us: seq<Update>)
    ensures |us| == |ls|
  {
    if ls == [] then [] else UpdatesOf(ls[..|ls| - 1]) + [ViewOf(ls[|ls| - 1]).update]
  }

  lemma {:induction false} StepBuffers(st: State, v: View)
    requires v.seqNo != NON_TRANSACTION && !v.update.rtype.TxnFinished?
    ensures Step(st, v).image == st.image && Step(st, v).reclaim == st.reclaim
    ensures Pend(Step(st, v), v.seqNo) == Pend(st, v.seqNo) + [v.update]
    ensures forall t :: t != v.seqNo ==> Pend(Step(st, v), t) == Pend(st, t)
  {
  }

  lemma {:induction false} UpdatesOfAt(ls: seq<Logged>, i: nat)
    requires i < |ls|
    ensures UpdatesOf(ls)[i] == ViewOf(ls[i]).update
  {
    hide ViewOf;
    if i < |ls| - 1 {
      UpdatesOfAt(ls[..|ls| - 1], i);
    }
  }

  /** Batch records change nothing but the buffer of their own batch. */
  lemma {:induction false} BatchBuffered(log: seq<Logged>, ls: seq<Logged>, s: nat)
    requires OfBatch(ls, s)
    ensures Run(log + ls).image == Run(log).image
    ensures Run(log + ls).reclaim == Run(log).reclaim
    ensures Pend(Run(log + ls), s) == Pend(Run(log), s) + UpdatesOf(ls)
    ensures forall t :: t != s ==> Pend(Run(log + ls), t) == Pend(Run(log), t)
    decreases |ls|
  {
    hide ViewOf, Step;
    if ls == [] {
      assert log + ls == log;
    } else {
      var pre, last := ls[..|ls| - 1], ls[|ls| - 1];
      assert ls == pre + [last];
      assert log + ls == (log + pre) + [last];
      assert last in ls;
      BatchBuffered(log, pre, s);
      RunSnoc(log + pre, last);
      StepBuffers(Run(log + pre), ViewOf(last));
      assert Pend(Run(log), s) + UpdatesOf(pre) + [ViewOf(last).update] == Pend(Run(log), s) + UpdatesOf(ls);
    }
  }

  /** The finishing record applies the whole batch at once. */
  lemma {:induction false} BatchApplied(log: seq<Logged>, ls: seq<Logged>, fin: Logged, s: nat)
    requires OfBatch(ls, s) && Finishes(fin, s) && Pend(Run(log), s) == []
    ensures Run(log + ls + [fin]).image == ApplyAll(Run(log).image, UpdatesOf(ls))
    ensures Run(log + ls + [fin]).reclaim == Run(log).reclaim + FreedAll(Run(log).image, UpdatesOf(ls))
    ensures forall t :: t != s ==> Pend(Run(log + ls + [fin]), t) == Pend(Run(log), t)
    ensures Pend(Run(log + ls + [fin]), s) == []
  {
    hide ViewOf;
    BatchBuffered(log, ls, s);
    RunSnoc(log + ls, fin);
    assert Pend(Run(log + ls), s) == [] + UpdatesOf(ls) == UpdatesOf(ls);
  }

  // ---- Slots come from the log ----

  ghost predicate Known(log: seq<Logged>, u: Update)
  {
    exists i :: 0 <= i < |log| && ViewOf(log[i]).update == u
  }

  lemma {:induction false} KnownGrows(log: seq<Logged>, more: seq<Logged>, u: Update)
    requires Known(log, u)
    ensures Known(log + more, u)
  {
    var i :| 0 <= i < |log| && ViewOf(log[i]).update == u;
    assert ViewOf((log + more)[i]).update == u;
  }

  ghost predicate ImageKnown(log: seq<Logged>, image: Image)
  {
    forall k :: k in image && image[k].Some? ==> Known(log, Update(k, Normal, image[k].value))
  }

  ghost predicate AllKnown(log: seq<Logged>, us: seq<Update>)
  {
    forall u :: u in us ==> Known(log, u) && !u.rtype.TxnFinished?
  }

  lemma {:induction false} ApplyAllKnown(log: seq<Logged>, image: Image, us: seq<Update>)
    requires ImageKnown(log, image) && AllKnown(log, us)
    ensures ImageKnown(log, ApplyAll(image, us))
  {
    hide Known;
    if us != [] {
      ApplyAllKnown(log, image, us[..|us| - 1]);
      var u := us[|us| - 1];
      assert u in us;
      assert u.rtype.Normal? ==> u == Update(u.key, Normal, u.slot);
    }
  }

  /** A replay of records of the log, from a state that only knows what the log says. */
  lemma {:induction false} RunKnown(log: seq<Logged>, st: State, ls: seq<Logged>)
    requires ImageKnown(log, st.image) && forall s :: AllKnown(log, Pend(st, s))
    requires forall l :: l in ls ==> l in log
    ensures ImageKnown(log, RunFrom(st, ls).image)
    ensures forall s :: AllKnown(log, Pend(RunFrom(st, ls), s))
    decreases |ls|
  {
    hide ViewOf, Known;
    if ls != [] {
      var last, x := ls[|ls| - 1], RunFrom(st, ls[..|ls| - 1]);
      RunKnown(log, st, ls[..|ls| - 1]);
      assert last in log;
      InKnown(log, last);
      var v := ViewOf(last);
      var u := v.update;
      assert u.rtype.Normal? ==> u == Update(u.key, Normal, u.slot);
      ApplyAllKnown(log, x.image, Pend(x, v.seqNo));
      forall s ensures AllKnown(log, Pend(Step(x, v), s)) {
        StepPend(x, v, s);
      }
    }
  }

  /** Every slot the replay ends with was put there by a record of the log, and so was every buffered update. */
  lemma {:induction false} ReplayKnown(log: seq<Logged>)
    ensures ImageKnown(log, ImageOf(log))
    ensures forall s :: AllKnown(log, Pend(Run(log), s))
  {
    hide Known, RunFrom;
    RunKnown(log, EMPTY, log);
  }

  lemma {:induction false} StepPend(st: State, v: View, s: nat)
    ensures forall u :: u in Pend(Step(st, v), s) ==>
      u in Pend(st, s) || (u == v.update && v.seqNo == s && !u.rtype.TxnFinished?)
  {
  }

  lemma {:induction false} InKnown(log: seq<Logged>, l: Logged)
    requires l in log
    ensures Known(log, ViewOf(l).update)
  {
    hide ViewOf;
    var i :| 0 <= i < |log| && log[i] == l;
    assert ViewOf(log[i]).update == ViewOf(l).update;
  }
}
