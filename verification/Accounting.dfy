/**
 * Where the bytes of a log go: every byte belongs to an indexed record, is counted as reclaimable, or is batch
 * bookkeeping.
 */
module Accounting {
  import opened Wire
  import opened LogRecord
  import opened Replay

  // ---- Sums over maps ----

  ghost function Sum<K>(m: map<K, nat>): nat
    decreases |m|
  {
    if m == map[] then 0 else
      var k :| k in m;
      assert |(m - {k}).Keys| < |m.Keys| by { assert (m - {k}).Keys == m.Keys - {k}; }
      m[k] + Sum(m - {k})
  }

  lemma {:induction false} SumWithout<K>(m: map<K, nat>, k: K)
    requires k in m
    ensures Sum(m) == m[k] + Sum(m - {k})
    decreases |m|
  {
    var j :| j in m && Sum(m) == m[j] + Sum(m - {j});
    if j != k {
      assert |(m - {j}).Keys| < |m.Keys| by { assert (m - {j}).Keys == m.Keys - {j}; }
      assert |(m - {k}).Keys| < |m.Keys| by { assert (m - {k}).Keys == m.Keys - {k}; }
      SumWithout(m - {j}, k);
      SumWithout(m - {k}, j);
      assert (m - {j}) - {k} == (m - {k}) - {j};
    }
  }

  lemma {:induction false} SumPut<K>(m: map<K, nat>, k: K, v: nat)
    ensures Sum(m[k := v]) == v + Sum(m - {k})
  {
    SumWithout(m[k := v], k);
    assert m[k := v] - {k} == m - {k};
  }

  lemma {:induction false} SumDrop<K>(m: map<K, nat>, k: K)
    ensures Sum(m) == (if k in m then m[k] else 0) + Sum(m - {k})
  {
    if k in m {
      SumWithout(m, k);
    } else {
      assert m - {k} == m;
    }
  }

  // ---- The four shares ----

  function Total(log: seq<Logged>): nat
  {
    if log == [] then 0 else Total(log[..|log| - 1]) + log[|log| - 1].pos.size
  }

  function Sizes(image: Image): map<Bytes, nat>
  {
    map k | k in image && image[k].Some? :: image[k].value.pos.size
  }

  /** The bytes of the records the index points at. */
  ghost function LiveBytes(image: Image): nat
  {
    Sum(Sizes(image))
  }

  function Weight(v: View): nat
  {
    v.update.slot.pos.size
  }

  /** The bytes of the records that finish a batch; replay counts them nowhere. */
  function FinishBytes(log: seq<Logged>): nat
  {
    if log == [] then 0
    else
      var v := ViewOf(log[|log| - 1]);
      FinishBytes(log[..|log| - 1]) + if v.update.rtype.TxnFinished? then Weight(v) else 0
  }

  function SizeOf(us: seq<Update>): nat
  {
    if us == [] then 0 else SizeOf(us[..|us| - 1]) + us[|us| - 1].slot.pos.size
  }

  function PendingSizes(pending: map<nat, seq<Update>>): map<nat, nat>
  {
    map s | s in pending :: SizeOf(pending[s])
  }

  /** The bytes of the records of batches that are not finished. */
  ghost function PendingBytes(st: State): nat
  {
    Sum(PendingSizes(st.pending))
  }

  // ---- One update ----

  lemma {:induction false} ApplyBalance(image: Image, u: Update)
    requires !u.rtype.TxnFinished?
    ensures LiveBytes(Apply(image, u)) + Freed(image, u) == LiveBytes(image) + u.slot.pos.size
  {
    var m := Sizes(image);
    SumDrop(m, u.key);
    if u.rtype.Normal? {
      SumPut(m, u.key, u.slot.pos.size);
      assert Sizes(Apply(image, u)) == m[u.key := u.slot.pos.size];
    } else {
      assert Sizes(Apply(image, u)) == m - {u.key};
    }
  }

  lemma {:induction false} ApplyAllBalance(image: Image, us: seq<Update>)
    requires forall u :: u in us ==> !u.rtype.TxnFinished?
    ensures LiveBytes(ApplyAll(image, us)) + FreedAll(image, us) == LiveBytes(image) + SizeOf(us)
  {
    hide LiveBytes, Apply, Freed;
    if us != [] {
      var pre, u := us[..|us| - 1], us[|us| - 1];
      assert u in us;
      ApplyAllBalance(image, pre);
      ApplyBalance(ApplyAll(image, pre), u);
    }
  }

  ghost predicate PendingPlain(st: State)
  {
    forall s, u :: s in st.pending && u in st.pending[s] ==> !u.rtype.TxnFinished?
  }

  lemma {:induction false} BufferBalance(st: State, v: View)
    requires v.seqNo != NON_TRANSACTION && !v.update.rtype.TxnFinished?
    ensures PendingBytes(Step(st, v)) == PendingBytes(st) + Weight(v)
  {
    var m, us := PendingSizes(st.pending), Pend(st, v.seqNo);
    SumDrop(m, v.seqNo);
    SumPut(m, v.seqNo, SizeOf(us + [v.update]));
    assert SizeOf(us + [v.update]) == SizeOf(us) + Weight(v) by {
      assert (us + [v.update])[..|us|] == us;
    }
    assert PendingSizes(Step(st, v).pending) == m[v.seqNo := SizeOf(us + [v.update])];
  }

  lemma {:induction false} FinishBalance(st: State, s: nat)
    ensures Sum(PendingSizes(st.pending - {s})) + SizeOf(Pend(st, s)) == PendingBytes(st)
  {
    var m := PendingSizes(st.pending);
    SumDrop(m, s);
    assert PendingSizes(st.pending - {s}) == m - {s};
  }

  ghost function Shares(st: State): nat
  {
    LiveBytes(st.image) + st.reclaim + PendingBytes(st)
  }

  /** One replayed record adds its size to exactly one share, or is a finishing record. */
  lemma {:induction false} StepBalance(st: State, v: View)
    requires PendingPlain(st)
    ensures PendingPlain(Step(st, v))
    ensures Shares(Step(st, v)) == Shares(st) + if v.update.rtype.TxnFinished? then 0 else Weight(v)
  {
    hide LiveBytes, Freed, Apply, FreedAll, ApplyAll, Sum;
    var u := v.update;
    if v.seqNo == NON_TRANSACTION {
      if !u.rtype.TxnFinished? {
        ApplyBalance(st.image, u);
      } else {
        NoEffect(st.image, u);
      }
    } else if u.rtype.TxnFinished? {
      ApplyAllBalance(st.image, Pend(st, v.seqNo));
      FinishBalance(st, v.seqNo);
    } else {
      BufferBalance(st, v);
    }
  }

  lemma {:induction false} NoEffect(image: Image, u: Update)
    requires u.rtype.TxnFinished?
    ensures Apply(image, u) == image && Freed(image, u) == 0
  {
  }

  /** Every byte of a log is in an indexed record, reclaimable, in an unfinished batch, or in a finishing record. */
  lemma {:induction false} Balance(log: seq<Logged>)
    requires forall l :: l in log ==> ViewOf(l).update.slot.pos == l.pos
    ensures Total(log) == LiveBytes(ImageOf(log)) + Run(log).reclaim + PendingBytes(Run(log)) + FinishBytes(log)
    ensures PendingPlain(Run(log))
  {
    hide ViewOf, Step, LiveBytes, PendingBytes;
    if log == [] {
      EmptyShares();
    } else {
      var pre, last := log[..|log| - 1], log[|log| - 1];
      assert log == pre + [last];
      assert last in log;
      Balance(pre);
      RunSnoc(pre, last);
      StepBalance(Run(pre), ViewOf(last));
    }
  }

  lemma {:induction false} EmptyShares()
    ensures LiveBytes(map[]) == 0 && PendingBytes(EMPTY) == 0
  {
    assert Sizes(map[]) == map[];
    assert PendingSizes(map[]) == map[];
  }

  lemma {:induction false} ViewKeepsPos(l: Logged)
    ensures ViewOf(l).update.slot.pos == l.pos
    ensures ParseKey(l.rec.key).ParsedKey? ==> ViewOf(l).update.rtype == l.rec.rtype
  {
  }

  /** The reclaimable counter never exceeds the bytes of the log, so subtracting it from them cannot underflow. */
  lemma {:induction false} ReclaimBounded(log: seq<Logged>)
    ensures Run(log).reclaim + LiveBytes(ImageOf(log)) <= Total(log)
  {
    forall l | l in log ensures ViewOf(l).update.slot.pos == l.pos {
      ViewKeepsPos(l);
    }
    Balance(log);
  }
}
