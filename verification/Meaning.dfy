/**
 * The declarative meaning of a log, stated without the replay loop or its buffer, and the proof that the loop
 * computes it.
 *
 * A record outside any batch takes effect where it lies. A batch record takes effect where the first later record
 * that finishes its sequence number lies, and never if there is none. The record that decides a key is the one that
 * takes effect last; among records of one batch, the last in the log.
 */
module Meaning {
  import opened Wire
  import opened LogRecord
  import opened Replay

  ghost predicate FinishedBetween(log: seq<Logged>, s: nat, lo: nat, hi: int)
  {
    exists i :: lo <= i < hi && 0 <= i < |log| && Finishes(log[i], s)
  }

  /** Record `j` takes effect at place `t`. */
  ghost predicate Effective(log: seq<Logged>, j: int, t: int)
  {
    && 0 <= j < |log|
    && 0 <= t < |log|
    && var v := ViewOf(log[j]);
    && !v.update.rtype.TxnFinished?
    && if v.seqNo == NON_TRANSACTION then t == j
       else j < t && Finishes(log[t], v.seqNo) && !FinishedBetween(log, v.seqNo, j + 1, t)
  }

  ghost predicate EffectiveOn(log: seq<Logged>, key: Bytes, j: int, t: int)
  {
    Effective(log, j, t) && ViewOf(log[j]).update.key == key
  }

  /** Record `j`, taking effect at `t`, decides `key`: no record on the key takes effect later. */
  ghost predicate Decides(log: seq<Logged>, key: Bytes, j: int, t: int)
  {
    && EffectiveOn(log, key, j, t)
    && forall i, u :: EffectiveOn(log, key, i, u) ==> u < t || (u == t && i <= j)
  }

  lemma {:induction false} DecidesUnique(log: seq<Logged>, key: Bytes, j: int, t: int, j': int, t': int)
    requires Decides(log, key, j, t) && Decides(log, key, j', t')
    ensures j == j' && t == t'
  {
  }

  /** The image says exactly what the deciding record of each key says, and nothing about keys no record decides. */
  ghost predicate Denotes(log: seq<Logged>, image: Image, key: Bytes)
  {
    if key in image then
      exists j, t :: Decides(log, key, j, t) && image[key] == Outcome(ViewOf(log[j]).update)
    else
      forall j, t :: !EffectiveOn(log, key, j, t)
  }

  // ---- Growing the log by one record ----

  lemma {:induction false} EffectiveBefore(pre: seq<Logged>, last: Logged, j: int, t: int)
    requires 0 <= t < |pre|
    ensures Effective(pre + [last], j, t) <==> Effective(pre, j, t)
  {
    hide ViewOf;
    var log := pre + [last];
    if 0 <= j < |pre| {
      var s := ViewOf(log[j]).seqNo;
      assert forall i :: 0 <= i < |pre| ==> log[i] == pre[i];
      assert FinishedBetween(log, s, j + 1, t) <==> FinishedBetween(pre, s, j + 1, t);
    }
  }

  /** The indices of the batch records with sequence number `s` that are still waiting at the end of the log. */
  function Waiting(log: seq<Logged>, s: nat): seq<int>
  {
    if log == [] then [] else
      var pre, v := log[..|log| - 1], ViewOf(log[|log| - 1]);
      if s == NON_TRANSACTION || v.seqNo != s then Waiting(pre, s)
      else if v.update.rtype.TxnFinished? then []
      else Waiting(pre, s) + [|log| - 1]
  }

  ghost predicate IsWaiting(log: seq<Logged>, s: nat, j: int)
  {
    && 0 <= j < |log|
    && s != NON_TRANSACTION
    && ViewOf(log[j]).seqNo == s
    && !ViewOf(log[j]).update.rtype.TxnFinished?
    && !FinishedBetween(log, s, j + 1, |log|)
  }

  lemma {:induction false} WaitingStep(pre: seq<Logged>, last: Logged, s: nat, j: int)
    requires 0 <= j < |pre|
    ensures IsWaiting(pre + [last], s, j) <==> IsWaiting(pre, s, j) && !Finishes(last, s)
  {
    hide ViewOf;
    var log := pre + [last];
    assert log[|pre|] == last;
    assert forall i :: 0 <= i < |pre| ==> log[i] == pre[i];
    if FinishedBetween(log, s, j + 1, |log|) && !Finishes(last, s) {
      var i :| j + 1 <= i < |log| && Finishes(log[i], s);
      assert i < |pre| && Finishes(pre[i], s);
    }
    if FinishedBetween(pre, s, j + 1, |pre|) {
      var i :| j + 1 <= i < |pre| && Finishes(pre[i], s);
      assert Finishes(log[i], s);
    }
  }

  lemma {:induction false} WaitingExact(log: seq<Logged>, s: nat)
    ensures forall j :: j in Waiting(log, s) <==> IsWaiting(log, s, j)
    ensures forall a, b :: 0 <= a < b < |Waiting(log, s)| ==> Waiting(log, s)[a] < Waiting(log, s)[b]
  {
    hide ViewOf;
    if log != [] {
      var pre, last := log[..|log| - 1], log[|log| - 1];
      assert log == pre + [last];
      WaitingExact(pre, s);
      forall j ensures j in Waiting(log, s) <==> IsWaiting(log, s, j) {
        if 0 <= j < |pre| {
          WaitingStep(pre, last, s, j);
        }
      }
      assert forall a :: 0 <= a < |Waiting(pre, s)| ==> Waiting(pre, s)[a] in Waiting(pre, s);
    }
  }

  function UpdatesAt(log: seq<Logged>, js: seq<int>): (us: seq<Update>)
    requires forall i :: 0 <= i < |js| ==> 0 <= js[i] < |log|
    ensures |us| == |js|
    ensures forall i :: 0 <= i < |js| ==> us[i] == ViewOf(log[js[i]]).update
  {
    seq(|js|, i requires 0 <= i < |js| => ViewOf(log[js[i]]).update)
  }

  lemma {:induction false} WaitingInLog(log: seq<Logged>, s: nat)
    ensures forall i :: 0 <= i < |Waiting(log, s)| ==> 0 <= Waiting(log, s)[i] < |log|
  {
    hide ViewOf, Waiting;
    WaitingExact(log, s);
    assert forall i :: 0 <= i < |Waiting(log, s)| ==> Waiting(log, s)[i] in Waiting(log, s);
  }

  /** The buffer of a batch holds exactly its waiting records, in log order. */
  lemma {:induction false} PendIsWaiting(log: seq<Logged>, s: nat)
    requires s != NON_TRANSACTION
    ensures forall i :: 0 <= i < |Waiting(log, s)| ==> 0 <= Waiting(log, s)[i] < |log|
    ensures Pend(Run(log), s) == UpdatesAt(log, Waiting(log, s))
  {
    hide ViewOf;
    WaitingInLog(log, s);
    if log != [] {
      var pre, last := log[..|log| - 1], log[|log| - 1];
      assert log == pre + [last];
      PendIsWaiting(pre, s);
      RunSnoc(pre, last);
      var us := UpdatesAt(log, Waiting(pre, s));
      assert us == UpdatesAt(pre, Waiting(pre, s));
      if ViewOf(last).seqNo == s && !ViewOf(last).update.rtype.TxnFinished? {
        assert UpdatesAt(log, Waiting(log, s)) == us + [ViewOf(last).update];
      }
    }
  }

  // ---- The last update of a key wins ----

  /** Position `i` holds the last update of `key`. */
  ghost predicate LastOn(us: seq<Update>, key: Bytes, i: int)
  {
    && 0 <= i < |us|
    && us[i].key == key
    && forall m :: i < m < |us| ==> us[m].key != key
  }

  ghost predicate NoneOn(us: seq<Update>, key: Bytes)
  {
    forall m :: 0 <= m < |us| ==> us[m].key != key
  }

  lemma {:induction false} ApplyAllLast(image: Image, us: seq<Update>, key: Bytes)
    requires forall u :: u in us ==> !u.rtype.TxnFinished?
    ensures NoneOn(us, key) ==>
              (key in ApplyAll(image, us) <==> key in image)
                && (key in image ==> ApplyAll(image, us)[key] == image[key])
    ensures !NoneOn(us, key) ==>
              key in ApplyAll(image, us) && exists i :: LastOn(us, key, i) && ApplyAll(image, us)[key] == Outcome(us[i])
  {
    if us != [] {
      var pre, u := us[..|us| - 1], us[|us| - 1];
      assert us == pre + [u];
      ApplyAllLast(image, pre, key);
      assert u in us;
      if u.key == key {
        assert LastOn(us, key, |us| - 1);
      } else if NoneOn(pre, key) {
        assert NoneOn(us, key);
      } else {
        var i :| LastOn(pre, key, i) && ApplyAll(image, pre)[key] == Outcome(pre[i]);
        assert LastOn(us, key, i);
      }
    }
  }

  // ---- The theorem ----

  lemma {:induction false} PlainStep(pre: seq<Logged>, last: Logged, key: Bytes)
    requires ViewOf(last).seqNo == NON_TRANSACTION
    requires Denotes(pre, ImageOf(pre), key)
    ensures Denotes(pre + [last], ImageOf(pre + [last]), key)
  {
    hide ViewOf;
    var log, n, u := pre + [last], |pre|, ViewOf(last).update;
    RunSnoc(pre, last);
    assert log[n] == last;
    forall j, t | Effective(log, j, t)
      ensures (t < n && Effective(pre, j, t)) || (j == n && t == n && !u.rtype.TxnFinished?)
    {
      if 0 <= t < n { EffectiveBefore(pre, last, j, t); }
    }
    if u.key == key && !u.rtype.TxnFinished? {
      assert EffectiveOn(log, key, n, n);
      assert Decides(log, key, n, n);
    } else {
      Unchanged(pre, last, key);
    }
  }

  /** A record that makes nothing on the key effective leaves the decision as it was. */
  lemma {:induction false} Unchanged(pre: seq<Logged>, last: Logged, key: Bytes)
    requires Denotes(pre, ImageOf(pre), key)
    requires forall j, t :: EffectiveOn(pre + [last], key, j, t) ==> t < |pre|
    requires key in ImageOf(pre) <==> key in ImageOf(pre + [last])
    requires key in ImageOf(pre) ==> ImageOf(pre + [last])[key] == ImageOf(pre)[key]
    ensures Denotes(pre + [last], ImageOf(pre + [last]), key)
  {
    hide ViewOf, ImageOf, Effective;
    var log := pre + [last];
    forall j, t | 0 <= t < |pre| ensures EffectiveOn(log, key, j, t) <==> EffectiveOn(pre, key, j, t) {
      EffectiveBefore(pre, last, j, t);
      InPrefix(pre, j, t);
    }
    forall j, t | EffectiveOn(log, key, j, t) ensures 0 <= t && EffectiveOn(pre, key, j, t) {
      InPrefix(log, j, t);
      assert 0 <= t < |pre|;
      assert EffectiveOn(log, key, j, t) <==> EffectiveOn(pre, key, j, t);
    }
    forall j, t | EffectiveOn(pre, key, j, t) ensures 0 <= t < |pre| && 0 <= j < |pre| {
      InPrefix(pre, j, t);
    }
    if key in ImageOf(pre) {
      var j, t :| Decides(pre, key, j, t) && ImageOf(pre)[key] == Outcome(ViewOf(pre[j]).update);
      assert Decides(log, key, j, t);
      assert log[j] == pre[j];
    }
  }

  lemma {:induction false} InPrefix(pre: seq<Logged>, j: int, t: int)
    ensures Effective(pre, j, t) ==> 0 <= j <= t < |pre|
  {
  }

  lemma {:induction false} BufferStep(pre: seq<Logged>, last: Logged, key: Bytes)
    requires ViewOf(last).seqNo != NON_TRANSACTION && !ViewOf(last).update.rtype.TxnFinished?
    requires Denotes(pre, ImageOf(pre), key)
    ensures Denotes(pre + [last], ImageOf(pre + [last]), key)
  {
    hide ViewOf;
    RunSnoc(pre, last);
    assert (pre + [last])[|pre|] == last;
    Unchanged(pre, last, key);
  }

  /** At a finishing record, exactly the waiting records of its batch become effective. */
  lemma {:induction false} FinishedNow(pre: seq<Logged>, last: Logged, j: int)
    requires Finishes(last, ViewOf(last).seqNo)
    ensures Effective(pre + [last], j, |pre|) <==> IsWaiting(pre, ViewOf(last).seqNo, j)
  {
    hide ViewOf;
    var log, n, s := pre + [last], |pre|, ViewOf(last).seqNo;
    assert log[n] == last;
    assert forall i :: 0 <= i < n ==> log[i] == pre[i];
    if 0 <= j < n {
      assert FinishedBetween(log, s, j + 1, n) <==> FinishedBetween(pre, s, j + 1, n);
    }
  }

  /** Position `i` of the buffer is the last on the key, so the waiting record it came from decides the key. */
  lemma {:induction false} FinishDecides(pre: seq<Logged>, last: Logged, key: Bytes, js: seq<int>, us: seq<Update>,
      i: int)
    requires Finishes(last, ViewOf(last).seqNo)
    requires js == Waiting(pre, ViewOf(last).seqNo)
    requires |us| == |js| && forall m :: 0 <= m < |js| ==> 0 <= js[m] < |pre| && us[m] == ViewOf(pre[js[m]]).update
    requires LastOn(us, key, i)
    ensures Decides(pre + [last], key, js[i], |pre|)
  {
    hide ViewOf, Effective;
    var log, n, s := pre + [last], |pre|, ViewOf(last).seqNo;
    WaitingExact(pre, s);
    forall j ensures Effective(log, j, n) <==> j in js {
      FinishedNow(pre, last, j);
    }
    assert js[i] in js;
    assert forall m :: 0 <= m < |js| ==> log[js[m]] == pre[js[m]];
    assert EffectiveOn(log, key, js[i], n);
    forall j, t | EffectiveOn(log, key, j, t) ensures t < n || (t == n && j <= js[i]) {
      InPrefix(log, j, t);
      if t == n {
        var m :| 0 <= m < |js| && js[m] == j;
        assert us[m].key == key;
      }
    }
  }

  lemma {:induction false} FinishIgnores(pre: seq<Logged>, last: Logged, key: Bytes, js: seq<int>, us: seq<Update>)
    requires Finishes(last, ViewOf(last).seqNo)
    requires js == Waiting(pre, ViewOf(last).seqNo)
    requires |us| == |js| && forall m :: 0 <= m < |js| ==> 0 <= js[m] < |pre| && us[m] == ViewOf(pre[js[m]]).update
    requires NoneOn(us, key)
    ensures forall j, t :: EffectiveOn(pre + [last], key, j, t) ==> t < |pre|
  {
    hide ViewOf, Effective;
    var log, n := pre + [last], |pre|;
    WaitingExact(pre, ViewOf(last).seqNo);
    assert forall m :: 0 <= m < |js| ==> log[js[m]] == pre[js[m]];
    forall j, t | EffectiveOn(log, key, j, t) ensures t < n {
      InPrefix(log, j, t);
      FinishedNow(pre, last, j);
      assert t == n ==> j in js;
    }
  }

  lemma {:induction false} FinishStep(pre: seq<Logged>, last: Logged, key: Bytes)
    requires Finishes(last, ViewOf(last).seqNo)
    requires Denotes(pre, ImageOf(pre), key)
    ensures Denotes(pre + [last], ImageOf(pre + [last]), key)
  {
    hide ViewOf, Effective, Waiting;
    var log, s := pre + [last], ViewOf(last).seqNo;
    RunSnoc(pre, last);
    PendIsWaiting(pre, s);
    WaitingExact(pre, s);
    var js, us := Waiting(pre, s), Pend(Run(pre), s);
    assert forall m :: 0 <= m < |js| ==> js[m] in js && us[m] == ViewOf(pre[js[m]]).update;
    ApplyAllLast(ImageOf(pre), us, key);
    if NoneOn(us, key) {
      FinishIgnores(pre, last, key, js, us);
      Unchanged(pre, last, key);
    } else {
      var i :| LastOn(us, key, i) && ApplyAll(ImageOf(pre), us)[key] == Outcome(us[i]);
      FinishDecides(pre, last, key, js, us, i);
      assert log[js[i]] == pre[js[i]];
    }
  }

  /** For every log, the one-pass buffering replay computes the declarative meaning of the log. */
  lemma {:induction false} ReplayMeaning(log: seq<Logged>, key: Bytes)
    ensures Denotes(log, ImageOf(log), key)
  {
    hide ViewOf, Denotes;
    if log == [] {
      NothingEffective(key);
    } else {
      var pre, last := log[..|log| - 1], log[|log| - 1];
      assert log == pre + [last];
      ReplayMeaning(pre, key);
      if ViewOf(last).seqNo == NON_TRANSACTION {
        PlainStep(pre, last, key);
      } else if ViewOf(last).update.rtype.TxnFinished? {
        FinishStep(pre, last, key);
      } else {
        BufferStep(pre, last, key);
      }
    }
  }

  lemma {:induction false} NothingEffective(key: Bytes)
    ensures Denotes([], ImageOf([]), key)
  {
  }

  /** So the index of a replay holds a key exactly when the deciding record is a put, and then points at that record. */
  lemma {:induction false} IndexMeaning(log: seq<Logged>, key: Bytes, slot: Slot)
    ensures key in Live(ImageOf(log)) && Live(ImageOf(log))[key] == slot <==>
            exists j, t :: Decides(log, key, j, t) && !ViewOf(log[j]).update.rtype.Delete?
              && ViewOf(log[j]).update.slot == slot
  {
    hide ViewOf;
    ReplayMeaning(log, key);
    if j, t :| Decides(log, key, j, t) && !ViewOf(log[j]).update.rtype.Delete? && ViewOf(log[j]).update.slot == slot {
      assert EffectiveOn(log, key, j, t);
      var j', t' :| Decides(log, key, j', t') && ImageOf(log)[key] == Outcome(ViewOf(log[j']).update);
      DecidesUnique(log, key, j, t, j', t');
    }
  }

  // ---- The order inside a batch ----

  ghost predicate DistinctKeys(us: seq<Update>)
  {
    forall a, b :: 0 <= a < b < |us| ==> us[a].key != us[b].key
  }

  /** Distinct keys make the order of a batch irrelevant, so the iteration order of a hash map does not matter. */
  lemma {:induction false} BatchOrderIrrelevant(image: Image, us: seq<Update>, ws: seq<Update>)
    requires DistinctKeys(us) && DistinctKeys(ws)
    requires forall u :: u in us <==> u in ws
    requires forall u :: u in us ==> !u.rtype.TxnFinished?
    ensures ApplyAll(image, us) == ApplyAll(image, ws)
  {
    var x, y := ApplyAll(image, us), ApplyAll(image, ws);
    forall key
      ensures (key in x <==> key in y) && (key in x ==> x[key] == y[key])
    {
      ApplyAllLast(image, us, key);
      ApplyAllLast(image, ws, key);
      if !NoneOn(us, key) {
        var i :| LastOn(us, key, i) && x[key] == Outcome(us[i]);
        assert us[i] in ws;
        var m :| LastOn(ws, key, m) && y[key] == Outcome(ws[m]);
        assert ws[m] in us;
      } else {
        assert forall m :: 0 <= m < |ws| ==> ws[m] in us;
      }
    }
  }
}
