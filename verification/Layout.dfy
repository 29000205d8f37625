/**
 * Where appended records lie: one after the other in a file, files in increasing order, rotation when a record does
 * not fit.
 */
module Layout {
  import opened Wire
  import opened LogRecord
  import opened Replay

  /**
   * The records fill their files from offset 0 without gaps, and the next record would go to offset `off` of file
   * `fid`.
   */
  predicate Laid(log: seq<Logged>, fid: nat, off: nat)
  {
    if log == [] then off == 0 else
      var l := log[|log| - 1];
      && l.pos.size == Size(l.rec)
      && Laid(log[..|log| - 1], l.pos.fid, l.pos.offset)
      && if l.pos.fid == fid then off == l.pos.offset + l.pos.size else l.pos.fid < fid && off == 0
  }

  /** `p` ends at or before the place where `q` starts. */
  predicate Precedes(p: Pos, q: Pos)
  {
    p.fid < q.fid || (p.fid == q.fid && p.offset + p.size <= q.offset)
  }

  /** A record crosses the file size limit only alone at the start of a file other than the first. */
  predicate Fits(limit: nat, p: Pos)
  {
    p.offset + p.size <= limit || (p.offset == 0 && p.fid >= 1)
  }

  predicate Packed(log: seq<Logged>, limit: nat)
  {
    forall i :: 0 <= i < |log| ==> Fits(limit, log[i].pos)
  }

  lemma {:induction false} LaidPrefix(log: seq<Logged>, fid: nat, off: nat, i: nat)
    requires Laid(log, fid, off) && i < |log|
    ensures Laid(log[..i], log[i].pos.fid, log[i].pos.offset)
    ensures log[i].pos.size == Size(log[i].rec)
    ensures log[i].pos.fid < fid || (log[i].pos.fid == fid && log[i].pos.offset + log[i].pos.size <= off)
  {
    var pre, l := log[..|log| - 1], log[|log| - 1];
    if i < |log| - 1 {
      LaidPrefix(pre, l.pos.fid, l.pos.offset, i);
      assert pre[..i] == log[..i];
    }
  }

  lemma {:induction false} LaidOrder(log: seq<Logged>, fid: nat, off: nat, i: nat, j: nat)
    requires Laid(log, fid, off) && i < j < |log|
    ensures Precedes(log[i].pos, log[j].pos)
  {
    LaidPrefix(log, fid, off, j);
    LaidPrefix(log[..j], log[j].pos.fid, log[j].pos.offset, i);
  }

  /** No two records share a place. */
  lemma {:induction false} LaidDistinct(log: seq<Logged>, fid: nat, off: nat, i: nat, j: nat)
    requires Laid(log, fid, off) && i < |log| && j < |log|
    requires log[i].pos.fid == log[j].pos.fid && log[i].pos.offset == log[j].pos.offset
    ensures i == j
  {
    LaidPrefix(log, fid, off, i);
    LaidPrefix(log, fid, off, j);
    if i < j {
      LaidOrder(log, fid, off, i, j);
    } else if j < i {
      LaidOrder(log, fid, off, j, i);
    }
  }

  lemma {:induction false} LaidAdjacent(log: seq<Logged>, fid: nat, off: nat, i: nat)
    requires Laid(log, fid, off) && 0 < i < |log|
    ensures if log[i - 1].pos.fid == log[i].pos.fid
            then log[i].pos.offset == log[i - 1].pos.offset + log[i - 1].pos.size
            else log[i - 1].pos.fid < log[i].pos.fid && log[i].pos.offset == 0
  {
    LaidPrefix(log, fid, off, i);
    assert log[..i][i - 1] == log[i - 1];
  }

  // ---- Placing the next record ----

  datatype Cursor = Cursor(fid: nat, off: nat)

  /** The rotation rule of `append_log_record`: a record that would pass the limit starts the next file. */
  function Place(c: Cursor, size: nat, limit: nat): Cursor
  {
    if c.off + size > limit then Cursor(c.fid + 1, 0) else c
  }

  lemma {:induction false} PlaceLaid(log: seq<Logged>, c: Cursor, r: Record, limit: nat)
    requires Laid(log, c.fid, c.off) && Packed(log, limit)
    ensures var p := Place(c, Size(r), limit);
            var log' := log + [Logged(r, Pos(p.fid, p.off, Size(r)))];
            Laid(log', p.fid, p.off + Size(r)) && Packed(log', limit)
  {
    var p := Place(c, Size(r), limit);
    var log' := log + [Logged(r, Pos(p.fid, p.off, Size(r)))];
    assert log'[..|log|] == log;
    LaidLater(log, c.fid, c.off, c.fid + 1);
  }

  lemma {:induction false} LaidLater(log: seq<Logged>, fid: nat, off: nat, fid': nat)
    requires Laid(log, fid, off) && fid < fid'
    ensures Laid(log, fid', 0)
  {
  }

  predicate AtMost(a: Cursor, b: Cursor)
  {
    a.fid < b.fid || (a.fid == b.fid && a.off <= b.off)
  }

  /**
   * Greedy packing is monotone: if one writer is not ahead of where another wrote a record, writing that record again,
   * no larger, leaves it not ahead of where the record ended. Oversized records keep this, because the slower writer
   * is never at the start of a file other than the first.
   */
  lemma {:induction false} PlaceMonotone(c: Cursor, size: nat, limit: nat, p: Pos)
    requires AtMost(c, Cursor(p.fid, p.offset)) && 0 < size <= p.size && Fits(limit, p)
    requires c.fid >= 1 ==> c.off > 0
    ensures var q := Place(c, size, limit);
            AtMost(Cursor(q.fid, q.off + size), Cursor(p.fid, p.offset + p.size))
  {
  }

  // ---- Cutting a log at a file ----

  /** How many records lie in files below `fid`. */
  function SplitAt(log: seq<Logged>, fid: nat): (n: nat)
    ensures n <= |log|
  {
    if log == [] then 0
    else if log[|log| - 1].pos.fid < fid then |log|
    else SplitAt(log[..|log| - 1], fid)
  }

  lemma {:induction false} SplitExact(log: seq<Logged>, active: nat, off: nat, fid: nat)
    requires Laid(log, active, off)
    ensures forall i :: 0 <= i < |log| ==> (log[i].pos.fid < fid <==> i < SplitAt(log, fid))
  {
    if log != [] {
      var pre, l := log[..|log| - 1], log[|log| - 1];
      if l.pos.fid < fid {
        forall i | 0 <= i < |log| ensures log[i].pos.fid < fid {
          if i < |pre| {
            LaidPrefix(pre, l.pos.fid, l.pos.offset, i);
          }
        }
      } else {
        SplitExact(pre, l.pos.fid, l.pos.offset, fid);
        assert forall i :: 0 <= i < |pre| ==> log[i] == pre[i];
      }
    }
  }

  lemma {:induction false} SplitMonotone(log: seq<Logged>, a: nat, b: nat)
    requires a <= b
    ensures SplitAt(log, a) <= SplitAt(log, b)
  {
    if log != [] {
      SplitMonotone(log[..|log| - 1], a, b);
    }
  }

  lemma {:induction false} SplitAppend(log: seq<Logged>, more: seq<Logged>, fid: nat)
    requires forall l :: l in more ==> l.pos.fid >= fid
    ensures SplitAt(log + more, fid) == SplitAt(log, fid)
    decreases |more|
  {
    if more == [] {
      assert log + more == log;
    } else {
      var pre, l := more[..|more| - 1], more[|more| - 1];
      assert (log + more)[..|log + more| - 1] == log + pre;
      assert l in more;
      SplitAppend(log, pre, fid);
    }
  }

  /**
   * Records at the end of a log that lie in files from `fid` on are behind the split, whatever replaced the ones
   * before.
   */
  lemma {:induction false} SplitWithin(out: seq<Logged>, log: seq<Logged>, c: nat, n: nat, keep: nat, fid: nat)
    requires c <= n <= keep <= |log| && forall i :: n <= i < |log| ==> log[i].pos.fid >= fid
    ensures SplitAt(out + log[c..keep], fid) <= |out| + (n - c)
  {
    var rest := log[n..keep];
    assert out + log[c..keep] == out + log[c..n] + rest;
    forall l | l in rest ensures l.pos.fid >= fid {
      var i :| 0 <= i < |rest| && rest[i] == l;
      assert l == log[n + i];
    }
    SplitAppend(out + log[c..n], rest, fid);
  }

  lemma {:induction false} SplitPrefix(log: seq<Logged>, fid: nat, n: nat)
    requires SplitAt(log, fid) <= n <= |log|
    ensures SplitAt(log[..n], fid) == SplitAt(log, fid)
    decreases |log|
  {
    if n < |log| {
      SplitPrefix(log[..|log| - 1], fid, n);
      assert log[..|log| - 1][..n] == log[..n];
    } else {
      assert log[..n] == log;
    }
  }

  /** Keeping a prefix that has every record of the files below the active one leaves a well-laid log. */
  lemma {:induction false} LaidCut(log: seq<Logged>, active: nat, off: nat, n: nat)
    requires Laid(log, active, off) && SplitAt(log, active) <= n <= |log|
    ensures Laid(log[..n], active, EndOffset(log[..n], active))
    decreases |log|
  {
    if n == |log| {
      assert log[..n] == log;
    } else {
      var l := log[n];
      SplitExact(log, active, off, active);
      LaidPrefix(log, active, off, n);
      assert l.pos.fid == active;
    }
  }

  /** The offset at which scanning the active file stops. */
  function EndOffset(log: seq<Logged>, active: nat): nat
  {
    if log != [] && log[|log| - 1].pos.fid == active then log[|log| - 1].pos.offset + log[|log| - 1].pos.size else 0
  }

  lemma {:induction false} EndOffsetIsWriteOff(log: seq<Logged>, active: nat, off: nat)
    requires Laid(log, active, off)
    ensures EndOffset(log, active) == off
  {
  }

  /** Replacing the files below `fid` by another laid log that stays below `fid` leaves a well-laid log. */
  lemma {:induction false} LaidReplace(log: seq<Logged>, active: nat, off: nat, fid: nat, out: seq<Logged>, c: Cursor)
    requires Laid(log, active, off) && Laid(out, c.fid, c.off) && c.fid < fid <= active
    ensures Laid(out + log[SplitAt(log, fid)..], active, off)
    decreases |log|
  {
    var n := SplitAt(log, fid);
    SplitExact(log, active, off, fid);
    if n == |log| {
      assert out + log[n..] == out;
      LaidLater(out, c.fid, c.off, active);
      assert off == 0;
    } else {
      var pre, l := log[..|log| - 1], log[|log| - 1];
      LaidReplace(pre, l.pos.fid, l.pos.offset, fid, out, c);
      assert (out + log[n..])[..|out + log[n..]| - 1] == out + pre[n..];
    }
  }

  // ---- Looking a position up ----

  /** The record at a file and offset. */
  function LookUp(log: seq<Logged>, fid: nat, off: nat): Option<Logged>
  {
    if log == [] then None
    else if log[|log| - 1].pos.fid == fid && log[|log| - 1].pos.offset == off then Some(log[|log| - 1])
    else LookUp(log[..|log| - 1], fid, off)
  }

  lemma {:induction false} LookUpFinds(log: seq<Logged>, active: nat, off: nat, i: nat)
    requires Laid(log, active, off) && i < |log|
    ensures LookUp(log, log[i].pos.fid, log[i].pos.offset) == Some(log[i])
  {
    var pre, l := log[..|log| - 1], log[|log| - 1];
    if i < |pre| {
      LaidOrder(log, active, off, i, |log| - 1);
      LaidPrefix(log, active, off, i);
      LookUpFinds(pre, l.pos.fid, l.pos.offset, i);
    }
  }
}
