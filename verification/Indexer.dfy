/** The in-memory index and its iterator. The B-tree and the skip list behave alike: a map, iterated in byte order. */
module Indexer {
  import opened Wire
  import opened LogRecord

  // ---- Byte order ----

  /** The first byte in which the two differ decides for `a`. */
  ghost predicate LessAt(a: Bytes, b: Bytes, i: nat)
  {
    i < |a| && i < |b| && a[..i] == b[..i] && a[i] < b[i]
  }

  /** Lexicographic order: a proper prefix comes first, otherwise the first byte that differs decides. */
  ghost predicate ByteLess(a: Bytes, b: Bytes)
  {
    a < b || exists i :: LessAt(a, b, i)
  }

  /** The comparison of the code, `Ord` on `Vec<u8>`, byte by byte. */
  predicate Below(a: Bytes, b: Bytes)
  {
    b != [] && (a == [] || a[0] < b[0] || (a[0] == b[0] && Below(a[1..], b[1..])))
  }

  lemma {:induction false} BelowTotal(a: Bytes, b: Bytes)
    ensures Below(a, b) || a == b || Below(b, a)
    ensures !(Below(a, b) && Below(b, a))
    ensures !Below(a, a)
  {
    if a != [] && b != [] {
      BelowTotal(a[1..], b[1..]);
      if a[0] == b[0] && a[1..] == b[1..] {
        assert a == [a[0]] + a[1..] == b;
      }
    }
    if a != [] {
      BelowTotal(a[1..], a[1..]);
    }
  }

  lemma {:induction false} BelowTransitive(a: Bytes, b: Bytes, c: Bytes)
    requires Below(a, b) && Below(b, c)
    ensures Below(a, c)
  {
    if a != [] && a[0] == b[0] == c[0] {
      BelowTransitive(a[1..], b[1..], c[1..]);
    }
  }

  /** The comparison is lexicographic order. */
  lemma {:induction false} BelowExact(a: Bytes, b: Bytes)
    ensures Below(a, b) <==>
      a < b || exists i :: 0 <= i < |a| && i < |b| && a[..i] == b[..i] && a[i] < b[i]
    ensures Below(a, b) <==> ByteLess(a, b)
  {
    BelowIsLess(a, b);
    LessIsBelow(a, b);
    assert forall i: nat :: LessAt(a, b, i) <==> i < |a| && i < |b| && a[..i] == b[..i] && a[i] < b[i];
  }

  lemma {:induction false} BelowIsLess(a: Bytes, b: Bytes)
    ensures Below(a, b) ==> ByteLess(a, b)
  {
    if Below(a, b) && a != [] {
      if a[0] < b[0] {
        assert LessAt(a, b, 0);
      } else {
        var x, y := a[1..], b[1..];
        BelowIsLess(x, y);
        assert a == [a[0]] + x && b == [b[0]] + y;
        if !(x < y) {
          var i: nat :| LessAt(x, y, i);
          assert a[..i + 1] == [a[0]] + x[..i] && b[..i + 1] == [b[0]] + y[..i];
          assert LessAt(a, b, i + 1);
        }
      }
    }
  }

  lemma {:induction false} LessIsBelow(a: Bytes, b: Bytes)
    ensures ByteLess(a, b) ==> Below(a, b)
  {
    if ByteLess(a, b) && a != [] {
      var x, y := a[1..], b[1..];
      if a < b {
        assert x == b[..|a|][1..] == y[..|x|];
        LessIsBelow(x, y);
      } else {
        var i: nat :| LessAt(a, b, i);
        if i > 0 {
          assert x[..i - 1] == a[..i][1..] && y[..i - 1] == b[..i][1..];
          assert a[0] == a[..i][0] == b[..i][0] == b[0];
          assert LessAt(x, y, i - 1);
          LessIsBelow(x, y);
        }
      }
    }
  }

  /** It is a strict total order. */
  lemma {:induction false} LessTotal(a: Bytes, b: Bytes)
    ensures ByteLess(a, b) || a == b || ByteLess(b, a)
    ensures !(ByteLess(a, b) && ByteLess(b, a))
    ensures !ByteLess(a, a)
  {
    hide Below, ByteLess;
    BelowTotal(a, b);
    BelowExact(a, b);
    BelowExact(b, a);
    BelowExact(a, a);
  }

  lemma {:induction false} LessTransitive(a: Bytes, b: Bytes, c: Bytes)
    requires ByteLess(a, b) && ByteLess(b, c)
    ensures ByteLess(a, c)
  {
    hide Below, ByteLess;
    BelowExact(a, b);
    BelowExact(b, c);
    BelowExact(a, c);
    BelowTransitive(a, b, c);
  }

  // ---- The entries in order ----

  datatype Entry = Entry(key: Bytes, pos: Pos)

  /** The order an iterator walks in. */
  ghost predicate Before(reverse: bool, a: Bytes, b: Bytes)
  {
    if reverse then ByteLess(b, a) else ByteLess(a, b)
  }

  /** The comparison an iterator makes. */
  predicate Ahead(reverse: bool, a: Bytes, b: Bytes)
  {
    if reverse then Below(b, a) else Below(a, b)
  }

  lemma {:induction false} AheadExact(reverse: bool, a: Bytes, b: Bytes)
    ensures Ahead(reverse, a, b) <==> Before(reverse, a, b)
  {
    hide Below, ByteLess;
    BelowExact(a, b);
    BelowExact(b, a);
  }

  ghost predicate Ordered(reverse: bool, items: seq<Entry>)
  {
    forall i, j :: 0 <= i < j < |items| ==> Before(reverse, items[i].key, items[j].key)
  }

  predicate IsLeast(keys: set<Bytes>, k: Bytes)
  {
    k in keys && forall j :: j in keys && j != k ==> Below(k, j)
  }

  lemma {:induction false} LeastExists(keys: set<Bytes>)
    requires keys != {}
    ensures exists k :: IsLeast(keys, k)
    decreases |keys|
  {
    var x :| x in keys;
    var rest := keys - {x};
    if rest == {} {
      assert forall j :: j in keys && j != x ==> j in rest;
      assert IsLeast(keys, x);
    } else {
      LeastExists(rest);
      var y :| IsLeast(rest, y);
      BelowTotal(x, y);
      if Below(x, y) {
        forall j | j in keys && j != x ensures Below(x, j) {
          if j != y { BelowTransitive(x, y, j); }
        }
        assert IsLeast(keys, x);
      } else {
        assert IsLeast(keys, y);
      }
    }
  }

  /** The smallest key of a map. */
  function Least(keys: set<Bytes>): (k: Bytes)
    requires keys != {}
    ensures IsLeast(keys, k)
  {
    LeastExists(keys);
    assert forall a, b :: IsLeast(keys, a) && IsLeast(keys, b) ==> a == b by {
      forall a, b | IsLeast(keys, a) && IsLeast(keys, b) ensures a == b { BelowTotal(a, b); }
    }
    var k :| k in keys && IsLeast(keys, k);
    k
  }

  /** What iterating the underlying map yields. */
  function Ascending(entries: map<Bytes, Pos>): (items: seq<Entry>)
    ensures |items| == |entries|
    decreases |entries|
  {
    if entries == map[] then [] else
      var k := Least(entries.Keys);
      var rest := entries - {k};
      assert rest.Keys == entries.Keys - {k};
      assert |entries| == |entries.Keys| && |rest| == |rest.Keys|;
      [Entry(k, entries[k])] + Ascending(rest)
  }

  lemma {:induction false} OrderedCons(e: Entry, items: seq<Entry>)
    requires Ordered(false, items) && forall t :: t in items ==> Below(e.key, t.key)
    ensures Ordered(false, [e] + items)
  {
    hide Below, ByteLess;
    var all := [e] + items;
    forall i, j | 0 <= i < j < |all| ensures Before(false, all[i].key, all[j].key) {
      assert all[j] == items[j - 1] && items[j - 1] in items;
      BelowExact(e.key, all[j].key);
    }
  }

  lemma {:induction false} AscendingExact(entries: map<Bytes, Pos>)
    ensures Ordered(false, Ascending(entries))
    ensures forall e :: e in Ascending(entries) <==> e.key in entries && entries[e.key] == e.pos
    decreases |entries|
  {
    hide Below, ByteLess;
    if entries != map[] {
      var k := Least(entries.Keys);
      var rest := entries - {k};
      assert rest.Keys == entries.Keys - {k};
      assert |entries| == |entries.Keys| && |rest| == |rest.Keys|;
      AscendingExact(rest);
      var items, tail := Ascending(entries), Ascending(rest);
      assert items == [Entry(k, entries[k])] + tail;
      OrderedCons(Entry(k, entries[k]), tail);
      hide Ascending;
      forall e ensures e in items <==> e.key in entries && entries[e.key] == e.pos {
        assert e in items <==> e == Entry(k, entries[k]) || e in tail;
      }
    }
  }

  function Reversed(items: seq<Entry>): (r: seq<Entry>)
    ensures |r| == |items|
    ensures forall i :: 0 <= i < |r| ==> r[i] == items[|items| - 1 - i]
  {
    if items == [] then [] else Reversed(items[1..]) + [items[0]]
  }

  /** The snapshot an iterator walks over. */
  function Snapshot(entries: map<Bytes, Pos>, reverse: bool): seq<Entry>
  {
    if reverse then Reversed(Ascending(entries)) else Ascending(entries)
  }

  lemma {:induction false} SnapshotExact(entries: map<Bytes, Pos>, reverse: bool)
    ensures Ordered(reverse, Snapshot(entries, reverse))
    ensures forall e :: e in Snapshot(entries, reverse) <==> e.key in entries && entries[e.key] == e.pos
  {
    hide Below, ByteLess, Ascending;
    AscendingExact(entries);
    var up := Ascending(entries);
    if reverse {
      var down := Reversed(up);
      forall e ensures e in down <==> e in up {
        if e in up {
          var i :| 0 <= i < |up| && up[i] == e;
          assert down[|up| - 1 - i] == e;
        }
      }
    }
  }

  // ---- Filtering by prefix ----

  predicate HasPrefix(key: Bytes, prefix: Bytes)
  {
    prefix <= key
  }

  /** The entries with the prefix, in their order. */
  function Matching(items: seq<Entry>, prefix: Bytes): seq<Entry>
  {
    if items == [] then []
    else (if HasPrefix(items[0].key, prefix) then [items[0]] else []) + Matching(items[1..], prefix)
  }

  lemma {:induction false} MatchingExact(items: seq<Entry>, prefix: Bytes, reverse: bool)
    requires Ordered(reverse, items)
    ensures Ordered(reverse, Matching(items, prefix))
    ensures forall e :: e in Matching(items, prefix) <==> e in items && prefix <= e.key
  {
    hide Below, ByteLess;
    if items != [] {
      var rest, m := Matching(items[1..], prefix), Matching(items, prefix);
      MatchingExact(items[1..], prefix, reverse);
      forall i, j | 0 <= i < j < |m| ensures Before(reverse, m[i].key, m[j].key) {
        if HasPrefix(items[0].key, prefix) {
          assert m[j] == rest[j - 1];
          assert rest[j - 1] in rest;
          if i > 0 { assert m[i] == rest[i - 1]; }
        }
      }
      assert forall e :: e in items <==> e == items[0] || e in items[1..];
    }
  }

  // ---- The index ----

  /** `BTree` and `SkipList`: the map behind the index. */
  class Tree {
    var entries: map<Bytes, Pos>

    constructor ()
      ensures entries == map[]
    {
      entries := map[];
    }

    method Put(key: Bytes, pos: Pos) returns (previous: Option<Pos>)
      modifies this
      ensures entries == old(entries)[key := pos]
      ensures previous == if key in old(entries) then Some(old(entries)[key]) else None
    {
      previous := if key in entries then Some(entries[key]) else None;
      entries := entries[key := pos];
    }

    method Get(key: Bytes) returns (pos: Option<Pos>)
      ensures pos == if key in entries then Some(entries[key]) else None
    {
      pos := if key in entries then Some(entries[key]) else None;
    }

    method Delete(key: Bytes) returns (previous: Option<Pos>)
      modifies this
      ensures entries == old(entries) - {key}
      ensures previous == if key in old(entries) then Some(old(entries)[key]) else None
    {
      previous := if key in entries then Some(entries[key]) else None;
      entries := entries - {key};
    }
  }

  // ---- The iterator ----

  /** The first index whose key is not before the sought one. */
  ghost predicate IsSeekPoint(items: seq<Entry>, reverse: bool, key: Bytes, at: nat)
  {
    && at <= |items|
    && (forall i :: 0 <= i < at ==> Before(reverse, items[i].key, key))
    && (forall i :: at <= i < |items| ==> !Before(reverse, items[i].key, key))
  }

  /** `BTreeIterator` and `SkipListIterator`. */
  class TreeIterator {
    const items: seq<Entry>
    const prefix: Bytes
    const reverse: bool
    var curr: nat

    /** What is left to return. */
    function Left(): seq<Entry>
      reads this
    {
      if curr > |items| then [] else Matching(items[curr..], prefix)
    }

    constructor (entries: map<Bytes, Pos>, prefix: Bytes, reverse: bool)
      ensures items == Snapshot(entries, reverse) && this.prefix == prefix && this.reverse == reverse && curr == 0
      ensures Left() == Matching(items, prefix)
    {
      items := Snapshot(entries, reverse);
      this.prefix, this.reverse, curr := prefix, reverse, 0;
      new;
      assert items[0..] == items;
    }

    method Rewind()
      modifies this
      ensures curr == 0 && Left() == Matching(items, prefix)
    {
      curr := 0;
      assert items[0..] == items;
    }

    /** Binary search for the key, or for where it would be. */
    method Seek(key: Bytes)
      requires Ordered(reverse, items)
      modifies this
      ensures IsSeekPoint(items, reverse, key, curr)
      ensures Left() == Matching(items[curr..], prefix)
    {
      var lo, hi := 0, |items|;
      while lo < hi
        invariant 0 <= lo <= hi <= |items|
        invariant forall i :: 0 <= i < lo ==> Before(reverse, items[i].key, key)
        invariant forall i :: hi <= i < |items| ==> !Before(reverse, items[i].key, key)
      {
        var mid := (lo + hi) / 2;
        SearchStep(items, reverse, key, mid);
        AheadExact(reverse, items[mid].key, key);
        if items[mid].key == key {
          curr := mid;
          return;
        } else if Ahead(reverse, items[mid].key, key) {
          lo := mid + 1;
        } else {
          hi := mid;
        }
      }
      curr := lo;
    }

    method Next() returns (e: Option<Entry>)
      modifies this
      ensures old(Left()) == [] ==> e == None && Left() == []
      ensures old(Left()) != [] ==> e == Some(old(Left())[0]) && Left() == old(Left())[1..]
    {
      ghost var left := Left();
      if curr >= |items| {
        return None;
      }
      while curr < |items|
        invariant curr <= |items|
        invariant left == Matching(items[curr..], prefix)
        decreases |items| - curr
      {
        var item := items[curr];
        assert items[curr..][1..] == items[curr + 1..];
        curr := curr + 1;
        if prefix == [] || HasPrefix(item.key, prefix) {
          return Some(item);
        }
      }
      return None;
    }
  }

  /** What one probe of the binary search says about everything on either side of it. */
  lemma {:induction false} SearchStep(items: seq<Entry>, reverse: bool, key: Bytes, mid: nat)
    requires Ordered(reverse, items) && mid < |items|
    ensures Before(reverse, items[mid].key, key) ==> forall i :: 0 <= i <= mid ==> Before(reverse, items[i].key, key)
    ensures !Before(reverse, items[mid].key, key) ==> forall i :: mid <= i < |items| ==>
      !Before(reverse, items[i].key, key)
    ensures items[mid].key == key ==> IsSeekPoint(items, reverse, key, mid)
  {
    hide Below, ByteLess;
    var m := items[mid].key;
    LessTotal(m, key);
    forall i | 0 <= i < mid && (Before(reverse, m, key) || m == key) ensures Before(reverse, items[i].key, key) {
      if reverse {
        if m != key { LessTransitive(key, m, items[i].key); }
      } else {
        if m != key { LessTransitive(items[i].key, m, key); }
      }
    }
    forall i | mid < i < |items| && !Before(reverse, m, key) ensures !Before(reverse, items[i].key, key) {
      LessTotal(items[i].key, key);
      LessTotal(items[i].key, m);
      if Before(reverse, items[i].key, key) {
        if reverse {
          LessTransitive(key, items[i].key, m);
        } else {
          LessTransitive(m, items[i].key, key);
        }
      }
    }
  }

  /**
   * Seek and next are exact: after seeking, the entries still to come are those of the map with the prefix, at or
   * past the key in the iterator's direction, each once and in order; without seeking, all with the prefix.
   */
  lemma {:induction false} SeekExact(entries: map<Bytes, Pos>, prefix: Bytes, reverse: bool, key: Bytes, at: nat)
    requires IsSeekPoint(Snapshot(entries, reverse), reverse, key, at)
    ensures var left := Matching(Snapshot(entries, reverse)[at..], prefix);
            && Ordered(reverse, left)
            && (forall e :: e in left <==>
                  e.key in entries && entries[e.key] == e.pos && prefix <= e.key
                    && !Before(reverse, e.key, key))
  {
    hide Below, ByteLess, Snapshot;
    SnapshotExact(entries, reverse);
    var items := Snapshot(entries, reverse);
    var left := items[at..];
    MatchingExact(left, prefix, reverse);
    forall e ensures e in left <==> e in items && !Before(reverse, e.key, key) {
      if e in items && !Before(reverse, e.key, key) {
        var i :| 0 <= i < |items| && items[i] == e;
        assert i >= at;
        assert left[i - at] == e;
      }
      if e in left {
        var j :| 0 <= j < |left| && left[j] == e;
        assert items[at + j] == e;
      }
    }
  }
}
