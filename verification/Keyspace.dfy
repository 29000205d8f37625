/** Whose key is whose: internal keys of different names, and what a command on one name leaves alone. */
module Keyspace {
  import opened Wire
  import Meta
  import opened RedisList

  // ---- Names whose keys never meet ----

  /** No name is an internal key of another, and no two names share one, for versions below `limit`. */
  ghost predicate Apart(names: set<Bytes>, limit: nat)
  {
    && (forall a, b, v: nat, x :: a in names && b in names && a != b && v < limit ==> Meta.Inner(a, v, x) != b)
    && (forall a, b, v: nat, w: nat, x, y :: a in names && b in names && a != b && v < limit && w < limit ==>
          Meta.Inner(a, v, x) != Meta.Inner(b, w, y))
  }

  /** No name is the beginning of another. */
  ghost predicate PrefixFree(names: set<Bytes>)
  {
    forall a, b :: a in names && b in names && a <= b ==> a == b
  }

  lemma {:induction false} StartsWithName(key: Bytes, version: nat, x: Bytes)
    ensures key <= Meta.Inner(key, version, x)
  {
    hide BigEndian;
  }

  lemma {:induction false} PrefixesMeet(a: Bytes, b: Bytes, k: Bytes)
    requires a <= k && b <= k
    ensures a <= b || b <= a
  {
    assert a == k[..|a|] && b == k[..|b|];
  }

  lemma {:induction false} PrefixFreeApart(names: set<Bytes>)
    requires PrefixFree(names)
    ensures Apart(names, Meta.U128_LIMIT)
  {
    hide Meta.Inner;
    forall a, b, v: nat, x | a in names && b in names && a != b && v < Meta.U128_LIMIT
      ensures Meta.Inner(a, v, x) != b
    {
      StartsWithName(a, v, x);
    }
    forall a, b, v: nat, w: nat, x, y | a in names && b in names && a != b && v < Meta.U128_LIMIT && w < Meta.U128_LIMIT
      ensures Meta.Inner(a, v, x) != Meta.Inner(b, w, y)
    {
      StartsWithName(a, v, x);
      StartsWithName(b, w, y);
      if Meta.Inner(a, v, x) == Meta.Inner(b, w, y) {
        PrefixesMeet(a, b, Meta.Inner(a, v, x));
      }
    }
  }

  /** Versions that leave the top byte of the sixteen zero: times in nanoseconds for some 10^19 years. */
  const TIME_LIMIT: nat := 0x100_0000_0000_0000_0000_0000_0000_0000

  /** Names without a zero byte, as text has none. */
  ghost predicate NoZeros(names: set<Bytes>)
  {
    forall a, i :: a in names && 0 <= i < |a| ==> a[i] != 0
  }

  lemma {:induction false} LeadingZero(n: nat, width: nat)
    requires n < ByteRange(width)
    ensures BigEndian(n, width + 1)[0] == 0
  {
    if width > 0 {
      LeadingZero(n / 256, width - 1);
    }
  }

  lemma {:induction false} ZeroAfterName(key: Bytes, version: nat, x: Bytes)
    requires version < TIME_LIMIT
    ensures |Meta.Inner(key, version, x)| > |key| && Meta.Inner(key, version, x)[..|key|] == key
    ensures Meta.Inner(key, version, x)[|key|] == 0
  {
    assert ByteRange(5) == 0x100_0000_0000;
    assert ByteRange(10) == 0x1_0000_0000_0000_0000_0000;
    assert ByteRange(15) == TIME_LIMIT;
    LeadingZero(version, 15);
    hide BigEndian, ByteRange;
  }

  /** The first zero byte of an internal key tells where its name ends. */
  lemma {:induction false} NoZerosApart(names: set<Bytes>)
    requires NoZeros(names)
    ensures Apart(names, TIME_LIMIT)
  {
    hide Meta.Inner;
    forall a, b, v: nat, x | a in names && b in names && a != b && v < TIME_LIMIT ensures Meta.Inner(a, v, x) != b {
      ZeroAfterName(a, v, x);
    }
    forall a, b, v: nat, w: nat, x, y | a in names && b in names && a != b && v < TIME_LIMIT && w < TIME_LIMIT
      ensures Meta.Inner(a, v, x) != Meta.Inner(b, w, y)
    {
      ZeroAfterName(a, v, x);
      ZeroAfterName(b, w, y);
      if Meta.Inner(a, v, x) == Meta.Inner(b, w, y) {
        SameName(a, b, Meta.Inner(a, v, x));
      }
    }
  }

  lemma {:induction false} SameName(a: Bytes, b: Bytes, k: Bytes)
    requires |k| > |a| && |k| > |b| && k[..|a|] == a && k[..|b|] == b && k[|a|] == 0 && k[|b|] == 0
    requires (forall i :: 0 <= i < |a| ==> a[i] != 0) && (forall i :: 0 <= i < |b| ==> b[i] != 0)
    ensures a == b
  {
    assert forall i :: 0 <= i < |a| ==> k[i] == k[..|a|][i] == a[i];
    assert forall i :: 0 <= i < |b| ==> k[i] == k[..|b|][i] == b[i];
    assert |a| == |b|;
  }

  // ---- What a command touches ----

  /** An internal key of the name with this version. */
  predicate IsInner(key: Bytes, version: nat, k: Bytes)
  {
    |k| >= |key| + 16 && k[..|key| + 16] == key + BigEndian(version, 16)
  }

  lemma {:induction false} InnerIs(key: Bytes, version: nat, k: Bytes)
    ensures IsInner(key, version, k) <==> exists x :: k == Meta.Inner(key, version, x)
  {
    hide BigEndian;
    if IsInner(key, version, k) {
      assert k == Meta.Inner(key, version, k[|key| + 16..]);
    }
    if x :| k == Meta.Inner(key, version, x) {
      assert k[..|key| + 16] == key + BigEndian(version, 16);
    }
  }

  predicate SameAt(kv: Store, kv': Store, k: Bytes)
  {
    (k in kv' <==> k in kv) && (k in kv ==> kv'[k] == kv[k])
  }

  /** Only the name itself and its internal keys of one version may have changed. */
  ghost predicate Frame(kv: Store, kv': Store, key: Bytes, version: nat)
  {
    forall k :: k != key && !IsInner(key, version, k) ==> SameAt(kv, kv', k)
  }

  /** No internal key of the name has a version after the clock. */
  ghost predicate NoLater(kv: Store, key: Bytes, clock: nat, limit: nat)
  {
    forall v: nat, x :: clock < v < limit ==> Meta.Inner(key, v, x) !in kv
  }

  /** The name and all its internal keys are as they were. */
  ghost predicate SameFor(kv: Store, kv': Store, key: Bytes, limit: nat)
  {
    SameAt(kv, kv', key) && forall v: nat, x :: v < limit ==> SameAt(kv, kv', Meta.Inner(key, v, x))
  }

  /** A command that writes under no later version keeps later versions unused. */
  lemma {:induction false} FrameNoLater(kv: Store, kv': Store, key: Bytes, version: nat, clock: nat, limit: nat)
    requires Frame(kv, kv', key, version) && NoLater(kv, key, clock, limit)
    requires version <= clock && version < limit <= Meta.U128_LIMIT
    ensures NoLater(kv', key, clock, limit)
  {
    hide Meta.Inner, IsInner;
    forall v: nat, x | clock < v < limit ensures Meta.Inner(key, v, x) !in kv' {
      var k := Meta.Inner(key, v, x);
      Meta.InnerLonger(key, v, x);
      InnerIs(key, version, k);
      if IsInner(key, version, k) {
        var y :| k == Meta.Inner(key, version, y);
        Meta.InnerInjective(key, v, version, x, y);
      }
      assert SameAt(kv, kv', k);
    }
  }

  /** The other names do not notice. */
  lemma {:induction false} FrameOthers(names: set<Bytes>, limit: nat, kv: Store, kv': Store, key: Bytes, version: nat,
      other: Bytes)
    requires Apart(names, limit) && key in names && other in names && other != key
    requires Frame(kv, kv', key, version) && version < limit
    ensures SameFor(kv, kv', other, limit)
  {
    hide Meta.Inner, IsInner;
    InnerIs(key, version, other);
    assert SameAt(kv, kv', other);
    forall v: nat, x | v < limit ensures SameAt(kv, kv', Meta.Inner(other, v, x)) {
      InnerIs(key, version, Meta.Inner(other, v, x));
    }
  }

  lemma {:induction false} SameForNoLater(kv: Store, kv': Store, key: Bytes, clock: nat, limit: nat)
    requires SameFor(kv, kv', key, limit) && NoLater(kv, key, clock, limit)
    ensures NoLater(kv', key, clock, limit)
  {
    hide Meta.Inner;
    forall v: nat, x | clock < v < limit ensures Meta.Inner(key, v, x) !in kv' {
      assert SameAt(kv, kv', Meta.Inner(key, v, x));
    }
  }

  // ---- Stored metadata ----

  /** The name holds this metadata, of a structure that does not expire. */
  ghost predicate Stored(kv: Store, key: Bytes, m: Meta.Metadata)
  {
    key in kv && kv[key] == Meta.Encode(m) && Meta.Fits(m) && m.expire == 0
  }

  /** A command of the same kind finds it, one of another kind is refused. */
  lemma {:induction false} StoredFound(kv: Store, key: Bytes, m: Meta.Metadata, dtype: Meta.DataType, now: nat)
    requires Stored(kv, key, m) && key != []
    ensures Meta.Decode(kv[key]) == Some(m)
    ensures FindMeta(kv, key, dtype, now) == if dtype == m.dtype then Ok(m) else Err(WrongType)
  {
    hide Meta.Encode, Meta.Decode;
    Meta.RoundTrip(m);
    Meta.EncodedType(m);
  }

  /** Metadata of the same kind is found until it expires; from then on the name is as good as new. */
  lemma {:induction false} FoundUntilExpiry(kv: Store, key: Bytes, m: Meta.Metadata, dtype: Meta.DataType, now: nat)
    requires Meta.Fits(m) && key != []
    ensures FindMeta(kv[key := Meta.Encode(m)], key, dtype, now) ==
            if dtype != m.dtype then Err(WrongType)
            else if m.expire == 0 || now < m.expire then Ok(m)
            else FindMeta(kv - {key}, key, dtype, now)
    ensures FindMeta(kv - {key}, key, dtype, now) ==
            var mark := if dtype.ListType? then 0x7FFF_FFFF_FFFF_FFFF else 0;
            Ok(Meta.Metadata(dtype, 0, now, 0, mark, mark))
  {
    hide Meta.Encode, Meta.Decode;
    Meta.RoundTrip(m);
    Meta.EncodedType(m);
  }
}
