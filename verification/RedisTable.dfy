/**
 * The Redis hash and set: a size in metadata, one internal key for every field or member, and the map they stand for.
 */
module RedisTable {
  import opened Wire
  import Meta
  import opened RedisList
  import opened Keyspace

  datatype Kind = Hash | Set

  function TypeFor(kind: Kind): Meta.DataType
  {
    if kind.Hash? then Meta.HashType else Meta.SetType
  }

  /** The internal key of a field or a member. */
  function InnerKey(kind: Kind, key: Bytes, version: nat, x: Bytes): Bytes
  {
    if kind.Hash? then Meta.HashKey(key, version, x) else Meta.SetKey(key, version, x)
  }

  datatype Said = Flag(b: bool) | Found(v: Option<Bytes>) | Refused(error: RedisError)

  datatype Done = Done(kv: Store, said: Said)

  /** A new entry: a larger size and the entry itself, in one batch. */
  function Insert(kind: Kind, kv: Store, key: Bytes, m: Meta.Metadata, x: Bytes, value: Bytes): Store
  {
    kv[key := Meta.Encode(m.(size := m.size + 1))][InnerKey(kind, key, m.version, x) := value]
  }

  function Remove(kind: Kind, kv: Store, key: Bytes, m: Meta.Metadata, x: Bytes): Store
    requires m.size > 0
  {
    kv[key := Meta.Encode(m.(size := m.size - 1))] - {InnerKey(kind, key, m.version, x)}
  }

  function HSet(kv: Store, key: Bytes, field: Bytes, value: Bytes, now: nat): Done
  {
    match FindMeta(kv, key, Meta.HashType, now)
    case Err(e) => Done(kv, Refused(e))
    case Ok(m) =>
      if Meta.HashKey(key, m.version, field) in kv
        then Done(kv[Meta.HashKey(key, m.version, field) := value], Flag(false))
      else if m.size + 1 >= U32_LIMIT then Done(kv, Refused(Corrupt))
      else Done(Insert(Hash, kv, key, m, field, value), Flag(true))
  }

  /** A missing field of a hash that has others is an error, of an empty hash it is nothing. */
  function HGet(kv: Store, key: Bytes, field: Bytes, now: nat): Done
  {
    match FindMeta(kv, key, Meta.HashType, now)
    case Err(e) => Done(kv, Refused(e))
    case Ok(m) =>
      if m.size == 0 then Done(kv, Found(None))
      else if Meta.HashKey(key, m.version, field) !in kv then Done(kv, Refused(KeyNotFound))
      else Done(kv, Found(Some(kv[Meta.HashKey(key, m.version, field)])))
  }

  function HDel(kv: Store, key: Bytes, field: Bytes, now: nat): Done
  {
    match FindMeta(kv, key, Meta.HashType, now)
    case Err(e) => Done(kv, Refused(e))
    case Ok(m) =>
      if m.size == 0 || Meta.HashKey(key, m.version, field) !in kv then Done(kv, Flag(false))
      else Done(Remove(Hash, kv, key, m, field), Flag(true))
  }

  function SAdd(kv: Store, key: Bytes, member: Bytes, now: nat): Done
  {
    match FindMeta(kv, key, Meta.SetType, now)
    case Err(e) => Done(kv, Refused(e))
    case Ok(m) =>
      if Meta.SetKey(key, m.version, member) in kv then Done(kv, Flag(false))
      else if m.size + 1 >= U32_LIMIT then Done(kv, Refused(Corrupt))
      else Done(Insert(Set, kv, key, m, member, []), Flag(true))
  }

  function SIsMember(kv: Store, key: Bytes, member: Bytes, now: nat): Done
  {
    match FindMeta(kv, key, Meta.SetType, now)
    case Err(e) => Done(kv, Refused(e))
    case Ok(m) => Done(kv, Flag(m.size > 0 && Meta.SetKey(key, m.version, member) in kv))
  }

  function SRem(kv: Store, key: Bytes, member: Bytes, now: nat): Done
  {
    match FindMeta(kv, key, Meta.SetType, now)
    case Err(e) => Done(kv, Refused(e))
    case Ok(m) =>
      if m.size == 0 || Meta.SetKey(key, m.version, member) !in kv then Done(kv, Flag(false))
      else Done(Remove(Set, kv, key, m, member), Flag(true))
  }

  // ---- The map they stand for ----

  datatype TableOp =
    | HSetOp(x: Bytes, value: Bytes)
    | HGetOp(x: Bytes)
    | HDelOp(x: Bytes)
    | SAddOp(x: Bytes)
    | SIsMemberOp(x: Bytes)
    | SRemOp(x: Bytes)

  predicate ForKind(kind: Kind, op: TableOp)
  {
    match op
    case HSetOp(_, _) => kind.Hash?
    case HGetOp(_) => kind.Hash?
    case HDelOp(_) => kind.Hash?
    case SAddOp(_) => kind.Set?
    case SIsMemberOp(_) => kind.Set?
    case SRemOp(_) => kind.Set?
  }

  function Exec(kv: Store, key: Bytes, op: TableOp, now: nat): Done
  {
    match op
    case HSetOp(x, value) => HSet(kv, key, x, value, now)
    case HGetOp(x) => HGet(kv, key, x, now)
    case HDelOp(x) => HDel(kv, key, x, now)
    case SAddOp(x) => SAdd(kv, key, x, now)
    case SIsMemberOp(x) => SIsMember(kv, key, x, now)
    case SRemOp(x) => SRem(kv, key, x, now)
  }

  type Table = map<Bytes, Bytes>

  datatype Meant = Meant(table: Table, said: Said)

  /** What the commands mean on a map. */
  function Means(h: Table, op: TableOp): Meant
  {
    match op
    case HSetOp(x, value) => Meant(h[x := value], Flag(x !in h))
    case HGetOp(x) => Meant(h, if h == map[] then Found(None) else if x in h then Found(Some(h[x]))
      else Refused(KeyNotFound))
    case HDelOp(x) => Meant(h - {x}, Flag(x in h))
    case SAddOp(x) => Meant(if x in h then h else h[x := []], Flag(x !in h))
    case SIsMemberOp(x) => Meant(h, Flag(x in h))
    case SRemOp(x) => Meant(h - {x}, Flag(x in h))
  }

  // ---- Entries and their keys ----

  /** Every entry has its internal key with its value, and no other internal key of that version is there. */
  ghost predicate Entries(kind: Kind, kv: Store, key: Bytes, version: nat, h: Table)
  {
    forall x :: (InnerKey(kind, key, version, x) in kv <==> x in h)
      && (x in h ==> kv[InnerKey(kind, key, version, x)] == h[x])
  }

  /** What the internal key adds to name and version. */
  function Rest(kind: Kind, x: Bytes): Bytes
  {
    if kind.Hash? then x else x + BigEndian(|x| % U32_LIMIT, 4)
  }

  lemma {:induction false} InnerKeyForm(kind: Kind, key: Bytes, version: nat, x: Bytes)
    ensures InnerKey(kind, key, version, x) == Meta.Inner(key, version, Rest(kind, x))
    ensures InnerKey(kind, key, version, x) != key && IsInner(key, version, InnerKey(kind, key, version, x))
  {
    hide BigEndian, IsInner;
    Meta.InnerForms(key, version, x, [], 0);
    Meta.InnerLonger(key, version, Rest(kind, x));
    InnerIs(key, version, InnerKey(kind, key, version, x));
  }

  lemma {:induction false} InnerKeyInjective(kind: Kind, key: Bytes, version: nat, x: Bytes, y: Bytes)
    requires InnerKey(kind, key, version, x) == InnerKey(kind, key, version, y)
    ensures x == y
  {
    hide BigEndian;
    if kind.Hash? {
      Meta.SuffixDecides(key, version, x, y);
    } else {
      Meta.SetKeyInjective(key, version, x, y);
    }
  }

  /** A name that has no key of this version has no entries. */
  lemma {:induction false} NoEntries(kind: Kind, kv: Store, key: Bytes, clock: nat, limit: nat, now: nat)
    requires NoLater(kv, key, clock, limit) && clock < now < limit
    ensures Entries(kind, kv, key, now, map[])
  {
    hide InnerKey, Meta.Inner, Rest, IsInner;
    forall x ensures InnerKey(kind, key, now, x) !in kv {
      InnerKeyForm(kind, key, now, x);
    }
  }

  /** Adding one internal key, and changing the metadata. */
  lemma {:induction false} InsertEntries(kind: Kind, kv: Store, key: Bytes, version: nat, h: Table, x: Bytes,
      value: Bytes, meta: Bytes)
    requires Entries(kind, kv, key, version, h)
    ensures var kv' := kv[key := meta][InnerKey(kind, key, version, x) := value];
            Entries(kind, kv', key, version, h[x := value]) && Frame(kv, kv', key, version) && kv'[key] == meta
  {
    hide InnerKey, IsInner;
    var kv', h' := kv[key := meta][InnerKey(kind, key, version, x) := value], h[x := value];
    InnerKeyForm(kind, key, version, x);
    forall y ensures (InnerKey(kind, key, version, y) in kv' <==> y in h')
      && (y in h' ==> kv'[InnerKey(kind, key, version, y)] == h'[y]) {
      InnerKeyForm(kind, key, version, y);
      if InnerKey(kind, key, version, y) == InnerKey(kind, key, version, x) {
        InnerKeyInjective(kind, key, version, y, x);
      }
    }
  }

  lemma {:induction false} RemoveEntries(kind: Kind, kv: Store, key: Bytes, version: nat, h: Table, x: Bytes,
      meta: Bytes)
    requires Entries(kind, kv, key, version, h)
    ensures var kv' := kv[key := meta] - {InnerKey(kind, key, version, x)};
            Entries(kind, kv', key, version, h - {x}) && Frame(kv, kv', key, version) && key in kv' && kv'[key] == meta
  {
    hide InnerKey, IsInner;
    var kv', h' := kv[key := meta] - {InnerKey(kind, key, version, x)}, h - {x};
    InnerKeyForm(kind, key, version, x);
    forall y ensures (InnerKey(kind, key, version, y) in kv' <==> y in h')
      && (y in h' ==> kv'[InnerKey(kind, key, version, y)] == h'[y]) {
      InnerKeyForm(kind, key, version, y);
      if InnerKey(kind, key, version, y) == InnerKey(kind, key, version, x) {
        InnerKeyInjective(kind, key, version, y, x);
      }
    }
  }

  /** The other names' commands leave the entries alone. */
  lemma {:induction false} EntriesStay(kind: Kind, kv: Store, kv': Store, key: Bytes, version: nat, h: Table,
      limit: nat)
    requires SameFor(kv, kv', key, limit) && version < limit && Entries(kind, kv, key, version, h)
    ensures Entries(kind, kv', key, version, h)
  {
    hide InnerKey, Meta.Inner, Rest, IsInner;
    forall x ensures SameAt(kv, kv', InnerKey(kind, key, version, x)) {
      InnerKeyForm(kind, key, version, x);
    }
  }

  // ---- One command ----

  /**
   * The table the metadata and the entries of its version stand for; a name without metadata stands for the empty
   * one.
   */
  ghost predicate Holds(kind: Kind, kv: Store, key: Bytes, m: Meta.Metadata, h: Table)
  {
    && Meta.Fits(m) && m.expire == 0 && m.dtype == TypeFor(kind) && m.size == |h|
      && Entries(kind, kv, key, m.version, h)
    && (key in kv ==> kv[key] == Meta.Encode(m)) && (key !in kv ==> h == map[])
  }

  lemma {:induction false} SizeAfter(h: Table, x: Bytes, value: Bytes)
    ensures |h[x := value]| == (if x in h then |h| else |h| + 1)
    ensures |h| == 0 <==> h == map[]
  {
    var more := h[x := value];
    assert |h| == |h.Keys| && |more| == |more.Keys|;
    assert more.Keys == h.Keys + {x};
    if x in h {
      assert more.Keys == h.Keys;
    }
  }

  lemma {:induction false} SizeWithout(h: Table, x: Bytes)
    ensures x in h ==> |h - {x}| == |h| - 1
    ensures x !in h ==> h - {x} == h
  {
    var less := h - {x};
    assert |h| == |h.Keys| && |less| == |less.Keys|;
    if x in h {
      assert h.Keys == less.Keys + {x};
    } else {
      assert less == h;
    }
  }

  lemma {:induction false} InsertHolds(kind: Kind, kv: Store, key: Bytes, m: Meta.Metadata, h: Table, x: Bytes,
      value: Bytes)
    requires Holds(kind, kv, key, m, h) && x !in h && |h| + 1 < U32_LIMIT
    ensures var kv' := Insert(kind, kv, key, m, x, value);
            && Holds(kind, kv', key, m.(size := |h| + 1), h[x := value]) && key in kv' && Frame(kv, kv', key, m.version)
  {
    hide InnerKey, Entries, Meta.Encode, IsInner;
    SizeAfter(h, x, value);
    InsertEntries(kind, kv, key, m.version, h, x, value, Meta.Encode(m.(size := m.size + 1)));
  }

  lemma {:induction false} RemoveHolds(kind: Kind, kv: Store, key: Bytes, m: Meta.Metadata, h: Table, x: Bytes)
    requires Holds(kind, kv, key, m, h) && x in h
    ensures m.size > 0
    ensures var kv' := Remove(kind, kv, key, m, x);
            && Holds(kind, kv', key, m.(size := |h| - 1), h - {x}) && key in kv' && Frame(kv, kv', key, m.version)
  {
    hide InnerKey, Entries, Meta.Encode, IsInner;
    SizeWithout(h, x);
    SizeAfter(h, x, []);
    RemoveEntries(kind, kv, key, m.version, h, x, Meta.Encode(m.(size := m.size - 1)));
  }

  /** A field that is there gets a new value; the metadata stays. */
  lemma {:induction false} OverwriteHolds(kv: Store, key: Bytes, m: Meta.Metadata, h: Table, x: Bytes, value: Bytes)
    requires Holds(Hash, kv, key, m, h) && x in h
    ensures var kv' := kv[Meta.HashKey(key, m.version, x) := value];
            && Holds(Hash, kv', key, m, h[x := value]) && key in kv' && Frame(kv, kv', key, m.version)
  {
    hide Meta.HashKey, Entries, Meta.Encode, IsInner;
    SizeAfter(h, x, value);
    InsertEntries(Hash, kv, key, m.version, h, x, value, kv[key]);
    assert kv[key := kv[key]] == kv;
  }

  lemma {:induction false} Untouched(kv: Store, key: Bytes, version: nat)
    ensures Frame(kv, kv, key, version)
  {
    hide IsInner;
  }

  /** What one command finds out about its entry. */
  lemma {:induction false} EntryIs(kind: Kind, kv: Store, key: Bytes, m: Meta.Metadata, h: Table, x: Bytes)
    requires Holds(kind, kv, key, m, h)
    ensures InnerKey(kind, key, m.version, x) in kv <==> x in h
    ensures x in h ==> kv[InnerKey(kind, key, m.version, x)] == h[x] && h != map[]
    ensures m.size == |h| && (|h| == 0 <==> h == map[])
    ensures h - {x} == h <==> x !in h
  {
    hide InnerKey, Meta.Encode;
    SizeAfter(h, x, []);
    SizeWithout(h, x);
    assert x !in h - {x};
  }

  /** One command that finds its metadata answers what the map answers, and changes keys of its own version only. */
  lemma {:induction false} StepHolds(kind: Kind, kv: Store, key: Bytes, m: Meta.Metadata, h: Table, op: TableOp,
      now: nat)
    requires FindMeta(kv, key, TypeFor(kind), now) == Ok(m) && Holds(kind, kv, key, m, h)
    requires ForKind(kind, op) && |h| + 1 < U32_LIMIT
    ensures Exec(kv, key, op, now).said == Means(h, op).said
    ensures var kv', h' := Exec(kv, key, op, now).kv, Means(h, op).table;
            && Holds(kind, kv', key, m.(size := |h'|), h') && Frame(kv, kv', key, m.version)
            && (key in kv' <==> key in kv || h' != map[]) && |h'| <= |h| + 1
  {
    hide Meta.Encode, Meta.HashKey, Meta.SetKey, Insert, Remove, Entries, FindMeta, Meta.Fits, Frame, Holds;
    EntryIs(kind, kv, key, m, h, op.x);
    Untouched(kv, key, m.version);
    NameThere(kind, kv, key, m, h);
    SizeAfter(h, op.x, if op.HSetOp? then op.value else []);
    SizeWithout(h, op.x);
    match op {
    case HSetOp(x, value) =>
      if x in h { OverwriteHolds(kv, key, m, h, x, value); } else { InsertHolds(kind, kv, key, m, h, x, value); }
    case HGetOp(_) =>
    case HDelOp(x) =>
      if x in h { RemoveHolds(kind, kv, key, m, h, x); }
    case SAddOp(x) =>
      if x !in h { InsertHolds(kind, kv, key, m, h, x, []); }
    case SIsMemberOp(_) =>
    case SRemOp(x) =>
      if x in h { RemoveHolds(kind, kv, key, m, h, x); }
    }
  }

  lemma {:induction false} NameThere(kind: Kind, kv: Store, key: Bytes, m: Meta.Metadata, h: Table)
    requires Holds(kind, kv, key, m, h)
    ensures m.(size := |h|) == m && (h != map[] ==> key in kv)
  {
  }
}
