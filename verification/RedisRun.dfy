/** Runs of Redis commands on any number of names and of every kind at once, and the values they stand for. */
module RedisRun {
  import opened Wire
  import Meta
  import opened RedisList
  import opened Keyspace
  import opened RedisTable
  import opened RedisZSet
  import Lists = RedisList
  import Tables = RedisTable
  import ZSets = RedisZSet

  // ---- Strings, types and deletions ----

  /** A string value: the type, the time at which it expires, and the text. */
  function Text(payload: Bytes, expire: nat): Bytes
  {
    [Meta.TypeByte(Meta.StringType)] + BigEndian(expire, 16) + payload
  }

  datatype Reply =
    | TableReply(said: Said)
    | ListReply(reply: Lists.Reply)
    | ZSetReply(zsaid: ZSaid)
    | TextReply(text: Result<Option<Bytes>, RedisError>)
    | TypeReply(dtype: Result<Meta.DataType, RedisError>)
    | DoneReply(done: Result<bool, RedisError>)

  datatype Ran = Ran(kv: Store, reply: Reply)

  /** `set`: nothing for an empty text; otherwise whatever kind of value the name had is replaced. */
  function SetText(kv: Store, key: Bytes, payload: Bytes, ttl: nat, now: nat): Ran
  {
    if payload == [] then Ran(kv, DoneReply(Ok(true)))
    else if key == [] then Ran(kv, DoneReply(Err(KeyIsEmpty)))
    else Ran(kv[key := Text(payload, if ttl == 0 then 0 else now + ttl)], DoneReply(Ok(true)))
  }

  /** `get`; Corrupt where the source panics. */
  function GetText(kv: Store, key: Bytes, now: nat): Result<Option<Bytes>, RedisError>
  {
    if key == [] then Err(KeyIsEmpty)
    else if key !in kv then Err(KeyNotFound)
    else if kv[key] == [] || Meta.TypeOf(kv[key][0]).None? then Err(Corrupt)
    else if Meta.TypeOf(kv[key][0]).value != Meta.StringType then Err(WrongType)
    else if |kv[key]| < 17 then Err(Corrupt)
    else
      var expire := FromBigEndian(kv[key][1..17]);
      if 0 < expire <= now then Ok(None) else Ok(Some(kv[key][17..]))
  }

  /** `key_type`. */
  function KeyType(kv: Store, key: Bytes): Result<Meta.DataType, RedisError>
  {
    if key == [] then Err(KeyIsEmpty)
    else if key !in kv then Err(KeyNotFound)
    else if kv[key] == [] || Meta.TypeOf(kv[key][0]).None? then Err(Corrupt)
    else Ok(Meta.TypeOf(kv[key][0]).value)
  }

  /** `del`: only the name's own key goes. */
  function Delete(kv: Store, key: Bytes): Ran
  {
    if key == [] then Ran(kv, DoneReply(Err(KeyIsEmpty))) else Ran(kv - {key}, DoneReply(Ok(true)))
  }

  // ---- Commands and values ----

  datatype Command =
    | TableCommand(kind: Kind, op: TableOp)
    | PushCommand(element: Bytes, left: bool)
    | PopCommand(left: bool)
    | ZSetCommand(zop: ZOp)
    | SetCommand(payload: Bytes, ttl: nat)
    | GetCommand
    | TypeCommand
    | DelCommand

  function Exec(kv: Store, key: Bytes, c: Command, now: nat): Ran
  {
    match c
    case TableCommand(_, op) => var d := Tables.Exec(kv, key, op, now); Ran(d.kv, TableReply(d.said))
    case PushCommand(element, left) => var a := Push(kv, key, element, left, now); Ran(a.kv, ListReply(a.reply))
    case PopCommand(left) => var a := Pop(kv, key, left, now); Ran(a.kv, ListReply(a.reply))
    case ZSetCommand(op) => var d := ZSets.Exec(kv, key, op, now); Ran(d.kv, ZSetReply(d.said))
    case SetCommand(payload, ttl) => SetText(kv, key, payload, ttl, now)
    case GetCommand => Ran(kv, TextReply(GetText(kv, key, now)))
    case TypeCommand => Ran(kv, TypeReply(KeyType(kv, key)))
    case DelCommand => Delete(kv, key)
  }

  /** What a name stands for. A structure that has become empty is still one of its kind; a text may have an end. */
  datatype Value =
    | TableValue(kind: Kind, table: Table)
    | ListValue(list: seq<Bytes>)
    | ZSetValue(scores: Scores)
    | TextValue(payload: Bytes, until: Option<nat>)

  type Values = map<Bytes, Value>

  function TypeFor(v: Value): Meta.DataType
  {
    match v
    case TableValue(kind, _) => Tables.TypeFor(kind)
    case ListValue(_) => Meta.ListType
    case ZSetValue(_) => Meta.ZSetType
    case TextValue(_, _) => Meta.StringType
  }

  function ValueOf(values: Values, key: Bytes): Option<Value>
  {
    if key in values then Some(values[key]) else None
  }

  datatype Response = Response(value: Option<Value>, reply: Reply)

  /** What a command means for the value of its name: nothing else is looked at, nothing else changes. */
  function Respond(v: Option<Value>, c: Command, now: nat): Response
  {
    match c
    case TableCommand(kind, op) =>
      if v.Some? && !(v.value.TableValue? && v.value.kind == kind) then Response(v, TableReply(Refused(WrongType))) else
        var meant := Tables.Means(if v.Some? then v.value.table else map[], op);
        Response(if v.None? && meant.table == map[] then None else Some(TableValue(kind, meant.table)),
          TableReply(meant.said))
    case PushCommand(element, left) =>
      if v.Some? && !v.value.ListValue? then Response(v, ListReply(Failed(WrongType))) else
        var l := if v.Some? then v.value.list else [];
        var l' := if left then [element] + l else l + [element];
        Response(Some(ListValue(l')), ListReply(Length(|l'|)))
    case PopCommand(left) =>
      if v.Some? && !v.value.ListValue? then Response(v, ListReply(Failed(WrongType)))
      else if v.None? || v.value.list == [] then Response(v, ListReply(Element(None)))
      else
        var l := v.value.list;
        if left then Response(Some(ListValue(l[1..])), ListReply(Element(Some(l[0]))))
        else Response(Some(ListValue(l[..|l| - 1])), ListReply(Element(Some(l[|l| - 1]))))
    case ZSetCommand(op) =>
      if v.Some? && !v.value.ZSetValue? then Response(v, ZSetReply(ZRefused(WrongType))) else
        var meant := ZSets.Means(if v.Some? then v.value.scores else map[], op);
        Response(if v.None? && meant.scores == map[] then None
          else Some(ZSetValue(meant.scores)), ZSetReply(meant.said))
    case SetCommand(payload, ttl) =>
      var until := if ttl == 0 then None else Some(now + ttl);
      Response(if payload == [] then v else Some(TextValue(payload, until)), DoneReply(Ok(true)))
    case GetCommand =>
      Response(v, TextReply(
        if v.None? then Err(KeyNotFound)
        else if !v.value.TextValue? then Err(WrongType)
        else if v.value.until.Some? && now >= v.value.until.value then Ok(None)
        else Ok(Some(v.value.payload))))
    case TypeCommand =>
      Response(v, TypeReply(if v.None? then Err(KeyNotFound) else Ok(TypeFor(v.value))))
    case DelCommand => Response(None, DoneReply(Ok(true)))
  }

  // ---- The invariant ----

  /** How the end of a text is stored: 0 for none. */
  function Stamp(until: Option<nat>): nat
  {
    if until.Some? then until.value else 0
  }

  predicate Dated(until: Option<nat>)
  {
    until.Some? ==> 0 < until.value < Meta.U128_LIMIT
  }

  /** The metadata and the internal keys of its version hold the structure. */
  ghost predicate Contents(zn: Names, kv: Store, key: Bytes, m: Meta.Metadata, v: Value, drift: nat)
  {
    match v
    case TableValue(kind, h) => |h| <= drift && Tables.Holds(kind, kv, key, m, h)
    case ZSetValue(z) => |z| <= drift && ZSets.Holds(zn, kv, key, m, z)
    case ListValue(l) => Window(kv, key, m, l, drift)
    case TextValue(_, _) => false
  }

  /** The name stands for the value: its own key says so, its internal keys hold it, and no later version is in use. */
  ghost predicate Stands(zn: Names, kv: Store, key: Bytes, v: Option<Value>, clock: nat, drift: nat, limit: nat)
  {
    && NoLater(kv, key, clock, limit)
    && (v.None? <==> key !in kv)
    && (v.Some? ==>
          if v.value.TextValue? then
            Dated(v.value.until) && kv[key] == Text(v.value.payload, Stamp(v.value.until))
          else
            exists m: Meta.Metadata ::
              m.version <= clock && Keyspace.Stored(kv, key, m) && Contents(zn, kv, key, m, v.value, drift))
  }

  // ---- What a command finds ----

  lemma {:induction false} TextForm(payload: Bytes, expire: nat)
    requires expire < Meta.U128_LIMIT
    ensures var bs := Text(payload, expire);
            && |bs| >= 17 && Meta.TypeOf(bs[0]) == Some(Meta.StringType)
            && FromBigEndian(bs[1..17]) == expire && bs[17..] == payload
  {
    Meta.Ranges();
    hide BigEndian, FromBigEndian, ByteRange;
    BigEndianRoundTrip(expire, 16);
    assert Text(payload, expire)[1..17] == BigEndian(expire, 16);
  }

  /** The metadata of a stored structure. */
  function MetaOf(kv: Store, key: Bytes): Meta.Metadata
  {
    if key in kv && Meta.Decode(kv[key]).Some? then Meta.Decode(kv[key]).value else NewMeta(Meta.HashType, 0)
  }

  lemma {:induction false} StandsStored(zn: Names, kv: Store, key: Bytes, v: Value, clock: nat, drift: nat, limit: nat)
    requires Stands(zn, kv, key, Some(v), clock, drift, limit) && !v.TextValue? && key != []
    ensures var m := MetaOf(kv, key);
            && m.version <= clock && Keyspace.Stored(kv, key, m) && Contents(zn, kv, key, m, v, drift)
            && m.dtype == TypeFor(v) && Meta.Decode(kv[key]) == Some(m)
  {
    hide Meta.Encode, Meta.Decode, Tables.Entries, ZSets.Entries, NoLater, FindMeta;
    var m: Meta.Metadata :| m.version <= clock && Keyspace.Stored(kv, key, m) && Contents(zn, kv, key, m, v, drift);
    StoredFound(kv, key, m, m.dtype, clock);
  }

  /** A command for one type of structure: a new one, the stored one, or a refusal. */
  lemma {:induction false} Finds(zn: Names, kv: Store, key: Bytes, v: Option<Value>, clock: nat, drift: nat,
      limit: nat, dtype: Meta.DataType, now: nat)
    requires Stands(zn, kv, key, v, clock, drift, limit) && key != [] && !dtype.StringType?
    ensures FindMeta(kv, key, dtype, now) ==
              if v.None? then Ok(NewMeta(dtype, now))
              else if TypeFor(v.value) == dtype then Ok(MetaOf(kv, key))
              else Err(WrongType)
  {
    hide Meta.Encode, Meta.Decode, NoLater, Contents;
    if v.Some? {
      if v.value.TextValue? {
        TextForm(v.value.payload, Stamp(v.value.until));
      } else {
        StandsStored(zn, kv, key, v.value, clock, drift, limit);
        StoredFound(kv, key, MetaOf(kv, key), dtype, now);
      }
    }
  }

  // ---- What a command leaves ----

  lemma {:induction false} StandsGrown(zn: Names, kv: Store, key: Bytes, v: Option<Value>, clock: nat, drift: nat,
      limit: nat, now: nat)
    requires Stands(zn, kv, key, v, clock, drift, limit) && clock <= now
    ensures Stands(zn, kv, key, v, now, drift + 1, limit)
  {
    hide Meta.Encode, Tables.Holds, ZSets.Holds, Meta.Inner, Text;
    if v.Some? && !v.value.TextValue? {
      var m: Meta.Metadata :| m.version <= clock && Keyspace.Stored(kv, key, m)
        && Contents(zn, kv, key, m, v.value, drift);
      assert Contents(zn, kv, key, m, v.value, drift + 1);
    }
  }

  lemma {:induction false} LaterStill(kv: Store, kv': Store, key: Bytes, version: nat, clock: nat, now: nat, limit: nat)
    requires NoLater(kv, key, clock, limit) && Frame(kv, kv', key, version) && clock <= now && version <= now < limit
    requires limit <= Meta.U128_LIMIT
    ensures NoLater(kv', key, now, limit)
  {
    hide Meta.Inner, Frame;
    assert NoLater(kv, key, now, limit);
    FrameNoLater(kv, kv', key, version, now, limit);
  }

  lemma {:induction false} NewStands(zn: Names, kv: Store, key: Bytes, v: Value, m: Meta.Metadata, now: nat,
      drift: nat, limit: nat)
    requires NoLater(kv, key, now, limit) && !v.TextValue? && m.version <= now
    requires Keyspace.Stored(kv, key, m) && Contents(zn, kv, key, m, v, drift)
    ensures Stands(zn, kv, key, Some(v), now, drift, limit)
  {
    hide NoLater, Contents, Meta.Encode, Meta.Fits;
  }

  /** The value of the name before, as a structure of the command's type; a new name is an empty one. */
  lemma {:induction false} TableBefore(zn: Names, kv: Store, key: Bytes, kind: Kind, v: Option<Value>, clock: nat,
      drift: nat, limit: nat, now: nat)
    requires Stands(zn, kv, key, v, clock, drift, limit) && key != [] && clock < now < limit <= Meta.U128_LIMIT
    requires v.Some? ==> v.value.TableValue? && v.value.kind == kind
    ensures FindMeta(kv, key, Tables.TypeFor(kind), now).Ok?
    ensures var m, h := FindMeta(kv, key, Tables.TypeFor(kind), now).value, if v.Some? then v.value.table else map[];
            m.version <= now && Tables.Holds(kind, kv, key, m, h) && |h| <= drift
  {
    hide Stands, Meta.Encode, Meta.Decode, FindMeta, Tables.Holds, NoLater, MetaOf, Keyspace.Stored, Contents;
    Finds(zn, kv, key, v, clock, drift, limit, Tables.TypeFor(kind), now);
    if v.Some? {
      StoredTable(zn, kv, key, kind, v.value.table, clock, drift, limit);
    } else {
      StandsParts(zn, kv, key, v, clock, drift, limit);
      NewTable(kind, kv, key, clock, limit, now);
    }
  }

  lemma {:induction false} StoredTable(zn: Names, kv: Store, key: Bytes, kind: Kind, h: Tables.Table, clock: nat,
      drift: nat, limit: nat)
    requires Stands(zn, kv, key, Some(TableValue(kind, h)), clock, drift, limit) && key != []
    ensures MetaOf(kv, key).version <= clock && Tables.Holds(kind, kv, key, MetaOf(kv, key), h) && |h| <= drift
  {
    StandsStored(zn, kv, key, TableValue(kind, h), clock, drift, limit);
    hide Stands, Meta.Encode, Meta.Decode, Tables.Holds, NoLater, MetaOf, Keyspace.Stored;
  }

  lemma {:induction false} StandsParts(zn: Names, kv: Store, key: Bytes, v: Option<Value>, clock: nat, drift: nat,
      limit: nat)
    requires Stands(zn, kv, key, v, clock, drift, limit)
    ensures NoLater(kv, key, clock, limit) && (v.None? <==> key !in kv)
  {
    hide NoLater, Contents, Meta.Encode, Text;
  }

  lemma {:induction false} NewTable(kind: Kind, kv: Store, key: Bytes, clock: nat, limit: nat, now: nat)
    requires NoLater(kv, key, clock, limit) && key !in kv && clock < now < limit <= Meta.U128_LIMIT
    ensures Tables.Holds(kind, kv, key, NewMeta(Tables.TypeFor(kind), now), map[])
  {
    hide NoLater, Tables.Entries;
    Tables.NoEntries(kind, kv, key, clock, limit, now);
  }

  lemma {:induction false} TableStep(zn: Names, kv: Store, key: Bytes, v: Option<Value>, clock: nat, drift: nat,
      limit: nat, kind: Kind, op: TableOp, now: nat) returns (version: nat)
    requires Stands(zn, kv, key, v, clock, drift, limit) && key != [] && clock < now < limit <= Meta.U128_LIMIT
    requires drift + 1 < U32_LIMIT && ForKind(kind, op)
    requires v.Some? ==> v.value.TableValue? && v.value.kind == kind
    ensures version <= now
    ensures var ran, means := Exec(kv, key, TableCommand(kind, op), now), Respond(v, TableCommand(kind, op), now);
            && ran.reply == means.reply && Frame(kv, ran.kv, key, version)
            && Stands(zn, ran.kv, key, means.value, now, drift + 1, limit)
  {
    hide Meta.Encode, Meta.Decode, FindMeta, Tables.Holds, Frame, NoLater, Tables.Exec, Tables.Means, Meta.Fits;
    TableBefore(zn, kv, key, kind, v, clock, drift, limit, now);
    var m, h := FindMeta(kv, key, Tables.TypeFor(kind), now).value, if v.Some? then v.value.table else map[];
    version := m.version;
    Tables.StepHolds(kind, kv, key, m, h, op, now);
    var kv', h' := Tables.Exec(kv, key, op, now).kv, Tables.Means(h, op).table;
    LaterStill(kv, kv', key, version, clock, now, limit);
    if key in kv' {
      HeldStored(kind, kv', key, m.(size := |h'|), h');
      NewStands(zn, kv', key, TableValue(kind, h'), m.(size := |h'|), now, drift + 1, limit);
    }
  }

  lemma {:induction false} HeldStored(kind: Kind, kv: Store, key: Bytes, m: Meta.Metadata, h: Table)
    requires Tables.Holds(kind, kv, key, m, h) && key in kv
    ensures Keyspace.Stored(kv, key, m)
  {
    hide Tables.Entries, Meta.Encode;
  }

  lemma {:induction false} ScoresBefore(zn: Names, kv: Store, key: Bytes, v: Option<Value>, clock: nat, drift: nat,
      limit: nat, now: nat)
    requires Stands(zn, kv, key, v, clock, drift, limit) && key != [] && clock < now < limit <= Meta.U128_LIMIT
    requires v.Some? ==> v.value.ZSetValue?
    ensures FindMeta(kv, key, Meta.ZSetType, now).Ok?
    ensures var m, z := FindMeta(kv, key, Meta.ZSetType, now).value, if v.Some? then v.value.scores else map[];
            m.version <= now && ZSets.Holds(zn, kv, key, m, z) && |z| <= drift
  {
    Finds(zn, kv, key, v, clock, drift, limit, Meta.ZSetType, now);
    StandsParts(zn, kv, key, v, clock, drift, limit);
    hide Stands, Meta.Encode, Meta.Decode, FindMeta, ZSets.Holds;
    if v.Some? {
      StandsStored(zn, kv, key, v.value, clock, drift, limit);
    } else {
      NewScores(zn, kv, key, clock, limit, now);
    }
  }

  lemma {:induction false} NewScores(zn: Names, kv: Store, key: Bytes, clock: nat, limit: nat, now: nat)
    requires NoLater(kv, key, clock, limit) && key !in kv && clock < now < limit <= Meta.U128_LIMIT
    ensures ZSets.Holds(zn, kv, key, NewMeta(Meta.ZSetType, now), map[])
  {
    hide NoLater, ZSets.Entries;
    ZSets.NoEntries(zn, kv, key, clock, limit, now);
  }

  lemma {:induction false} ScoresStored(zn: Names, kv: Store, key: Bytes, m: Meta.Metadata, z: Scores)
    requires ZSets.Holds(zn, kv, key, m, z) && key in kv
    ensures Keyspace.Stored(kv, key, m)
  {
    hide ZSets.Entries, Meta.Encode;
  }

  lemma {:induction false} ScoresStep(zn: Names, kv: Store, key: Bytes, v: Option<Value>, clock: nat, drift: nat,
      limit: nat, op: ZOp, now: nat) returns (version: nat)
    requires Stands(zn, kv, key, v, clock, drift, limit) && key != [] && clock < now < limit <= Meta.U128_LIMIT
    requires drift + 1 < U32_LIMIT && Legible(zn) && ZSets.OpOk(zn, op)
    requires v.Some? ==> v.value.ZSetValue?
    ensures version <= now
    ensures var ran, means := Exec(kv, key, ZSetCommand(op), now), Respond(v, ZSetCommand(op), now);
            && ran.reply == means.reply && Frame(kv, ran.kv, key, version)
            && Stands(zn, ran.kv, key, means.value, now, drift + 1, limit)
  {
    hide Meta.Encode, Meta.Decode, FindMeta, ZSets.Holds, Frame, NoLater, ZSets.Exec, ZSets.Means, Meta.Fits, Legible;
    ScoresBefore(zn, kv, key, v, clock, drift, limit, now);
    var m, z := FindMeta(kv, key, Meta.ZSetType, now).value, if v.Some? then v.value.scores else map[];
    version := m.version;
    ZSets.StepHolds(zn, kv, key, m, z, op, now);
    var kv', z' := ZSets.Exec(kv, key, op, now).kv, ZSets.Means(z, op).scores;
    LaterStill(kv, kv', key, version, clock, now, limit);
    if key in kv' {
      ScoresStored(zn, kv', key, m.(size := |z'|), z');
      NewStands(zn, kv', key, ZSetValue(z'), m.(size := |z'|), now, drift + 1, limit);
    }
  }

  lemma {:induction false} WindowBefore(zn: Names, kv: Store, key: Bytes, v: Option<Value>, clock: nat, drift: nat,
      limit: nat, now: nat)
    requires Stands(zn, kv, key, v, clock, drift, limit) && key != [] && clock < now < limit <= Meta.U128_LIMIT
    requires v.Some? ==> v.value.ListValue?
    ensures FindMeta(kv, key, Meta.ListType, now).Ok?
    ensures var m, l := FindMeta(kv, key, Meta.ListType, now).value, if v.Some? then v.value.list else [];
            m.version <= now && Window(kv, key, m, l, drift)
  {
    Finds(zn, kv, key, v, clock, drift, limit, Meta.ListType, now);
    hide Stands, Meta.Encode, Meta.Decode, FindMeta;
    if v.Some? {
      StandsStored(zn, kv, key, v.value, clock, drift, limit);
    }
  }

  /** List commands touch the name and one slot of its version. */
  lemma {:induction false} SlotFrame(kv: Store, key: Bytes, version: nat, index: nat, meta: Bytes, element: Bytes)
    ensures Frame(kv, kv[key := meta][Meta.ListKey(key, version, index) := element], key, version)
    ensures Frame(kv, kv[key := meta], key, version) && Frame(kv, kv - {key}, key, version)
        && Frame(kv, kv, key, version)
  {
    Meta.InnerForms(key, version, [], [], index);
    InnerIs(key, version, Meta.ListKey(key, version, index));
    hide Meta.ListKey, IsInner, BigEndian;
  }

  lemma {:induction false} WindowStored(kv: Store, key: Bytes, m: Meta.Metadata, l: seq<Bytes>, drift: nat)
    requires Window(kv, key, m, l, drift) && drift < U32_LIMIT && key in kv && kv[key] == Meta.Encode(m)
    ensures Keyspace.Stored(kv, key, m)
  {
    hide Meta.Encode, Meta.ListKey;
  }

  lemma {:induction false} PushStep(zn: Names, kv: Store, key: Bytes, v: Option<Value>, clock: nat, drift: nat,
      limit: nat, element: Bytes, left: bool, now: nat) returns (version: nat)
    requires Stands(zn, kv, key, v, clock, drift, limit) && key != [] && clock < now < limit <= Meta.U128_LIMIT
    requires drift + 1 < U32_LIMIT && (v.Some? ==> v.value.ListValue?)
    ensures version <= now
    ensures var ran, means := Exec(kv, key, PushCommand(element, left), now),
        Respond(v, PushCommand(element, left), now);
            && ran.reply == means.reply && Frame(kv, ran.kv, key, version)
            && Stands(zn, ran.kv, key, means.value, now, drift + 1, limit)
  {
    hide Stands, Meta.Encode, Meta.Decode, Meta.ListKey, FindMeta, Frame, NoLater, Window, Push, Contents,
      Keyspace.Stored;
    WindowBefore(zn, kv, key, v, clock, drift, limit, now);
    StandsParts(zn, kv, key, v, clock, drift, limit);
    var m, l := FindMeta(kv, key, Meta.ListType, now).value, if v.Some? then v.value.list else [];
    version := m.version;
    var m' := PushIs(kv, key, m, l, drift, element, left, now);
    var l', kv' := if left then [element] + l else l + [element], Push(kv, key, element, left, now).kv;
    LaterStill(kv, kv', key, version, clock, now, limit);
    ListContents(zn, kv', key, m', l', drift + 1);
    NewStands(zn, kv', key, ListValue(l'), m', now, drift + 1, limit);
  }

  /** A push that finds its metadata. */
  lemma {:induction false} PushIs(kv: Store, key: Bytes, m: Meta.Metadata, l: seq<Bytes>, drift: nat, element: Bytes,
      left: bool, now: nat) returns (m': Meta.Metadata)
    requires FindMeta(kv, key, Meta.ListType, now) == Ok(m) && Window(kv, key, m, l, drift) && drift + 1 < U32_LIMIT
    ensures var a, l' := Push(kv, key, element, left, now), if left then [element] + l else l + [element];
            && a.reply == Length(|l'|) && m'.version == m.version && Frame(kv, a.kv, key, m.version)
            && Window(a.kv, key, m', l', drift + 1) && Keyspace.Stored(a.kv, key, m')
  {
    hide Meta.Encode, Meta.ListKey, FindMeta, Frame, SlotIs, Meta.Fits, Keyspace.Stored;
    assert |l| == m.size;
    WidenWindow(kv, key, m, l, drift, element, left);
    hide Window;
    var index := if left then m.head - 1 else m.tail;
    m' := if left then m.(size := m.size + 1, head := m.head - 1) else m.(size := m.size + 1, tail := m.tail + 1);
    assert m.size + 1 < U32_LIMIT by { WindowSmall(kv, key, m, l, drift); }
    SlotFrame(kv, key, m.version, index, Meta.Encode(m'), element);
    var l' := if left then [element] + l else l + [element];
    WindowStored(Push(kv, key, element, left, now).kv, key, m', l', drift + 1);
  }

  lemma {:induction false} WindowSmall(kv: Store, key: Bytes, m: Meta.Metadata, l: seq<Bytes>, drift: nat)
    requires Window(kv, key, m, l, drift)
    ensures m.size == |l| <= drift
  {
  }

  lemma {:induction false} PopStep(zn: Names, kv: Store, key: Bytes, v: Option<Value>, clock: nat, drift: nat,
      limit: nat, left: bool, now: nat) returns (version: nat)
    requires Stands(zn, kv, key, v, clock, drift, limit) && key != [] && clock < now < limit <= Meta.U128_LIMIT
    requires drift + 1 < U32_LIMIT && (v.Some? ==> v.value.ListValue?)
    ensures version <= now
    ensures var ran, means := Exec(kv, key, PopCommand(left), now), Respond(v, PopCommand(left), now);
            && ran.reply == means.reply && Frame(kv, ran.kv, key, version)
            && Stands(zn, ran.kv, key, means.value, now, drift + 1, limit)
  {
    hide Stands, Meta.Encode, Meta.Decode, Meta.ListKey, FindMeta, Frame, NoLater, Window, Pop, Contents,
      Keyspace.Stored;
    WindowBefore(zn, kv, key, v, clock, drift, limit, now);
    StandsParts(zn, kv, key, v, clock, drift, limit);
    var m, l := FindMeta(kv, key, Meta.ListType, now).value, if v.Some? then v.value.list else [];
    version := m.version;
    if l == [] {
      NoPop(kv, key, m, drift, left, now);
      SlotFrame(kv, key, version, 0, [], []);
      StandsGrown(zn, kv, key, v, clock, drift, limit, now);
    } else {
      var m' := PopIs(kv, key, m, l, drift, left, now);
      var l', kv' := if left then l[1..] else l[..|l| - 1], Pop(kv, key, left, now).kv;
      LaterStill(kv, kv', key, version, clock, now, limit);
      ListContents(zn, kv', key, m', l', drift + 1);
      NewStands(zn, kv', key, ListValue(l'), m', now, drift + 1, limit);
    }
  }

  lemma {:induction false} NoPop(kv: Store, key: Bytes, m: Meta.Metadata, drift: nat, left: bool, now: nat)
    requires FindMeta(kv, key, Meta.ListType, now) == Ok(m) && Window(kv, key, m, [], drift)
    ensures Pop(kv, key, left, now) == Answer(kv, Element(None))
  {
    hide FindMeta, Meta.Encode, Meta.ListKey;
  }

  /** A pop that finds its metadata and an element. */
  lemma {:induction false} PopIs(kv: Store, key: Bytes, m: Meta.Metadata, l: seq<Bytes>, drift: nat, left: bool,
      now: nat)
      returns (m': Meta.Metadata)
    requires FindMeta(kv, key, Meta.ListType, now) == Ok(m) && Window(kv, key, m, l, drift) && drift + 1 < U32_LIMIT
    requires l != []
    ensures var a, l' := Pop(kv, key, left, now), if left then l[1..] else l[..|l| - 1];
            && a.reply == Element(Some(if left then l[0] else l[|l| - 1])) && m'.version == m.version
            && Frame(kv, a.kv, key, m.version)
            && Window(a.kv, key, m', l', drift + 1) && Keyspace.Stored(a.kv, key, m')
  {
    hide Meta.Encode, Meta.ListKey, FindMeta, Frame, Meta.Fits, Keyspace.Stored;
    NarrowWindow(kv, key, m, l, drift, left);
    hide Window;
    m' := if left then m.(size := m.size - 1, head := m.head + 1) else m.(size := m.size - 1, tail := m.tail - 1);
    SlotFrame(kv, key, m.version, 0, Meta.Encode(m'), []);
    WindowStored(Pop(kv, key, left, now).kv, key, m', if left then l[1..] else l[..|l| - 1], drift + 1);
  }

  lemma {:induction false} ListContents(zn: Names, kv: Store, key: Bytes, m: Meta.Metadata, l: seq<Bytes>, drift: nat)
    requires Window(kv, key, m, l, drift)
    ensures Contents(zn, kv, key, m, ListValue(l), drift)
  {
  }

  // ---- One command ----

  /** Commands of a kind know their kind, sorted sets use the names agreed on, and times to live end in time. */
  predicate CommandOk(zn: Names, c: Command, now: nat)
  {
    match c
    case TableCommand(kind, op) => ForKind(kind, op)
    case ZSetCommand(op) => ZSets.OpOk(zn, op)
    case SetCommand(_, ttl) => now + ttl < Meta.U128_LIMIT
    case _ => true
  }

  /** The type of structure a command is about. */
  function About(c: Command): Option<Meta.DataType>
  {
    match c
    case TableCommand(kind, _) => Some(Tables.TypeFor(kind))
    case PushCommand(_, _) => Some(Meta.ListType)
    case PopCommand(_) => Some(Meta.ListType)
    case ZSetCommand(_) => Some(Meta.ZSetType)
    case _ => None
  }

  /** On a value of another kind a structure command changes nothing and says so. */
  lemma {:induction false} WrongKind(zn: Names, kv: Store, key: Bytes, v: Value, clock: nat, drift: nat, limit: nat,
      c: Command, now: nat)
    requires Stands(zn, kv, key, Some(v), clock, drift, limit) && key != [] && CommandOk(zn, c, now)
    requires About(c).Some? && TypeFor(v) != About(c).value
    ensures Exec(kv, key, c, now) == Ran(kv, Respond(Some(v), c, now).reply)
    ensures Respond(Some(v), c, now).value == Some(v)
  {
    Finds(zn, kv, key, Some(v), clock, drift, limit, About(c).value, now);
    hide Stands, FindMeta, Meta.Encode, Meta.HashKey, Meta.SetKey, Meta.ListKey, Meta.MemberKey, Meta.ScoreKey;
  }

  /** Strings, types and deletions. */
  lemma {:induction false} PlainStep(zn: Names, kv: Store, key: Bytes, v: Option<Value>, clock: nat, drift: nat,
      limit: nat, c: Command, now: nat)
    requires Stands(zn, kv, key, v, clock, drift, limit) && key != [] && clock < now < limit <= Meta.U128_LIMIT
    requires About(c).None? && CommandOk(zn, c, now)
    ensures var ran, means := Exec(kv, key, c, now), Respond(v, c, now);
            && ran.reply == means.reply && Frame(kv, ran.kv, key, 0)
            && Stands(zn, ran.kv, key, means.value, now, drift + 1, limit)
  {
    StandsParts(zn, kv, key, v, clock, drift, limit);
    StandsGrown(zn, kv, key, v, clock, drift, limit, now);
    PlainFinds(zn, kv, key, v, clock, drift, limit, now);
    hide Stands, Text, Frame, NoLater, GetText, KeyType, SetText, Delete, Dated;
    SlotFrame(kv, key, 0, 0, [], []);
    match c {
    case SetCommand(payload, ttl) =>
      TextSet(zn, kv, key, v, clock, drift, limit, payload, ttl, now);
    case DelCommand =>
      NameDeleted(zn, kv, key, clock, drift, limit, now);
    case _ =>
    }
  }

  lemma {:induction false} TextSet(zn: Names, kv: Store, key: Bytes, v: Option<Value>, clock: nat, drift: nat,
      limit: nat, payload: Bytes, ttl: nat, now: nat)
    requires Stands(zn, kv, key, v, clock, drift, limit) && key != [] && clock < now < limit <= Meta.U128_LIMIT
    requires now + ttl < Meta.U128_LIMIT
    ensures var ran, means := SetText(kv, key, payload, ttl, now), Respond(v, SetCommand(payload, ttl), now);
            && ran.reply == means.reply && Frame(kv, ran.kv, key, 0)
            && Stands(zn, ran.kv, key, means.value, now, drift + 1, limit)
  {
    StandsParts(zn, kv, key, v, clock, drift, limit);
    StandsGrown(zn, kv, key, v, clock, drift, limit, now);
    hide Stands, Text, Frame, NoLater;
    var bs := Text(payload, if ttl == 0 then 0 else now + ttl);
    SlotFrame(kv, key, 0, 0, bs, []);
    LaterStill(kv, kv[key := bs], key, 0, clock, now, limit);
    TextStands(zn, kv[key := bs], key, payload, if ttl == 0 then None else Some(now + ttl), now, drift + 1, limit);
  }

  lemma {:induction false} NameDeleted(zn: Names, kv: Store, key: Bytes, clock: nat, drift: nat, limit: nat, now: nat)
    requires NoLater(kv, key, clock, limit) && key != [] && clock < now < limit <= Meta.U128_LIMIT
    ensures Delete(kv, key) == Ran(kv - {key}, DoneReply(Ok(true))) && Frame(kv, kv - {key}, key, 0)
    ensures Stands(zn, kv - {key}, key, None, now, drift + 1, limit)
  {
    hide Stands, Frame, NoLater;
    SlotFrame(kv, key, 0, 0, [], []);
    LaterStill(kv, kv - {key}, key, 0, clock, now, limit);
    NoneStands(zn, kv - {key}, key, now, drift + 1, limit);
  }

  /** What `get` and `key_type` find. */
  lemma {:induction false} PlainFinds(zn: Names, kv: Store, key: Bytes, v: Option<Value>, clock: nat, drift: nat,
      limit: nat, now: nat)
    requires Stands(zn, kv, key, v, clock, drift, limit) && key != []
    ensures TextReply(GetText(kv, key, now)) == Respond(v, GetCommand, now).reply
    ensures TypeReply(KeyType(kv, key)) == Respond(v, TypeCommand, now).reply
  {
    hide Text, Meta.Encode, Meta.Decode, NoLater, Contents, Stands, GetText, KeyType;
    if v.None? {
      StandsParts(zn, kv, key, v, clock, drift, limit);
      PlainMissing(kv, key, now);
    } else if v.value.TextValue? {
      StandsText(zn, kv, key, v.value, clock, drift, limit);
      PlainText(kv, key, v.value.payload, Stamp(v.value.until), now);
    } else {
      StandsStored(zn, kv, key, v.value, clock, drift, limit);
      PlainStructure(kv, key, MetaOf(kv, key), now);
    }
  }

  lemma {:induction false} StandsText(zn: Names, kv: Store, key: Bytes, v: Value, clock: nat, drift: nat, limit: nat)
    requires Stands(zn, kv, key, Some(v), clock, drift, limit) && v.TextValue?
    ensures key in kv && Dated(v.until) && kv[key] == Text(v.payload, Stamp(v.until))
  {
    hide NoLater, Contents, Meta.Encode, Text;
  }

  lemma {:induction false} PlainMissing(kv: Store, key: Bytes, now: nat)
    requires key != [] && key !in kv
    ensures GetText(kv, key, now) == Err(KeyNotFound) && KeyType(kv, key) == Err(KeyNotFound)
  {
  }

  lemma {:induction false} PlainText(kv: Store, key: Bytes, payload: Bytes, expire: nat, now: nat)
    requires key != [] && key in kv && kv[key] == Text(payload, expire) && expire < Meta.U128_LIMIT
    ensures GetText(kv, key, now) == if 0 < expire <= now then Ok(None) else Ok(Some(payload))
    ensures KeyType(kv, key) == Ok(Meta.StringType)
  {
    TextForm(payload, expire);
    hide Text, FromBigEndian, Meta.TypeOf;
  }

  /** The type of a name is the first byte of what it holds, whatever follows it. */
  lemma {:induction false} TypeIsFirstByte(kv: Store, key: Bytes, b: byte, rest: Bytes)
    requires key != []
    ensures var after := kv[key := [b] + rest];
            KeyType(after, key) ==
              if b == 0 then Ok(Meta.StringType) else if b == 1 then Ok(Meta.HashType)
              else if b == 2 then Ok(Meta.SetType) else if b == 3 then Ok(Meta.ListType)
              else if b == 4 then Ok(Meta.ZSetType) else Err(Corrupt)
  {
  }

  /**
   * A text set at `now` with a time to live is there until that time has passed and not from then on; without one it
   * stays, whatever the name held before. No other name notices.
   */
  lemma {:induction false} SetThenGet(kv: Store, key: Bytes, payload: Bytes, ttl: nat, now: nat, later: nat)
    requires key != [] && payload != [] && now + ttl < Meta.U128_LIMIT && now <= later
    ensures var after := SetText(kv, key, payload, ttl, now);
            && after.reply == DoneReply(Ok(true)) && KeyType(after.kv, key) == Ok(Meta.StringType)
            && GetText(after.kv, key, later) == (if ttl == 0 || later < now + ttl then Ok(Some(payload)) else Ok(None))
            && (forall other :: other != key ==> GetText(after.kv, other, later) == GetText(kv, other, later))
    ensures SetText(kv, key, [], ttl, now) == Ran(kv, DoneReply(Ok(true)))
  {
    var expire := if ttl == 0 then 0 else now + ttl;
    PlainText(kv[key := Text(payload, expire)], key, payload, expire, later);
    hide Text, FromBigEndian, Meta.TypeOf;
  }

  lemma {:induction false} PlainStructure(kv: Store, key: Bytes, m: Meta.Metadata, now: nat)
    requires key != [] && Keyspace.Stored(kv, key, m) && !m.dtype.StringType?
    ensures GetText(kv, key, now) == Err(WrongType) && KeyType(kv, key) == Ok(m.dtype)
  {
    Meta.EncodedType(m);
    hide Meta.Encode, FromBigEndian, Meta.TypeOf;
  }

  lemma {:induction false} TextStands(zn: Names, kv: Store, key: Bytes, payload: Bytes, until: Option<nat>, now: nat,
      drift: nat, limit: nat)
    requires NoLater(kv, key, now, limit) && key in kv && kv[key] == Text(payload, Stamp(until)) && Dated(until)
    ensures Stands(zn, kv, key, Some(TextValue(payload, until)), now, drift, limit)
  {
    hide NoLater, Text;
  }

  lemma {:induction false} NoneStands(zn: Names, kv: Store, key: Bytes, now: nat, drift: nat, limit: nat)
    requires NoLater(kv, key, now, limit) && key !in kv
    ensures Stands(zn, kv, key, None, now, drift, limit)
  {
    hide NoLater;
  }

  lemma {:induction false} NameStep(zn: Names, kv: Store, key: Bytes, v: Option<Value>, clock: nat, drift: nat,
      limit: nat, c: Command, now: nat) returns (version: nat)
    requires Stands(zn, kv, key, v, clock, drift, limit) && key != [] && clock < now < limit <= Meta.U128_LIMIT
    requires drift + 1 < U32_LIMIT && Legible(zn) && CommandOk(zn, c, now)
    ensures version <= now
    ensures var ran, means := Exec(kv, key, c, now), Respond(v, c, now);
            && ran.reply == means.reply && Frame(kv, ran.kv, key, version)
            && Stands(zn, ran.kv, key, means.value, now, drift + 1, limit)
  {
    hide Stands, Exec, Respond, Legible, Frame;
    version := 0;
    if About(c).None? {
      PlainStep(zn, kv, key, v, clock, drift, limit, c, now);
    } else if v.Some? && TypeFor(v.value) != About(c).value {
      WrongKind(zn, kv, key, v.value, clock, drift, limit, c, now);
      StandsGrown(zn, kv, key, v, clock, drift, limit, now);
      SlotFrame(kv, key, 0, 0, [], []);
    } else {
      match c {
      case TableCommand(kind, op) => version := TableStep(zn, kv, key, v, clock, drift, limit, kind, op, now);
      case PushCommand(element, left) => version := PushStep(zn, kv, key, v, clock, drift, limit, element, left, now);
      case PopCommand(left) => version := PopStep(zn, kv, key, v, clock, drift, limit, left, now);
      case ZSetCommand(op) => version := ScoresStep(zn, kv, key, v, clock, drift, limit, op, now);
      }
    }
  }

  // ---- The other names ----

  lemma {:induction false} WindowStays(kv: Store, kv': Store, key: Bytes, m: Meta.Metadata, l: seq<Bytes>, drift: nat,
      limit: nat)
    requires SameFor(kv, kv', key, limit) && Window(kv, key, m, l, drift) && m.version < limit
    ensures Window(kv', key, m, l, drift)
  {
    hide Meta.ListKey, Meta.Inner, BigEndian;
    forall i | 0 <= i < |l| ensures SlotIs(kv', key, m.version, m.head + i, l[i]) {
      Meta.InnerForms(key, m.version, [], [], m.head + i);
      assert SlotIs(kv, key, m.version, m.head + i, l[i]);
      assert SameAt(kv, kv', Meta.ListKey(key, m.version, m.head + i));
    }
  }

  lemma {:induction false} ContentsStay(zn: Names, kv: Store, kv': Store, key: Bytes, m: Meta.Metadata, v: Value,
      drift: nat, limit: nat)
    requires SameFor(kv, kv', key, limit) && Contents(zn, kv, key, m, v, drift) && m.version < limit
    ensures Contents(zn, kv', key, m, v, drift)
  {
    hide Meta.Encode, Tables.Entries, ZSets.Entries, Window, Meta.Inner;
    match v {
    case TableValue(kind, h) => Tables.EntriesStay(kind, kv, kv', key, m.version, h, limit);
    case ZSetValue(z) => ZSets.EntriesStay(zn, kv, kv', key, m.version, z, limit);
    case ListValue(l) => WindowStays(kv, kv', key, m, l, drift, limit);
    case TextValue(_, _) =>
    }
  }

  /** A name whose own keys are untouched stands for what it stood for. */
  lemma {:induction false} OtherStands(zn: Names, kv: Store, kv': Store, key: Bytes, v: Option<Value>, clock: nat,
      drift: nat, limit: nat)
    requires SameFor(kv, kv', key, limit) && Stands(zn, kv, key, v, clock, drift, limit) && clock < limit
    ensures Stands(zn, kv', key, v, clock, drift, limit)
  {
    hide Meta.Encode, Contents, Text, Meta.Inner;
    SameForNoLater(kv, kv', key, clock, limit);
    assert SameAt(kv, kv', key);
    if v.Some? && !v.value.TextValue? {
      var m: Meta.Metadata :| m.version <= clock && Keyspace.Stored(kv, key, m)
        && Contents(zn, kv, key, m, v.value, drift);
      ContentsStay(zn, kv, kv', key, m, v.value, drift, limit);
      assert Keyspace.Stored(kv', key, m);
    }
  }

  // ---- Runs ----

  /** A command on a name, and the time at which it runs. */
  datatype Timed = Timed(name: Bytes, command: Command, now: nat)

  ghost predicate AllStand(names: set<Bytes>, zn: Names, kv: Store, values: Values, clock: nat, drift: nat, limit: nat)
  {
    forall k :: k in names ==> Stands(zn, kv, k, ValueOf(values, k), clock, drift, limit)
  }

  function Updated(values: Values, key: Bytes, v: Option<Value>): Values
  {
    if v.Some? then values[key := v.value] else values - {key}
  }

  /** One command at a time later than every one before: its answer, its name, and all the other names. */
  lemma {:induction false} StepRefines(names: set<Bytes>, zn: Names, kv: Store, values: Values, clock: nat, drift: nat,
      limit: nat, op: Timed)
    requires Apart(names, limit) && Legible(zn) && limit <= Meta.U128_LIMIT
    requires AllStand(names, zn, kv, values, clock, drift, limit) && drift + 1 < U32_LIMIT
    requires op.name in names && op.name != [] && clock < op.now < limit && CommandOk(zn, op.command, op.now)
    ensures var ran, means := Exec(kv, op.name, op.command, op.now),
        Respond(ValueOf(values, op.name), op.command, op.now);
            && ran.reply == means.reply
            && AllStand(names, zn, ran.kv, Updated(values, op.name, means.value), op.now, drift + 1, limit)
  {
    hide Stands, Exec, Respond, Legible, Frame, Apart, CommandOk;
    var key := op.name;
    var version := NameStep(zn, kv, key, ValueOf(values, key), clock, drift, limit, op.command, op.now);
    var ran, means := Exec(kv, key, op.command, op.now), Respond(ValueOf(values, key), op.command, op.now);
    var values' := Updated(values, key, means.value);
    forall k | k in names ensures Stands(zn, ran.kv, k, ValueOf(values', k), op.now, drift + 1, limit) {
      if k != key {
        FrameOthers(names, limit, kv, ran.kv, key, version, k);
        OtherStands(zn, kv, ran.kv, k, ValueOf(values, k), clock, drift, limit);
        StandsGrown(zn, ran.kv, k, ValueOf(values, k), clock, drift, limit, op.now);
      }
    }
  }

  /** Commands on the names, each later than the one before, before the limit. */
  ghost predicate Ticking(names: set<Bytes>, zn: Names, ops: seq<Timed>, limit: nat)
  {
    && (forall i :: 0 <= i < |ops| ==>
          && ops[i].name in names && ops[i].name != [] && 0 < ops[i].now < limit
          && CommandOk(zn, ops[i].command, ops[i].now))
    && (forall i, j :: 0 <= i < j < |ops| ==> ops[i].now < ops[j].now)
  }

  function RunKv(ops: seq<Timed>): Store
  {
    if ops == [] then map[] else
      var op := ops[|ops| - 1];
      Exec(RunKv(ops[..|ops| - 1]), op.name, op.command, op.now).kv
  }

  function RunValues(ops: seq<Timed>): Values
  {
    if ops == [] then map[] else
      var op, before := ops[|ops| - 1], RunValues(ops[..|ops| - 1]);
      Updated(before, op.name, Respond(ValueOf(before, op.name), op.command, op.now).value)
  }

  function Clock(ops: seq<Timed>): nat
  {
    if ops == [] then 0 else ops[|ops| - 1].now
  }

  lemma {:induction false} TickingPrefix(names: set<Bytes>, zn: Names, ops: seq<Timed>, limit: nat, n: nat)
    requires Ticking(names, zn, ops, limit) && n < |ops|
    ensures Ticking(names, zn, ops[..n], limit) && Clock(ops[..n]) < ops[n].now < limit
    ensures ops[n].name in names && ops[n].name != [] && CommandOk(zn, ops[n].command, ops[n].now)
  {
    hide CommandOk;
  }

  lemma {:induction false} RunStands(names: set<Bytes>, zn: Names, ops: seq<Timed>, limit: nat)
    requires Apart(names, limit) && Legible(zn) && limit <= Meta.U128_LIMIT
    requires Ticking(names, zn, ops, limit) && |ops| < U32_LIMIT
    ensures AllStand(names, zn, RunKv(ops), RunValues(ops), Clock(ops), |ops|, limit)
  {
    hide Apart, Legible, AllStand, Exec, Respond, Ticking, CommandOk;
    if ops == [] {
      NothingStands(names, zn, limit);
    } else {
      var n := |ops| - 1;
      TickingPrefix(names, zn, ops, limit, n);
      RunStands(names, zn, ops[..n], limit);
      StepRefines(names, zn, RunKv(ops[..n]), RunValues(ops[..n]), Clock(ops[..n]), n, limit, ops[n]);
    }
  }

  lemma {:induction false} NothingStands(names: set<Bytes>, zn: Names, limit: nat)
    ensures AllStand(names, zn, map[], map[], 0, 0, limit)
  {
  }

  /**
   * Over every run of string, hash, set, list and sorted set commands, of type queries and deletions, on any number
   * of names whose keys never meet: each command answers what its name's value answers, and says so when the value is
   * of another kind. Nothing of a structure that was deleted or replaced shows in a later one of the same name, of
   * whatever kind.
   */
  lemma {:induction false} RunRefines(names: set<Bytes>, zn: Names, ops: seq<Timed>, limit: nat, n: nat)
    requires Apart(names, limit) && Legible(zn) && limit <= Meta.U128_LIMIT
    requires Ticking(names, zn, ops, limit) && |ops| < U32_LIMIT && n < |ops|
    ensures Exec(RunKv(ops[..n]), ops[n].name, ops[n].command, ops[n].now).reply ==
            Respond(ValueOf(RunValues(ops[..n]), ops[n].name), ops[n].command, ops[n].now).reply
  {
    hide Apart, Legible, AllStand, Exec, Respond, Ticking, CommandOk;
    TickingPrefix(names, zn, ops, limit, n);
    RunStands(names, zn, ops[..n], limit);
    StepRefines(names, zn, RunKv(ops[..n]), RunValues(ops[..n]), Clock(ops[..n]), n, limit, ops[n]);
  }

  function SizeOf(v: Value): nat
  {
    match v
    case TableValue(_, h) => |h|
    case ListValue(l) => |l|
    case ZSetValue(z) => |z|
    case TextValue(_, _) => 0
  }

  /** After every run the size in the metadata of every structure is the number of its fields, members or elements. */
  lemma {:induction false} SizeIsCount(names: set<Bytes>, zn: Names, ops: seq<Timed>, limit: nat, key: Bytes)
    requires Apart(names, limit) && Legible(zn) && limit <= Meta.U128_LIMIT
    requires Ticking(names, zn, ops, limit) && |ops| < U32_LIMIT && key in names && key != []
    ensures key in RunKv(ops) <==> key in RunValues(ops)
    ensures key in RunKv(ops) && !RunValues(ops)[key].TextValue? ==>
      var kv, v := RunKv(ops), RunValues(ops)[key];
      && Meta.Decode(kv[key]).Some? && Meta.Decode(kv[key]).value.dtype == TypeFor(v)
      && Meta.Decode(kv[key]).value.size == SizeOf(v)
  {
    hide Apart, Legible, Exec, Respond, Ticking, RunKv, RunValues, Meta.Encode, Meta.Decode, Meta.Fits, NoLater,
      Tables.Entries, ZSets.Entries;
    RunStands(names, zn, ops, limit);
    var kv, values := RunKv(ops), RunValues(ops);
    assert Stands(zn, kv, key, ValueOf(values, key), Clock(ops), |ops|, limit);
    if key in values && !values[key].TextValue? {
      StandsStored(zn, kv, key, values[key], Clock(ops), |ops|, limit);
    }
  }

  /** After every run, in every hash and set: exactly the fields or members have their key, with their value. */
  lemma {:induction false} FieldsMatch(names: set<Bytes>, zn: Names, ops: seq<Timed>, limit: nat, key: Bytes, x: Bytes)
    requires Apart(names, limit) && Legible(zn) && limit <= Meta.U128_LIMIT
    requires Ticking(names, zn, ops, limit) && |ops| < U32_LIMIT && key in names && key != []
    requires key in RunValues(ops) && RunValues(ops)[key].TableValue?
    ensures key in RunKv(ops) && Meta.Decode(RunKv(ops)[key]).Some?
    ensures var kv, v := RunKv(ops), RunValues(ops)[key];
            var slot := InnerKey(v.kind, key, Meta.Decode(kv[key]).value.version, x);
            (slot in kv <==> x in v.table) && (slot in kv ==> kv[slot] == v.table[x])
  {
    hide Apart, Legible, Exec, Respond, Ticking, RunKv, RunValues, Meta.Encode, Meta.Decode, Meta.Fits, NoLater,
      InnerKey;
    RunStands(names, zn, ops, limit);
    var kv, values := RunKv(ops), RunValues(ops);
    assert Stands(zn, kv, key, ValueOf(values, key), Clock(ops), |ops|, limit);
    StandsStored(zn, kv, key, values[key], Clock(ops), |ops|, limit);
  }

  /**
   * After every run, in every sorted set: each member has its member key and exactly one score key, under its score,
   * and no other score key of the version is there.
   */
  lemma {:induction false} ScoresMatchMembers(names: set<Bytes>, zn: Names, ops: seq<Timed>, limit: nat, key: Bytes)
    requires Apart(names, limit) && Legible(zn) && limit <= Meta.U128_LIMIT
    requires Ticking(names, zn, ops, limit) && |ops| < U32_LIMIT && key in names && key != []
    requires key in RunValues(ops) && RunValues(ops)[key].ZSetValue?
    ensures key in RunKv(ops) && Meta.Decode(RunKv(ops)[key]).Some?
    ensures var kv, z := RunKv(ops), RunValues(ops)[key].scores;
            var version := Meta.Decode(kv[key]).value.version;
            && (forall a :: a in zn.members ==> (a in z <==> Meta.MemberKey(key, version, a) in kv))
            && (forall s, a :: s in zn.scores && a in zn.members ==>
                  (Meta.ScoreKey(key, version, s, a) in kv <==>
                   Meta.MemberKey(key, version, a) in kv && kv[Meta.MemberKey(key, version, a)] == s))
  {
    hide Apart, Legible, Exec, Respond, Ticking, RunKv, RunValues, Meta.Encode, Meta.Decode, Meta.Fits, NoLater,
      Meta.MemberKey, Meta.ScoreKey;
    RunStands(names, zn, ops, limit);
    var kv, values := RunKv(ops), RunValues(ops);
    assert Stands(zn, kv, key, ValueOf(values, key), Clock(ops), |ops|, limit);
    StandsStored(zn, kv, key, values[key], Clock(ops), |ops|, limit);
    var version, z := MetaOf(kv, key).version, values[key].scores;
    forall a | a in zn.members ensures MemberIs(kv, key, version, a, if a in z then Some(z[a]) else None) {
    }
  }

  /**
   * Names that meet are where it fails, and exactly then: after one field of one hash was set, another name that was
   * never used has a type if and only if it is the internal key of that field.
   */
  lemma {:induction false} PhantomName(key: Bytes, field: Bytes, value: Bytes, now: nat, other: Bytes)
    requires key != [] && other != [] && other != key && now < Meta.U128_LIMIT
    ensures KeyType(Tables.HSet(map[], key, field, value, now).kv, other) != Err(KeyNotFound) <==>
            other == Meta.HashKey(key, now, field)
  {
    hide Meta.HashKey, Meta.Encode;
  }
}
