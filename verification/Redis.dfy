/** The Redis commands as they run: look the metadata up, change it locally, hand a batch to the engine. */
module Redis {
  import opened Wire
  import Meta
  import opened RedisList
  import opened RedisTable
  import opened RedisZSet
  import RedisRun

  /** What a batch holds: a value to put, or None to delete. */
  type Batch = map<Bytes, Option<Bytes>>

  function Apply(kv: Store, batch: Batch): Store
  {
    map k | k in kv.Keys + batch.Keys && (k in batch ==> batch[k].Some?) :: if k in batch then batch[k].value else kv[k]
  }

  lemma {:induction false} ApplyOne(kv: Store, a: Bytes, x: Option<Bytes>)
    ensures Apply(kv, map[a := x]) == if x.Some? then kv[a := x.value] else kv - {a}
  {
  }

  lemma {:induction false} ApplyTwo(kv: Store, a: Bytes, x: Option<Bytes>, b: Bytes, y: Option<Bytes>)
    ensures Apply(kv, map[a := x][b := y]) == Apply(Apply(kv, map[a := x]), map[b := y])
  {
  }

  lemma {:induction false} ApplyThree(kv: Store, a: Bytes, x: Option<Bytes>, b: Bytes, y: Option<Bytes>, c: Bytes,
      z: Option<Bytes>)
    ensures Apply(kv, map[a := x][b := y][c := z]) == Apply(Apply(kv, map[a := x][b := y]), map[c := z])
  {
  }

  class RedisDataStructure {
    var kv: Store

    constructor ()
      ensures kv == map[]
    {
      kv := map[];
    }

    method Get(key: Bytes) returns (r: Result<Bytes, RedisError>)
      ensures r == if key == [] then Err(KeyIsEmpty) else if key in kv then Ok(kv[key]) else Err(KeyNotFound)
    {
      if key == [] {
        return Err(KeyIsEmpty);
      }
      return if key in kv then Ok(kv[key]) else Err(KeyNotFound);
    }

    /** `commit` of a write batch. */
    method Commit(batch: Batch)
      modifies this
      ensures kv == Apply(old(kv), batch)
    {
      kv := Apply(kv, batch);
    }

    /** `find_metadata`. */
    method FindMetadata(key: Bytes, dtype: Meta.DataType, now: nat) returns (r: Result<Meta.Metadata, RedisError>)
      ensures r == FindMeta(kv, key, dtype, now)
    {
      var stored := true;
      var meta := NewMeta(dtype, now);
      var found := Get(key);
      if found.Err? {
        if found.error != KeyNotFound {
          return Err(found.error);
        }
        stored := false;
      } else {
        if found.value == [] || Meta.TypeOf(found.value[0]).None? {
          return Err(Corrupt);
        }
        if Meta.TypeOf(found.value[0]).value != dtype {
          return Err(WrongType);
        }
        var decoded := Meta.Decode(found.value);
        if decoded.None? {
          return Err(Corrupt);
        }
        meta := decoded.value;
        if meta.expire != 0 && meta.expire <= now {
          stored := false;
        }
      }
      if !stored {
        meta := Meta.Metadata(dtype, 0, now, 0, 0, 0);
        if dtype.ListType? {
          meta := meta.(head := INITIAL_LIST_MARK, tail := INITIAL_LIST_MARK);
        }
      }
      return Ok(meta);
    }

    /** `push_inner`. */
    method PushInner(key: Bytes, element: Bytes, isLeft: bool, now: nat) returns (r: Reply)
      modifies this
      ensures Answer(kv, r) == Push(old(kv), key, element, isLeft, now)
    {
      hide Meta.Encode, Meta.ListKey, FindMeta, Apply;
      var found := FindMetadata(key, Meta.ListType, now);
      if found.Err? {
        return Failed(found.error);
      }
      var meta := found.value;
      if (if isLeft then meta.head == 0 else meta.tail + 1 >= U64_LIMIT) || meta.size + 1 >= U32_LIMIT {
        return Failed(Corrupt);
      }
      var slot := Meta.ListKey(key, meta.version, if isLeft then meta.head - 1 else meta.tail);
      meta := meta.(size := meta.size + 1);
      if isLeft {
        meta := meta.(head := meta.head - 1);
      } else {
        meta := meta.(tail := meta.tail + 1);
      }
      var batch: Batch := map[key := Some(Meta.Encode(meta))];
      batch := batch[slot := Some(element)];
      ApplyTwo(kv, key, Some(Meta.Encode(meta)), slot, Some(element));
      ApplyOne(kv, key, Some(Meta.Encode(meta)));
      ApplyOne(kv[key := Meta.Encode(meta)], slot, Some(element));
      Commit(batch);
      return Length(meta.size);
    }

    /** `pop_inner`. */
    method PopInner(key: Bytes, isLeft: bool, now: nat) returns (r: Reply)
      modifies this
      ensures Answer(kv, r) == Pop(old(kv), key, isLeft, now)
    {
      hide Meta.Encode, FindMeta;
      var found := FindMetadata(key, Meta.ListType, now);
      if found.Err? {
        return Failed(found.error);
      }
      var meta := found.value;
      if meta.size == 0 {
        return Element(None);
      }
      if !isLeft && meta.tail == 0 {
        return Failed(Corrupt);
      }
      var slot := Meta.ListKey(key, meta.version, if isLeft then meta.head else meta.tail - 1);
      var element := Get(slot);
      SlotNotEmpty(key, meta.version, if isLeft then meta.head else meta.tail - 1);
      if element.Err? {
        return Failed(element.error);
      }
      meta := meta.(size := meta.size - 1);
      if isLeft {
        meta := meta.(head := meta.head + 1);
      } else {
        meta := meta.(tail := meta.tail - 1);
      }
      kv := kv[key := Meta.Encode(meta)];
      return Element(Some(element.value));
    }

    /** `hset`. */
    method HSet(key: Bytes, field: Bytes, value: Bytes, now: nat) returns (r: Said)
      modifies this
      ensures Done(kv, r) == RedisTable.HSet(old(kv), key, field, value, now)
    {
      hide Meta.Encode, FindMeta, Apply;
      var found := FindMetadata(key, Meta.HashType, now);
      if found.Err? {
        return Refused(found.error);
      }
      var meta := found.value;
      var hk := Meta.HashKey(key, meta.version, field);
      InnerNotEmpty(key, meta.version, field, []);
      var entry := Get(hk);
      var missing := entry.Err? && entry.error == KeyNotFound;
      var batch: Batch := map[];
      ApplyOne(kv, hk, Some(value));
      if missing {
        if meta.size + 1 >= U32_LIMIT {
          return Refused(Corrupt);
        }
        meta := meta.(size := meta.size + 1);
        batch := batch[key := Some(Meta.Encode(meta))];
        ApplyTwo(kv, key, Some(Meta.Encode(meta)), hk, Some(value));
        ApplyOne(kv, key, Some(Meta.Encode(meta)));
        ApplyOne(kv[key := Meta.Encode(meta)], hk, Some(value));
      }
      batch := batch[hk := Some(value)];
      Commit(batch);
      return Flag(missing);
    }

    /** `hget`. */
    method HGet(key: Bytes, field: Bytes, now: nat) returns (r: Said)
      ensures Done(kv, r) == RedisTable.HGet(kv, key, field, now)
    {
      hide FindMeta;
      var found := FindMetadata(key, Meta.HashType, now);
      if found.Err? {
        return Refused(found.error);
      }
      if found.value.size == 0 {
        return Found(None);
      }
      InnerNotEmpty(key, found.value.version, field, []);
      var value := Get(Meta.HashKey(key, found.value.version, field));
      return if value.Err? then Refused(value.error) else Found(Some(value.value));
    }

    /** `hdel`. */
    method HDel(key: Bytes, field: Bytes, now: nat) returns (r: Said)
      modifies this
      ensures Done(kv, r) == RedisTable.HDel(old(kv), key, field, now)
    {
      hide Meta.Encode, FindMeta, Apply;
      var found := FindMetadata(key, Meta.HashType, now);
      if found.Err? {
        return Refused(found.error);
      }
      var meta := found.value;
      if meta.size == 0 {
        return Flag(false);
      }
      var hk := Meta.HashKey(key, meta.version, field);
      InnerNotEmpty(key, meta.version, field, []);
      var entry := Get(hk);
      if entry.Err? && entry.error == KeyNotFound {
        return Flag(false);
      }
      meta := meta.(size := meta.size - 1);
      var batch: Batch := map[key := Some(Meta.Encode(meta))];
      batch := batch[hk := None];
      ApplyTwo(kv, key, Some(Meta.Encode(meta)), hk, None);
      ApplyOne(kv, key, Some(Meta.Encode(meta)));
      ApplyOne(kv[key := Meta.Encode(meta)], hk, None);
      Commit(batch);
      return Flag(true);
    }

    /** `sadd`. */
    method SAdd(key: Bytes, member: Bytes, now: nat) returns (r: Said)
      modifies this
      ensures Done(kv, r) == RedisTable.SAdd(old(kv), key, member, now)
    {
      hide Meta.Encode, FindMeta, Apply;
      var found := FindMetadata(key, Meta.SetType, now);
      if found.Err? {
        return Refused(found.error);
      }
      var meta := found.value;
      var sk := Meta.SetKey(key, meta.version, member);
      InnerNotEmpty(key, meta.version, member, []);
      var entry := Get(sk);
      if entry.Ok? {
        return Flag(false);
      }
      if meta.size + 1 >= U32_LIMIT {
        return Refused(Corrupt);
      }
      meta := meta.(size := meta.size + 1);
      var batch: Batch := map[key := Some(Meta.Encode(meta))];
      batch := batch[sk := Some([])];
      ApplyTwo(kv, key, Some(Meta.Encode(meta)), sk, Some([]));
      ApplyOne(kv, key, Some(Meta.Encode(meta)));
      ApplyOne(kv[key := Meta.Encode(meta)], sk, Some([]));
      Commit(batch);
      return Flag(true);
    }

    /** `s_is_member`. */
    method SIsMember(key: Bytes, member: Bytes, now: nat) returns (r: Said)
      ensures Done(kv, r) == RedisTable.SIsMember(kv, key, member, now)
    {
      hide FindMeta;
      var found := FindMetadata(key, Meta.SetType, now);
      if found.Err? {
        return Refused(found.error);
      }
      if found.value.size == 0 {
        return Flag(false);
      }
      InnerNotEmpty(key, found.value.version, member, []);
      var entry := Get(Meta.SetKey(key, found.value.version, member));
      return Flag(entry.Ok?);
    }

    /** `srem`. */
    method SRem(key: Bytes, member: Bytes, now: nat) returns (r: Said)
      modifies this
      ensures Done(kv, r) == RedisTable.SRem(old(kv), key, member, now)
    {
      hide Meta.Encode, FindMeta, Apply;
      var found := FindMetadata(key, Meta.SetType, now);
      if found.Err? {
        return Refused(found.error);
      }
      var meta := found.value;
      if meta.size == 0 {
        return Flag(false);
      }
      var sk := Meta.SetKey(key, meta.version, member);
      InnerNotEmpty(key, meta.version, member, []);
      var entry := Get(sk);
      if entry.Err? {
        return Flag(false);
      }
      meta := meta.(size := meta.size - 1);
      var batch: Batch := map[key := Some(Meta.Encode(meta))];
      batch := batch[sk := None];
      ApplyTwo(kv, key, Some(Meta.Encode(meta)), sk, None);
      ApplyOne(kv, key, Some(Meta.Encode(meta)));
      ApplyOne(kv[key := Meta.Encode(meta)], sk, None);
      Commit(batch);
      return Flag(true);
    }

    /** `zadd`. */
    method ZAdd(key: Bytes, score: Score, member: Bytes, now: nat) returns (r: ZSaid)
      modifies this
      ensures ZDone(kv, r) == RedisZSet.ZAdd(old(kv), key, score, member, now)
    {
      hide Meta.Encode, FindMeta, Apply, Meta.MemberKey, Meta.ScoreKey;
      var found := FindMetadata(key, Meta.ZSetType, now);
      if found.Err? {
        return ZRefused(found.error);
      }
      var meta := found.value;
      var mk, sk := Meta.MemberKey(key, meta.version, member), Meta.ScoreKey(key, meta.version, score, member);
      InnerNotEmpty(key, meta.version, member, score);
      var entry := Get(mk);
      var batch: Batch;
      if entry.Ok? {
        if entry.value == score {
          return Added(false);
        }
        var oldKey := Meta.ScoreKey(key, meta.version, entry.value, member);
        batch := map[oldKey := None];
        ApplyOne(kv, oldKey, None);
        ThreeWrites(kv, oldKey, None, mk, score, sk);
      } else {
        if meta.size + 1 >= U32_LIMIT {
          return ZRefused(Corrupt);
        }
        meta := meta.(size := meta.size + 1);
        batch := map[key := Some(Meta.Encode(meta))];
        ApplyOne(kv, key, Some(Meta.Encode(meta)));
        ThreeWrites(kv, key, Some(Meta.Encode(meta)), mk, score, sk);
      }
      batch := batch[mk := Some(score)];
      batch := batch[sk := Some([])];
      Commit(batch);
      return Added(entry.Err?);
    }

    /** `zscore`. */
    method ZScore(key: Bytes, member: Bytes, now: nat) returns (r: ZSaid)
      ensures ZDone(kv, r) == RedisZSet.ZScore(kv, key, member, now)
    {
      hide FindMeta;
      var found := FindMetadata(key, Meta.ZSetType, now);
      if found.Err? {
        return ZRefused(found.error);
      }
      if found.value.size == 0 {
        return NoSet;
      }
      InnerNotEmpty(key, found.value.version, member, []);
      var score := Get(Meta.MemberKey(key, found.value.version, member));
      return if score.Err? then ZRefused(score.error) else ScoreIs(score.value);
    }

    /** `set`. */
    method SetText(key: Bytes, payload: Bytes, ttl: nat, now: nat) returns (r: Result<bool, RedisError>)
      modifies this
      ensures RedisRun.Ran(kv, RedisRun.DoneReply(r)) == RedisRun.SetText(old(kv), key, payload, ttl, now)
    {
      if payload == [] {
        return Ok(true);
      }
      var buf := [Meta.TypeByte(Meta.StringType)];
      var expire := 0;
      if ttl != 0 {
        expire := now + ttl;
      }
      buf := buf + BigEndian(expire, 16);
      buf := buf + payload;
      if key == [] {
        return Err(KeyIsEmpty);
      }
      kv := kv[key := buf];
      return Ok(true);
    }

    /** `get`. */
    method GetText(key: Bytes, now: nat) returns (r: Result<Option<Bytes>, RedisError>)
      ensures r == RedisRun.GetText(kv, key, now)
    {
      var found := Get(key);
      if found.Err? {
        return Err(found.error);
      }
      if found.value == [] || Meta.TypeOf(found.value[0]).None? {
        return Err(Corrupt);
      }
      if Meta.TypeOf(found.value[0]).value != Meta.StringType {
        return Err(WrongType);
      }
      if |found.value| < 17 {
        return Err(Corrupt);
      }
      var expire := FromBigEndian(found.value[1..17]);
      if expire > 0 && expire <= now {
        return Ok(None);
      }
      return Ok(Some(found.value[17..]));
    }

    /** `key_type`. */
    method KeyType(key: Bytes) returns (r: Result<Meta.DataType, RedisError>)
      ensures r == RedisRun.KeyType(kv, key)
    {
      var found := Get(key);
      if found.Err? {
        return Err(found.error);
      }
      if found.value == [] || Meta.TypeOf(found.value[0]).None? {
        return Err(Corrupt);
      }
      return Ok(Meta.TypeOf(found.value[0]).value);
    }

    /** `del`. */
    method Del(key: Bytes) returns (r: Result<bool, RedisError>)
      modifies this
      ensures RedisRun.Ran(kv, RedisRun.DoneReply(r)) == RedisRun.Delete(old(kv), key)
    {
      if key == [] {
        return Err(KeyIsEmpty);
      }
      kv := kv - {key};
      return Ok(true);
    }
  }

  lemma {:induction false} SlotNotEmpty(key: Bytes, version: nat, index: nat)
    ensures Meta.ListKey(key, version, index) != []
  {
  }

  lemma {:induction false} InnerNotEmpty(key: Bytes, version: nat, x: Bytes, score: Score)
    ensures Meta.HashKey(key, version, x) != [] && Meta.SetKey(key, version, x) != []
    ensures Meta.MemberKey(key, version, x) != [] && Meta.ScoreKey(key, version, score, x) != []
  {
  }

  lemma {:induction false} ThreeWrites(kv: Store, a: Bytes, x: Option<Bytes>, mk: Bytes, score: Score, sk: Bytes)
    ensures Apply(kv, map[a := x][mk := Some(score)][sk := Some([])]) == Apply(kv, map[a := x])[mk := score][sk := []]
  {
    hide Apply;
    ApplyThree(kv, a, x, mk, Some(score), sk, Some([]));
    ApplyTwo(kv, a, x, mk, Some(score));
    ApplyOne(Apply(kv, map[a := x]), mk, Some(score));
    ApplyOne(Apply(kv, map[a := x])[mk := score], sk, Some([]));
  }
}
