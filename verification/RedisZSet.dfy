/** The Redis sorted set: for each member one key with its score and one key under its score, kept in step. */
module RedisZSet {
  import opened Wire
  import Meta
  import opened RedisList
  import opened Keyspace

  /** A score is its text; equal scores have equal texts. */
  type Score = Bytes

  datatype ZSaid = Added(b: bool) | NoSet | ScoreIs(s: Score) | ZRefused(error: RedisError)

  datatype ZDone = ZDone(kv: Store, said: ZSaid)

  /** `zadd`: one batch that moves the member from its old score to the new one. */
  function ZAdd(kv: Store, key: Bytes, score: Score, member: Bytes, now: nat): ZDone
  {
    match FindMeta(kv, key, Meta.ZSetType, now)
    case Err(e) => ZDone(kv, ZRefused(e))
    case Ok(m) =>
      var mk, sk := Meta.MemberKey(key, m.version, member), Meta.ScoreKey(key, m.version, score, member);
      if mk in kv then
        if kv[mk] == score then ZDone(kv, Added(false))
        else ZDone((kv - {Meta.ScoreKey(key, m.version, kv[mk], member)})[mk := score][sk := []], Added(false))
      else if m.size + 1 >= U32_LIMIT then ZDone(kv, ZRefused(Corrupt))
      else ZDone(kv[key := Meta.Encode(m.(size := m.size + 1))][mk := score][sk := []], Added(true))
  }

  /** `zscore`. */
  function ZScore(kv: Store, key: Bytes, member: Bytes, now: nat): ZDone
  {
    match FindMeta(kv, key, Meta.ZSetType, now)
    case Err(e) => ZDone(kv, ZRefused(e))
    case Ok(m) =>
      var mk := Meta.MemberKey(key, m.version, member);
      if m.size == 0 then ZDone(kv, NoSet)
      else if mk !in kv then ZDone(kv, ZRefused(KeyNotFound))
      else ZDone(kv, ScoreIs(kv[mk]))
  }

  // ---- The map it stands for ----

  datatype ZOp = ZAddOp(score: Score, member: Bytes) | ZScoreOp(member: Bytes)

  type Scores = map<Bytes, Score>

  function Exec(kv: Store, key: Bytes, op: ZOp, now: nat): ZDone
  {
    match op
    case ZAddOp(score, member) => ZAdd(kv, key, score, member, now)
    case ZScoreOp(member) => ZScore(kv, key, member, now)
  }

  datatype ZMeant = ZMeant(scores: Scores, said: ZSaid)

  function Means(z: Scores, op: ZOp): ZMeant
  {
    match op
    case ZAddOp(score, member) => ZMeant(z[member := score], Added(member !in z))
    case ZScoreOp(member) =>
      ZMeant(z, if z == map[] then NoSet else if member in z then ScoreIs(z[member]) else ZRefused(KeyNotFound))
  }

  // ---- Names that can be told apart ----

  /** The members and scores in use. No member spells out a score followed by a member and its length. */
  datatype Names = Names(members: set<Bytes>, scores: set<Score>)

  ghost predicate Legible(names: Names)
  {
    && (forall a :: a in names.members ==> |a| < U32_LIMIT)
    && (forall m, s, a :: m in names.members && s in names.scores && a in names.members ==>
      m != s + a + BigEndian(|a| % U32_LIMIT, 4))
  }

  predicate OpOk(names: Names, op: ZOp)
  {
    match op
    case ZAddOp(score, member) => score in names.scores && member in names.members
    case ZScoreOp(member) => member in names.members
  }

  // ---- The invariant ----

  /** Exactly the members have a member key, with their score; exactly their score has a score key. */
  ghost predicate Entries(names: Names, kv: Store, key: Bytes, version: nat, z: Scores)
  {
    && (forall m :: m in z ==> m in names.members && z[m] in names.scores)
    && (forall m :: m in names.members ==> MemberIs(kv, key, version, m, if m in z then Some(z[m]) else None))
    && (forall s, m :: s in names.scores && m in names.members ==>
      (Meta.ScoreKey(key, version, s, m) in kv <==> m in z && z[m] == s))
  }

  predicate MemberIs(kv: Store, key: Bytes, version: nat, member: Bytes, score: Option<Score>)
  {
    var mk := Meta.MemberKey(key, version, member);
    (mk in kv <==> score.Some?) && (mk in kv ==> kv[mk] == score.value)
  }

  /** A name that has no key of this version has no entries. */
  lemma {:induction false} NoEntries(names: Names, kv: Store, key: Bytes, clock: nat, limit: nat, now: nat)
    requires NoLater(kv, key, clock, limit) && clock < now < limit
    ensures Entries(names, kv, key, now, map[])
  {
    hide Meta.MemberKey, Meta.ScoreKey, Meta.Inner, BigEndian;
    forall m ensures Meta.MemberKey(key, now, m) !in kv {
      Meta.InnerForms(key, now, m, [], 0);
    }
    forall s, m ensures Meta.ScoreKey(key, now, s, m) !in kv {
      Meta.InnerForms(key, now, m, s, 0);
    }
  }

  /** The other names' commands leave the entries alone. */
  lemma {:induction false} EntriesStay(names: Names, kv: Store, kv': Store, key: Bytes, version: nat, z: Scores,
      limit: nat)
    requires SameFor(kv, kv', key, limit) && version < limit && Entries(names, kv, key, version, z)
    ensures Entries(names, kv', key, version, z)
  {
    hide Meta.MemberKey, Meta.ScoreKey, Meta.Inner, BigEndian;
    forall m | m in names.members ensures MemberIs(kv', key, version, m, if m in z then Some(z[m]) else None) {
      Meta.InnerForms(key, version, m, [], 0);
      assert SameAt(kv, kv', Meta.MemberKey(key, version, m));
      assert MemberIs(kv, key, version, m, if m in z then Some(z[m]) else None);
    }
    forall s, m ensures SameAt(kv, kv', Meta.ScoreKey(key, version, s, m)) {
      Meta.InnerForms(key, version, m, s, 0);
    }
  }

  lemma {:induction false} KeysLonger(key: Bytes, version: nat, s: Score, m: Bytes)
    ensures Meta.MemberKey(key, version, m) != key && Meta.ScoreKey(key, version, s, m) != key
  {
  }

  /** Member and score keys of legible names are all different. */
  lemma {:induction false} MembersApart(key: Bytes, version: nat, m: Bytes, n: Bytes)
    requires Meta.MemberKey(key, version, m) == Meta.MemberKey(key, version, n)
    ensures m == n
  {
    Meta.SuffixDecides(key, version, m, n);
  }

  lemma {:induction false} KindsApart(names: Names, key: Bytes, version: nat, m: Bytes, s: Score, a: Bytes)
    requires Legible(names) && m in names.members && s in names.scores && a in names.members
    ensures Meta.MemberKey(key, version, m) != Meta.ScoreKey(key, version, s, a)
  {
    hide BigEndian;
    Meta.MemberScoreCollision(key, version, m, s, a);
  }

  lemma {:induction false} ScoresApart(names: Names, key: Bytes, version: nat, s: Score, a: Bytes, t: Score, b: Bytes)
    requires Legible(names) && a in names.members && b in names.members
    requires Meta.ScoreKey(key, version, s, a) == Meta.ScoreKey(key, version, t, b)
    ensures s == t && a == b
  {
    Meta.ScoreKeyInjective(key, version, s, a, t, b);
  }

  // ---- The steps ----

  /** Writing a member's new score: its member key, its new score key, and no other. */
  lemma {:induction false} WriteEntries(names: Names, kv: Store, key: Bytes, version: nat, z: Scores, score: Score,
      member: Bytes, meta: Bytes)
    requires Legible(names) && Entries(names, kv, key, version, z)
    requires score in names.scores && member in names.members && (member in z ==> z[member] != score)
    ensures var old' := if member in z then {Meta.ScoreKey(key, version, z[member], member)} else {};
            var mk, sk := Meta.MemberKey(key, version, member), Meta.ScoreKey(key, version, score, member);
            var kv' := (kv[key := meta] - old')[mk := score][sk := []];
            Entries(names, kv', key, version, z[member := score])
  {
    hide Legible, Meta.MemberKey, Meta.ScoreKey;
    var mk, sk := Meta.MemberKey(key, version, member), Meta.ScoreKey(key, version, score, member);
    var old' := if member in z then {Meta.ScoreKey(key, version, z[member], member)} else {};
    var kv', z' := (kv[key := meta] - old')[mk := score][sk := []], z[member := score];
    KindsApart(names, key, version, member, score, member);
    forall m | m in names.members ensures MemberIs(kv', key, version, m, if m in z' then Some(z'[m]) else None) {
      KeysLonger(key, version, score, m);
      KindsApart(names, key, version, m, score, member);
      if member in z { KindsApart(names, key, version, m, z[member], member); }
      if m != member && Meta.MemberKey(key, version, m) == mk { MembersApart(key, version, m, member); }
      assert MemberIs(kv, key, version, m, if m in z then Some(z[m]) else None);
    }
    forall s, m | s in names.scores && m in names.members
      ensures Meta.ScoreKey(key, version, s, m) in kv' <==> m in z' && z'[m] == s
    {
      KeysLonger(key, version, s, m);
      KindsApart(names, key, version, member, s, m);
      if Meta.ScoreKey(key, version, s, m) == sk { ScoresApart(names, key, version, s, m, score, member); }
      if member in z && Meta.ScoreKey(key, version, s, m) == Meta.ScoreKey(key, version, z[member], member) {
        ScoresApart(names, key, version, s, m, z[member], member);
      }
    }
  }

  lemma {:induction false} WriteFrame(kv: Store, key: Bytes, version: nat, score: Score, member: Bytes, meta: Bytes,
      gone: set<Bytes>)
    requires forall k :: k in gone ==> exists s :: k == Meta.ScoreKey(key, version, s, member)
    ensures var mk, sk := Meta.MemberKey(key, version, member), Meta.ScoreKey(key, version, score, member);
            var kv' := (kv[key := meta] - gone)[mk := score][sk := []];
            Frame(kv, kv', key, version) && (key !in gone ==> key in kv' && kv'[key] == meta)
  {
    hide Meta.MemberKey, Meta.ScoreKey, IsInner;
    KeysLonger(key, version, score, member);
    KeysInner(key, version, score, member);
    forall k | k in gone ensures IsInner(key, version, k) {
      var s :| k == Meta.ScoreKey(key, version, s, member);
      KeysInner(key, version, s, member);
    }
  }

  lemma {:induction false} KeysInner(key: Bytes, version: nat, s: Score, m: Bytes)
    ensures IsInner(key, version, Meta.MemberKey(key, version, m))
        && IsInner(key, version, Meta.ScoreKey(key, version, s, m))
  {
    hide BigEndian, IsInner;
    Meta.InnerForms(key, version, m, s, 0);
    InnerIs(key, version, Meta.MemberKey(key, version, m));
    InnerIs(key, version, Meta.ScoreKey(key, version, s, m));
  }

  /** The scores the metadata and the keys of its version stand for; a name without metadata stands for none. */
  ghost predicate Holds(names: Names, kv: Store, key: Bytes, m: Meta.Metadata, z: Scores)
  {
    && Meta.Fits(m) && m.expire == 0 && m.dtype.ZSetType? && m.size == |z| && Entries(names, kv, key, m.version, z)
    && (key in kv ==> kv[key] == Meta.Encode(m)) && (key !in kv ==> z == map[])
  }

  /** A new member: a larger size, its member key and its score key. */
  lemma {:induction false} NewHolds(names: Names, kv: Store, key: Bytes, m: Meta.Metadata, z: Scores, score: Score,
      member: Bytes)
    requires Holds(names, kv, key, m, z) && Legible(names) && score in names.scores && member in names.members
    requires member !in z && |z| + 1 < U32_LIMIT
    ensures var m' := m.(size := m.size + 1);
            var kv' := kv[key := Meta.Encode(m')][Meta.MemberKey(key, m.version, member) := score]
                         [Meta.ScoreKey(key, m.version, score, member) := []];
            Holds(names, kv', key, m', z[member := score]) && key in kv' && Frame(kv, kv', key, m.version)
  {
    hide Legible, Meta.MemberKey, Meta.ScoreKey, Meta.Encode, Entries, Frame;
    var meta := Meta.Encode(m.(size := m.size + 1));
    SizeAfter(z, member, score);
    WriteEntries(names, kv, key, m.version, z, score, member, meta);
    WriteFrame(kv, key, m.version, score, member, meta, {});
    assert kv[key := meta] - {} == kv[key := meta];
  }

  /** A member with another score: its old score key goes, the metadata stays. */
  lemma {:induction false} MovedHolds(names: Names, kv: Store, key: Bytes, m: Meta.Metadata, z: Scores, score: Score,
      member: Bytes)
    requires Holds(names, kv, key, m, z) && Legible(names) && score in names.scores && member in names.members
    requires member in z && z[member] != score
    ensures var mk, sk := Meta.MemberKey(key, m.version, member), Meta.ScoreKey(key, m.version, score, member);
            var kv' := (kv - {Meta.ScoreKey(key, m.version, z[member], member)})[mk := score][sk := []];
            Holds(names, kv', key, m, z[member := score]) && key in kv' && Frame(kv, kv', key, m.version)
  {
    hide Legible, Meta.MemberKey, Meta.ScoreKey, Meta.Encode, Entries, Frame;
    SizeAfter(z, member, score);
    WriteEntries(names, kv, key, m.version, z, score, member, kv[key]);
    WriteFrame(kv, key, m.version, score, member, kv[key], {Meta.ScoreKey(key, m.version, z[member], member)});
    KeysLonger(key, m.version, z[member], member);
    assert kv[key := kv[key]] == kv;
  }

  lemma {:induction false} MemberThere(names: Names, kv: Store, key: Bytes, m: Meta.Metadata, z: Scores, member: Bytes)
    requires Holds(names, kv, key, m, z) && member in names.members
    ensures var mk := Meta.MemberKey(key, m.version, member);
            (mk in kv <==> member in z) && (mk in kv ==> kv[mk] == z[member])
    ensures m.(size := |z|) == m && (z != map[] ==> key in kv) && (|z| == 0 <==> z == map[])
  {
    SizeAfter(z, member, []);
    assert MemberIs(kv, key, m.version, member, if member in z then Some(z[member]) else None);
    hide Entries, Meta.MemberKey, Meta.Encode;
  }

  lemma {:induction false} AddHolds(names: Names, kv: Store, key: Bytes, m: Meta.Metadata, z: Scores, score: Score,
      member: Bytes, now: nat)
    requires FindMeta(kv, key, Meta.ZSetType, now) == Ok(m) && Holds(names, kv, key, m, z)
    requires Legible(names) && score in names.scores && member in names.members && |z| + 1 < U32_LIMIT
    ensures ZAdd(kv, key, score, member, now).said == Added(member !in z)
    ensures var kv', z' := ZAdd(kv, key, score, member, now).kv, z[member := score];
            Holds(names, kv', key, m.(size := |z'|), z') && key in kv' && Frame(kv, kv', key, m.version)
  {
    hide Legible, Meta.MemberKey, Meta.ScoreKey, Meta.Encode, FindMeta, Entries, Frame, Holds, ZAdd;
    MemberThere(names, kv, key, m, z, member);
    MetaSize(names, kv, key, m, z);
    AddIs(kv, key, m, score, member, now);
    SizeAfter(z, member, score);
    if member !in z {
      NewHolds(names, kv, key, m, z, score, member);
    } else if z[member] == score {
      SameScore(z, member);
      Unchanged(kv, key, m.version);
    } else {
      MovedHolds(names, kv, key, m, z, score, member);
    }
  }

  lemma {:induction false} SameScore(z: Scores, member: Bytes)
    requires member in z
    ensures z[member := z[member]] == z
  {
  }

  /** `zadd` by what it finds. */
  lemma {:induction false} AddIs(kv: Store, key: Bytes, m: Meta.Metadata, score: Score, member: Bytes, now: nat)
    requires FindMeta(kv, key, Meta.ZSetType, now) == Ok(m) && m.size + 1 < U32_LIMIT
    ensures var mk, sk := Meta.MemberKey(key, m.version, member), Meta.ScoreKey(key, m.version, score, member);
            ZAdd(kv, key, score, member, now) ==
              if mk !in kv then ZDone(kv[key := Meta.Encode(m.(size := m.size + 1))][mk := score][sk := []],
                Added(true))
              else if kv[mk] == score then ZDone(kv, Added(false))
              else ZDone((kv - {Meta.ScoreKey(key, m.version, kv[mk], member)})[mk := score][sk := []], Added(false))
  {
    hide Meta.MemberKey, Meta.ScoreKey, Meta.Encode, FindMeta;
  }

  lemma {:induction false} Unchanged(kv: Store, key: Bytes, version: nat)
    ensures Frame(kv, kv, key, version)
  {
    hide IsInner;
  }

  lemma {:induction false} SizeAfter(z: Scores, member: Bytes, score: Score)
    ensures |z[member := score]| == if member in z then |z| else |z| + 1
    ensures |z| == 0 <==> z == map[]
  {
    var z' := z[member := score];
    assert |z'| == |z'.Keys| && |z| == |z.Keys|;
    if member in z {
      assert z'.Keys == z.Keys;
    } else {
      assert z'.Keys == z.Keys + {member};
    }
  }

  /** One command that finds its metadata answers what the map answers, and changes keys of its own version only. */
  lemma {:induction false} StepHolds(names: Names, kv: Store, key: Bytes, m: Meta.Metadata, z: Scores, op: ZOp,
      now: nat)
    requires FindMeta(kv, key, Meta.ZSetType, now) == Ok(m) && Holds(names, kv, key, m, z)
    requires Legible(names) && OpOk(names, op) && |z| + 1 < U32_LIMIT
    ensures Exec(kv, key, op, now).said == Means(z, op).said
    ensures var kv', z' := Exec(kv, key, op, now).kv, Means(z, op).scores;
            && Holds(names, kv', key, m.(size := |z'|), z') && Frame(kv, kv', key, m.version)
            && (key in kv' <==> key in kv || z' != map[]) && |z'| <= |z| + 1
  {
    hide Legible, Meta.MemberKey, Meta.ScoreKey, Meta.Encode, FindMeta, Frame, Holds, ZAdd;
    match op
    case ZAddOp(score, member) =>
      AddHolds(names, kv, key, m, z, score, member, now);
      SizeAfter(z, member, score);
      assert member in z[member := score];
    case ZScoreOp(member) =>
      MemberThere(names, kv, key, m, z, member);
      Unchanged(kv, key, m.version);
      assert m.size == |z| by { MetaSize(names, kv, key, m, z); }
  }

  lemma {:induction false} MetaSize(names: Names, kv: Store, key: Bytes, m: Meta.Metadata, z: Scores)
    requires Holds(names, kv, key, m, z)
    ensures m.size == |z|
  {
  }

  /**
   * Without legible names the claim fails, and exactly then: after one add, asking for another member is answered as
   * if it had been added if and only if its name spells out the score, the member and the member's length.
   */
  lemma {:induction false} PhantomMember(key: Bytes, score: Score, member: Bytes, other: Bytes, now: nat)
    requires key != [] && now < Meta.U128_LIMIT && other != member
    ensures var kv := ZAdd(map[], key, score, member, now).kv;
            ZScore(kv, key, other, now).said != ZRefused(KeyNotFound) <==>
              other == score + member + BigEndian(|member| % U32_LIMIT, 4)
  {
    hide BigEndian, Meta.Encode, Meta.Decode;
    var m := NewMeta(Meta.ZSetType, now);
    var m' := m.(size := 1);
    var mk, sk := Meta.MemberKey(key, now, member), Meta.ScoreKey(key, now, score, member);
    var kv := ZAdd(map[], key, score, member, now).kv;
    KeysLonger(key, now, score, member);
    KeysLonger(key, now, score, other);
    Meta.RoundTrip(m');
    assert kv == map[key := Meta.Encode(m'), mk := score, sk := []];
    assert FindMeta(kv, key, Meta.ZSetType, now) == Ok(m') by { Meta.EncodedType(m'); }
    Meta.MemberScoreCollision(key, now, other, score, member);
    if Meta.MemberKey(key, now, other) == mk { MembersApart(key, now, other, member); }
  }
}
