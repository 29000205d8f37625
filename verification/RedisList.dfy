/** The Redis list: a window of slots between a head and a tail kept in metadata, and the deque it stands for. */
module RedisList {
  import opened Wire
  import Meta

  /** What the engine below holds; module Batch shows that a committed batch changes it all at once. */
  type Store = map<Bytes, Bytes>

  datatype RedisError = KeyIsEmpty | KeyNotFound | WrongType | Corrupt

  const INITIAL_LIST_MARK: nat := 0x7FFF_FFFF_FFFF_FFFF

  /** A new structure: nothing in it, and the time of its creation as its version. */
  function NewMeta(dtype: Meta.DataType, now: nat): Meta.Metadata
  {
    if dtype.ListType? then Meta.Metadata(dtype, 0, now, 0, INITIAL_LIST_MARK, INITIAL_LIST_MARK)
    else Meta.Metadata(dtype, 0, now, 0, 0, 0)
  }

  /** `find_metadata`; Corrupt where the source panics. */
  function FindMeta(kv: Store, key: Bytes, dtype: Meta.DataType, now: nat): Result<Meta.Metadata, RedisError>
  {
    if key == [] then Err(KeyIsEmpty)
    else if key !in kv then Ok(NewMeta(dtype, now))
    else if kv[key] == [] || Meta.TypeOf(kv[key][0]).None? then Err(Corrupt)
    else if Meta.TypeOf(kv[key][0]).value != dtype then Err(WrongType)
    else match Meta.Decode(kv[key])
      case None => Err(Corrupt)
      case Some(m) => if m.expire != 0 && m.expire <= now then Ok(NewMeta(dtype, now)) else Ok(m)
  }

  datatype Reply = Length(n: nat) | Element(e: Option<Bytes>) | Failed(error: RedisError)

  datatype Answer = Answer(kv: Store, reply: Reply)

  /** `push_inner`. The slot and the metadata go in one batch. */
  function Push(kv: Store, key: Bytes, element: Bytes, left: bool, now: nat): Answer
  {
    match FindMeta(kv, key, Meta.ListType, now)
    case Err(e) => Answer(kv, Failed(e))
    case Ok(m) =>
      var edge := if left then m.head == 0 else m.tail + 1 >= U64_LIMIT;
      if edge || m.size + 1 >= U32_LIMIT then
        Answer(kv, Failed(Corrupt))
      else
        var slot := Meta.ListKey(key, m.version, if left then m.head - 1 else m.tail);
        var m' :=
          if left then m.(size := m.size + 1, head := m.head - 1) else m.(size := m.size + 1, tail := m.tail + 1);
        Answer(kv[key := Meta.Encode(m')][slot := element], Length(m'.size))
  }

  /** `pop_inner`. Only the metadata changes; the slot stays behind. */
  function Pop(kv: Store, key: Bytes, left: bool, now: nat): Answer
  {
    match FindMeta(kv, key, Meta.ListType, now)
    case Err(e) => Answer(kv, Failed(e))
    case Ok(m) =>
      if m.size == 0 then Answer(kv, Element(None))
      else if !left && m.tail == 0 then Answer(kv, Failed(Corrupt)) else
        var slot := Meta.ListKey(key, m.version, if left then m.head else m.tail - 1);
        if slot !in kv then Answer(kv, Failed(KeyNotFound)) else
          var m' :=
            if left then m.(size := m.size - 1, head := m.head + 1) else m.(size := m.size - 1, tail := m.tail - 1);
          Answer(kv[key := Meta.Encode(m')], Element(Some(kv[slot])))
  }

  /** `del`: the metadata goes, the slots stay. */
  function Del(kv: Store, key: Bytes): Store
  {
    kv - {key}
  }

  // ---- The deque ----

  datatype ListOp =
    | PushOp(key: Bytes, element: Bytes, left: bool, now: nat)
    | PopOp(key: Bytes, left: bool, now: nat)
    | DelOp(key: Bytes)

  type Lists = map<Bytes, seq<Bytes>>

  function ListOf(lists: Lists, key: Bytes): seq<Bytes>
  {
    if key in lists then lists[key] else []
  }

  function Exec(kv: Store, op: ListOp): Answer
  {
    match op
    case PushOp(key, element, left, now) => Push(kv, key, element, left, now)
    case PopOp(key, left, now) => Pop(kv, key, left, now)
    case DelOp(key) => Answer(Del(kv, key), Length(0))
  }

  datatype Outcome = Outcome(lists: Lists, reply: Reply)

  /** What the commands mean on sequences. */
  function Deque(lists: Lists, op: ListOp): Outcome
  {
    match op
    case PushOp(key, element, left, _) =>
      var l := if left then [element] + ListOf(lists, key) else ListOf(lists, key) + [element];
      Outcome(lists[key := l], Length(|l|))
    case PopOp(key, left, _) =>
      var l := ListOf(lists, key);
      if l == [] then Outcome(lists, Element(None))
      else if left then Outcome(lists[key := l[1..]], Element(Some(l[0])))
      else Outcome(lists[key := l[..|l| - 1]], Element(Some(l[|l| - 1])))
    case DelOp(key) => Outcome(lists - {key}, Length(0))
  }

  // ---- The invariant ----

  /**
   * The metadata describes a window that has drifted at most `drift` from where it began, and the window holds the
   * list.
   */
  ghost predicate Holds(kv: Store, key: Bytes, l: seq<Bytes>, drift: nat)
  {
    if key !in kv then l == [] else
      && Meta.Decode(kv[key]).Some?
      && var m := Meta.Decode(kv[key]).value;
         && kv[key][0] == Meta.TypeByte(Meta.ListType)
         && Window(kv, key, m, l, drift)
  }

  ghost predicate Window(kv: Store, key: Bytes, m: Meta.Metadata, l: seq<Bytes>, drift: nat)
  {
    && m.dtype.ListType? && m.expire == 0 && m.version < Meta.U128_LIMIT
    && |l| == m.size <= drift && m.tail == m.head + m.size
    && INITIAL_LIST_MARK <= m.head + drift && m.tail <= INITIAL_LIST_MARK + drift
    && forall i :: 0 <= i < |l| ==> SlotIs(kv, key, m.version, m.head + i, l[i])
  }

  ghost predicate SlotIs(kv: Store, key: Bytes, version: nat, index: nat, e: Bytes)
  {
    Meta.ListKey(key, version, index) in kv && kv[Meta.ListKey(key, version, index)] == e
  }

  /** No name of a list can be read as a slot of another: cutting a slot's 24 bytes off a name gives no name. */
  ghost predicate Separate(names: set<Bytes>)
  {
    forall a :: a in names && |a| >= 24 ==> a[..|a| - 24] !in names
  }

  lemma {:induction false} SlotIsNoName(names: set<Bytes>, a: Bytes, key: Bytes, version: nat, index: nat)
    requires Separate(names) && a in names && key in names
    ensures a != Meta.ListKey(key, version, index)
  {
    var slot := Meta.ListKey(key, version, index);
    assert slot[..|slot| - 24] == key;
  }

  /** What a list command of one name may touch. */
  ghost predicate Touches(kv: Store, kv': Store, key: Bytes, version: nat, index: nat)
  {
    forall k :: k != key && k != Meta.ListKey(key, version, index) ==>
      (k in kv' <==> k in kv) && (k in kv ==> kv'[k] == kv[k])
  }

  /** The other lists do not notice. */
  lemma {:induction false} OthersHold(names: set<Bytes>, kv: Store, kv': Store, key: Bytes, version: nat, index: nat,
      other: Bytes, l: seq<Bytes>, drift: nat)
    requires Separate(names) && key in names && other in names && other != key
    requires Touches(kv, kv', key, version, index) && Holds(kv, other, l, drift)
    requires version < Meta.U128_LIMIT && index < U64_LIMIT && drift < U32_LIMIT
    ensures Holds(kv', other, l, drift + 1)
  {
    hide Meta.ListKey, Meta.Decode;
    SlotIsNoName(names, other, key, version, index);
    if other in kv {
      var m := Meta.Decode(kv[other]).value;
      forall i | 0 <= i < |l| ensures SlotIs(kv', other, m.version, m.head + i, l[i]) {
        assert SlotIs(kv, other, m.version, m.head + i, l[i]);
        SlotIsNoName(names, key, other, m.version, m.head + i);
        if Meta.ListKey(other, m.version, m.head + i) == Meta.ListKey(key, version, index) {
          Meta.ListKeyInjective(other, key, m.version, version, m.head + i, index);
        }
      }
    }
  }

  /** Finding the metadata of a list: what is stored, or a fresh empty window. */
  lemma {:induction false} FindHeld(kv: Store, key: Bytes, l: seq<Bytes>, drift: nat, now: nat)
    requires key != [] && Holds(kv, key, l, drift) && now < Meta.U128_LIMIT
    ensures FindMeta(kv, key, Meta.ListType, now).Ok?
    ensures Window(kv, key, FindMeta(kv, key, Meta.ListType, now).value, l, drift)
  {
    hide Meta.ListKey;
  }

  lemma {:induction false} StoredWindow(kv: Store, key: Bytes, m: Meta.Metadata, l: seq<Bytes>, drift: nat)
    requires key in kv && kv[key] == Meta.Encode(m) && Window(kv, key, m, l, drift) && drift < U32_LIMIT
    ensures Holds(kv, key, l, drift)
  {
    hide Meta.ListKey, Meta.Decode;
    Meta.RoundTrip(m);
  }

  lemma {:induction false} SlotLonger(key: Bytes, version: nat, index: nat)
    ensures Meta.ListKey(key, version, index) != key
  {
  }

  lemma {:induction false} SlotsApart(key: Bytes, version: nat, i: nat, j: nat)
    requires version < Meta.U128_LIMIT && i < U64_LIMIT && j < U64_LIMIT && i != j
    ensures Meta.ListKey(key, version, i) != Meta.ListKey(key, version, j)
  {
    if Meta.ListKey(key, version, i) == Meta.ListKey(key, version, j) {
      Meta.ListKeyInjective(key, key, version, version, i, j);
    }
  }

  /** Writing the slot next to the window, and the metadata of the larger window, adds the element. */
  lemma {:induction false} WidenWindow(kv: Store, key: Bytes, m: Meta.Metadata, l: seq<Bytes>, drift: nat,
      element: Bytes, left: bool)
    requires Window(kv, key, m, l, drift) && drift + 1 < U32_LIMIT
    ensures m.head > 0 && m.tail + 1 < U64_LIMIT
    ensures var index := if left then m.head - 1 else m.tail;
            var m' :=
              if left then m.(size := m.size + 1, head := m.head - 1) else m.(size := m.size + 1, tail := m.tail + 1);
            var kv' := kv[key := Meta.Encode(m')][Meta.ListKey(key, m.version, index) := element];
            && Window(kv', key, m', if left then [element] + l else l + [element], drift + 1)
            && kv'[key] == Meta.Encode(m') && Touches(kv, kv', key, m.version, index)
  {
    hide Meta.ListKey, Meta.Encode;
    var index := if left then m.head - 1 else m.tail;
    var m' := if left then m.(size := m.size + 1, head := m.head - 1) else m.(size := m.size + 1, tail := m.tail + 1);
    var l' := if left then [element] + l else l + [element];
    var kv' := kv[key := Meta.Encode(m')][Meta.ListKey(key, m.version, index) := element];
    SlotLonger(key, m.version, index);
    forall i | 0 <= i < |l'| ensures SlotIs(kv', key, m.version, m'.head + i, l'[i]) {
      if m'.head + i != index {
        SlotsApart(key, m.version, m'.head + i, index);
        SlotLonger(key, m.version, m'.head + i);
        var j := if left then i - 1 else i;
        assert SlotIs(kv, key, m.version, m.head + j, l[j]);
      }
    }
  }

  lemma {:induction false} PushHolds(kv: Store, key: Bytes, l: seq<Bytes>, drift: nat, element: Bytes, left: bool,
      now: nat)
    returns (version: nat, index: nat)
    requires key != [] && Holds(kv, key, l, drift) && now < Meta.U128_LIMIT && drift + 1 < U32_LIMIT
    ensures version < Meta.U128_LIMIT && index < U64_LIMIT
    ensures var a := Push(kv, key, element, left, now);
            && a.reply == Length(|l| + 1)
            && Holds(a.kv, key, if left then [element] + l else l + [element], drift + 1)
            && Touches(kv, a.kv, key, version, index)
  {
    hide Meta.ListKey, Meta.Decode, Meta.Encode, SlotIs, Touches;
    FindHeld(kv, key, l, drift, now);
    var m := FindMeta(kv, key, Meta.ListType, now).value;
    hide FindMeta, Holds;
    WidenWindow(kv, key, m, l, drift, element, left);
    version, index := m.version, if left then m.head - 1 else m.tail;
    var m' := if left then m.(size := m.size + 1, head := m.head - 1) else m.(size := m.size + 1, tail := m.tail + 1);
    var l' := if left then [element] + l else l + [element];
    StoredWindow(Push(kv, key, element, left, now).kv, key, m', l', drift + 1);
  }

  /**
   * Taking an end off the window, and storing the metadata of the smaller window, removes the element; the slot
   * stays.
   */
  lemma {:induction false} NarrowWindow(kv: Store, key: Bytes, m: Meta.Metadata, l: seq<Bytes>, drift: nat, left: bool)
    requires Window(kv, key, m, l, drift) && l != [] && drift + 1 < U32_LIMIT
    ensures m.size > 0 && m.tail > 0
        && SlotIs(kv, key, m.version, if left then m.head else m.tail - 1, if left then l[0] else l[|l| - 1])
    ensures var m' :=
              if left then m.(size := m.size - 1, head := m.head + 1) else m.(size := m.size - 1, tail := m.tail - 1);
            Window(kv[key := Meta.Encode(m')], key, m', if left then l[1..] else l[..|l| - 1], drift + 1)
  {
    hide Meta.ListKey, Meta.Encode;
    var at := if left then 0 else |l| - 1;
    assert SlotIs(kv, key, m.version, m.head + at, l[at]);
    var m' := if left then m.(size := m.size - 1, head := m.head + 1) else m.(size := m.size - 1, tail := m.tail - 1);
    var kv', l' := kv[key := Meta.Encode(m')], if left then l[1..] else l[..|l| - 1];
    forall i | 0 <= i < |l'| ensures SlotIs(kv', key, m.version, m'.head + i, l'[i]) {
      var j := if left then i + 1 else i;
      SlotLonger(key, m.version, m.head + j);
      assert SlotIs(kv, key, m.version, m.head + j, l[j]);
    }
  }

  lemma {:induction false} PopHolds(kv: Store, key: Bytes, l: seq<Bytes>, drift: nat, left: bool, now: nat)
    requires key != [] && Holds(kv, key, l, drift) && now < Meta.U128_LIMIT && drift + 1 < U32_LIMIT
    ensures var a := Pop(kv, key, left, now);
            && (l == [] ==> a == Answer(kv, Element(None)))
            && (l != [] ==> a.reply == Element(Some(if left then l[0] else l[|l| - 1]))
                            && Holds(a.kv, key, if left then l[1..] else l[..|l| - 1], drift + 1))
            && Touches(kv, a.kv, key, 0, 0)
  {
    hide Meta.ListKey, Meta.Decode, Meta.Encode;
    FindHeld(kv, key, l, drift, now);
    var m := FindMeta(kv, key, Meta.ListType, now).value;
    hide FindMeta;
    if l != [] {
      NarrowWindow(kv, key, m, l, drift, left);
      var m' := if left then m.(size := m.size - 1, head := m.head + 1) else m.(size := m.size - 1, tail := m.tail - 1);
      StoredWindow(Pop(kv, key, left, now).kv, key, m', if left then l[1..] else l[..|l| - 1], drift + 1);
    }
  }

  // ---- Runs ----

  ghost predicate AllHold(names: set<Bytes>, kv: Store, lists: Lists, drift: nat)
  {
    forall k :: k in names ==> Holds(kv, k, ListOf(lists, k), drift)
  }

  predicate OpOk(names: set<Bytes>, op: ListOp)
  {
    op.key in names && op.key != [] && (!op.DelOp? ==> op.now < Meta.U128_LIMIT)
  }

  lemma {:induction false} DriftGrows(kv: Store, key: Bytes, l: seq<Bytes>, drift: nat)
    requires Holds(kv, key, l, drift)
    ensures Holds(kv, key, l, drift + 1)
  {
    hide Meta.ListKey, Meta.Decode;
  }

  lemma {:induction false} StepRefines(names: set<Bytes>, kv: Store, lists: Lists, drift: nat, op: ListOp)
    requires Separate(names) && AllHold(names, kv, lists, drift) && OpOk(names, op) && drift + 1 < U32_LIMIT
    ensures Exec(kv, op).reply == Deque(lists, op).reply
    ensures AllHold(names, Exec(kv, op).kv, Deque(lists, op).lists, drift + 1)
  {
    hide Holds, Push, Pop, Separate, Touches;
    var key, kv', lists' := op.key, Exec(kv, op).kv, Deque(lists, op).lists;
    var l := ListOf(lists, key);
    var v: nat, i: nat := 0, 0;
    match op {
    case PushOp(_, element, left, now) =>
      v, i := PushHolds(kv, key, l, drift, element, left, now);
    case PopOp(_, left, now) =>
      PopHolds(kv, key, l, drift, left, now);
      if l == [] { DriftGrows(kv, key, l, drift); }
    case DelOp(_) =>
      DelHolds(kv, key, drift);
    }
    forall k | k in names ensures Holds(kv', k, ListOf(lists', k), drift + 1) {
      if k != key {
        OthersHold(names, kv, kv', key, v, i, k, ListOf(lists, k), drift);
      }
    }
  }

  lemma {:induction false} DelHolds(kv: Store, key: Bytes, drift: nat)
    ensures Holds(Del(kv, key), key, [], drift + 1) && Touches(kv, Del(kv, key), key, 0, 0)
  {
  }

  function RunKv(ops: seq<ListOp>): Store
  {
    if ops == [] then map[] else Exec(RunKv(ops[..|ops| - 1]), ops[|ops| - 1]).kv
  }

  function RunDeque(ops: seq<ListOp>): Lists
  {
    if ops == [] then map[] else Deque(RunDeque(ops[..|ops| - 1]), ops[|ops| - 1]).lists
  }

  lemma {:induction false} RunHolds(names: set<Bytes>, ops: seq<ListOp>)
    requires Separate(names) && (forall op :: op in ops ==> OpOk(names, op)) && |ops| < U32_LIMIT
    ensures AllHold(names, RunKv(ops), RunDeque(ops), |ops|)
  {
    hide Separate, OpOk, Exec, Deque, AllHold;
    if ops == [] {
      NothingHeld(names);
    } else {
      var pre, op := ops[..|ops| - 1], ops[|ops| - 1];
      assert op in ops;
      RunHolds(names, pre);
      StepRefines(names, RunKv(pre), RunDeque(pre), |pre|, op);
    }
  }

  lemma {:induction false} NothingHeld(names: set<Bytes>)
    ensures AllHold(names, map[], map[], 0)
  {
  }

  /**
   * The list refines a deque: over every run of pushes, pops and deletes on any number of lists, shorter than 2^32
   * commands, each command answers what the deque answers. Popped slots that stay behind are never seen again.
   */
  lemma {:induction false} ListRefinesDeque(names: set<Bytes>, ops: seq<ListOp>, n: nat)
    requires Separate(names) && (forall op :: op in ops ==> OpOk(names, op)) && |ops| < U32_LIMIT && n < |ops|
    ensures Exec(RunKv(ops[..n]), ops[n]).reply == Deque(RunDeque(ops[..n]), ops[n]).reply
  {
    hide Separate, OpOk, Exec, Deque, AllHold;
    assert ops[n] in ops;
    RunHolds(names, ops[..n]);
    StepRefines(names, RunKv(ops[..n]), RunDeque(ops[..n]), n, ops[n]);
  }

  // ---- Where the counters end ----

  /**
   * A push onto a list of any size fails exactly where its counters would leave their 64 and 32 bits; otherwise it
   * answers the new size, and the new slot is the one next to the window.
   */
  lemma {:induction false} PushExact(kv: Store, key: Bytes, element: Bytes, left: bool, now: nat)
    requires FindMeta(kv, key, Meta.ListType, now).Ok?
    ensures var m, a := FindMeta(kv, key, Meta.ListType, now).value, Push(kv, key, element, left, now);
            var fails := (left && m.head < 1) || (!left && m.tail > 0xFFFF_FFFF_FFFF_FFFE) || m.size > 0xFFFF_FFFE;
            && (fails ==> a == Answer(kv, Failed(Corrupt)))
            && (!fails ==>
                  var slot := Meta.ListKey(key, m.version, if left then m.head - 1 else m.tail);
                  a.reply == Length(m.size + 1) && slot in a.kv && a.kv[slot] == element)
  {
    hide FindMeta, Meta.Encode, Meta.ListKey;
  }

  /** And a pop from a list that is not empty: it takes the slot at the end of the window, if there can be one. */
  lemma {:induction false} PopExact(kv: Store, key: Bytes, left: bool, now: nat)
    requires FindMeta(kv, key, Meta.ListType, now).Ok? && FindMeta(kv, key, Meta.ListType, now).value.size > 0
    ensures var m, a := FindMeta(kv, key, Meta.ListType, now).value, Pop(kv, key, left, now);
            if !left && m.tail < 1 then a == Answer(kv, Failed(Corrupt)) else
              var slot := Meta.ListKey(key, m.version, if left then m.head else m.tail - 1);
              a.reply == if slot in kv then Element(Some(kv[slot])) else Failed(KeyNotFound)
  {
    hide FindMeta, Meta.Encode, Meta.ListKey;
  }
}
