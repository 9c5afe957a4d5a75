/**
 The request context: a map from type identifiers to boxed values.  The stored types that
 matter to the gateway are named; any other type is `OtherKey`.
 */
module Context {
  import opened Wrappers
  import opened Config
  import opened Router

  /** `Arc<RouteConf>` and `RouteConf` are different types, hence different keys. */
  datatype Key = RequestMetaKey | RouteEntryKey | ArcRouteConfKey | RouteConfKey | RequestSizeKey | OtherKey(tag: nat)

  datatype RequestMeta = RequestMeta(
    requestId: string, matchedRouteId: Option<string>, upstreamId: Option<string>, sni: Option<string>)

  datatype Value =
    | MetaValue(meta: RequestMeta)
    | EntryValue(entry: RouteEntry)
    | ArcConfValue(conf: RouteConf)
    | ConfValue(conf: RouteConf)
    | SizeValue(bytesRead: nat)
    | OtherValue(tag: nat, payload: int)

  /** The type of a value. */
  function KeyOf(v: Value): Key {
    match v
    case MetaValue(_) => RequestMetaKey
    case EntryValue(_) => RouteEntryKey
    case ArcConfValue(_) => ArcRouteConfKey
    case ConfValue(_) => RouteConfKey
    case SizeValue(_) => RequestSizeKey
    case OtherValue(tag, _) => OtherKey(tag)
  }

  type Store = map<Key, Value>

  /** `GetMut(v)` borrows the slot of `v`'s type and writes `v` through the borrow. */
  datatype Op = Insert(v: Value) | Get(k: Key) | GetMut(v: Value) | Remove(k: Key) | Exists(k: Key)

  datatype Reply = DowncastPanic | Found(value: Option<Value>) | Flag(present: bool)

  function OpKey(op: Op): Key {
    match op
    case Insert(v) => KeyOf(v)
    case GetMut(v) => KeyOf(v)
    case Get(k) => k
    case Remove(k) => k
    case Exists(k) => k
  }

  /** A checked downcast that panics on a mismatch. */
  function Unboxed(boxed: Option<Value>, k: Key): Reply {
    if boxed.Some? && KeyOf(boxed.value) != k then DowncastPanic else Found(boxed)
  }

  function Lookup(s: Store, k: Key): Option<Value> {
    if k in s then Some(s[k]) else None
  }

  /** One operation on any store, well-typed or not. */
  function Apply(s: Store, op: Op): (Store, Reply) {
    var k := OpKey(op);
    var boxed := Lookup(s, k);
    match op
    case Insert(v) => (s[k := v], Unboxed(boxed, k))
    case Get(_) => (s, Found(if boxed.Some? && KeyOf(boxed.value) == k then boxed else None))
    case GetMut(v) => if boxed.Some? && KeyOf(boxed.value) == k then (s[k := v], Found(boxed)) else (s, Found(None))
    case Remove(_) => (s - {k}, Unboxed(boxed, k))
    case Exists(_) => (s, Flag(k in s))
  }

  predicate Typed(s: Store) {
    forall k :: k in s ==> KeyOf(s[k]) == k
  }

  /** A store as the context's own operations can leave it. */
  type TypedStore = s: Store | Typed(s) witness map[]

  class GatewayContext {
    var state: Store

    ghost predicate Valid()
      reads this
    {
      Typed(state)
    }

    constructor ()
      ensures Valid() && state == map[]
    {
      state := map[];
    }

    method Insert(v: Value) returns (previous: Option<Value>)
      requires Valid()
      modifies this
      ensures Valid() && (state, Found(previous)) == Apply(old(state), Op.Insert(v))
    {
      var key := KeyOf(v);
      previous := if key in state then Some(state[key]) else None;
      assert previous.Some? ==> KeyOf(previous.value) == key;
      state := state[key := v];
    }

    method Get(key: Key) returns (found: Option<Value>)
      requires Valid()
      ensures (state, Found(found)) == Apply(state, Op.Get(key))
    {
      found := if key in state then Some(state[key]) else None;
    }

    method GetMut(v: Value) returns (previous: Option<Value>)
      requires Valid()
      modifies this
      ensures Valid() && (state, Found(previous)) == Apply(old(state), Op.GetMut(v))
    {
      var key := KeyOf(v);
      previous := if key in state then Some(state[key]) else None;
      if previous.Some? {
        state := state[key := v];
      }
    }

    method Remove(key: Key) returns (previous: Option<Value>)
      requires Valid()
      modifies this
      ensures Valid() && (state, Found(previous)) == Apply(old(state), Op.Remove(key))
    {
      previous := if key in state then Some(state[key]) else None;
      assert previous.Some? ==> KeyOf(previous.value) == key;
      state := state - {key};
    }

    method Exists(key: Key) returns (present: bool)
      requires Valid()
      ensures (state, Flag(present)) == Apply(state, Op.Exists(key))
    {
      present := key in state;
    }
  }

  // ---------- the reference: one optional slot of one type ----------

  function SlotApply(slot: Option<Value>, op: Op): (Option<Value>, Reply) {
    match op
    case Insert(v) => (Some(v), Found(slot))
    case Get(_) => (slot, Found(slot))
    case GetMut(v) => (if slot.Some? then Some(v) else None, Found(slot))
    case Remove(_) => (None, Found(slot))
    case Exists(_) => (slot, Flag(slot.Some?))
  }

  function Run(s: Store, ops: seq<Op>): (Store, seq<Reply>)
    decreases |ops|
  {
    if ops == [] then (s, [])
    else
      var (s1, reply) := Apply(s, ops[0]);
      var (s2, replies) := Run(s1, ops[1..]);
      (s2, [reply] + replies)
  }

  function SlotRun(slot: Option<Value>, ops: seq<Op>): (Option<Value>, seq<Reply>)
    decreases |ops|
  {
    if ops == [] then (slot, [])
    else
      var (slot1, reply) := SlotApply(slot, ops[0]);
      var (slot2, replies) := SlotRun(slot1, ops[1..]);
      (slot2, [reply] + replies)
  }

  /** The operations on one type. */
  function Only(ops: seq<Op>, k: Key): seq<Op> {
    if ops == [] then []
    else (if OpKey(ops[0]) == k then [ops[0]] else []) + Only(ops[1..], k)
  }

  /** The replies to the operations on one type. */
  function RepliesTo(ops: seq<Op>, replies: seq<Reply>, k: Key): seq<Reply>
    requires |ops| == |replies|
  {
    if ops == [] then []
    else (if OpKey(ops[0]) == k then [replies[0]] else []) + RepliesTo(ops[1..], replies[1..], k)
  }

  lemma ApplyOnSlot(s: Store, op: Op, k: Key)
    requires Typed(s)
    ensures Typed(Apply(s, op).0) && Apply(s, op).1 != DowncastPanic
    ensures OpKey(op) == k ==> (Lookup(Apply(s, op).0, k), Apply(s, op).1) == SlotApply(Lookup(s, k), op)
    ensures OpKey(op) != k ==> Lookup(Apply(s, op).0, k) == Lookup(s, k)
  {
  }

  /** Every sequence of operations: the stored types stay right, no downcast panics, and what
      happens to one type is what its own operations do to a single optional slot. */
  lemma {:induction false} ContextIsOneSlotPerType(s: Store, ops: seq<Op>, k: Key)
    requires Typed(s)
    ensures var (s', replies) := Run(s, ops);
            && Typed(s') && |replies| == |ops| && DowncastPanic !in replies
            && (Lookup(s', k), RepliesTo(ops, replies, k)) == SlotRun(Lookup(s, k), Only(ops, k))
    decreases |ops|
  {
    if ops != [] {
      var (s1, reply) := Apply(s, ops[0]);
      var (s2, replies) := Run(s1, ops[1..]);
      ApplyOnSlot(s, ops[0], k);
      ContextIsOneSlotPerType(s1, ops[1..], k);
      assert ([reply] + replies)[1..] == replies;
      if OpKey(ops[0]) == k {
        assert Only(ops, k)[0] == ops[0] && Only(ops, k)[1..] == Only(ops[1..], k);
      } else {
        assert Only(ops, k) == Only(ops[1..], k);
        assert RepliesTo(ops, [reply] + replies, k) == RepliesTo(ops[1..], replies, k);
      }
    }
  }

  /** What a write shows to later reads: an insertion its value, a removal nothing, a borrow the
      value written through it if there was one; each answers with what a read gave before, and
      reads of other types see no change. */
  lemma WriteThenRead(s: Store, op: Op, k: Key)
    requires Typed(s)
    ensures var (s', reply) := Apply(s, op);
            var before := Apply(s, Get(OpKey(op))).1;
            var after := Apply(s', Get(OpKey(op))).1;
            && (op.Insert? ==> after == Found(Some(op.v)))
            && (op.Remove? ==> after == Found(None))
            && (op.GetMut? ==> after == if before == Found(None) then before else Found(Some(op.v)))
            && (op.Get? || op.Exists? ==> s' == s)
            && (if op.Exists? then reply == Flag(before != Found(None)) else reply == before)
            && (k != OpKey(op) ==> Apply(s', Get(k)).1 == Apply(s, Get(k)).1)
  {
  }

  /** `exists` agrees with `get` after any operations on a new context. */
  lemma ExistsAgreesWithGet(ops: seq<Op>, k: Key)
    ensures var s := Run(map[], ops).0;
            Apply(s, Exists(k)).1 == Flag(Apply(s, Get(k)).1 != Found(None))
  {
    ContextIsOneSlotPerType(map[], ops, k);
  }
}
