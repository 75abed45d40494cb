/** Shared memory between chains: the directed stores of every chain pair, and the atomic commit of
one chain's requests to many peers (chains/atomic/shared_memory.go, memory.go, prefixes.go, writer.go).

Chain IDs and shared IDs are 32 bytes compared bytewise, so they are ordered like numbers. The hash
behind sharedID is any injective function. A prefixdb is one slot of the base database; distinct
prefixes are distinct slots.
*/
module SharedMemory {
  import opened ByteStrings
  import AtomicState
  import opened Database
  import Paging

  type ID = nat

  type Values = AtomicState.Values
  type Index = AtomicState.Index
  type Store = AtomicState.Store
  type Element = AtomicState.Element
  type Error = AtomicState.Error

  datatype Slot =
    | Table(shared: ID, prefix: byte)  // prefixdb.New(prefix, prefixdb.NewNested(sharedID, db))
    | Raw(key: Bytes)                  // everything else that lives in the same database

  datatype Cell = ValueTable(values: Values) | IndexTable(index: Index) | Blob(bytes: Bytes)

  type Db = map<Slot, Cell>

  type Batch = seq<BatchOp<Slot, Cell>>

  type Hash = (ID, ID) -> ID

  ghost predicate Injective(h: Hash) {
    forall a, b, c, d :: h(a, b) == h(c, d) ==> a == c && b == d
  }

  /** The ID of the space shared by two chains, whichever of them asks. */
  function SharedID(h: Hash, a: ID, b: ID): ID {
    if a > b then h(b, a) else h(a, b)
  }

  lemma SharedIDInjective(h: Hash, my: ID, p: ID, q: ID)
    requires Injective(h)
    ensures SharedID(h, my, p) == SharedID(h, my, q) <==> p == q
    ensures SharedID(h, my, p) == SharedID(h, p, my)
  {
  }

  // ---------------------------------------------------------------- directed channels

  datatype Prefixes = Prefixes(smallerValue: byte, smallerIndex: byte, largerValue: byte, largerIndex: byte)

  const INBOUND := Prefixes(0, 1, 2, 3)

  const OUTBOUND := Prefixes(2, 3, 0, 1)

  datatype Channel = Channel(values: Slot, index: Slot)

  /** getValueAndIndexDB on the database shared by the two chains. */
  function ChannelOf(h: Hash, p: Prefixes, my: ID, peer: ID): Channel {
    var shared := SharedID(h, my, peer);
    if my < peer then Channel(Table(shared, p.smallerValue), Table(shared, p.smallerIndex))
    else Channel(Table(shared, p.largerValue), Table(shared, p.largerIndex))
  }

  function Inbound(h: Hash, my: ID, peer: ID): Channel { ChannelOf(h, INBOUND, my, peer) }

  function Outbound(h: Hash, my: ID, peer: ID): Channel { ChannelOf(h, OUTBOUND, my, peer) }

  /** What A writes for B is what B reads and removes from A, exactly when they are different chains. */
  lemma ChannelIsShared(h: Hash, a: ID, b: ID)
    ensures Outbound(h, a, b) == Inbound(h, b, a) <==> a != b
  {
  }

  ghost predicate Disjoint(c: Channel, d: Channel) {
    c.values != d.values && c.values != d.index && c.index != d.values && c.index != d.index
  }

  /** No two ordered pairs of chains write to a common table, and within one channel the values and
      the index are apart. */
  lemma ChannelsDisjoint(h: Hash, a: ID, b: ID, c: ID, d: ID)
    requires Injective(h)
    ensures Outbound(h, a, b).values != Outbound(h, a, b).index
    ensures (a, b) != (c, d) <==> Disjoint(Outbound(h, a, b), Outbound(h, c, d))
    ensures (a, b) != (c, d) <==> Disjoint(Inbound(h, a, b), Inbound(h, c, d))
    ensures Disjoint(Inbound(h, a, b), Outbound(h, a, b))
    ensures b != d ==> Disjoint(Inbound(h, a, b), Outbound(h, a, d))
  {
  }

  function ValuesAt(db: Db, slot: Slot): Values {
    if slot in db && db[slot].ValueTable? then db[slot].values else map[]
  }

  function IndexAt(db: Db, slot: Slot): Index {
    if slot in db && db[slot].IndexTable? then db[slot].index else map[]
  }

  function StoreAt(db: Db, c: Channel): Store {
    AtomicState.Store(ValuesAt(db, c.values), IndexAt(db, c.index))
  }

  function WriteStore(db: Db, c: Channel, s: Store): Db {
    db[c.values := ValueTable(s.values)][c.index := IndexTable(s.index)]
  }

  // ---------------------------------------------------------------- one request

  datatype Requests = Requests(removes: seq<Bytes>, puts: seq<Element>)

  function RemoveOps(keys: seq<Bytes>): seq<AtomicState.Op> {
    seq(|keys|, i requires 0 <= i < |keys| => AtomicState.Remove(keys[i]))
  }

  function PutOps(elements: seq<Element>): seq<AtomicState.Op> {
    seq(|elements|, i requires 0 <= i < |elements| => AtomicState.Put(elements[i]))
  }

  /** The operations in order, up to the first error. */
  function PerformAll(s: Store, ops: seq<AtomicState.Op>): Result<Store, Error>
    decreases |ops|
  {
    if ops == [] then Ok(s)
    else match AtomicState.Perform(s, ops[0])
      case Err(e) => Err(e)
      case Ok(t) => PerformAll(t, ops[1..])
  }

  // ---------------------------------------------------------------- what a list of puts or removals does

  function KeysOf(elements: seq<Element>): seq<Bytes> {
    seq(|elements|, i requires 0 <= i < |elements| => elements[i].key)
  }

  /** How often a list names a key. */
  function Count(keys: seq<Bytes>, k: Bytes): nat { multiset(keys)[k] }

  ghost predicate SameEntry(s: Store, t: Store, k: Bytes) {
    (k in s.values <==> k in t.values) && (k in s.values ==> s.values[k] == t.values[k])
  }

  /** `puts[i]` is the last put of its key. */
  ghost predicate LastOfKey(puts: seq<Element>, i: nat) {
    i < |puts| && forall j :: i < j < |puts| ==> puts[j].key != puts[i].key
  }

  /** Every element of `puts` has been put: a key's status has risen by the number of its puts, a key that is
      then present has the value and the traits of its last one, and no other key has changed. */
  ghost predicate PutInto(s: Store, t: Store, puts: seq<Element>) {
    && (forall k :: AtomicState.Status(t, k) == AtomicState.Status(s, k) + Count(KeysOf(puts), k))
    && (forall i: nat :: LastOfKey(puts, i) && AtomicState.IsPresent(t, puts[i].key) ==>
          t.values[puts[i].key] == AtomicState.DbElement(true, puts[i].value, puts[i].traits))
    && (forall k :: k !in KeysOf(puts) ==> SameEntry(s, t, k))
  }

  /** Every key of `keys` has been removed. */
  ghost predicate RemovedFrom(s: Store, t: Store, keys: seq<Bytes>) {
    && (forall k :: AtomicState.Status(t, k) == AtomicState.Status(s, k) - Count(keys, k))
    && (forall k :: k in keys && k in t.values ==> t.values[k] == AtomicState.TOMBSTONE)
    && (forall k :: k !in keys ==> SameEntry(s, t, k))
  }

  /** No key's status rises above 1. */
  ghost predicate PutsFit(s: Store, puts: seq<Element>) {
    forall k :: AtomicState.Status(s, k) + Count(KeysOf(puts), k) <= 1
  }

  /** No key's status falls below -1. */
  ghost predicate RemovesFit(s: Store, keys: seq<Bytes>) {
    forall k :: AtomicState.Status(s, k) - Count(keys, k) >= -1
  }

  lemma CountFirst(keys: seq<Bytes>, k: Bytes)
    requires keys != []
    ensures Count(keys, k) == Count(keys[1..], k) + if k == keys[0] then 1 else 0
  {
    assert keys == [keys[0]] + keys[1..];
  }

  /** One put before the others. */
  lemma PutFirst(s: Store, puts: seq<Element>, u: Store)
    requires puts != [] && AtomicState.SetValue(s, puts[0]) == Ok(u)
    ensures PutsFit(s, puts) <==> PutsFit(u, puts[1..])
    ensures forall t :: PutInto(u, t, puts[1..]) ==> PutInto(s, t, puts)
  {
    var rest := puts[1..];
    assert KeysOf(puts)[1..] == KeysOf(rest);
    forall k ensures AtomicState.Status(s, k) + Count(KeysOf(puts), k) == AtomicState.Status(u, k) + Count(KeysOf(rest), k) {
      CountFirst(KeysOf(puts), k);
    }
    forall t | PutInto(u, t, rest) ensures PutInto(s, t, puts) {
      forall i: nat | LastOfKey(puts, i) && AtomicState.IsPresent(t, puts[i].key)
        ensures t.values[puts[i].key] == AtomicState.DbElement(true, puts[i].value, puts[i].traits)
      {
        if i == 0 {
          assert puts[0].key !in KeysOf(rest);
          assert SameEntry(u, t, puts[0].key);
        } else {
          assert LastOfKey(rest, i - 1);
        }
      }
      forall k | k !in KeysOf(puts) ensures SameEntry(s, t, k) {
        assert KeysOf(puts)[0] == puts[0].key;
        assert k !in KeysOf(rest);
        assert SameEntry(u, t, k);
      }
    }
  }

  /** The puts of a request succeed exactly if they fit, and then each of them has been made. */
  lemma {:induction false} PutsExactly(s: Store, puts: seq<Element>)
    ensures match PerformAll(s, PutOps(puts))
      case Ok(t) => PutsFit(s, puts) && PutInto(s, t, puts)
      case Err(e) => !PutsFit(s, puts) && e == AtomicState.DuplicatePut
    decreases |puts|
  {
    if puts != [] {
      assert PutOps(puts)[1..] == PutOps(puts[1..]);
      CountFirst(KeysOf(puts), puts[0].key);
      match AtomicState.SetValue(s, puts[0])
      case Ok(u) =>
        PutFirst(s, puts, u);
        PutsExactly(u, puts[1..]);
      case Err(_) =>
    }
  }

  /** One removal before the others. */
  lemma RemoveFirst(s: Store, keys: seq<Bytes>, u: Store)
    requires keys != [] && AtomicState.RemoveValue(s, keys[0]) == Ok(u)
    ensures RemovesFit(s, keys) <==> RemovesFit(u, keys[1..])
    ensures forall t :: RemovedFrom(u, t, keys[1..]) ==> RemovedFrom(s, t, keys)
  {
    var rest := keys[1..];
    forall k ensures AtomicState.Status(s, k) - Count(keys, k) == AtomicState.Status(u, k) - Count(rest, k) {
      CountFirst(keys, k);
    }
    forall t | RemovedFrom(u, t, rest) ensures RemovedFrom(s, t, keys) {
      forall k | k in keys && k in t.values ensures t.values[k] == AtomicState.TOMBSTONE {
        if k !in rest { assert k == keys[0] && SameEntry(u, t, k); }
      }
      forall k | k !in keys ensures SameEntry(s, t, k) {
        assert k !in rest && SameEntry(u, t, k);
      }
    }
  }

  /** And so do the removals. */
  lemma {:induction false} RemovesExactly(s: Store, keys: seq<Bytes>)
    ensures match PerformAll(s, RemoveOps(keys))
      case Ok(t) => RemovesFit(s, keys) && RemovedFrom(s, t, keys)
      case Err(e) => !RemovesFit(s, keys) && e == AtomicState.DuplicateRemove
    decreases |keys|
  {
    if keys != [] {
      assert RemoveOps(keys)[1..] == RemoveOps(keys[1..]);
      CountFirst(keys, keys[0]);
      match AtomicState.RemoveValue(s, keys[0])
      case Ok(u) =>
        RemoveFirst(s, keys, u);
        RemovesExactly(u, keys[1..]);
      case Err(_) =>
    }
  }

  // ---------------------------------------------------------------- one peer's request

  ghost predicate PeerOk(db: Db, h: Hash, my: ID, peer: ID, req: Requests) {
    && PerformAll(StoreAt(db, Inbound(h, my, peer)), RemoveOps(req.removes)).Ok?
    && PerformAll(StoreAt(db, Outbound(h, my, peer)), PutOps(req.puts)).Ok?
  }

  /** A request fits if, for every key, it takes no status out of [-1, 1]. */
  ghost predicate RequestFits(db: Db, h: Hash, my: ID, peer: ID, req: Requests) {
    RemovesFit(StoreAt(db, Inbound(h, my, peer)), req.removes) && PutsFit(StoreAt(db, Outbound(h, my, peer)), req.puts)
  }

  lemma PeerOkExactly(db: Db, h: Hash, my: ID, peer: ID, req: Requests)
    ensures PeerOk(db, h, my, peer, req) <==> RequestFits(db, h, my, peer, req)
  {
    RemovesExactly(StoreAt(db, Inbound(h, my, peer)), req.removes);
    PutsExactly(StoreAt(db, Outbound(h, my, peer)), req.puts);
  }

  /** Everything the request asks for has been done to the two stores that are shared with the peer. */
  ghost predicate Delivered(before: Db, after: Db, h: Hash, my: ID, peer: ID, req: Requests) {
    && RemovedFrom(StoreAt(before, Inbound(h, my, peer)), StoreAt(after, Inbound(h, my, peer)), req.removes)
    && PutInto(StoreAt(before, Outbound(h, my, peer)), StoreAt(after, Outbound(h, my, peer)), req.puts)
  }

  ghost predicate AllFit(db: Db, h: Hash, my: ID, requests: map<ID, Requests>) {
    forall peer :: peer in requests ==> RequestFits(db, h, my, peer, requests[peer])
  }

  ghost predicate AllDelivered(before: Db, after: Db, h: Hash, my: ID, requests: map<ID, Requests>) {
    forall peer :: peer in requests ==> Delivered(before, after, h, my, peer, requests[peer])
  }

  lemma AllOkExactly(db: Db, h: Hash, my: ID, requests: map<ID, Requests>)
    ensures (forall peer :: peer in requests ==> PeerOk(db, h, my, peer, requests[peer])) <==> AllFit(db, h, my, requests)
  {
    forall peer | peer in requests
      ensures PeerOk(db, h, my, peer, requests[peer]) <==> RequestFits(db, h, my, peer, requests[peer])
    {
      PeerOkExactly(db, h, my, peer, requests[peer]);
    }
  }

  /** The stores of one peer after its request. */
  ghost function PeerStores(db: Db, h: Hash, my: ID, peer: ID, req: Requests): (Store, Store)
    requires PeerOk(db, h, my, peer, req)
  {
    (PerformAll(StoreAt(db, Inbound(h, my, peer)), RemoveOps(req.removes)).value,
     PerformAll(StoreAt(db, Outbound(h, my, peer)), PutOps(req.puts)).value)
  }

  ghost function PeerEffect(db: Db, h: Hash, my: ID, peer: ID, req: Requests): Db
    requires PeerOk(db, h, my, peer, req)
  {
    var (received, sent) := PeerStores(db, h, my, peer, req);
    WriteStore(WriteStore(db, Inbound(h, my, peer), received), Outbound(h, my, peer), sent)
  }

  // ---------------------------------------------------------------- all requests

  ghost predicate Touches(h: Hash, my: ID, peer: ID, slot: Slot) {
    || slot == Inbound(h, my, peer).values || slot == Inbound(h, my, peer).index
    || slot == Outbound(h, my, peer).values || slot == Outbound(h, my, peer).index
  }

  ghost predicate SameSlot(a: Db, b: Db, slot: Slot) {
    (slot in a <==> slot in b) && (slot in a ==> a[slot] == b[slot])
  }

  /** The stores of `peer` in `after` are those of `before` with the peer's request performed. */
  ghost predicate PeerApplied(before: Db, after: Db, h: Hash, my: ID, peer: ID, req: Requests) {
    && PeerOk(before, h, my, peer, req)
    && forall slot :: Touches(h, my, peer, slot) ==> SameSlot(after, PeerEffect(before, h, my, peer, req), slot)
  }

  /** `after` is `before` with exactly the requests to `peers` performed: an order-free description. */
  ghost predicate Applied(before: Db, after: Db, h: Hash, my: ID, requests: map<ID, Requests>, peers: set<ID>)
    requires peers <= requests.Keys
  {
    && (forall peer :: peer in peers ==> PeerApplied(before, after, h, my, peer, requests[peer]))
    && (forall slot :: (forall peer :: peer in peers ==> !Touches(h, my, peer, slot)) ==> SameSlot(after, before, slot))
  }

  lemma TouchedByOne(h: Hash, my: ID, p: ID, q: ID, slot: Slot)
    requires Injective(h) && Touches(h, my, p, slot) && Touches(h, my, q, slot)
    ensures p == q
  {
    ChannelsDisjoint(h, my, p, my, q);
    ChannelsDisjoint(h, my, q, my, p);
  }

  lemma PeerEffectLocal(db: Db, h: Hash, my: ID, peer: ID, req: Requests, slot: Slot)
    requires PeerOk(db, h, my, peer, req) && !Touches(h, my, peer, slot)
    ensures SameSlot(PeerEffect(db, h, my, peer, req), db, slot)
  {
  }

  /** A request depends only on the slots of its own peer. */
  lemma PeerEffectDepends(a: Db, b: Db, h: Hash, my: ID, peer: ID, req: Requests)
    requires forall slot :: Touches(h, my, peer, slot) ==> SameSlot(a, b, slot)
    ensures PeerOk(a, h, my, peer, req) <==> PeerOk(b, h, my, peer, req)
    ensures PeerOk(a, h, my, peer, req) ==> forall slot :: Touches(h, my, peer, slot) ==>
              SameSlot(PeerEffect(a, h, my, peer, req), PeerEffect(b, h, my, peer, req), slot)
  {
    var i, o := Inbound(h, my, peer), Outbound(h, my, peer);
    assert SameSlot(a, b, i.values) && SameSlot(a, b, i.index) && SameSlot(a, b, o.values) && SameSlot(a, b, o.index);
    assert StoreAt(a, i) == StoreAt(b, i) && StoreAt(a, o) == StoreAt(b, o);
  }

  lemma AppliedNone(db: Db, h: Hash, my: ID, requests: map<ID, Requests>)
    ensures Applied(db, db, h, my, requests, {})
  {
  }

  lemma UntouchedSoFar(before: Db, mid: Db, h: Hash, my: ID, requests: map<ID, Requests>, peers: set<ID>, peer: ID, slot: Slot)
    requires Injective(h) && peers <= requests.Keys && peer !in peers
    requires Applied(before, mid, h, my, requests, peers) && Touches(h, my, peer, slot)
    ensures SameSlot(mid, before, slot)
  {
    forall p | p in peers
      ensures !Touches(h, my, p, slot)
    {
      if Touches(h, my, p, slot) { TouchedByOne(h, my, p, peer, slot); }
    }
  }

  lemma OthersStayApplied(before: Db, mid: Db, h: Hash, my: ID, requests: map<ID, Requests>, p: ID, peer: ID)
    requires Injective(h) && p in requests && peer in requests && p != peer
    requires PeerApplied(before, mid, h, my, p, requests[p]) && PeerOk(mid, h, my, peer, requests[peer])
    ensures PeerApplied(before, PeerEffect(mid, h, my, peer, requests[peer]), h, my, p, requests[p])
  {
    var after := PeerEffect(mid, h, my, peer, requests[peer]);
    forall slot | Touches(h, my, p, slot)
      ensures SameSlot(after, mid, slot)
    {
      if Touches(h, my, peer, slot) { TouchedByOne(h, my, p, peer, slot); }
      PeerEffectLocal(mid, h, my, peer, requests[peer], slot);
    }
  }

  /** Performing one more peer's request on top of others gives what it would have given alone. */
  lemma AppliedOneMore(before: Db, mid: Db, h: Hash, my: ID, requests: map<ID, Requests>, peers: set<ID>, peer: ID)
    requires Injective(h) && peers <= requests.Keys && peer in requests && peer !in peers
    requires Applied(before, mid, h, my, requests, peers)
    ensures PeerOk(mid, h, my, peer, requests[peer]) <==> PeerOk(before, h, my, peer, requests[peer])
    ensures PeerOk(mid, h, my, peer, requests[peer]) ==>
              Applied(before, PeerEffect(mid, h, my, peer, requests[peer]), h, my, requests, peers + {peer})
  {
    var req := requests[peer];
    forall slot | Touches(h, my, peer, slot)
      ensures SameSlot(mid, before, slot)
    {
      UntouchedSoFar(before, mid, h, my, requests, peers, peer, slot);
    }
    PeerEffectDepends(mid, before, h, my, peer, req);
    if PeerOk(mid, h, my, peer, req) {
      var after := PeerEffect(mid, h, my, peer, req);
      forall p | p in peers + {peer}
        ensures PeerApplied(before, after, h, my, p, requests[p])
      {
        if p != peer { OthersStayApplied(before, mid, h, my, requests, p, peer); }
      }
      forall slot | forall p :: p in peers + {peer} ==> !Touches(h, my, p, slot)
        ensures SameSlot(after, before, slot)
      {
        assert peer in peers + {peer};
        forall p | p in peers
          ensures !Touches(h, my, p, slot)
        {
          assert p in peers + {peer};
        }
        assert SameSlot(mid, before, slot);
        PeerEffectLocal(mid, h, my, peer, req, slot);
      }
    }
  }

  /** The outcome does not depend on the order in which the peers are processed: the description
      above has only one solution. */
  lemma AppliedUnique(before: Db, a: Db, b: Db, h: Hash, my: ID, requests: map<ID, Requests>)
    requires Applied(before, a, h, my, requests, requests.Keys) && Applied(before, b, h, my, requests, requests.Keys)
    ensures a == b
  {
    forall slot
      ensures SameSlot(a, b, slot)
    {
      if peer :| peer in requests.Keys && Touches(h, my, peer, slot) {
        assert PeerApplied(before, a, h, my, peer, requests[peer]) && PeerApplied(before, b, h, my, peer, requests[peer]);
      } else {
        assert SameSlot(a, before, slot) && SameSlot(b, before, slot);
      }
    }
    assert forall slot :: slot in a ==> SameSlot(a, b, slot);
    assert forall slot :: slot in b ==> SameSlot(a, b, slot);
  }

  /** A peer's two stores after the requests, in terms of the stores before. */
  lemma AppliedPeer(before: Db, after: Db, h: Hash, my: ID, requests: map<ID, Requests>, peer: ID)
    requires Injective(h) && Applied(before, after, h, my, requests, requests.Keys) && peer in requests
    ensures PerformAll(StoreAt(before, Inbound(h, my, peer)), RemoveOps(requests[peer].removes)) == Ok(StoreAt(after, Inbound(h, my, peer)))
    ensures PerformAll(StoreAt(before, Outbound(h, my, peer)), PutOps(requests[peer].puts)) == Ok(StoreAt(after, Outbound(h, my, peer)))
  {
    var i, o := Inbound(h, my, peer), Outbound(h, my, peer);
    assert PeerApplied(before, after, h, my, peer, requests[peer]);
    assert Touches(h, my, peer, i.values) && Touches(h, my, peer, i.index) && Touches(h, my, peer, o.values) && Touches(h, my, peer, o.index);
    ChannelsDisjoint(h, my, peer, my, peer);
  }

  /** Reading the description: what A sends B is put into the store B reads, what A removes is taken
      from the store B sends to, and every other pair of chains is left alone. */
  lemma AppliedStores(before: Db, after: Db, h: Hash, my: ID, requests: map<ID, Requests>, peer: ID)
    requires Injective(h) && Applied(before, after, h, my, requests, requests.Keys)
    ensures peer in requests && peer != my ==>
      && PerformAll(StoreAt(before, Inbound(h, peer, my)), PutOps(requests[peer].puts)) == Ok(StoreAt(after, Inbound(h, peer, my)))
      && PerformAll(StoreAt(before, Outbound(h, peer, my)), RemoveOps(requests[peer].removes)) == Ok(StoreAt(after, Outbound(h, peer, my)))
    ensures forall c, d :: c != my && d != my ==> StoreAt(after, Outbound(h, c, d)) == StoreAt(before, Outbound(h, c, d))
    ensures peer !in requests ==> StoreAt(after, Outbound(h, my, peer)) == StoreAt(before, Outbound(h, my, peer))
  {
    if peer in requests && peer != my {
      AppliedPeer(before, after, h, my, requests, peer);
      ChannelIsShared(h, my, peer);
      ChannelIsShared(h, peer, my);
    }
    forall c, d | c != my && d != my
      ensures StoreAt(after, Outbound(h, c, d)) == StoreAt(before, Outbound(h, c, d))
    {
      forall p | p in requests.Keys
        ensures !Touches(h, my, p, Outbound(h, c, d).values) && !Touches(h, my, p, Outbound(h, c, d).index)
      {
        OtherPairsUntouched(h, my, p, c, d);
      }
      assert SameSlot(after, before, Outbound(h, c, d).values) && SameSlot(after, before, Outbound(h, c, d).index);
    }
    if peer !in requests {
      var o := Outbound(h, my, peer);
      forall p | p in requests.Keys
        ensures !Touches(h, my, p, o.values) && !Touches(h, my, p, o.index)
      {
        ChannelsDisjoint(h, my, p, my, peer);
      }
      assert SameSlot(after, before, o.values) && SameSlot(after, before, o.index);
    }
  }

  /** Every put and every removal of every request has been made, and could be. */
  lemma AppliedDelivers(before: Db, after: Db, h: Hash, my: ID, requests: map<ID, Requests>, peer: ID)
    requires Injective(h) && Applied(before, after, h, my, requests, requests.Keys) && peer in requests
    ensures RequestFits(before, h, my, peer, requests[peer])
    ensures Delivered(before, after, h, my, peer, requests[peer])
  {
    AppliedPeer(before, after, h, my, requests, peer);
    RemovesExactly(StoreAt(before, Inbound(h, my, peer)), requests[peer].removes);
    PutsExactly(StoreAt(before, Outbound(h, my, peer)), requests[peer].puts);
  }

  lemma OtherPairsUntouched(h: Hash, my: ID, p: ID, c: ID, d: ID)
    requires Injective(h) && c != my && d != my
    ensures !Touches(h, my, p, Outbound(h, c, d).values) && !Touches(h, my, p, Outbound(h, c, d).index)
  {
    assert SharedID(h, my, p) != SharedID(h, c, d);
  }

  // ---------------------------------------------------------------- every reachable database

  ghost function ReplayAll(db: Db, batches: seq<Batch>): Db {
    if batches == [] then db else Replay(ReplayAll(db, batches[..|batches| - 1]), batches[|batches| - 1])
  }

  /** A successful Apply: all requests of `my`, then the caller's batches in order. */
  ghost predicate Commits(before: Db, after: Db, h: Hash, my: ID, requests: map<ID, Requests>, batches: seq<Batch>) {
    exists mid :: Applied(before, mid, h, my, requests, requests.Keys) && after == ReplayAll(mid, batches)
  }

  ghost predicate OutsideTables(batch: Batch) {
    forall i :: 0 <= i < |batch| ==> batch[i].key.Raw?
  }

  ghost predicate AllOutside(batches: seq<Batch>) {
    forall i :: 0 <= i < |batches| ==> OutsideTables(batches[i])
  }

  ghost predicate ConsistentAt(db: Db, c: Channel) {
    AtomicState.Consistent(StoreAt(db, c))
  }

  /** In every store that a chain reads or writes the trait index agrees with the table of values. */
  ghost predicate AllConsistent(db: Db, h: Hash) {
    && (forall a, b :: ConsistentAt(db, Outbound(h, a, b)))
    && (forall a, b :: ConsistentAt(db, Inbound(h, a, b)))
  }

  /** What a chain reads is what a peer writes, but for the store a chain reads from itself. */
  lemma AllConsistentBy(db: Db, h: Hash)
    requires forall a, b :: ConsistentAt(db, Outbound(h, a, b))
    requires forall m :: ConsistentAt(db, Inbound(h, m, m))
    ensures AllConsistent(db, h)
  {
    forall a, b ensures ConsistentAt(db, Inbound(h, a, b)) {
      if a != b {
        ChannelIsShared(h, b, a);
        assert ConsistentAt(db, Outbound(h, b, a));
      }
    }
  }

  lemma {:induction false} PerformAllConsistent(s: Store, ops: seq<AtomicState.Op>)
    requires AtomicState.Consistent(s) && PerformAll(s, ops).Ok?
    ensures AtomicState.Consistent(PerformAll(s, ops).value)
    decreases |ops|
  {
    if ops != [] {
      match ops[0] {
        case Put(e) => AtomicState.SetValueConsistent(s, e);
        case Remove(k) => AtomicState.RemoveValueConsistent(s, k);
      }
      PerformAllConsistent(AtomicState.Perform(s, ops[0]).value, ops[1..]);
    }
  }

  lemma AppliedConsistent(before: Db, after: Db, h: Hash, my: ID, requests: map<ID, Requests>)
    requires Injective(h) && AllConsistent(before, h) && Applied(before, after, h, my, requests, requests.Keys)
    ensures AllConsistent(after, h)
  {
    forall a, b ensures ConsistentAt(after, Outbound(h, a, b)) {
      assert ConsistentAt(before, Outbound(h, a, b));
      ChannelConsistent(before, after, h, my, requests, a, b);
    }
    forall m ensures ConsistentAt(after, Inbound(h, m, m)) {
      assert ConsistentAt(before, Inbound(h, m, m));
      SelfInboundConsistent(before, after, h, my, requests, m);
    }
    AllConsistentBy(after, h);
  }

  /** The store that a chain reads and removes from when it is its own peer. */
  lemma SelfInboundConsistent(before: Db, after: Db, h: Hash, my: ID, requests: map<ID, Requests>, m: ID)
    requires Injective(h) && Applied(before, after, h, my, requests, requests.Keys)
    requires ConsistentAt(before, Inbound(h, m, m))
    ensures ConsistentAt(after, Inbound(h, m, m))
  {
    var c := Inbound(h, m, m);
    if m == my && m in requests {
      AppliedPeer(before, after, h, my, requests, m);
      PerformAllConsistent(StoreAt(before, c), RemoveOps(requests[m].removes));
    } else {
      forall p | p in requests.Keys
        ensures !Touches(h, my, p, c.values) && !Touches(h, my, p, c.index)
      {
        if p == my { assert SharedID(h, my, p) != SharedID(h, m, m); }
      }
      assert SameSlot(after, before, c.values) && SameSlot(after, before, c.index);
    }
  }

  lemma ChannelConsistent(before: Db, after: Db, h: Hash, my: ID, requests: map<ID, Requests>, a: ID, b: ID)
    requires Injective(h) && Applied(before, after, h, my, requests, requests.Keys)
    requires AtomicState.Consistent(StoreAt(before, Outbound(h, a, b)))
    ensures AtomicState.Consistent(StoreAt(after, Outbound(h, a, b)))
  {
    var c := Outbound(h, a, b);
    if a == my && b in requests {
      AppliedPeer(before, after, h, my, requests, b);
      PerformAllConsistent(StoreAt(before, c), PutOps(requests[b].puts));
    } else if b == my && a in requests && a != my {
      ChannelIsShared(h, a, my);
      AppliedPeer(before, after, h, my, requests, a);
      PerformAllConsistent(StoreAt(before, c), RemoveOps(requests[a].removes));
    } else {
      forall p | p in requests.Keys
        ensures !Touches(h, my, p, c.values) && !Touches(h, my, p, c.index)
      {
        UntouchedChannel(h, my, p, a, b);
      }
      assert SameSlot(after, before, c.values) && SameSlot(after, before, c.index);
    }
  }

  lemma UntouchedChannel(h: Hash, my: ID, p: ID, a: ID, b: ID)
    requires Injective(h)
    requires !(a == my && b == p) && !(b == my && a == p && a != my)
    ensures !Touches(h, my, p, Outbound(h, a, b).values) && !Touches(h, my, p, Outbound(h, a, b).index)
  {
  }

  lemma {:induction false} RawKeepsSlots(db: Db, batch: Batch, slot: Slot)
    requires OutsideTables(batch) && slot.Table?
    ensures SameSlot(Replay(db, batch), db, slot)
  {
    if batch != [] {
      RawKeepsSlots(db, batch[..|batch| - 1], slot);
      assert batch[|batch| - 1].key.Raw?;
    }
  }

  lemma {:induction false} RawKeepsAllSlots(db: Db, batches: seq<Batch>, slot: Slot)
    requires AllOutside(batches) && slot.Table?
    ensures SameSlot(ReplayAll(db, batches), db, slot)
  {
    if batches != [] {
      RawKeepsAllSlots(db, batches[..|batches| - 1], slot);
      RawKeepsSlots(ReplayAll(db, batches[..|batches| - 1]), batches[|batches| - 1], slot);
    }
  }

  /** One call of Apply, by any chain, with batches that stay out of the shared tables. */
  ghost predicate ApplyCall(h: Hash, before: Db, after: Db) {
    || after == before
    || exists my, requests, batches: seq<Batch> ::
         && AllOutside(batches)
         && Commits(before, after, h, my, requests, batches)
  }

  lemma ApplyCallConsistent(h: Hash, before: Db, after: Db)
    requires Injective(h) && AllConsistent(before, h) && ApplyCall(h, before, after)
    ensures AllConsistent(after, h)
  {
    if after != before {
      var my, requests, batches: seq<Batch> :|
        && AllOutside(batches)
        && Commits(before, after, h, my, requests, batches);
      var mid :| Applied(before, mid, h, my, requests, requests.Keys) && after == ReplayAll(mid, batches);
      AppliedConsistent(before, mid, h, my, requests);
      forall a, b ensures ConsistentAt(after, Outbound(h, a, b)) && ConsistentAt(after, Inbound(h, a, b)) {
        RawKeepsChannel(mid, batches, Outbound(h, a, b));
        RawKeepsChannel(mid, batches, Inbound(h, a, b));
      }
    }
  }

  lemma RawKeepsChannel(db: Db, batches: seq<Batch>, c: Channel)
    requires AllOutside(batches) && c.values.Table? && c.index.Table?
    ensures StoreAt(ReplayAll(db, batches), c) == StoreAt(db, c)
    ensures ConsistentAt(ReplayAll(db, batches), c) <==> ConsistentAt(db, c)
  {
    RawKeepsAllSlots(db, batches, c.values);
    RawKeepsAllSlots(db, batches, c.index);
  }

  /** A committed call has delivered all its requests, which fitted, unless its batches write into the shared
      tables. */
  lemma CommitsDelivers(before: Db, after: Db, h: Hash, my: ID, requests: map<ID, Requests>, batches: seq<Batch>)
    requires Injective(h) && Commits(before, after, h, my, requests, batches)
    ensures AllFit(before, h, my, requests)
    ensures AllOutside(batches) ==> AllDelivered(before, after, h, my, requests)
  {
    var mid :| Applied(before, mid, h, my, requests, requests.Keys) && after == ReplayAll(mid, batches);
    forall peer | peer in requests
      ensures RequestFits(before, h, my, peer, requests[peer])
      ensures AllOutside(batches) ==> Delivered(before, after, h, my, peer, requests[peer])
    {
      AppliedDelivers(before, mid, h, my, requests, peer);
      if AllOutside(batches) {
        RawKeepsChannel(mid, batches, Inbound(h, my, peer));
        RawKeepsChannel(mid, batches, Outbound(h, my, peer));
      }
    }
  }

  /** What one call adds to the status of a key that `a` sends to `b`: 1 for every put by `a`, and -1 for every
      removal by `b`. */
  function Moved(my: ID, requests: map<ID, Requests>, a: ID, b: ID, k: Bytes): int {
    (if my == a && b in requests then Count(KeysOf(requests[b].puts), k) else 0) -
    (if my == b && a in requests then Count(requests[a].removes, k) else 0)
  }

  lemma CommitsMoves(before: Db, after: Db, h: Hash, my: ID, requests: map<ID, Requests>, batches: seq<Batch>, a: ID, b: ID, k: Bytes)
    requires Injective(h) && Commits(before, after, h, my, requests, batches) && AllOutside(batches) && a != b
    ensures AtomicState.Status(StoreAt(after, Outbound(h, a, b)), k) ==
            AtomicState.Status(StoreAt(before, Outbound(h, a, b)), k) + Moved(my, requests, a, b, k)
  {
    CommitsDelivers(before, after, h, my, requests, batches);
    ChannelIsShared(h, a, b);
    if my == a && b in requests {
      assert Delivered(before, after, h, my, b, requests[b]);
    } else if my == b && a in requests {
      assert Delivered(before, after, h, my, a, requests[a]);
    } else {
      CommitsLeaves(before, after, h, my, requests, batches, a, b);
    }
  }

  /** A pair of chains that the call is not about. */
  lemma CommitsLeaves(before: Db, after: Db, h: Hash, my: ID, requests: map<ID, Requests>, batches: seq<Batch>, a: ID, b: ID)
    requires Injective(h) && Commits(before, after, h, my, requests, batches) && AllOutside(batches)
    requires !(my == a && b in requests) && !(my == b && a in requests)
    ensures StoreAt(after, Outbound(h, a, b)) == StoreAt(before, Outbound(h, a, b))
  {
    var mid :| Applied(before, mid, h, my, requests, requests.Keys) && after == ReplayAll(mid, batches);
    var c := Outbound(h, a, b);
    RawKeepsChannel(mid, batches, c);
    forall p | p in requests.Keys
      ensures !Touches(h, my, p, c.values) && !Touches(h, my, p, c.index)
    {
      UntouchedChannel(h, my, p, a, b);
    }
    assert SameSlot(mid, before, c.values) && SameSlot(mid, before, c.index);
  }

  /** After any sequence of Apply calls of any chains on an empty database, every trait index agrees
      with its table. */
  lemma {:induction false} ReachableConsistent(h: Hash, history: seq<Db>)
    requires Injective(h) && history != [] && history[0] == map[]
    requires forall i :: 0 <= i < |history| - 1 ==> ApplyCall(h, history[i], history[i + 1])
    ensures AllConsistent(history[|history| - 1], h)
  {
    if |history| == 1 {
      forall c ensures ConsistentAt(history[0], c) {
        assert StoreAt(history[0], c) == AtomicState.Run([]);
        AtomicState.RunConsistent([]);
      }
    } else {
      ReachableConsistent(h, history[..|history| - 1]);
      ApplyCallConsistent(h, history[|history| - 2], history[|history| - 1]);
    }
  }

  /** So no chain's lookup by trait fails because a listed key has no value: whatever page it is given, every
      key on it is present, for every pair of chains, a chain and itself included. */
  lemma IndexedNeverFails(h: Hash, history: seq<Db>, my: ID, peer: ID, traits: seq<Bytes>, c: Paging.Cursor, limit: int)
    requires Injective(h) && history != [] && history[0] == map[]
    requires forall i :: 0 <= i < |history| - 1 ==> ApplyCall(h, history[i], history[i + 1])
    ensures var s := StoreAt(history[|history| - 1], Inbound(h, my, peer));
      && AtomicState.Consistent(s)
      && forall k :: k in Paging.GetKeys(s.index, traits, c.lastTrait, c.lastKey, limit).keys ==> AtomicState.IsPresent(s, k)
  {
    ReachableConsistent(h, history);
    var s := StoreAt(history[|history| - 1], Inbound(h, my, peer));
    assert ConsistentAt(history[|history| - 1], Inbound(h, my, peer));
    Paging.PageSound(s, traits, c, limit);
  }

  // ---------------------------------------------------------------- the shared memory object

  function InsertID(ids: seq<ID>, x: ID): seq<ID> {
    if ids == [] || x <= ids[0] then [x] + ids else [ids[0]] + InsertID(ids[1..], x)
  }

  /** utils.Sort on IDs. */
  function SortIDs(ids: seq<ID>): seq<ID> {
    if ids == [] then [] else InsertID(SortIDs(ids[1..]), ids[0])
  }

  ghost predicate Ascending(ids: seq<ID>) {
    forall i, j :: 0 <= i < j < |ids| ==> ids[i] < ids[j]
  }

  lemma {:induction false} InsertIDAscending(ids: seq<ID>, x: ID)
    requires Ascending(ids) && x !in ids
    ensures Ascending(InsertID(ids, x))
    ensures forall y :: y in InsertID(ids, x) <==> y in ids || y == x
  {
    if ids != [] {
      assert ids == [ids[0]] + ids[1..];
      if ids[0] < x {
        InsertIDAscending(ids[1..], x);
        var r := InsertID(ids[1..], x);
        assert forall i :: 0 <= i < |r| ==> r[i] in r;
      }
    }
  }

  lemma {:induction false} SortIDsAscending(ids: seq<ID>)
    requires forall i, j :: 0 <= i < j < |ids| ==> ids[i] != ids[j]
    ensures Ascending(SortIDs(ids))
    ensures forall y :: y in SortIDs(ids) <==> y in ids
  {
    if ids != [] {
      assert ids == [ids[0]] + ids[1..];
      SortIDsAscending(ids[1..]);
      InsertIDAscending(SortIDs(ids[1..]), ids[0]);
    }
  }

  /** The ID of a space that `my` shares with a peer of its requests. */
  ghost predicate IsShared(h: Hash, my: ID, requests: map<ID, Requests>, id: ID) {
    exists peer :: peer in requests && id == SharedID(h, my, peer)
  }

  datatype ApplyError = StateError(error: Error) | WriteError

  method PerformEach(s: AtomicState.State, ops: seq<AtomicState.Op>) returns (r: Result<(), Error>)
    modifies s
    ensures match PerformAll(old(s.Contents()), ops)
            case Ok(t) => r == Ok(()) && s.Contents() == t
            case Err(e) => r == Err(e)
  {
    for i := 0 to |ops|
      invariant PerformAll(s.Contents(), ops[i..]) == PerformAll(old(s.Contents()), ops)
    {
      assert ops[i..][1..] == ops[i + 1..];
      match ops[i] {
        case Put(e) => r := s.SetValue(e);
        case Remove(k) => r := s.RemoveValue(k);
      }
      if r.Err? { return; }
    }
    r := Ok(());
  }

  /** The database view of one channel, performed on and written back. */
  method PerformOnChannel(vdb: VersionDB<Slot, Cell>, c: Channel, ops: seq<AtomicState.Op>) returns (r: Result<(), Error>)
    modifies vdb
    ensures match PerformAll(StoreAt(old(vdb.View()), c), ops)
            case Ok(t) => r == Ok(()) && vdb.View() == WriteStore(old(vdb.View()), c, t)
            case Err(e) => r == Err(e)
  {
    var values, index := map[], map[];
    var cell := vdb.Get(c.values);
    if cell.Some? && cell.value.ValueTable? { values := cell.value.values; }
    cell := vdb.Get(c.index);
    if cell.Some? && cell.value.IndexTable? { index := cell.value.index; }
    var s := new AtomicState.State(values, index);
    r := PerformEach(s, ops);
    if r.Ok? {
      vdb.Put(c.values, ValueTable(s.valueDB));
      vdb.Put(c.index, IndexTable(s.indexDB));
    }
  }

  class Memory {
    const hash: Hash
    var db: Db

    constructor (hash: Hash, db: Db)
      ensures this.hash == hash && this.db == db
    {
      this.hash, this.db := hash, db;
    }

    /** Fails exactly when some key was not sent by the peer, or has been removed. */
    method Get(my: ID, peer: ID, keys: seq<Bytes>) returns (r: Result<seq<Bytes>, Error>)
      ensures var s := StoreAt(db, Inbound(hash, my, peer));
        && (r.Ok? <==> forall i :: 0 <= i < |keys| ==> AtomicState.IsPresent(s, keys[i]))
        && (r.Ok? ==> |r.value| == |keys| && forall i :: 0 <= i < |keys| ==> r.value[i] == s.values[keys[i]].value)
        && (r.Err? ==> r.error == AtomicState.NotFound)
    {
      var c := Inbound(hash, my, peer);
      var s := new AtomicState.State(ValuesAt(db, c.values), IndexAt(db, c.index));
      r := ReadAll(s, keys);
    }

    /** One page of the values with any of the traits. It never fails on a consistent store. */
    method Indexed(my: ID, peer: ID, traits: seq<Bytes>, startTrait: Bytes, startKey: Bytes, limit: int)
      returns (r: Result<(seq<Bytes>, Bytes, Bytes), Error>)
      ensures var s := StoreAt(db, Inbound(hash, my, peer));
        var page := Paging.GetKeys(s.index, traits, startTrait, startKey, limit);
        && (AtomicState.Consistent(s) ==> r.Ok?)
        && (r.Ok? ==> r.value.1 == page.lastTrait && r.value.2 == page.lastKey && |r.value.0| == |page.keys|)
        && (r.Ok? ==> forall i :: 0 <= i < |page.keys| ==>
              AtomicState.IsPresent(s, page.keys[i]) && r.value.0[i] == s.values[page.keys[i]].value)
    {
      var c := Inbound(hash, my, peer);
      var s := new AtomicState.State(ValuesAt(db, c.values), IndexAt(db, c.index));
      var page := Paging.GetKeysLoop(s.indexDB, traits, startTrait, startKey, limit);
      ghost var store := s.Contents();
      if AtomicState.Consistent(store) {
        Paging.PageSound(store, traits, Paging.Cursor(startTrait, startKey), limit);
        assert forall i :: 0 <= i < |page.keys| ==> page.keys[i] in page.keys;
      }
      var values := ReadAll(s, page.keys);
      match values
      case Ok(v) => r := Ok((v, page.lastTrait, page.lastKey));
      case Err(e) => r := Err(e);
    }

    /** All or nothing: either every request succeeds on the database as it was, and the new database
        is the requests followed by the batches, or nothing changes. The locks are taken in strictly
        ascending order of the shared IDs. `writeOk` says whether the final write succeeds. */
    method Apply(my: ID, requests: map<ID, Requests>, batches: seq<Batch>, writeOk: bool)
      returns (r: Result<(), ApplyError>, locked: seq<ID>)
      requires Injective(hash)
      modifies this
      ensures r.Ok? <==> writeOk && AllFit(old(db), hash, my, requests)
      ensures r == Err(WriteError) <==> !writeOk && AllFit(old(db), hash, my, requests)
      ensures r.Ok? ==> Commits(old(db), db, hash, my, requests, batches)
      ensures r.Ok? && AllOutside(batches) ==> AllDelivered(old(db), db, hash, my, requests)
      ensures r.Err? ==> db == old(db)
      ensures Ascending(locked)
      ensures r.Ok? ==> forall id :: id in locked <==> IsShared(hash, my, requests, id)
    {
      var vdb := new VersionDB<Slot, Cell>(db);
      var err;
      err, locked := PerformRequests(vdb, my, requests);
      if err.Err? { return Err(StateError(err.error)), locked; }
      var ops := vdb.CommitBatch();
      ops := AppendBatches(ops, batches, db);
      if !writeOk { return Err(WriteError), locked; }
      db := Replay(db, ops);
      CommitsDelivers(old(db), db, hash, my, requests, batches);
      r := Ok(());
    }

    /** The two loops of Apply, on an overlay of the database. */
    method PerformRequests(vdb: VersionDB<Slot, Cell>, my: ID, requests: map<ID, Requests>)
      returns (r: Result<(), Error>, locked: seq<ID>)
      requires Injective(hash) && vdb.View() == vdb.base
      modifies vdb
      ensures r.Ok? <==> AllFit(vdb.base, hash, my, requests)
      ensures r.Ok? ==> Applied(vdb.base, vdb.View(), hash, my, requests, requests.Keys)
      ensures Ascending(locked)
      ensures r.Ok? ==> forall id :: id in locked <==> IsShared(hash, my, requests, id)
    {
      var sharedIDs, peerOf := CollectSharedIDs(my, requests);
      sharedIDs := SortIDs(sharedIDs);
      assert forall i :: 0 <= i < |sharedIDs| ==> sharedIDs[i] in sharedIDs;
      var peers := seq(|sharedIDs|, i requires 0 <= i < |sharedIDs| => peerOf[sharedIDs[i]]);
      PeersListed(my, requests, sharedIDs, peerOf, peers);
      var n;
      r, n := ApplyPeers(vdb, my, requests, peers);
      locked := sharedIDs[..n];
    }

    lemma PeersListed(my: ID, requests: map<ID, Requests>, sharedIDs: seq<ID>, peerOf: map<ID, ID>, peers: seq<ID>)
      requires Ascending(sharedIDs) && |peers| == |sharedIDs|
      requires forall id :: id in sharedIDs <==> id in peerOf
      requires forall id :: id in peerOf ==> peerOf[id] in requests && id == SharedID(hash, my, peerOf[id])
      requires forall peer :: peer in requests ==> SharedID(hash, my, peer) in peerOf && peerOf[SharedID(hash, my, peer)] == peer
      requires forall i :: 0 <= i < |peers| ==> sharedIDs[i] in sharedIDs && peers[i] == peerOf[sharedIDs[i]]
      ensures forall i, j :: 0 <= i < j < |peers| ==> peers[i] != peers[j]
      ensures forall peer :: peer in peers <==> peer in requests
    {
      forall peer | peer in requests
        ensures peer in peers
      {
        var k :| 0 <= k < |sharedIDs| && sharedIDs[k] == SharedID(hash, my, peer);
        assert peers[k] == peer;
      }
    }

    /** The loop of Apply over the peers in the order of their shared IDs, each processed under its
        lock; `n` is the number of locks taken. */
    method ApplyPeers(vdb: VersionDB<Slot, Cell>, my: ID, requests: map<ID, Requests>, peers: seq<ID>)
      returns (r: Result<(), Error>, n: nat)
      requires Injective(hash) && vdb.View() == vdb.base
      requires forall i, j :: 0 <= i < j < |peers| ==> peers[i] != peers[j]
      requires forall peer :: peer in peers <==> peer in requests
      modifies vdb
      ensures r.Ok? <==> AllFit(vdb.base, hash, my, requests)
      ensures r.Ok? ==> Applied(vdb.base, vdb.View(), hash, my, requests, requests.Keys) && n == |peers|
      ensures n <= |peers|
    {
      n := 0;
      AllOkExactly(vdb.base, hash, my, requests);
      AppliedNone(vdb.base, hash, my, requests);
      assert PeerSet(peers[..0]) == {};
      while n < |peers|
        invariant n <= |peers| && PeerSet(peers[..n]) <= requests.Keys
        invariant Applied(vdb.base, vdb.View(), hash, my, requests, PeerSet(peers[..n]))
      {
        var peer := peers[n];
        assert peers[..n + 1] == peers[..n] + [peer];
        assert PeerSet(peers[..n + 1]) == PeerSet(peers[..n]) + {peer} && peer !in PeerSet(peers[..n]);
        AppliedOneMore(vdb.base, vdb.View(), hash, my, requests, PeerSet(peers[..n]), peer);
        n := n + 1;
        r := ApplyPeer(vdb, my, peer, requests[peer]);
        if r.Err? { return; }
      }
      assert peers[..n] == peers;
      assert PeerSet(peers) == requests.Keys;
      assert forall peer :: peer in requests ==> PeerApplied(vdb.base, vdb.View(), hash, my, peer, requests[peer]);
      r := Ok(());
    }

    static ghost function PeerSet(peers: seq<ID>): set<ID> { set p | p in peers }

    /** The first loop of Apply, in the arbitrary order in which a Go map is iterated. */
    method CollectSharedIDs(my: ID, requests: map<ID, Requests>) returns (ids: seq<ID>, peerOf: map<ID, ID>)
      requires Injective(hash)
      ensures Ascending(SortIDs(ids))
      ensures forall id :: id in SortIDs(ids) <==> id in peerOf
      ensures forall id :: id in peerOf ==> peerOf[id] in requests && id == SharedID(hash, my, peerOf[id])
      ensures forall peer :: peer in requests ==> SharedID(hash, my, peer) in peerOf && peerOf[SharedID(hash, my, peer)] == peer
    {
      ids, peerOf := [], map[];
      var left := requests.Keys;
      while left != {}
        invariant left <= requests.Keys
        invariant forall i, j :: 0 <= i < j < |ids| ==> ids[i] != ids[j]
        invariant forall id :: id in ids <==> id in peerOf
        invariant forall id :: id in peerOf ==> peerOf[id] in requests.Keys - left && id == SharedID(hash, my, peerOf[id])
        invariant forall peer :: peer in requests.Keys - left ==> SharedID(hash, my, peer) in peerOf && peerOf[SharedID(hash, my, peer)] == peer
        decreases left
      {
        var peer :| peer in left;
        var id := SharedID(hash, my, peer);
        forall p | p in requests.Keys - left
          ensures SharedID(hash, my, p) != id
        {
          SharedIDInjective(hash, my, p, peer);
        }
        assert id !in peerOf && id !in ids;
        left := left - {peer};
        ids := ids + [id];
        peerOf := peerOf[id := peer];
      }
      SortIDsAscending(ids);
    }

    method ApplyPeer(vdb: VersionDB<Slot, Cell>, my: ID, peer: ID, req: Requests) returns (r: Result<(), Error>)
      requires Injective(hash)
      modifies vdb
      ensures r.Ok? <==> PeerOk(old(vdb.View()), hash, my, peer, req)
      ensures r.Ok? ==> vdb.View() == PeerEffect(old(vdb.View()), hash, my, peer, req)
    {
      ChannelsDisjoint(hash, my, peer, my, peer);
      ghost var before := vdb.View();
      r := PerformOnChannel(vdb, Inbound(hash, my, peer), RemoveOps(req.removes));
      if r.Err? { return; }
      assert StoreAt(vdb.View(), Outbound(hash, my, peer)) == StoreAt(before, Outbound(hash, my, peer));
      r := PerformOnChannel(vdb, Outbound(hash, my, peer), PutOps(req.puts));
    }
  }

  method ReadAll(s: AtomicState.State, keys: seq<Bytes>) returns (r: Result<seq<Bytes>, Error>)
    ensures r.Ok? <==> forall i :: 0 <= i < |keys| ==> AtomicState.IsPresent(s.Contents(), keys[i])
    ensures r.Ok? ==> |r.value| == |keys| && forall i :: 0 <= i < |keys| ==> r.value[i] == s.valueDB[keys[i]].value
    ensures r.Err? ==> r.error == AtomicState.NotFound
  {
    var values: seq<Bytes> := [];
    for i := 0 to |keys|
      invariant |values| == i
      invariant forall j :: 0 <= j < i ==> AtomicState.IsPresent(s.Contents(), keys[j]) && values[j] == s.valueDB[keys[j]].value
    {
      var elem := s.Value(keys[i]);
      if elem.Err? { return Err(elem.error); }
      values := values + [elem.value.value];
    }
    r := Ok(values);
  }

  ghost predicate Names(batch: Batch, slot: Slot) {
    exists i :: 0 <= i < |batch| && batch[i].key == slot
  }

  /** WriteAll, slot by slot: what the last batch that names a slot says last about it holds, and a slot that
      none names is left alone. */
  lemma {:induction false} LastBatchWins(db: Db, batches: seq<Batch>, slot: Slot, b: nat, i: int)
    requires b <= |batches| && forall c :: b <= c < |batches| ==> !Names(batches[c], slot)
    ensures b == 0 ==> SameSlot(ReplayAll(db, batches), db, slot)
    ensures b != 0 && LastOn(batches[b - 1], i, slot) ==> Holds(ReplayAll(db, batches), batches[b - 1][i])
  {
    if batches != [] {
      var n := |batches| - 1;
      var before := ReplayAll(db, batches[..n]);
      if b <= n {
        LastBatchWins(db, batches[..n], slot, b, i);
        ReplayUnnamed(before, batches[n], slot);
      } else if LastOn(batches[n], i, slot) {
        ReplayLast(before, batches[n], slot, i);
      }
    }
  }

  /** WriteAll: the inner batches are replayed onto the base batch, to be written at once. */
  method AppendBatches(baseBatch: Batch, batches: seq<Batch>, ghost db: Db) returns (ops: Batch)
    ensures Replay(db, ops) == ReplayAll(Replay(db, baseBatch), batches)
  {
    ops := baseBatch;
    for i := 0 to |batches|
      invariant Replay(db, ops) == ReplayAll(Replay(db, baseBatch), batches[..i])
    {
      ReplayConcat(db, ops, batches[i]);
      ops := ops + batches[i];
      assert batches[..i + 1][..i] == batches[..i];
    }
    assert batches[..|batches|] == batches;
  }
}
