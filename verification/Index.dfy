/** The index of accepted containers (indexer/index.go) on one database, through failures, crashes and
restarts.

Any database operation of Accept may fail; committing the overlay is one atomic write that may fail
before or after it took effect. The codec is left out: a container is stored as a value. Reads by the
getters do not fail other than by finding nothing.
*/
module ContainerIndex {
  import opened ByteStrings
  import opened Database

  type ID = nat

  datatype Container = Container(id: ID, bytes: Bytes, timestamp: int)

  const NO_CONTAINER := Container(0, [], 0)

  /** The keys of the three sub-databases. */
  datatype Key = NextKey | IndexKey(packed: Bytes) | IDKey(id: ID)

  datatype Value = Number(packed: Bytes) | Stored(container: Container)

  type Store = map<Key, Value>

  /** The operation of an Accept call that fails, if any. */
  datatype Fault = NoFault | GetFails | MarshalFails | PutContainerFails | PutIndexFails | PutNextFails | CommitFails(written: bool)

  /** How 64-bit numbers are written as bytes and read back. */
  datatype Packing = Packing(pack: nat -> Bytes, parse: Bytes -> Result<nat, ParseError>)

  ghost predicate RoundTrips(p: Packing) {
    forall v: nat :: v < TWO_64 ==> p.parse(p.pack(v)) == Ok(v)
  }

  /** The packing that the database helpers provide. */
  lemma UInt64Packing()
    ensures RoundTrips(Packing(PackUInt64, ParseUInt64))
  {
    forall v: nat | v < TWO_64 ensures ParseUInt64(PackUInt64(v)) == Ok(v) { UInt64RoundTrip(v, []); }
  }

  // ---------------------------------------------------------------- what the database stands for

  ghost predicate HasID(order: seq<Container>, id: ID) {
    exists i :: 0 <= i < |order| && order[i].id == id
  }

  ghost predicate DistinctIDs(order: seq<Container>) {
    forall i, j :: 0 <= i < j < |order| ==> order[i].id != order[j].id
  }

  ghost predicate Counted(p: Packing, db: Store, order: seq<Container>) {
    && (NextKey in db <==> order != [])
    && (NextKey in db ==> db[NextKey] == Number(p.pack(|order|)))
  }

  /** indexToContainer is defined exactly on the positions of `order`. */
  ghost predicate ByIndex(p: Packing, db: Store, order: seq<Container>) {
    && (forall i :: 0 <= i < |order| ==> IndexKey(p.pack(i)) in db && db[IndexKey(p.pack(i))] == Stored(order[i]))
    && (forall b :: IndexKey(b) in db ==> IsPosition(p, b, |order|))
  }

  /** containerToIndex is its inverse. */
  ghost predicate ByID(p: Packing, db: Store, order: seq<Container>) {
    && (forall i :: 0 <= i < |order| ==> IDKey(order[i].id) in db && db[IDKey(order[i].id)] == Number(p.pack(i)))
    && (forall id :: IDKey(id) in db ==> HasID(order, id))
  }

  /** `db` holds exactly the containers of `order`, under their positions and their IDs. */
  ghost predicate Represents(p: Packing, db: Store, order: seq<Container>) {
    |order| < TWO_64 && DistinctIDs(order) && Counted(p, db, order) && ByIndex(p, db, order) && ByID(p, db, order)
  }

  ghost predicate IsPosition(p: Packing, b: Bytes, n: nat) {
    exists i :: 0 <= i < n && b == p.pack(i)
  }

  /** The containers in the order of their first acceptance. */
  function FirstSeen(history: seq<Container>): seq<Container> {
    if history == [] then []
    else
      var order, c := FirstSeen(history[..|history| - 1]), history[|history| - 1];
      if exists i :: 0 <= i < |order| && order[i].id == c.id then order else order + [c]
  }

  lemma PackInjective(p: Packing, i: nat, j: nat)
    requires RoundTrips(p) && i < TWO_64 && j < TWO_64 && p.pack(i) == p.pack(j)
    ensures i == j
  {
    assert p.parse(p.pack(i)) == Ok(i) && p.parse(p.pack(j)) == Ok(j);
  }

  // ---------------------------------------------------------------- accepting

  /** The database once a new container is committed. The counter is 64 bits wide. */
  function Written(p: Packing, db: Store, next: nat, c: Container): Store {
    db[IndexKey(p.pack(next)) := Stored(c)][IDKey(c.id) := Number(p.pack(next))]
      [NextKey := Number(p.pack((next + 1) % TWO_64))]
  }

  lemma WrittenByID(p: Packing, db: Store, order: seq<Container>, c: Container)
    requires ByID(p, db, order) && !HasID(order, c.id)
    ensures ByID(p, Written(p, db, |order|, c), order + [c])
  {
    var after, longer, n := Written(p, db, |order|, c), order + [c], |order|;
    forall i | 0 <= i < |longer| ensures IDKey(longer[i].id) in after && after[IDKey(longer[i].id)] == Number(p.pack(i)) {
      if i < n { assert longer[i] == order[i] && order[i].id != c.id; }
    }
    forall id | IDKey(id) in after ensures HasID(longer, id) {
      if id == c.id {
        assert longer[n].id == id;
      } else {
        var i :| 0 <= i < n && order[i].id == id;
        assert longer[i].id == id;
      }
    }
  }

  lemma WrittenRepresents(p: Packing, db: Store, order: seq<Container>, c: Container)
    requires RoundTrips(p) && Represents(p, db, order) && !HasID(order, c.id) && |order| + 1 < TWO_64
    ensures Represents(p, Written(p, db, |order|, c), order + [c])
  {
    WrittenByID(p, db, order, c);
    forall i | 0 <= i < |order| ensures order[i].id != c.id { }
  }

  /** At 2^64 containers the counter wraps and the database no longer stands for what was accepted. */
  lemma WrittenWraps(p: Packing, db: Store, order: seq<Container>, c: Container)
    requires RoundTrips(p) && Represents(p, db, order) && |order| + 1 == TWO_64
    ensures Written(p, db, |order|, c)[NextKey] == Number(p.pack(0))
    ensures forall other :: !Represents(p, Written(p, db, |order|, c), other)
  {
    var after := Written(p, db, |order|, c);
    forall other | Represents(p, after, other) ensures false {
      PackInjective(p, 0, |other|);
    }
  }

  datatype State = State(db: Store, next: nat, alive: bool)

  datatype Event = Accept(container: Container, fault: Fault) | Reopen

  /** An error of Accept is fatal: the index is not used again before it is reopened. */
  function AcceptStep(p: Packing, s: State, c: Container, fault: Fault): State {
    if fault == GetFails then s.(alive := false)
    else if IDKey(c.id) in s.db then s
    else
      match fault
      case NoFault => State(Written(p, s.db, s.next, c), (s.next + 1) % TWO_64, true)
      case CommitFails(true) => State(Written(p, s.db, s.next, c), (s.next + 1) % TWO_64, false)
      case _ => s.(alive := false)
  }

  /** newIndex on what a previous run has left in the database. */
  function Open(p: Packing, db: Store): State {
    if NextKey !in db then State(db, 0, true)
    else if db[NextKey].Stored? then State(db, 0, false)
    else
      match p.parse(db[NextKey].packed)
      case Ok(n) => State(db, n, true)
      case Err(_) => State(db, 0, false)
  }

  function Step(p: Packing, s: State, e: Event): State {
    match e
    case Accept(c, fault) => if s.alive then AcceptStep(p, s, c, fault) else s
    case Reopen => Open(p, s.db)
  }

  /** The overlay of an Accept call gets written. */
  predicate Writes(fault: Fault) {
    fault == NoFault || fault == CommitFails(true)
  }

  /** Whether the container of an Accept call is in the database after it. */
  predicate TakesEffect(s: State, e: Event) {
    e.Accept? && s.alive && Writes(e.fault)
  }

  function Run(p: Packing, events: seq<Event>): State {
    if events == [] then Open(p, map[]) else Step(p, Run(p, events[..|events| - 1]), events[|events| - 1])
  }

  /** The containers whose Accept took effect, in order, with repeats. */
  function History(p: Packing, events: seq<Event>): seq<Container> {
    if events == [] then []
    else
      var before, e := events[..|events| - 1], events[|events| - 1];
      History(p, before) + if TakesEffect(Run(p, before), e) then [e.container] else []
  }

  ghost predicate Good(p: Packing, s: State, order: seq<Container>) {
    Represents(p, s.db, order) && (s.alive ==> s.next == |order|)
  }

  lemma OpenGood(p: Packing, db: Store, order: seq<Container>)
    requires RoundTrips(p) && Represents(p, db, order)
    ensures Good(p, Open(p, db), order) && Open(p, db).alive
  {
    assert p.parse(p.pack(|order|)) == Ok(|order|);
  }

  /** The order after an event: a container that took effect and is new is appended. */
  ghost function NextOrder(s: State, order: seq<Container>, e: Event): seq<Container> {
    if TakesEffect(s, e) && !HasID(order, e.container.id) then order + [e.container] else order
  }

  /** Accept succeeds exactly if no operation that it gets to fails: it gets to the first one only, if the
      container has been accepted before. */
  lemma AcceptSucceeds(p: Packing, s: State, order: seq<Container>, c: Container, fault: Fault)
    requires Good(p, s, order) && s.alive
    ensures Step(p, s, Accept(c, fault)).alive <==> fault != GetFails && (HasID(order, c.id) || fault == NoFault)
  {
    if HasID(order, c.id) { var i :| 0 <= i < |order| && order[i].id == c.id; }
  }

  lemma StepGood(p: Packing, s: State, order: seq<Container>, e: Event)
    requires RoundTrips(p) && Good(p, s, order) && |NextOrder(s, order, e)| < TWO_64
    ensures Good(p, Step(p, s, e), NextOrder(s, order, e))
  {
    match e
    case Reopen => OpenGood(p, s.db, order);
    case Accept(c, fault) =>
      if TakesEffect(s, e) && !HasID(order, c.id) { WrittenRepresents(p, s.db, order, c); }
  }

  lemma FirstSeenStep(history: seq<Container>, c: Container)
    ensures FirstSeen(history + [c]) == if HasID(FirstSeen(history), c.id) then FirstSeen(history) else FirstSeen(history) + [c]
  {
    assert (history + [c])[..|history|] == history;
  }

  lemma HistoryStep(p: Packing, events: seq<Event>)
    requires events != []
    ensures var before, e := events[..|events| - 1], events[|events| - 1];
      FirstSeen(History(p, events)) == NextOrder(Run(p, before), FirstSeen(History(p, before)), e)
  {
    var before, e := events[..|events| - 1], events[|events| - 1];
    if TakesEffect(Run(p, before), e) {
      FirstSeenStep(History(p, before), e.container);
    } else {
      assert History(p, events) == History(p, before);
    }
  }

  /** After any Accepts, failures, crashes and restarts, as long as fewer than 2^64 different containers took
      effect, the database holds exactly those, in the order of their first acceptance. */
  lemma {:induction false} EveryRun(p: Packing, events: seq<Event>)
    requires RoundTrips(p) && |FirstSeen(History(p, events))| < TWO_64
    ensures Good(p, Run(p, events), FirstSeen(History(p, events)))
  {
    if events == [] {
      EmptyGood(p);
    } else {
      var before, e := events[..|events| - 1], events[|events| - 1];
      HistoryStep(p, events);
      EveryRun(p, before);
      StepGood(p, Run(p, before), FirstSeen(History(p, before)), e);
    }
  }

  /** The bound is exact: once one more container takes effect, the database stands for no sequence. */
  lemma RunWraps(p: Packing, events: seq<Event>, e: Event)
    requires RoundTrips(p) && |FirstSeen(History(p, events))| < TWO_64 && |FirstSeen(History(p, events + [e]))| == TWO_64
    ensures forall order :: !Represents(p, Run(p, events + [e]).db, order)
  {
    assert (events + [e])[..|events|] == events;
    HistoryStep(p, events + [e]);
    EveryRun(p, events);
    var s, order := Run(p, events), FirstSeen(History(p, events));
    assert Run(p, events + [e]) == Step(p, s, e);
    assert Step(p, s, e).db == Written(p, s.db, |order|, e.container);
    WrittenWraps(p, s.db, order, e.container);
  }

  lemma EmptyGood(p: Packing)
    ensures Good(p, Open(p, map[]), [])
  {
  }

  /** Committing the three new writes on top of what was pending. */
  lemma OverlayIsWritten(p: Packing, db: Store, mem: Store, next: nat, c: Container)
    ensures db + mem[IndexKey(p.pack(next)) := Stored(c)][IDKey(c.id) := Number(p.pack(next))]
                    [NextKey := Number(p.pack((next + 1) % TWO_64))]
            == Written(p, db + mem, next, c)
  {
  }

  // ---------------------------------------------------------------- fixed-width arithmetic

  const MAX_FETCHED_BY_RANGE := 1024
  const TWO_63 := 0x8000_0000_0000_0000

  /** The conversion of a uint64 to a 64-bit int. */
  function ToInt(u: nat): int { if u < TWO_63 then u else u - TWO_64 }

  /** The result of a 64-bit int operation. */
  function WrapInt(x: int): int {
    var m := x % TWO_64;
    if m < TWO_63 then m else m - TWO_64
  }

  function Min(a: int, b: int): int { if a <= b then a else b }

  /** The buffer of GetContainerRange has the right length on either side of 2^63, and length `num`
      when the end of the range has wrapped. */
  lemma BufferSize(start: nat, num: nat, last: nat)
    requires start < TWO_64 && 1 <= num <= MAX_FETCHED_BY_RANGE
    requires last == if start + num <= TWO_64 then last else start + num - 1 - TWO_64
    requires start + num <= TWO_64 ==> start <= last <= start + num - 1
    ensures WrapInt(ToInt(last) - ToInt(start) + 1) == if start + num <= TWO_64 then last - start + 1 else num
  {
    var size := if start + num <= TWO_64 then last - start + 1 else num;
  }

  // ---------------------------------------------------------------- the index object

  datatype IndexError = NoContainerAtIndex | NumToFetchInvalid | NoneAccepted | StartTooHigh | NotFound | Corrupt

  class Index {
    const packing: Packing
    var base: Store    // the database below
    var mem: Store     // the overlay's uncommitted writes
    var nextAcceptedIndex: nat

    ghost predicate StandsFor(order: seq<Container>)
      reads this
    {
      RoundTrips(packing) && mem == map[] && Represents(packing, base, order) && nextAcceptedIndex == |order|
    }

    /** newIndex. When the stored counter cannot be read the source returns an error; here it stays 0. */
    constructor (packing: Packing, base: Store)
      ensures this.packing == packing && this.base == base && mem == map[]
      ensures Open(packing, base).alive ==> nextAcceptedIndex == Open(packing, base).next
      ensures forall order :: RoundTrips(packing) && Represents(packing, base, order) ==> StandsFor(order)
    {
      this.packing, this.base, mem, nextAcceptedIndex := packing, base, map[], 0;
      new;
      var stored := Get(NextKey);
      if stored.Some? && stored.value.Number? {
        var parsed := packing.parse(stored.value.packed);
        if parsed.Ok? { nextAcceptedIndex := parsed.value; }
      }
      forall order | RoundTrips(packing) && Represents(packing, base, order) ensures StandsFor(order) {
        OpenGood(packing, base, order);
      }
    }

    method Get(key: Key) returns (r: Option<Value>)
      ensures r == if key in base + mem then Some((base + mem)[key]) else None
    {
      if key in mem { return Some(mem[key]); }
      if key in base { return Some(base[key]); }
      return None;
    }

    /** Returns whether the index can go on. What a failed call has left in the overlay is seen by the next
        call, and committed with it. */
    method Accept(c: Container, fault: Fault) returns (ok: bool)
      modifies this
      ensures var view := old(base) + old(mem);
        var after := AcceptStep(packing, State(view, old(nextAcceptedIndex), true), c, fault);
        && ok == after.alive
        && (ok <==> fault != GetFails && (IDKey(c.id) in view || fault == NoFault))
        && (ok ==> nextAcceptedIndex == after.next)
        && (if Writes(fault) && IDKey(c.id) !in view then base == after.db && mem == map[]
            else base == old(base) && (ok ==> mem == old(mem)))
    {
      if fault == GetFails { return false; }
      var existing := Get(IDKey(c.id));
      if existing.Some? { return true; }
      ok := WriteNew(c, fault);
    }

    /** The part of Accept for a container that is not indexed yet. */
    method WriteNew(c: Container, fault: Fault) returns (ok: bool)
      requires fault != GetFails
      modifies this
      ensures ok <==> fault == NoFault
      ensures ok ==> nextAcceptedIndex == (old(nextAcceptedIndex) + 1) % TWO_64
      ensures if Writes(fault) then base == Written(packing, old(base) + old(mem), old(nextAcceptedIndex), c) && mem == map[]
              else base == old(base)
    {
      var packed := packing.pack(nextAcceptedIndex);
      if fault == MarshalFails { return false; }
      if fault == PutContainerFails { return false; }
      mem := mem[IndexKey(packed) := Stored(c)];
      if fault == PutIndexFails { return false; }
      mem := mem[IDKey(c.id) := Number(packed)];
      nextAcceptedIndex := (nextAcceptedIndex + 1) % TWO_64;
      if fault == PutNextFails { return false; }
      mem := mem[NextKey := Number(packing.pack(nextAcceptedIndex))];

      if fault == CommitFails(false) { return false; }
      OverlayIsWritten(packing, base, old(mem), old(nextAcceptedIndex), c);
      base, mem := base + mem, map[];
      return fault == NoFault;
    }

    method GetContainerByIndexBytes(packed: Bytes) returns (r: Result<Container, IndexError>)
      ensures r == if IndexKey(packed) !in base + mem then Err(NotFound)
                   else if (base + mem)[IndexKey(packed)].Number? then Err(Corrupt)
                   else Ok((base + mem)[IndexKey(packed)].container)
    {
      var stored := Get(IndexKey(packed));
      if stored.None? { return Err(NotFound); }
      if stored.value.Number? { return Err(Corrupt); }
      return Ok(stored.value.container);
    }

    method GetContainerByIndex(index: nat, ghost order: seq<Container>) returns (r: Result<Container, IndexError>)
      requires StandsFor(order)
      ensures r == if index < |order| then Ok(order[index]) else Err(NoContainerAtIndex)
    {
      if nextAcceptedIndex == 0 || index > nextAcceptedIndex - 1 { return Err(NoContainerAtIndex); }
      assert base + mem == base;
      r := GetContainerByIndexBytes(packing.pack(index));
    }

    /** At most `num` containers from `start` on. Where `start + num` exceeds 2^64 the end of the range
        wraps, the loop does nothing, and `num` empty containers are returned. */
    method GetContainerRange(start: nat, num: nat, ghost order: seq<Container>) returns (r: Result<seq<Container>, IndexError>)
      requires StandsFor(order) && start < TWO_64 && num < TWO_64
      ensures r ==
        if num == 0 || num > MAX_FETCHED_BY_RANGE then Err(NumToFetchInvalid)
        else if order == [] then Err(NoneAccepted)
        else if start >= |order| then Err(StartTooHigh)
        else if start + num <= TWO_64 then Ok(order[start..Min(start + num, |order|)])
        else Ok(seq(num, _ => NO_CONTAINER))
    {
      if num == 0 || num > MAX_FETCHED_BY_RANGE { return Err(NumToFetchInvalid); }
      if nextAcceptedIndex == 0 { return Err(NoneAccepted); }
      var lastAccepted := nextAcceptedIndex - 1;
      if start > lastAccepted { return Err(StartTooHigh); }

      var lastIndex := Min((start + num - 1) % TWO_64, lastAccepted);
      BufferSize(start, num, lastIndex);
      r := FetchRange(start, lastIndex, WrapInt(ToInt(lastIndex) - ToInt(start) + 1), order);
    }

    /** GetContainerRange's loop, which fills a buffer of length `size`. */
    method FetchRange(start: nat, lastIndex: nat, size: nat, ghost order: seq<Container>)
      returns (r: Result<seq<Container>, IndexError>)
      requires StandsFor(order) && lastIndex < |order| && (start <= lastIndex ==> size == lastIndex - start + 1)
      ensures r == Ok(if start <= lastIndex then order[start..lastIndex + 1] else seq(size, _ => NO_CONTAINER))
    {
      var containers := new Container[size](_ => NO_CONTAINER);
      var j, n := start, 0;
      while j <= lastIndex
        invariant if start <= lastIndex then start <= j <= lastIndex + 1 else j == start
        invariant n == j - start
        invariant forall k :: 0 <= k < n ==> containers[k] == order[start + k]
        invariant forall k :: n <= k < size ==> containers[k] == NO_CONTAINER
      {
        var found := GetContainerByIndex(j, order);
        match found {
          case Err(error) => return Err(error);
          case Ok(container) => containers[n] := container;
        }
        j, n := j + 1, n + 1;
      }
      assert containers[..] == if start <= lastIndex then order[start..lastIndex + 1] else seq(size, _ => NO_CONTAINER);
      return Ok(containers[..]);
    }

    method GetIndex(id: ID, ghost order: seq<Container>) returns (r: Result<nat, IndexError>)
      requires StandsFor(order)
      ensures HasID(order, id) ==> r.Ok? && r.value < |order| && order[r.value].id == id
      ensures !HasID(order, id) ==> r == Err(NotFound)
    {
      var stored := Get(IDKey(id));
      if stored.None? { return Err(NotFound); }
      if stored.value.Stored? { return Err(Corrupt); }
      var parsed := packing.parse(stored.value.packed);
      if parsed.Err? { return Err(Corrupt); }
      return Ok(parsed.value);
    }

    method GetContainerByID(id: ID, ghost order: seq<Container>) returns (r: Result<Container, IndexError>)
      requires StandsFor(order)
      ensures HasID(order, id) ==> r.Ok? && r.value in order && r.value.id == id
      ensures !HasID(order, id) ==> r == Err(NotFound)
    {
      var stored := Get(IDKey(id));
      if stored.None? { return Err(NotFound); }
      if stored.value.Stored? { return Err(Corrupt); }
      assert base + mem == base;
      r := GetContainerByIndexBytes(stored.value.packed);
    }

    method GetLastAccepted(ghost order: seq<Container>) returns (r: Result<Container, IndexError>)
      requires StandsFor(order)
      ensures r == if order == [] then Err(NoneAccepted) else Ok(order[|order| - 1])
    {
      if nextAcceptedIndex == 0 { return Err(NoneAccepted); }
      r := GetContainerByIndex(nextAcceptedIndex - 1, order);
    }
  }
}
