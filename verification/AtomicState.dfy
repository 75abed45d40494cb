/** One directed store of shared memory: a key-value table with tombstones and the trait index that
must agree with it (chains/atomic/state.go).

A trait's linkeddb is an ordered duplicate-free list, new keys first; an absent list is empty. The
codec is taken to round-trip, so the table holds elements rather than their bytes.
*/
module AtomicState {
  import opened ByteStrings

  datatype Element = Element(key: Bytes, value: Bytes, traits: seq<Bytes>)

  /** `present == false` is the tombstone of a key removed before it was put. */
  datatype DbElement = DbElement(present: bool, value: Bytes, traits: seq<Bytes>)

  datatype Error = DuplicatePut | DuplicateRemove | NotFound

  type Values = map<Bytes, DbElement>
  type Index = map<Bytes, seq<Bytes>>

  datatype Store = Store(values: Values, index: Index)

  const EMPTY := Store(map[], map[])

  const TOMBSTONE := DbElement(false, [], [])

  function TraitKeys(index: Index, trait_: Bytes): seq<Bytes> {
    if trait_ in index then index[trait_] else []
  }

  /** linkeddb.Put: a new key becomes the head, a known key keeps its place. */
  function ListPut(list: seq<Bytes>, key: Bytes): seq<Bytes> {
    if key in list then list else [key] + list
  }

  /** linkeddb.Delete: deleting a missing key changes nothing. */
  function ListDelete(list: seq<Bytes>, key: Bytes): seq<Bytes> {
    if list == [] then []
    else if list[0] == key then ListDelete(list[1..], key)
    else [list[0]] + ListDelete(list[1..], key)
  }

  function IndexPut(index: Index, traits: seq<Bytes>, key: Bytes): Index
    decreases |traits|
  {
    if traits == [] then index
    else IndexPut(index[traits[0] := ListPut(TraitKeys(index, traits[0]), key)], traits[1..], key)
  }

  function IndexDelete(index: Index, traits: seq<Bytes>, key: Bytes): Index
    decreases |traits|
  {
    if traits == [] then index
    else IndexDelete(index[traits[0] := ListDelete(TraitKeys(index, traits[0]), key)], traits[1..], key)
  }

  function SetValue(s: Store, e: Element): Result<Store, Error> {
    if e.key in s.values then
      if s.values[e.key].present then Err(DuplicatePut)
      else Ok(s.(values := s.values - {e.key}))
    else
      Ok(Store(s.values[e.key := DbElement(true, e.value, e.traits)], IndexPut(s.index, e.traits, e.key)))
  }

  function RemoveValue(s: Store, key: Bytes): Result<Store, Error> {
    if key !in s.values then Ok(s.(values := s.values[key := TOMBSTONE]))
    else if !s.values[key].present then Err(DuplicateRemove)
    else Ok(Store(s.values - {key}, IndexDelete(s.index, s.values[key].traits, key)))
  }

  ghost predicate IsPresent(s: Store, key: Bytes) {
    key in s.values && s.values[key].present
  }

  // ---------------------------------------------------------------- the index agrees with the table

  ghost predicate NoDuplicates(list: seq<Bytes>) {
    forall i, j :: 0 <= i < j < |list| ==> list[i] != list[j]
  }

  ghost predicate HasTrait(s: Store, key: Bytes, trait_: Bytes) {
    IsPresent(s, key) && trait_ in s.values[key].traits
  }

  ghost predicate TraitAgrees(s: Store, trait_: Bytes) {
    && NoDuplicates(TraitKeys(s.index, trait_))
    && forall key :: key in TraitKeys(s.index, trait_) <==> HasTrait(s, key, trait_)
  }

  /** A key is in a trait's list exactly when its element is present and carries the trait. */
  ghost predicate Consistent(s: Store) {
    forall trait_ :: TraitAgrees(s, trait_)
  }

  lemma {:induction false} ListDeleteElements(list: seq<Bytes>, key: Bytes)
    ensures forall k :: k in ListDelete(list, key) <==> k in list && k != key
    ensures NoDuplicates(list) ==> NoDuplicates(ListDelete(list, key))
  {
    if list != [] {
      assert list == [list[0]] + list[1..];
      ListDeleteElements(list[1..], key);
      if NoDuplicates(list) {
        assert list[0] !in list[1..];
      }
    }
  }

  lemma {:induction false} IndexPutKeys(index: Index, traits: seq<Bytes>, key: Bytes, t: Bytes)
    ensures TraitKeys(IndexPut(index, traits, key), t) ==
            if t in traits then ListPut(TraitKeys(index, t), key) else TraitKeys(index, t)
    decreases |traits|
  {
    if traits != [] {
      assert traits == [traits[0]] + traits[1..];
      IndexPutKeys(index[traits[0] := ListPut(TraitKeys(index, traits[0]), key)], traits[1..], key, t);
    }
  }

  lemma {:induction false} ListDeleteMissing(list: seq<Bytes>, key: Bytes)
    requires key !in list
    ensures ListDelete(list, key) == list
  {
    if list != [] {
      assert list == [list[0]] + list[1..];
      ListDeleteMissing(list[1..], key);
    }
  }

  lemma {:induction false} IndexDeleteKeys(index: Index, traits: seq<Bytes>, key: Bytes, t: Bytes)
    ensures TraitKeys(IndexDelete(index, traits, key), t) ==
            if t in traits then ListDelete(TraitKeys(index, t), key) else TraitKeys(index, t)
    decreases |traits|
  {
    if traits != [] {
      assert traits == [traits[0]] + traits[1..];
      var list := ListDelete(TraitKeys(index, traits[0]), key);
      IndexDeleteKeys(index[traits[0] := list], traits[1..], key, t);
      ListDeleteElements(TraitKeys(index, traits[0]), key);
      ListDeleteMissing(list, key);
    }
  }

  lemma SetValueConsistent(s: Store, e: Element)
    requires Consistent(s) && SetValue(s, e).Ok?
    ensures Consistent(SetValue(s, e).value)
  {
    var r := SetValue(s, e).value;
    forall t
      ensures TraitAgrees(r, t)
    {
      assert TraitAgrees(s, t);
      IndexPutKeys(s.index, e.traits, e.key, t);
      if e.key !in s.values {
        assert e.key !in TraitKeys(s.index, t);
        assert forall key :: HasTrait(r, key, t) <==> HasTrait(s, key, t) || (key == e.key && t in e.traits);
      } else {
        assert forall key :: HasTrait(r, key, t) <==> HasTrait(s, key, t);
      }
    }
  }

  lemma RemoveValueConsistent(s: Store, key: Bytes)
    requires Consistent(s) && RemoveValue(s, key).Ok?
    ensures Consistent(RemoveValue(s, key).value)
  {
    var r := RemoveValue(s, key).value;
    forall t
      ensures TraitAgrees(r, t)
    {
      assert TraitAgrees(s, t);
      if key in s.values {
        IndexDeleteKeys(s.index, s.values[key].traits, key, t);
        ListDeleteElements(TraitKeys(s.index, t), key);
        assert forall k :: HasTrait(r, k, t) <==> HasTrait(s, k, t) && k != key;
      } else {
        assert forall k :: HasTrait(r, k, t) <==> HasTrait(s, k, t);
      }
    }
  }

  // ---------------------------------------------------------------- whole runs

  datatype Op = Put(element: Element) | Remove(key: Bytes)

  function OpKey(op: Op): Bytes {
    match op case Put(e) => e.key case Remove(k) => k
  }

  function Perform(s: Store, op: Op): Result<Store, Error> {
    match op case Put(e) => SetValue(s, e) case Remove(k) => RemoveValue(s, k)
  }

  /** What a failed operation leaves behind is the state it found. */
  function After(s: Store, op: Op): Store {
    match Perform(s, op) case Ok(r) => r case Err(_) => s
  }

  function Run(ops: seq<Op>): Store {
    if ops == [] then EMPTY else After(Run(ops[..|ops| - 1]), ops[|ops| - 1])
  }

  /** +1 for a put and -1 for a removal of `key`. */
  function Delta(op: Op, key: Bytes): int {
    if OpKey(op) != key then 0 else if op.Put? then 1 else -1
  }

  /** Successful puts minus successful removals of `key`. */
  ghost function Balance(ops: seq<Op>, key: Bytes): int {
    if ops == [] then 0
    else
      var before := ops[..|ops| - 1];
      Balance(before, key) + if Perform(Run(before), ops[|ops| - 1]).Ok? then Delta(ops[|ops| - 1], key) else 0
  }

  /** 1 for present, 0 for absent, -1 for a tombstone. */
  ghost function Status(s: Store, key: Bytes): int {
    if key !in s.values then 0 else if s.values[key].present then 1 else -1
  }

  lemma {:induction false} RunConsistent(ops: seq<Op>)
    ensures Consistent(Run(ops))
  {
    if ops != [] {
      var before := ops[..|ops| - 1];
      RunConsistent(before);
      match ops[|ops| - 1]
      case Put(e) => if SetValue(Run(before), e).Ok? { SetValueConsistent(Run(before), e); }
      case Remove(k) => if RemoveValue(Run(before), k).Ok? { RemoveValueConsistent(Run(before), k); }
    }
  }

  /** The status of every key is the balance of its successful operations. */
  lemma {:induction false} StatusIsBalance(ops: seq<Op>, key: Bytes)
    ensures Status(Run(ops), key) == Balance(ops, key)
    ensures -1 <= Balance(ops, key) <= 1
  {
    if ops != [] {
      StatusIsBalance(ops[..|ops| - 1], key);
    }
  }

  /** An operation fails exactly when it would take its key's balance out of [-1, 1]. */
  lemma FailsIffOutOfRange(ops: seq<Op>, op: Op)
    ensures Perform(Run(ops), op).Err? <==> !(-1 <= Balance(ops, OpKey(op)) + Delta(op, OpKey(op)) <= 1)
  {
    StatusIsBalance(ops, OpKey(op));
  }

  /** When the element of a key was put into the table, -1 if it never was. */
  ghost function PutTime(ops: seq<Op>, key: Bytes): (t: int)
    ensures -1 <= t < |ops|
  {
    if ops == [] then -1
    else
      var before, op := ops[..|ops| - 1], ops[|ops| - 1];
      if op.Put? && op.element.key == key && key !in Run(before).values then |ops| - 1 else PutTime(before, key)
  }

  ghost predicate NewestFirst(time: Bytes -> int, list: seq<Bytes>) {
    forall i, j :: 0 <= i < j < |list| ==> time(list[j]) < time(list[i])
  }

  lemma {:induction false} DeleteNewestFirst(time: Bytes -> int, list: seq<Bytes>, key: Bytes)
    requires NewestFirst(time, list)
    ensures NewestFirst(time, ListDelete(list, key))
  {
    if list != [] {
      DeleteNewestFirst(time, list[1..], key);
      var rest := ListDelete(list[1..], key);
      ListDeleteElements(list[1..], key);
      forall j | 0 <= j < |rest| ensures time(rest[j]) < time(list[0]) {
        assert rest[j] in rest;
        var k :| 0 <= k < |list[1..]| && list[1..][k] == rest[j];
      }
    }
  }

  /** Every trait's list has the elements that were put last first, after every run. */
  lemma {:induction false} ListsNewestFirst(ops: seq<Op>, trait_: Bytes)
    ensures NewestFirst(key => PutTime(ops, key), TraitKeys(Run(ops).index, trait_))
  {
    if ops != [] {
      var before, op := ops[..|ops| - 1], ops[|ops| - 1];
      ListsNewestFirst(before, trait_);
      RunConsistent(before);
      assert TraitAgrees(Run(before), trait_);
      NextNewestFirst(Run(before), op, trait_, key => PutTime(before, key), key => PutTime(ops, key), |ops| - 1);
    }
  }

  lemma NextNewestFirst(s: Store, op: Op, trait_: Bytes, was: Bytes -> int, now: Bytes -> int, t: int)
    requires NewestFirst(was, TraitKeys(s.index, trait_)) && forall key :: was(key) < t
    requires forall key :: now(key) == if op.Put? && op.element.key == key && key !in s.values then t else was(key)
    requires op.Put? && op.element.key !in s.values ==> op.element.key !in TraitKeys(s.index, trait_)
    ensures NewestFirst(now, TraitKeys(After(s, op).index, trait_))
  {
    match op
    case Put(e) => IndexPutKeys(s.index, e.traits, e.key, trait_);
    case Remove(k) =>
      if IsPresent(s, k) {
        IndexDeleteKeys(s.index, s.values[k].traits, k, trait_);
        DeleteNewestFirst(was, TraitKeys(s.index, trait_), k);
      }
  }

  ghost predicate AtMostOnce(ops: seq<Op>) {
    forall i, j :: 0 <= i < j < |ops| && OpKey(ops[i]) == OpKey(ops[j]) ==> ops[i].Put? != ops[j].Put?
  }

  ghost predicate PutIn(ops: seq<Op>, e: Element) { Put(e) in ops }

  ghost predicate KeyPut(ops: seq<Op>, key: Bytes) { exists e :: PutIn(ops, e) && e.key == key }

  /** The table a set of operations leaves, read off its members alone. */
  ghost predicate TableOf(values: Values, ops: seq<Op>) {
    && (forall key :: key in values <==> (KeyPut(ops, key) <==> Remove(key) !in ops))
    && (forall key :: key in values && Remove(key) in ops ==> values[key] == TOMBSTONE)
    && (forall e :: PutIn(ops, e) && e.key in values ==> values[e.key] == DbElement(true, e.value, e.traits))
  }

  lemma AtMostOnceSplit(before: seq<Op>, op: Op)
    requires AtMostOnce(before + [op])
    ensures AtMostOnce(before)
    ensures op.Put? ==> !KeyPut(before, op.element.key)
    ensures op.Remove? ==> op !in before
  {
    var ops := before + [op];
    assert forall i :: 0 <= i < |before| ==> ops[i] == before[i];
    assert ops[|before|] == op;
    forall i | 0 <= i < |before| && OpKey(before[i]) == OpKey(op)
      ensures before[i].Put? != op.Put?
    {
      assert OpKey(ops[i]) == OpKey(ops[|before|]);
    }
  }

  lemma TableOfExtend(before: seq<Op>, op: Op, s: Store)
    requires TableOf(s.values, before)
    requires op.Put? ==> !KeyPut(before, op.element.key)
    requires op.Remove? ==> op !in before
    ensures Perform(s, op).Ok?
    ensures TableOf(After(s, op).values, before + [op])
  {
    var ops := before + [op];
    assert forall e :: PutIn(ops, e) <==> PutIn(before, e) || op == Put(e);
    forall key
      ensures KeyPut(ops, key) <==> KeyPut(before, key) || (op.Put? && op.element.key == key)
    {
      if op.Put? { assert PutIn(ops, op.element); }
    }
    assert forall key :: Remove(key) in ops <==> Remove(key) in before || op == Remove(key);
  }

  ghost predicate AllSucceed(ops: seq<Op>) {
    forall n :: 0 <= n < |ops| ==> Perform(Run(ops[..n]), ops[n]).Ok?
  }

  lemma {:induction false} OnceOnlySucceeds(ops: seq<Op>)
    requires AtMostOnce(ops)
    ensures AllSucceed(ops) && TableOf(Run(ops).values, ops)
  {
    if ops == [] {
      assert forall key :: !KeyPut(ops, key);
    } else {
      var before, op := ops[..|ops| - 1], ops[|ops| - 1];
      assert ops == before + [op];
      AtMostOnceSplit(before, op);
      OnceOnlySucceeds(before);
      TableOfExtend(before, op, Run(before));
      forall n | 0 <= n < |ops|
        ensures Perform(Run(ops[..n]), ops[n]).Ok?
      {
        if n < |before| { assert ops[..n] == before[..n]; }
      }
    }
  }

  lemma {:induction false} CountTwice<T>(s: seq<T>, x: T) returns (i: nat, j: nat)
    requires multiset(s)[x] >= 2
    ensures i < j < |s| && s[i] == s[j] == x
  {
    assert s == s[..|s| - 1] + [s[|s| - 1]];
    if s[|s| - 1] == x {
      assert x in multiset(s[..|s| - 1]);
      i :| 0 <= i < |s| - 1 && s[i] == x;
      j := |s| - 1;
    } else {
      i, j := CountTwice(s[..|s| - 1], x);
    }
  }

  lemma {:induction false} TwiceCounts<T>(s: seq<T>, i: nat, j: nat)
    requires i < j < |s| && s[i] == s[j]
    ensures multiset(s)[s[i]] >= 2
  {
    assert s == s[..j] + [s[j]] + s[j + 1..];
    assert s[i] in s[..j];
  }

  lemma AtMostOnceAnyOrder(a: seq<Op>, b: seq<Op>)
    requires AtMostOnce(a) && multiset(a) == multiset(b)
    ensures AtMostOnce(b)
  {
    forall i, j | 0 <= i < j < |b| && OpKey(b[i]) == OpKey(b[j])
      ensures b[i].Put? != b[j].Put?
    {
      if b[i] == b[j] {
        TwiceCounts(b, i, j);
        var k, l := CountTwice(a, b[i]);
      } else {
        assert b[i] in multiset(a) && b[j] in multiset(a);
        var k :| 0 <= k < |a| && a[k] == b[i];
        var l :| 0 <= l < |a| && a[l] == b[j];
        assert k < l || l < k;
      }
    }
  }

  /** If each key is put at most once and removed at most once, every order of the operations
      succeeds and leaves the same table and the same trait memberships. */
  lemma OrderIndependent(a: seq<Op>, b: seq<Op>)
    requires AtMostOnce(a) && multiset(a) == multiset(b)
    ensures AllSucceed(a) && AllSucceed(b)
    ensures Run(a).values == Run(b).values
    ensures forall t, k :: k in TraitKeys(Run(a).index, t) <==> k in TraitKeys(Run(b).index, t)
  {
    AtMostOnceAnyOrder(a, b);
    OnceOnlySucceeds(a);
    OnceOnlySucceeds(b);
    SameTable(a, b, Run(a).values, Run(b).values);
    RunConsistent(a);
    RunConsistent(b);
    forall t, k
      ensures k in TraitKeys(Run(a).index, t) <==> k in TraitKeys(Run(b).index, t)
    {
      assert TraitAgrees(Run(a), t) && TraitAgrees(Run(b), t);
    }
  }

  lemma SameTable(a: seq<Op>, b: seq<Op>, v: Values, w: Values)
    requires multiset(a) == multiset(b) && TableOf(v, a) && TableOf(w, b)
    ensures v == w
  {
    assert forall op :: op in a <==> op in b by {
      assert forall op :: op in a <==> op in multiset(a);
    }
    assert forall e :: PutIn(a, e) <==> PutIn(b, e);
    assert forall key :: KeyPut(a, key) <==> KeyPut(b, key);
    forall key | key in v
      ensures v[key] == w[key]
    {
      if Remove(key) !in a {
        var e :| PutIn(a, e) && e.key == key;
      }
    }
  }

  // ---------------------------------------------------------------- the state object

  class State {
    var valueDB: Values
    var indexDB: Index

    ghost function Contents(): Store
      reads this
    {
      Store(valueDB, indexDB)
    }

    constructor (values: Values, index: Index)
      ensures Contents() == Store(values, index)
    {
      valueDB, indexDB := values, index;
    }

    /** The element stored under `key`; a tombstone reads as absent. */
    method Value(key: Bytes) returns (r: Result<Element, Error>)
      ensures r.Ok? <==> IsPresent(Contents(), key)
      ensures r.Ok? ==> r.value == Element(key, valueDB[key].value, valueDB[key].traits)
      ensures r.Err? ==> r.error == NotFound
    {
      if key !in valueDB { return Err(NotFound); }
      var value := valueDB[key];
      if !value.present { return Err(NotFound); }
      r := Ok(Element(key, value.value, value.traits));
    }

    method SetValue(e: Element) returns (r: Result<(), Error>)
      modifies this
      ensures match Perform(old(Contents()), Put(e))
              case Ok(s) => r == Ok(()) && Contents() == s
              case Err(x) => r == Err(x) && Contents() == old(Contents())
    {
      if e.key in valueDB {
        if !valueDB[e.key].present {
          valueDB := valueDB - {e.key};
          return Ok(());
        }
        return Err(DuplicatePut);
      }
      for i := 0 to |e.traits|
        invariant valueDB == old(valueDB)
        invariant IndexPut(indexDB, e.traits[i..], e.key) == IndexPut(old(indexDB), e.traits, e.key)
      {
        indexDB := indexDB[e.traits[i] := ListPut(TraitKeys(indexDB, e.traits[i]), e.key)];
        assert e.traits[i..][1..] == e.traits[i + 1..];
      }
      valueDB := valueDB[e.key := DbElement(true, e.value, e.traits)];
      r := Ok(());
    }

    method RemoveValue(key: Bytes) returns (r: Result<(), Error>)
      modifies this
      ensures match Perform(old(Contents()), Remove(key))
              case Ok(s) => r == Ok(()) && Contents() == s
              case Err(x) => r == Err(x) && Contents() == old(Contents())
    {
      if key !in valueDB {
        valueDB := valueDB[key := TOMBSTONE];
        return Ok(());
      }
      var value := valueDB[key];
      if !value.present { return Err(DuplicateRemove); }
      for i := 0 to |value.traits|
        invariant valueDB == old(valueDB)
        invariant IndexDelete(indexDB, value.traits[i..], key) == IndexDelete(old(indexDB), value.traits, key)
      {
        indexDB := indexDB[value.traits[i] := ListDelete(TraitKeys(indexDB, value.traits[i]), key)];
        assert value.traits[i..][1..] == value.traits[i + 1..];
      }
      valueDB := valueDB - {key};
      r := Ok(());
    }
  }
}
