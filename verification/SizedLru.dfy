/** The least-recently-used cache bounded by size (cache/lru_sized_cache.go).

The linked hash map below it is the list of its entries, oldest first. Only the equality of keys
matters, and values only through their sizes, so both are numbers here. Sizes are not negative.
*/
module SizedLru {
  import opened ByteStrings

  type Key = nat
  type Value = nat

  datatype Entry = Entry(key: Key, value: Value)

  type Entries = seq<Entry>

  datatype Config = Config(maxSize: int, size: (Key, Value) -> nat)

  // ---------------------------------------------------------------- the linked hash map

  ghost predicate DistinctKeys(es: Entries) {
    forall i, j :: 0 <= i < j < |es| ==> es[i].key != es[j].key
  }

  /** The position of a key, or the length. */
  function Find(es: Entries, key: Key): (i: nat)
    ensures i <= |es| && (i < |es| ==> es[i].key == key)
    ensures forall j :: 0 <= j < i ==> es[j].key != key
  {
    if es == [] then 0 else if es[0].key == key then 0 else
      var i := Find(es[1..], key);
      assert forall j :: 0 < j < i + 1 ==> es[j] == es[1..][j - 1];
      i + 1
  }

  predicate Has(es: Entries, key: Key) { Find(es, key) < |es| }

  function Without(es: Entries, key: Key): Entries {
    if Has(es, key) then es[..Find(es, key)] + es[Find(es, key) + 1..] else es
  }

  function Sum(c: Config, es: Entries): nat {
    if es == [] then 0 else c.size(es[0].key, es[0].value) + Sum(c, es[1..])
  }

  lemma {:induction false} SumConcat(c: Config, a: Entries, b: Entries)
    ensures Sum(c, a + b) == Sum(c, a) + Sum(c, b)
  {
    if a == [] {
      assert a + b == b;
    } else {
      SumConcat(c, a[1..], b);
      assert (a + b)[1..] == a[1..] + b;
    }
  }

  lemma SumSplit(c: Config, es: Entries, n: nat)
    requires n <= |es|
    ensures Sum(c, es) == Sum(c, es[..n]) + Sum(c, es[n..])
  {
    SumConcat(c, es[..n], es[n..]);
    assert es == es[..n] + es[n..];
  }

  /** The size of the entry with a key, 0 if there is none. */
  function SizeOf(c: Config, es: Entries, key: Key): nat {
    if Has(es, key) then c.size(key, es[Find(es, key)].value) else 0
  }

  lemma SumWithout(c: Config, es: Entries, key: Key)
    ensures Sum(c, Without(es, key)) == Sum(c, es) - SizeOf(c, es, key)
  {
    if Has(es, key) {
      var i := Find(es, key);
      SumSplit(c, es, i);
      SumConcat(c, es[..i], es[i + 1..]);
      assert es[i..][1..] == es[i + 1..];
    }
  }

  // ---------------------------------------------------------------- the operations

  /** The cache, and the sizes of entries that were subtracted twice since it was last flushed. */
  datatype State = State(elements: Entries, currentSize: int, drift: nat)

  const EMPTY := State([], 0, 0)

  datatype Op = Put(key: Key, value: Value) | Get(key: Key) | Evict(key: Key) | Flush

  /** How many of the oldest entries go until the size is within the limit. */
  function Evictions(c: Config, es: Entries, size: int, limit: int): (n: nat)
    ensures n <= |es|
  {
    if size <= limit || es == [] then 0
    else 1 + Evictions(c, es[1..], size - c.size(es[0].key, es[0].value), limit)
  }

  /** How many entries Put evicts to make room. */
  function PutEvicts(c: Config, s: State, key: Key, value: Value): (n: nat)
    ensures n <= |s.elements|
  {
    Evictions(c, s.elements, s.currentSize - SizeOf(c, s.elements, key), c.maxSize - c.size(key, value))
  }

  /** Put after evicting the `n` oldest entries. */
  function PutEvicting(c: Config, s: State, key: Key, value: Value, n: nat): State
    requires n <= |s.elements|
  {
    State(Without(s.elements[n..], key) + [Entry(key, value)],
          s.currentSize - SizeOf(c, s.elements, key) - Sum(c, s.elements[..n]) + c.size(key, value),
          s.drift + SizeOf(c, s.elements[..n], key))
  }

  function PutStep(c: Config, s: State, key: Key, value: Value): State {
    if c.size(key, value) > c.maxSize then EMPTY else PutEvicting(c, s, key, value, PutEvicts(c, s, key, value))
  }

  function GetStep(s: State, key: Key): State {
    if Has(s.elements, key) then
      s.(elements := Without(s.elements, key) + [s.elements[Find(s.elements, key)]])
    else s
  }

  function EvictStep(c: Config, s: State, key: Key): State {
    s.(elements := Without(s.elements, key), currentSize := s.currentSize - SizeOf(c, s.elements, key))
  }

  function Step(c: Config, s: State, op: Op): State {
    match op
    case Put(k, v) => PutStep(c, s, k, v)
    case Get(k) => GetStep(s, k)
    case Evict(k) => EvictStep(c, s, k)
    case Flush => EMPTY
  }

  function Run(c: Config, ops: seq<Op>): State {
    if ops == [] then EMPTY else Step(c, Run(c, ops[..|ops| - 1]), ops[|ops| - 1])
  }

  // ---------------------------------------------------------------- the accounts

  /** The counter is short of the resident sizes by the drift, and within the bound. */
  ghost predicate Good(c: Config, s: State) {
    && DistinctKeys(s.elements)
    && s.currentSize == Sum(c, s.elements) - s.drift
    && (s.elements != [] ==> s.currentSize <= c.maxSize)
    && (s.elements == [] ==> s.currentSize <= 0)
  }

  /** Eviction stops with the size within the limit, and no sooner than that. */
  lemma {:induction false} EvictionsSuffice(c: Config, es: Entries, size: int, limit: int)
    requires size <= Sum(c, es) && 0 <= limit
    ensures var n := Evictions(c, es, size, limit);
      && size - Sum(c, es[..n]) <= limit
      && (forall m :: 0 <= m < n ==> size - Sum(c, es[..m]) > limit)
  {
    var n := Evictions(c, es, size, limit);
    if size > limit && es != [] {
      var first := c.size(es[0].key, es[0].value);
      EvictionsSuffice(c, es[1..], size - first, limit);
      assert es[..n][1..] == es[1..][..n - 1];
      forall m | 0 <= m < n ensures size - Sum(c, es[..m]) > limit {
        if m > 0 { assert es[..m][1..] == es[1..][..m - 1]; }
      }
    }
  }

  lemma PutSums(c: Config, s: State, key: Key, value: Value, n: nat)
    requires DistinctKeys(s.elements) && n <= |s.elements|
    ensures Sum(c, Without(s.elements[n..], key) + [Entry(key, value)])
            == Sum(c, s.elements) - Sum(c, s.elements[..n]) - SizeOf(c, s.elements, key) + SizeOf(c, s.elements[..n], key)
               + c.size(key, value)
  {
    SumSplit(c, s.elements, n);
    SumWithout(c, s.elements[n..], key);
    SumConcat(c, Without(s.elements[n..], key), [Entry(key, value)]);
  }

  lemma PutDistinct(es: Entries, key: Key, value: Value)
    requires DistinctKeys(es)
    ensures DistinctKeys(Without(es, key) + [Entry(key, value)])
  {
    var rest := Without(es, key);
    forall i | 0 <= i < |rest| ensures rest[i].key != key { assert rest[i] in rest; }
  }

  lemma SuffixDistinct(es: Entries, n: nat)
    requires DistinctKeys(es) && n <= |es|
    ensures DistinctKeys(es[n..])
  {
  }

  lemma PutGood(c: Config, s: State, key: Key, value: Value)
    requires Good(c, s)
    ensures Good(c, PutStep(c, s, key, value))
  {
    if c.size(key, value) <= c.maxSize {
      var n := PutEvicts(c, s, key, value);
      EvictionsSuffice(c, s.elements, s.currentSize - SizeOf(c, s.elements, key), c.maxSize - c.size(key, value));
      PutSums(c, s, key, value, n);
      SuffixDistinct(s.elements, n);
      PutDistinct(s.elements[n..], key, value);
    }
  }

  lemma GetGood(c: Config, s: State, key: Key)
    requires Good(c, s)
    ensures Good(c, GetStep(s, key))
  {
    if Has(s.elements, key) {
      var e := s.elements[Find(s.elements, key)];
      SumWithout(c, s.elements, key);
      SumConcat(c, Without(s.elements, key), [e]);
      PutDistinct(s.elements, key, e.value);
    }
  }

  lemma EvictGood(c: Config, s: State, key: Key)
    requires Good(c, s)
    ensures Good(c, EvictStep(c, s, key))
  {
    SumWithout(c, s.elements, key);
  }

  lemma StepGood(c: Config, s: State, op: Op)
    requires Good(c, s)
    ensures Good(c, Step(c, s, op))
  {
    match op
    case Put(k, v) => PutGood(c, s, k, v);
    case Get(k) => GetGood(c, s, k);
    case Evict(k) => EvictGood(c, s, k);
    case Flush =>
  }

  // ---------------------------------------------------------------- when the accounts drift

  lemma SumMonotone(c: Config, es: Entries, m: nat, n: nat)
    requires m <= n <= |es|
    ensures Sum(c, es[..m]) <= Sum(c, es[..n])
  {
    SumSplit(c, es[..n], m);
    assert es[..n][..m] == es[..m];
  }

  /** Put evicts its own key exactly if the entry does not fit beside the entries that are newer. */
  lemma EvictsOwnKey(c: Config, s: State, key: Key, value: Value)
    requires Good(c, s) && Has(s.elements, key) && c.size(key, value) <= c.maxSize
    ensures Find(s.elements, key) < PutEvicts(c, s, key, value) <==>
            Sum(c, s.elements[Find(s.elements, key) + 1..]) + c.size(key, value) > c.maxSize + s.drift
  {
    var i, n := Find(s.elements, key), PutEvicts(c, s, key, value);
    EvictionsSuffice(c, s.elements, s.currentSize - SizeOf(c, s.elements, key), c.maxSize - c.size(key, value));
    SumSplit(c, s.elements, i);
    assert s.elements[i..][1..] == s.elements[i + 1..];
    if n <= i { SumMonotone(c, s.elements, n, i); }
  }

  /** ... and that is exactly when the counter falls short by the old entry's size. */
  lemma PutDrifts(c: Config, s: State, key: Key, value: Value)
    requires Good(c, s) && c.size(key, value) <= c.maxSize
    ensures PutStep(c, s, key, value).drift ==
            if Has(s.elements, key)
               && Sum(c, s.elements[Find(s.elements, key) + 1..]) + c.size(key, value) > c.maxSize + s.drift
            then s.drift + SizeOf(c, s.elements, key)
            else s.drift
  {
    if Has(s.elements, key) { EvictsOwnKey(c, s, key, value); }
  }

  /** The Puts that leave the drift alone: too large, new, not larger, or fitting beside the newer entries. */
  ghost predicate Harmless(c: Config, s: State, op: Op) {
    op.Put? ==>
      || c.size(op.key, op.value) > c.maxSize
      || SizeOf(c, s.elements, op.key) == 0
      || c.size(op.key, op.value) <= SizeOf(c, s.elements, op.key)
      || Sum(c, s.elements[Find(s.elements, op.key) + 1..]) + c.size(op.key, op.value) <= c.maxSize + s.drift
  }

  lemma NotLargerFits(c: Config, s: State, key: Key, value: Value)
    requires Good(c, s) && Has(s.elements, key) && c.size(key, value) <= SizeOf(c, s.elements, key)
    ensures Sum(c, s.elements[Find(s.elements, key) + 1..]) + c.size(key, value) <= c.maxSize + s.drift
  {
    var i := Find(s.elements, key);
    SumSplit(c, s.elements, i);
    assert s.elements[i..][1..] == s.elements[i + 1..];
  }

  /** From exact accounts, an operation leads to exact accounts if and only if it is harmless. */
  lemma HarmlessDrift(c: Config, s: State, op: Op)
    requires Good(c, s) && s.drift == 0
    ensures Step(c, s, op).drift == 0 <==> Harmless(c, s, op)
  {
    if op.Put? && c.size(op.key, op.value) <= c.maxSize {
      HarmlessPut(c, s, op.key, op.value, PutStep(c, s, op.key, op.value).drift);
    }
  }

  lemma HarmlessPut(c: Config, s: State, key: Key, value: Value, drift: nat)
    requires Good(c, s) && s.drift == 0 && c.size(key, value) <= c.maxSize
    requires drift == PutStep(c, s, key, value).drift
    ensures drift == 0 <==> Harmless(c, s, Put(key, value))
  {
    PutDrifts(c, s, key, value);
    if Has(s.elements, key) && c.size(key, value) <= SizeOf(c, s.elements, key) {
      NotLargerFits(c, s, key, value);
    }
  }

  // ---------------------------------------------------------------- whole runs

  /** The value of the last Put of a key. */
  function LastPut(ops: seq<Op>, key: Key): Option<Value> {
    if ops == [] then None
    else if ops[|ops| - 1].Put? && ops[|ops| - 1].key == key then Some(ops[|ops| - 1].value)
    else LastPut(ops[..|ops| - 1], key)
  }

  /** The time of the last Put or Get of a key, -1 if there is none. */
  function LastUse(ops: seq<Op>, key: Key): (t: int)
    ensures -1 <= t < |ops|
  {
    if ops == [] then -1
    else if (ops[|ops| - 1].Put? || ops[|ops| - 1].Get?) && ops[|ops| - 1].key == key then |ops| - 1
    else LastUse(ops[..|ops| - 1], key)
  }

  /** The entries hold the last values put, from the least to the most recently used. */
  ghost predicate Tracks(ops: seq<Op>, es: Entries) {
    && (forall i :: 0 <= i < |es| ==> LastPut(ops, es[i].key) == Some(es[i].value))
    && (forall i, j :: 0 <= i < j < |es| ==> LastUse(ops, es[i].key) < LastUse(ops, es[j].key))
  }

  lemma TracksWithout(ops: seq<Op>, es: Entries, key: Key)
    requires Tracks(ops, es)
    ensures Tracks(ops, Without(es, key))
  {
    var part, at := Without(es, key), Find(es, key);
    forall i | 0 <= i < |part| ensures part[i] == es[Before(i, at)] && Before(i, at) < |es| {}
    forall i | 0 <= i < |part| ensures LastPut(ops, part[i].key) == Some(part[i].value) {
      assert LastPut(ops, es[Before(i, at)].key) == Some(es[Before(i, at)].value);
    }
    forall i, j | 0 <= i < j < |part| ensures LastUse(ops, part[i].key) < LastUse(ops, part[j].key) {
      assert LastUse(ops, es[Before(i, at)].key) < LastUse(ops, es[Before(j, at)].key);
    }
  }

  /** Where entry `i` was before the one at `at` was removed. */
  function Before(i: nat, at: nat): nat { if i < at then i else i + 1 }

  lemma TracksLater(ops: seq<Op>, es: Entries)
    requires ops != [] && Tracks(ops[..|ops| - 1], es)
    requires forall e :: e in es && (ops[|ops| - 1].Put? || ops[|ops| - 1].Get?) ==> e.key != ops[|ops| - 1].key
    ensures Tracks(ops, es)
  {
    forall i | 0 <= i < |es|
      ensures LastPut(ops, es[i].key) == LastPut(ops[..|ops| - 1], es[i].key)
      ensures LastUse(ops, es[i].key) == LastUse(ops[..|ops| - 1], es[i].key)
    {
      assert es[i] in es;
    }
  }

  /** The last operation's own key goes to the end. */
  lemma TracksMoved(ops: seq<Op>, es: Entries, value: Value)
    requires ops != [] && DistinctKeys(es) && Tracks(ops[..|ops| - 1], es)
    requires ops[|ops| - 1].Put? || ops[|ops| - 1].Get?
    requires LastPut(ops, ops[|ops| - 1].key) == Some(value)
    ensures Tracks(ops, Without(es, ops[|ops| - 1].key) + [Entry(ops[|ops| - 1].key, value)])
  {
    var key := ops[|ops| - 1].key;
    var rest := Without(es, key);
    TracksWithout(ops[..|ops| - 1], es, key);
    TracksLater(ops, rest);
    forall i | 0 <= i < |rest| ensures LastUse(ops, rest[i].key) < |ops| - 1 { assert rest[i] in rest; }
    TracksAppend(ops, rest, Entry(key, value));
  }

  lemma TracksAppend(ops: seq<Op>, es: Entries, e: Entry)
    requires Tracks(ops, es) && LastPut(ops, e.key) == Some(e.value)
    requires forall i :: 0 <= i < |es| ==> LastUse(ops, es[i].key) < LastUse(ops, e.key)
    ensures Tracks(ops, es + [e])
  {
  }

  lemma StepTracks(c: Config, ops: seq<Op>, s: State)
    requires ops != [] && Good(c, s) && Tracks(ops[..|ops| - 1], s.elements)
    ensures Tracks(ops, Step(c, s, ops[|ops| - 1]).elements)
  {
    var op, es := ops[|ops| - 1], s.elements;
    match op {
      case Put(key, value) =>
        if c.size(key, value) <= c.maxSize {
          var n := PutEvicts(c, s, key, value);
          SuffixDistinct(es, n);
          TracksMoved(ops, es[n..], value);
        }
      case Get(key) =>
        if Has(es, key) {
          TracksMoved(ops, es, es[Find(es, key)].value);
        } else {
          forall e | e in es ensures e.key != key { var i :| 0 <= i < |es| && es[i] == e; }
          TracksLater(ops, es);
        }
      case Evict(key) =>
        TracksWithout(ops[..|ops| - 1], es, key);
        TracksLater(ops, Without(es, key));
      case Flush =>
    }
  }

  /** In every run: the counter is the resident sizes less the drift and within the bound, every entry has
      the last value put for its key, and the entries stand in the order of their last use. */
  lemma {:induction false} EveryRun(c: Config, ops: seq<Op>)
    ensures Good(c, Run(c, ops)) && Tracks(ops, Run(c, ops).elements)
  {
    if ops != [] {
      var before := ops[..|ops| - 1];
      EveryRun(c, before);
      StepGood(c, Run(c, before), ops[|ops| - 1]);
      StepTracks(c, ops, Run(c, before));
    }
  }

  /** A run without harmful overwrites has exact accounts. */
  lemma {:induction false} ExactRun(c: Config, ops: seq<Op>)
    requires forall k :: 0 <= k < |ops| ==> Harmless(c, Run(c, ops[..k]), ops[k])
    ensures Run(c, ops).currentSize == Sum(c, Run(c, ops).elements)
    ensures 0 <= c.maxSize ==> Sum(c, Run(c, ops).elements) <= c.maxSize
    ensures Run(c, ops).drift == 0
  {
    EveryRun(c, ops);
    if ops != [] {
      var before := ops[..|ops| - 1];
      forall k | 0 <= k < |before| ensures Harmless(c, Run(c, before[..k]), before[k]) {
        assert before[..k] == ops[..k];
      }
      ExactRun(c, before);
      EveryRun(c, before);
      HarmlessDrift(c, Run(c, before), ops[|ops| - 1]);
    }
  }

  /** The first `n` entries were all used before the others, and without evicting the last of them the new
      entry would not fit. */
  ghost predicate LeastRecentFirst(c: Config, ops: seq<Op>, s: State, key: Key, value: Value, n: nat)
    requires n <= |s.elements|
  {
    && (forall i, j :: 0 <= i < n <= j < |s.elements| ==> LastUse(ops, s.elements[i].key) < LastUse(ops, s.elements[j].key))
    && (forall m :: 0 <= m < n ==>
          s.currentSize - SizeOf(c, s.elements, key) - Sum(c, s.elements[..m]) + c.size(key, value) > c.maxSize)
  }

  lemma EvictsLeastRecent(c: Config, ops: seq<Op>, s: State, key: Key, value: Value)
    requires Good(c, s) && Tracks(ops, s.elements) && c.size(key, value) <= c.maxSize
    ensures LeastRecentFirst(c, ops, s, key, value, PutEvicts(c, s, key, value))
  {
    EvictionsSuffice(c, s.elements, s.currentSize - SizeOf(c, s.elements, key), c.maxSize - c.size(key, value));
  }

  /** After any run, Put evicts the least recently used entries, as few as make room. */
  lemma PutEvictsLeastRecent(c: Config, ops: seq<Op>, key: Key, value: Value)
    requires c.size(key, value) <= c.maxSize
    ensures LeastRecentFirst(c, ops, Run(c, ops), key, value, PutEvicts(c, Run(c, ops), key, value))
  {
    EveryRun(c, ops);
    EvictsLeastRecent(c, ops, Run(c, ops), key, value);
  }

  // ---------------------------------------------------------------- what stays in the cache

  /** Get only reorders: the key, if it is there, becomes the last one. */
  lemma GetKeeps(s: State, key: Key)
    ensures var es := GetStep(s, key).elements;
      && multiset(es) == multiset(s.elements)
      && (forall e :: e in s.elements && e.key == key ==> es != [] && es[|es| - 1].key == key)
  {
    if Has(s.elements, key) {
      var i := Find(s.elements, key);
      assert s.elements == s.elements[..i] + [s.elements[i]] + s.elements[i + 1..];
    }
  }

  /** Taking out a key takes out its entry and no other. */
  lemma WithoutKeeps(es: Entries, key: Key)
    requires DistinctKeys(es)
    ensures forall e :: e in Without(es, key) <==> e in es && e.key != key
  {
    var i := Find(es, key);
    if i < |es| {
      assert es == es[..i] + [es[i]] + es[i + 1..];
    } else {
      forall e | e in es ensures e.key != key { var j :| 0 <= j < |es| && es[j] == e; }
    }
  }

  lemma HasIs(es: Entries, key: Key)
    ensures Has(es, key) <==> exists e :: e in es && e.key == key
  {
    if e :| e in es && e.key == key { var j :| 0 <= j < |es| && es[j] == e; }
  }

  /** The new entry fits once the `n` oldest ones are gone. */
  ghost predicate FitsAfter(c: Config, s: State, key: Key, value: Value, n: nat)
    requires n <= |s.elements|
  {
    s.currentSize - SizeOf(c, s.elements, key) - Sum(c, s.elements[..n]) + c.size(key, value) <= c.maxSize
  }

  /** A Put that is not too large leaves its own entry and those of other keys, but for the least recently used:
      as many of these as it takes to make room, and no more. */
  lemma PutKeeps(c: Config, s: State, key: Key, value: Value) returns (n: nat)
    requires Good(c, s) && c.size(key, value) <= c.maxSize
    ensures n <= |s.elements| && FitsAfter(c, s, key, value, n) && forall m :: 0 <= m < n ==> !FitsAfter(c, s, key, value, m)
    ensures forall e :: e in PutStep(c, s, key, value).elements <==> e == Entry(key, value) || (e in s.elements[n..] && e.key != key)
  {
    n := PutEvicts(c, s, key, value);
    EvictionsSuffice(c, s.elements, s.currentSize - SizeOf(c, s.elements, key), c.maxSize - c.size(key, value));
    SuffixDistinct(s.elements, n);
    WithoutKeeps(s.elements[n..], key);
  }

  /** The operations that take a key out of the cache: evicting it, flushing, a Put that is too large, and a Put
      of another key that does not fit beside it and the entries that were used since. */
  ghost predicate TakesOut(c: Config, s: State, op: Op, key: Key) {
    match op
    case Put(k, v) => c.size(k, v) > c.maxSize || (k != key && !FitsAfter(c, s, k, v, Find(s.elements, key)))
    case Get(_) => false
    case Evict(k) => k == key
    case Flush => true
  }

  ghost predicate PutsIn(c: Config, op: Op, key: Key) {
    op.Put? && op.key == key && c.size(op.key, op.value) <= c.maxSize
  }

  lemma PutResident(c: Config, s: State, k: Key, v: Value, key: Key)
    requires Good(c, s) && c.size(k, v) <= c.maxSize && k != key
    ensures Has(PutStep(c, s, k, v).elements, key) <==> Has(s.elements, key) && FitsAfter(c, s, k, v, Find(s.elements, key))
  {
    var n := PutKeeps(c, s, k, v);
    var i, es := Find(s.elements, key), s.elements;
    HasIs(PutStep(c, s, k, v).elements, key);
    if Has(es, key) {
      if n <= i {
        SumMonotone(c, es, n, i);
        assert es[n..][i - n] == es[i];
        assert es[i] in PutStep(c, s, k, v).elements;
      } else {
        forall e | e in es[n..] ensures e.key != key { var j :| n <= j < |es| && es[j] == e; }
      }
    } else {
      HasIs(es, key);
    }
  }

  lemma StepResident(c: Config, s: State, op: Op, key: Key)
    requires Good(c, s)
    ensures Has(Step(c, s, op).elements, key) <==>
              PutsIn(c, op, key) || (Has(s.elements, key) && !TakesOut(c, s, op, key))
  {
    HasIs(s.elements, key);
    HasIs(Step(c, s, op).elements, key);
    match op
    case Put(k, v) =>
      if c.size(k, v) <= c.maxSize {
        if k == key {
          var n := PutKeeps(c, s, k, v);
          assert Entry(k, v) in PutStep(c, s, k, v).elements;
        } else {
          PutResident(c, s, k, v, key);
        }
      }
    case Get(k) =>
      GetKeeps(s, k);
      assert forall e :: e in GetStep(s, k).elements <==> e in multiset(s.elements);
    case Evict(k) => WithoutKeeps(s.elements, k);
    case Flush =>
  }

  /** At some time before `n` it was put in, and at none since was it taken out. */
  ghost predicate Since(puts: nat -> bool, takes: nat -> bool, n: nat) {
    exists t: nat :: PutAt(puts, takes, n, t)
  }

  ghost predicate PutAt(puts: nat -> bool, takes: nat -> bool, n: nat, t: nat) {
    t < n && puts(t) && forall u: nat :: t < u < n ==> !takes(u)
  }

  lemma SinceStep(puts: nat -> bool, takes: nat -> bool, n: nat)
    ensures Since(puts, takes, n + 1) <==> puts(n) || (Since(puts, takes, n) && !takes(n))
  {
    if puts(n) { assert PutAt(puts, takes, n + 1, n); }
    if Since(puts, takes, n) && !takes(n) {
      var t: nat :| PutAt(puts, takes, n, t);
      assert PutAt(puts, takes, n + 1, t);
    }
    if Since(puts, takes, n + 1) && !puts(n) {
      var t: nat :| PutAt(puts, takes, n + 1, t);
      assert PutAt(puts, takes, n, t);
    }
  }

  /** The times at which a run puts the key in, and those at which it takes it out. */
  ghost function PutTimes(c: Config, ops: seq<Op>, key: Key): nat -> bool {
    (t: nat) => t < |ops| && PutsIn(c, ops[t], key)
  }

  ghost function TakeTimes(c: Config, ops: seq<Op>, key: Key): nat -> bool {
    (t: nat) => t < |ops| && TakesOut(c, Run(c, ops[..t]), ops[t], key)
  }

  /** In every run a key is resident exactly if it was put and has not been taken out since. */
  lemma ResidentExactly(c: Config, ops: seq<Op>, key: Key)
    ensures Has(Run(c, ops).elements, key) <==> Since(PutTimes(c, ops, key), TakeTimes(c, ops, key), |ops|)
  {
    ResidentAt(c, ops, key, |ops|);
    assert ops[..|ops|] == ops;
  }

  lemma {:induction false} ResidentAt(c: Config, ops: seq<Op>, key: Key, n: nat)
    requires n <= |ops|
    ensures Has(Run(c, ops[..n]).elements, key) <==> Since(PutTimes(c, ops, key), TakeTimes(c, ops, key), n)
    decreases n
  {
    if n > 0 {
      ResidentAt(c, ops, key, n - 1);
      NextResident(c, ops, key, n - 1, Run(c, ops[..n - 1]));
      SinceStep(PutTimes(c, ops, key), TakeTimes(c, ops, key), n - 1);
    }
  }

  lemma NextResident(c: Config, ops: seq<Op>, key: Key, n: nat, s: State)
    requires n < |ops| && s == Run(c, ops[..n])
    ensures Has(Run(c, ops[..n + 1]).elements, key) <==>
              PutTimes(c, ops, key)(n) || (Has(s.elements, key) && !TakeTimes(c, ops, key)(n))
  {
    EveryRun(c, ops[..n]);
    assert ops[..n + 1][..n] == ops[..n];
    StepResident(c, s, ops[n], key);
  }

  lemma TwoPuts(c: Config, a: Entry, b: Entry)
    requires a.key != b.key && c.size(a.key, a.value) + c.size(b.key, b.value) <= c.maxSize
    ensures Run(c, [Put(a.key, a.value), Put(b.key, b.value)])
            == State([a, b], c.size(a.key, a.value) + c.size(b.key, b.value), 0)
  {
    var ops := [Put(a.key, a.value), Put(b.key, b.value)];
    assert ops[..1] == [Put(a.key, a.value)] && ops[..1][..0] == [];
    assert Run(c, ops[..1]) == State([a], c.size(a.key, a.value), 0);
    assert Find([a], b.key) == 1;
    assert [a] + [b] == [a, b];
  }

  /** A harmful overwrite: two entries of size 4, of which the older is put again with size 7. The cache
      then holds 11, more than its bound of 10, and counts 7. */
  lemma OverwriteMiscounts(c: Config, a: Entry, b: Entry, value: Value)
    requires a.key != b.key && c.maxSize == 10
    requires c.size(a.key, a.value) == 4 && c.size(b.key, b.value) == 4 && c.size(a.key, value) == 7
    ensures var s := Run(c, [Put(a.key, a.value), Put(b.key, b.value), Put(a.key, value)]);
      s.elements == [b, Entry(a.key, value)] && s.currentSize == 7 && Sum(c, s.elements) == 11
  {
    var ops := [Put(a.key, a.value), Put(b.key, b.value), Put(a.key, value)];
    assert ops[..2] == [Put(a.key, a.value), Put(b.key, b.value)];
    TwoPuts(c, a, b);
    PutAgain(c, a, b, value);
  }

  lemma PutAgain(c: Config, a: Entry, b: Entry, value: Value)
    requires a.key != b.key && c.maxSize == 10
    requires c.size(a.key, a.value) == 4 && c.size(b.key, b.value) == 4 && c.size(a.key, value) == 7
    ensures var s := PutStep(c, State([a, b], 8, 0), a.key, value);
      s.elements == [b, Entry(a.key, value)] && s.currentSize == 7 && Sum(c, s.elements) == 11
  {
    var es := [a, b];
    assert Find(es, a.key) == 0;
    FirstEvicted(c, es);
    assert Find([b], a.key) == 1;
    SumOfTwo(c, b, Entry(a.key, value));
    assert Without(es[1..], a.key) + [Entry(a.key, value)] == [b, Entry(a.key, value)];
  }

  lemma FirstEvicted(c: Config, es: Entries)
    requires |es| == 2 && c.size(es[0].key, es[0].value) == 4
    ensures Evictions(c, es, 4, 3) == 1 && Sum(c, es[..1]) == 4
  {
    assert Evictions(c, es[1..], 0, 3) == 0;
    assert es[..1] == [es[0]] && es[..1][1..] == [];
  }

  lemma SumOfTwo(c: Config, a: Entry, b: Entry)
    ensures Sum(c, [a, b]) == c.size(a.key, a.value) + c.size(b.key, b.value)
  {
    SumConcat(c, [a], [b]);
    assert [a] + [b] == [a, b];
  }

  // ---------------------------------------------------------------- the cache object

  lemma EvictionsNext(c: Config, es: Entries, i: nat, size: int, limit: int)
    requires i < |es| && size > limit
    ensures Evictions(c, es[i..], size, limit)
            == 1 + Evictions(c, es[i + 1..], size - c.size(es[i].key, es[i].value), limit)
    ensures Sum(c, es[i..]) == c.size(es[i].key, es[i].value) + Sum(c, es[i + 1..])
    ensures Sum(c, es[..i + 1]) == Sum(c, es[..i]) + c.size(es[i].key, es[i].value)
  {
    assert es[i..][1..] == es[i + 1..];
    SumConcat(c, es[..i], [es[i]]);
    assert es[..i + 1] == es[..i] + [es[i]];
  }

  class SizedLRU {
    const config: Config
    var elements: Entries
    var currentSize: int
    ghost var drift: nat

    ghost function Now(): State
      reads this
    {
      State(elements, currentSize, drift)
    }

    ghost predicate Valid()
      reads this
    {
      Good(config, Now())
    }

    constructor (config: Config)
      ensures this.config == config && Now() == EMPTY && Valid()
    {
      this.config, elements, currentSize, drift := config, [], 0, 0;
    }

    method Put(key: Key, value: Value)
      requires Valid()
      modifies this
      ensures Valid() && Now() == PutStep(config, old(Now()), key, value)
    {
      PutGood(config, Now(), key, value);
      if config.size(key, value) > config.maxSize {
        Flush();
      } else {
        ghost var n := MakeRoom(key, value);
      }
    }

    /** The part of Put for an entry that is not too large. */
    method MakeRoom(key: Key, value: Value) returns (ghost n: nat)
      requires config.size(key, value) <= config.maxSize && currentSize <= Sum(config, elements)
      modifies this
      ensures n == PutEvicts(config, old(Now()), key, value) && Now() == PutEvicting(config, old(Now()), key, value, n)
    {
      ghost var was := Now();
      DiscountOld(key);
      n := EvictDownTo(config.maxSize - config.size(key, value));
      elements, currentSize, drift :=
        Without(elements, key) + [Entry(key, value)],
        currentSize + config.size(key, value),
        drift + SizeOf(config, was.elements[..n], key);
    }

    method DiscountOld(key: Key)
      modifies `currentSize
      ensures currentSize == old(currentSize) - SizeOf(config, elements, key)
    {
      if Has(elements, key) {
        currentSize := currentSize - config.size(key, elements[Find(elements, key)].value);
      }
    }

    /** Put's loop. The counter is never more than the resident sizes, so there is an oldest entry. */
    method EvictDownTo(limit: int) returns (ghost n: nat)
      requires 0 <= limit && currentSize <= Sum(config, elements)
      modifies `elements, `currentSize
      ensures n == Evictions(config, old(elements), old(currentSize), limit)
      ensures elements == old(elements)[n..] && currentSize == old(currentSize) - Sum(config, old(elements)[..n])
      ensures currentSize <= limit
    {
      n := 0;
      while currentSize > limit
        invariant n <= |old(elements)| && elements == old(elements)[n..]
        invariant currentSize == old(currentSize) - Sum(config, old(elements)[..n]) <= Sum(config, elements)
        invariant Evictions(config, old(elements), old(currentSize), limit)
                  == n + Evictions(config, elements, currentSize, limit)
        decreases |elements|
      {
        EvictionsNext(config, old(elements), n, currentSize, limit);
        var oldest := elements[0];
        elements := elements[1..];
        currentSize := currentSize - config.size(oldest.key, oldest.value);
        n := n + 1;
      }
    }

    /** A hit returns the entry's value and makes it the most recently used. */
    method Get(key: Key) returns (r: Option<Value>)
      requires Valid()
      modifies this
      ensures Valid() && Now() == GetStep(old(Now()), key)
      ensures r.Some? <==> Has(old(elements), key)
      ensures forall ops :: r.Some? && Tracks(ops, old(elements)) ==> LastPut(ops, key) == r
      ensures multiset(elements) == multiset(old(elements))
      ensures r.Some? ==> elements != [] && elements[|elements| - 1] == Entry(key, r.value)
    {
      GetGood(config, Now(), key);
      GetKeeps(Now(), key);
      if !Has(elements, key) { return None; }
      var e := elements[Find(elements, key)];
      elements := Without(elements, key) + [e];
      return Some(e.value);
    }

    method Evict(key: Key)
      requires Valid()
      modifies this
      ensures Valid() && Now() == EvictStep(config, old(Now()), key)
      ensures forall e :: e in elements <==> e in old(elements) && e.key != key
    {
      EvictGood(config, Now(), key);
      WithoutKeeps(elements, key);
      if Has(elements, key) {
        var e := elements[Find(elements, key)];
        elements := Without(elements, key);
        currentSize := currentSize - config.size(e.key, e.value);
      }
    }

    method Flush()
      modifies this
      ensures Valid() && Now() == EMPTY
    {
      elements, currentSize, drift := [], 0, 0;
    }
  }
}
