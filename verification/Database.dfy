/** The database layer: batches (database/batch.go), the versioned overlay (database/versiondb), the
prefix-clearing loop and the fixed-width integer encoding (database/helpers.go). */
module Database {
  import opened ByteStrings

  datatype BatchOp<K, V> = Put(key: K, value: V) | Delete(key: K)

  function ApplyOp<K, V>(db: map<K, V>, op: BatchOp<K, V>): map<K, V> {
    match op case Put(k, v) => db[k := v] case Delete(k) => db - {k}
  }

  /** Writing a batch: its operations in the order they were queued. */
  function Replay<K, V>(db: map<K, V>, ops: seq<BatchOp<K, V>>): map<K, V> {
    if ops == [] then db else ApplyOp(Replay(db, ops[..|ops| - 1]), ops[|ops| - 1])
  }

  lemma {:induction false} ReplayConcat<K, V>(db: map<K, V>, a: seq<BatchOp<K, V>>, b: seq<BatchOp<K, V>>)
    ensures Replay(db, a + b) == Replay(Replay(db, a), b)
    decreases |b|
  {
    if b == [] {
      assert a + b == a;
    } else {
      ReplayConcat(db, a, b[..|b| - 1]);
      assert (a + b)[..|a + b| - 1] == a + b[..|b| - 1];
    }
  }

  /** `ops[i]` is the last operation on `key`. */
  ghost predicate LastOn<K, V>(ops: seq<BatchOp<K, V>>, i: int, key: K) {
    0 <= i < |ops| && ops[i].key == key && forall j :: i < j < |ops| ==> ops[j].key != key
  }

  /** What the operation asks for is so. */
  ghost predicate Holds<K, V>(db: map<K, V>, op: BatchOp<K, V>) {
    match op case Put(k, v) => k in db && db[k] == v case Delete(k) => k !in db
  }

  lemma {:induction false} ReplayUnnamed<K, V>(db: map<K, V>, ops: seq<BatchOp<K, V>>, key: K)
    requires forall i :: 0 <= i < |ops| ==> ops[i].key != key
    ensures key in Replay(db, ops) <==> key in db
    ensures key in db ==> Replay(db, ops)[key] == db[key]
  {
    if ops != [] { ReplayUnnamed(db, ops[..|ops| - 1], key); }
  }

  /** Writing a batch leaves a key as its last operation on it says. */
  lemma {:induction false} ReplayLast<K, V>(db: map<K, V>, ops: seq<BatchOp<K, V>>, key: K, i: int)
    requires LastOn(ops, i, key)
    ensures Holds(Replay(db, ops), ops[i])
  {
    var n := |ops| - 1;
    if i < n {
      assert ops[n].key != key && LastOn(ops[..n], i, key);
      ReplayLast(db, ops[..n], key, i);
    }
  }

  // ---------------------------------------------------------------- the versioned overlay

  /** versiondb.Database: uncommitted writes over a base database. `None` is a pending delete. */
  class VersionDB<K(==), V> {
    const base: map<K, V>
    var mem: map<K, Option<V>>

    /** What a reader of the overlay sees. */
    ghost function View(): map<K, V>
      reads this
    {
      map k | k in base.Keys + mem.Keys && (if k in mem then mem[k].Some? else k in base) ::
        if k in mem then mem[k].value else base[k]
    }

    constructor (base: map<K, V>)
      ensures this.base == base && mem == map[] && View() == base
    {
      this.base := base;
      mem := map[];
    }

    method Get(key: K) returns (r: Option<V>)
      ensures r == if key in View() then Some(View()[key]) else None
    {
      if key in mem {
        r := mem[key];
      } else if key in base {
        r := Some(base[key]);
      } else {
        r := None;
      }
    }

    method Put(key: K, value: V)
      modifies this
      ensures View() == old(View())[key := value]
    {
      mem := mem[key := Some(value)];
      assert View() == old(View())[key := value];
    }

    method Delete(key: K)
      modifies this
      ensures View() == old(View()) - {key}
    {
      mem := mem[key := None];
      assert View() == old(View()) - {key};
    }

    /** The batch of uncommitted operations: writing it to the base gives the overlay's view, in
        whatever order the map of pending writes is iterated. */
    method CommitBatch() returns (ops: seq<BatchOp<K, V>>)
      ensures Replay(base, ops) == View()
    {
      ops := [];
      var left := mem.Keys;
      while left != {}
        invariant left <= mem.Keys
        invariant Replay(base, ops) == Overlay(base, mem, mem.Keys - left)
        decreases left
      {
        var key :| key in left;
        left := left - {key};
        ghost var before := ops;
        if mem[key].Some? { ops := ops + [BatchOp.Put(key, mem[key].value)]; } else { ops := ops + [BatchOp.Delete(key)]; }
        assert ops[..|ops| - 1] == before;
        assert Replay(base, ops) == Overlay(base, mem, mem.Keys - left);
      }
    }
  }

  /** `base` with the pending writes of `keys` applied. */
  ghost function Overlay<K, V>(base: map<K, V>, mem: map<K, Option<V>>, keys: set<K>): map<K, V>
    requires keys <= mem.Keys
  {
    map k | k in base.Keys + mem.Keys && (if k in keys then mem[k].Some? else k in base) ::
      if k in keys then mem[k].value else base[k]
  }

  // ---------------------------------------------------------------- batches of byte strings

  function OpSize(op: BatchOp<Bytes, Bytes>): nat {
    match op case Put(k, v) => |k| + |v| case Delete(k) => |k|
  }

  function OpsSize(ops: seq<BatchOp<Bytes, Bytes>>): nat {
    if ops == [] then 0 else OpsSize(ops[..|ops| - 1]) + OpSize(ops[|ops| - 1])
  }

  class BatchOps {
    var ops: seq<BatchOp<Bytes, Bytes>>
    var size: int

    ghost predicate Valid()
      reads this
    {
      size == OpsSize(ops)
    }

    constructor ()
      ensures Valid() && ops == []
    {
      ops, size := [], 0;
    }

    method Put(key: Bytes, value: Bytes)
      requires Valid()
      modifies this
      ensures Valid() && ops == old(ops) + [BatchOp.Put(key, value)]
    {
      ops := ops + [BatchOp.Put(key, value)];
      size := size + |key| + |value|;
      assert ops[..|ops| - 1] == old(ops);
    }

    method Delete(key: Bytes)
      requires Valid()
      modifies this
      ensures Valid() && ops == old(ops) + [BatchOp.Delete(key)]
    {
      ops := ops + [BatchOp.Delete(key)];
      size := size + |key|;
      assert ops[..|ops| - 1] == old(ops);
    }

    method Size() returns (n: int)
      requires Valid()
      ensures n == OpsSize(ops)
    {
      n := size;
    }

    method Reset()
      modifies this
      ensures Valid() && ops == []
    {
      ops, size := [], 0;
    }

    /** Queues this batch's operations on `w`: writing `w` then performs them after its own. */
    method Replay(w: BatchOps)
      requires Valid() && w.Valid() && w != this
      modifies w
      ensures w.Valid() && w.ops == old(w.ops) + ops
    {
      for i := 0 to |ops|
        invariant w.Valid() && w.ops == old(w.ops) + ops[..i]
      {
        match ops[i]
        case Delete(k) => w.Delete(k);
        case Put(k, v) => w.Put(k, v);
      }
    }
  }

  // ---------------------------------------------------------------- clearing a prefix

  predicate HasPrefix(key: Bytes, prefix: Bytes) { prefix <= key }

  /** A database whose writes succeed `writesLeft` more times, and whose iterators stop with an error after
      `readsLeft` more keys. */
  class Disk {
    var data: map<Bytes, Bytes>
    var writesLeft: nat
    var readsLeft: nat

    method Write(ops: seq<BatchOp<Bytes, Bytes>>) returns (ok: bool)
      modifies `data, `writesLeft
      ensures ok <==> 0 < old(writesLeft)
      ensures data == if ok then Replay(old(data), ops) else old(data)
      ensures writesLeft == if ok then old(writesLeft) - 1 else 0
    {
      if writesLeft == 0 { return false; }
      writesLeft := writesLeft - 1;
      data := Replay(data, ops);
      ok := true;
    }

    /** A snapshot of the keys with the prefix, each once. */
    method NewIteratorWithPrefix(prefix: Bytes) returns (keys: seq<Bytes>)
      ensures KeysOf(keys, Matching(data, prefix))
    {
      keys := [];
      var left := set k | k in data && HasPrefix(k, prefix);
      while left != {}
        invariant left <= Matching(data, prefix)
        invariant KeysOf(keys, Matching(data, prefix) - left)
        decreases left
      {
        var k :| k in left;
        keys := keys + [k];
        left := left - {k};
      }
    }

    /** Whether the iterator has another key; it has none once it has failed. */
    method Next(keys: seq<Bytes>) returns (more: bool, failed: bool)
      modifies `readsLeft
      ensures failed <==> keys != [] && old(readsLeft) == 0
      ensures more <==> keys != [] && !failed
      ensures readsLeft == if more then old(readsLeft) - 1 else old(readsLeft)
    {
      if keys == [] { return false, false; }
      if readsLeft == 0 { return false, true; }
      readsLeft := readsLeft - 1;
      return true, false;
    }
  }

  ghost function Matching(data: map<Bytes, Bytes>, prefix: Bytes): set<Bytes> {
    set k | k in data && HasPrefix(k, prefix)
  }

  /** `keys` lists the members of `s`, each once. */
  ghost predicate KeysOf(keys: seq<Bytes>, s: set<Bytes>) {
    && (forall i, j :: 0 <= i < j < |keys| ==> keys[i] != keys[j])
    && (forall k :: k in keys <==> k in s)
  }

  ghost predicate Deletes(ops: seq<BatchOp<Bytes, Bytes>>, keys: set<Bytes>) {
    && (forall i :: 0 <= i < |ops| ==> ops[i].Delete? && ops[i].key in keys)
    && (forall k :: k in keys ==> BatchOp.Delete(k) in ops)
  }

  lemma {:induction false} ReplayDeletes(data: map<Bytes, Bytes>, ops: seq<BatchOp<Bytes, Bytes>>, keys: set<Bytes>)
    requires Deletes(ops, keys)
    ensures Replay(data, ops) == data - keys
  {
    if ops == [] {
      assert keys == {};
    } else {
      var before, last := ops[..|ops| - 1], ops[|ops| - 1];
      var rest := set k | k in keys && BatchOp.Delete(k) in before;
      assert Deletes(before, rest);
      ReplayDeletes(data, before, rest);
      assert ops == before + [last];
      assert keys == rest + {last.key};
    }
  }

  /** The state of the clearing loop: `gone` has been written, `queued` is in the batch, and the
      iterator holds the rest. */
  ghost predicate Clearing(orig: map<Bytes, Bytes>, prefix: Bytes, data: map<Bytes, Bytes>, gone: set<Bytes>,
                           ops: seq<BatchOp<Bytes, Bytes>>, queued: set<Bytes>, it: seq<Bytes>)
  {
    && gone <= Matching(orig, prefix) && data == orig - gone
    && queued <= Matching(data, prefix) && Deletes(ops, queued)
    && KeysOf(it, Matching(data, prefix) - queued)
  }

  lemma ClearingQueues(orig: map<Bytes, Bytes>, prefix: Bytes, data: map<Bytes, Bytes>, gone: set<Bytes>,
                       ops: seq<BatchOp<Bytes, Bytes>>, queued: set<Bytes>, it: seq<Bytes>)
    requires it != [] && Clearing(orig, prefix, data, gone, ops, queued, it)
    ensures Clearing(orig, prefix, data, gone, ops + [BatchOp.Delete(it[0])], queued + {it[0]}, it[1..])
  {
    var key := it[0];
    assert key in it;
    forall k
      ensures k in it[1..] <==> k in Matching(data, prefix) - (queued + {key})
    {
      var left := Matching(data, prefix) - queued;
      assert k in it <==> k in left;
      if k in it[1..] {
        var i :| 0 <= i < |it| - 1 && it[i + 1] == k;
        assert it[0] != it[i + 1];
      }
      if k in Matching(data, prefix) - (queued + {key}) {
        var i :| 0 <= i < |it| && it[i] == k;
        assert it[1..][i - 1] == k;
      }
    }
    var more := ops + [BatchOp.Delete(key)];
    assert more[|ops|] == BatchOp.Delete(key);
    assert forall i :: 0 <= i < |ops| ==> more[i] == ops[i];
  }

  lemma ClearingWrites(orig: map<Bytes, Bytes>, prefix: Bytes, data: map<Bytes, Bytes>, gone: set<Bytes>,
                       ops: seq<BatchOp<Bytes, Bytes>>, queued: set<Bytes>, it: seq<Bytes>)
    requires Clearing(orig, prefix, data, gone, ops, queued, it)
    ensures Replay(data, ops) == orig - (gone + queued)
    ensures Matching(Replay(data, ops), prefix) == Matching(data, prefix) - queued
    ensures gone + queued <= Matching(orig, prefix)
    ensures it == [] ==> gone + queued == Matching(orig, prefix)
  {
    ReplayDeletes(data, ops, queued);
    if it == [] {
      var left := Matching(data, prefix) - queued;
      assert forall k :: k in left ==> k in it;
      forall k | k in Matching(data, prefix)
        ensures k in queued
      {
        assert k !in left;
      }
      assert Matching(orig, prefix) == gone + Matching(data, prefix);
    }
  }

  lemma ClearingRestarts(orig: map<Bytes, Bytes>, prefix: Bytes, data: map<Bytes, Bytes>, gone: set<Bytes>, it: seq<Bytes>)
    requires gone <= Matching(orig, prefix) && data == orig - gone && KeysOf(it, Matching(data, prefix))
    ensures Clearing(orig, prefix, data, gone, [], {}, it)
  {
    assert Matching(data, prefix) - {} == Matching(data, prefix);
  }

  ghost predicate OnlyPrefixGone(orig: map<Bytes, Bytes>, prefix: Bytes, data: map<Bytes, Bytes>) {
    exists gone :: gone <= Matching(orig, prefix) && data == orig - gone
  }

  /** Removes exactly the keys with the prefix, through any number of partial batch writes and
      iterator restarts; when a write or an iterator fails, only keys with the prefix are missing. */
  method ClearPrefix(db: Disk, prefix: Bytes, writeSize: int) returns (ok: bool)
    modifies db
    ensures ok ==> db.data == old(db.data) - Matching(old(db.data), prefix)
    ensures !ok ==> OnlyPrefixGone(old(db.data), prefix, db.data) && (db.writesLeft == 0 || db.readsLeft == 0)
  {
    ghost var orig := db.data;
    var b := new BatchOps();
    var it := db.NewIteratorWithPrefix(prefix);
    ghost var gone: set<Bytes>, queued: set<Bytes> := {}, {};
    assert db.data == orig - gone;
    ClearingRestarts(orig, prefix, db.data, gone, it);
    var more, failed := db.Next(it);
    while more
      invariant fresh(b) && b.Valid() && Clearing(orig, prefix, db.data, gone, b.ops, queued, it)
      invariant if more then it != [] else (if failed then db.readsLeft == 0 else it == [])
      decreases |Matching(db.data, prefix)|, |it|, more
    {
      var key := it[0];
      ClearingQueues(orig, prefix, db.data, gone, b.ops, queued, it);
      it := it[1..];
      b.Delete(key);
      queued := queued + {key};
      var size := b.Size();
      if writeSize <= size {
        ClearingWrites(orig, prefix, db.data, gone, b.ops, queued, it);
        SmallerAfterRemoving(Matching(db.data, prefix), queued, key);
        ok := db.Write(b.ops);
        if !ok { return; }
        b.Reset();
        gone, queued := gone + queued, {};
        it := db.NewIteratorWithPrefix(prefix);
        ClearingRestarts(orig, prefix, db.data, gone, it);
      }
      more, failed := db.Next(it);
    }
    ClearingWrites(orig, prefix, db.data, gone, b.ops, queued, it);
    ok := db.Write(b.ops);
    ok := ok && !failed;
  }

  lemma SmallerAfterRemoving<T>(s: set<T>, gone: set<T>, x: T)
    requires gone <= s && x in gone
    ensures |s - gone| < |s|
  {
    assert s == (s - gone) + gone;
  }

  // ---------------------------------------------------------------- fixed-width integers

  const UINT64_SIZE := 8

  const TWO_64: nat := 0x1_0000_0000_0000_0000

  function Pow256(n: nat): nat { if n == 0 then 1 else 256 * Pow256(n - 1) }

  /** The `n` low bytes of `v`, most significant first. */
  function BigEndian(v: nat, n: nat): Bytes
    decreases n
  {
    if n == 0 then [] else BigEndian(v / 256, n - 1) + [(v % 256) as byte]
  }

  function FromBigEndian(b: Bytes): nat {
    if b == [] then 0 else FromBigEndian(b[..|b| - 1]) * 256 + b[|b| - 1] as nat
  }

  function PackUInt64(v: nat): Bytes { BigEndian(v, UINT64_SIZE) }

  datatype ParseError = WrongSize

  function ParseUInt64(b: Bytes): Result<nat, ParseError> {
    if |b| != UINT64_SIZE then Err(WrongSize) else Ok(FromBigEndian(b))
  }

  lemma {:induction false} BigEndianRoundTrip(v: nat, n: nat)
    ensures |BigEndian(v, n)| == n
    ensures v < Pow256(n) ==> FromBigEndian(BigEndian(v, n)) == v
    decreases n
  {
    if 0 < n {
      BigEndianRoundTrip(v / 256, n - 1);
      assert BigEndian(v, n)[..n - 1] == BigEndian(v / 256, n - 1);
    }
  }

  lemma {:induction false} FromBigEndianRoundTrip(b: Bytes)
    ensures FromBigEndian(b) < Pow256(|b|)
    ensures BigEndian(FromBigEndian(b), |b|) == b
  {
    if b != [] {
      FromBigEndianRoundTrip(b[..|b| - 1]);
    }
  }

  lemma {:induction false} CompareAppend(a: Bytes, b: Bytes, x: byte, y: byte)
    requires |a| == |b|
    ensures Compare(a + [x], b + [y]) == if Compare(a, b) != 0 then Compare(a, b) else if x < y then -1 else if y < x then 1 else 0
    decreases |a|
  {
    if a != [] {
      CompareAppend(a[1..], b[1..], x, y);
      assert (a + [x])[1..] == a[1..] + [x] && (b + [y])[1..] == b[1..] + [y];
    }
  }

  /** The most significant byte comes first, so that bytes are ordered as the numbers are. */
  lemma {:induction false} BigEndianOrder(v: nat, w: nat, n: nat)
    requires v < Pow256(n) && w < Pow256(n)
    ensures Compare(BigEndian(v, n), BigEndian(w, n)) < 0 <==> v < w
    ensures Compare(BigEndian(v, n), BigEndian(w, n)) == 0 <==> v == w
    decreases n
  {
    if 0 < n {
      BigEndianOrder(v / 256, w / 256, n - 1);
      BigEndianRoundTrip(v / 256, n - 1);
      BigEndianRoundTrip(w / 256, n - 1);
      CompareAppend(BigEndian(v / 256, n - 1), BigEndian(w / 256, n - 1), (v % 256) as byte, (w % 256) as byte);
    }
  }

  lemma UInt64Order(v: nat, w: nat)
    requires v < TWO_64 && w < TWO_64
    ensures Compare(PackUInt64(v), PackUInt64(w)) < 0 <==> v < w
  {
    Pow256Of8();
    BigEndianOrder(v, w, 8);
  }

  lemma Pow256Of8()
    ensures Pow256(8) == TWO_64
  {
    assert Pow256(4) == 0x1_0000_0000;
    assert Pow256(6) == 0x1_0000_0000_0000;
  }

  /** Packing and parsing are inverse to each other on 64-bit values and 8-byte strings. */
  lemma UInt64RoundTrip(v: nat, b: Bytes)
    requires v < TWO_64
    ensures |PackUInt64(v)| == 8 && ParseUInt64(PackUInt64(v)) == Ok(v)
    ensures match ParseUInt64(b)
            case Ok(w) => w < TWO_64 && PackUInt64(w) == b
            case Err(_) => |b| != 8
  {
    Pow256Of8();
    BigEndianRoundTrip(v, 8);
    if |b| == 8 { FromBigEndianRoundTrip(b); }
  }
}
