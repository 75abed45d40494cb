/** Byte strings and their lexicographic order (Go's bytes.Compare), and sorting by it. */
module ByteStrings {

  newtype byte = x: int | 0 <= x < 256

  type Bytes = seq<byte>

  datatype Option<+T> = None | Some(value: T)

  datatype Result<+T, +E> = Ok(value: T) | Err(error: E)

  function Compare(a: Bytes, b: Bytes): int
    decreases |a|
  {
    if a == [] then (if b == [] then 0 else -1)
    else if b == [] then 1
    else if a[0] < b[0] then -1
    else if b[0] < a[0] then 1
    else Compare(a[1..], b[1..])
  }

  lemma {:induction false} CompareEqual(a: Bytes, b: Bytes)
    ensures Compare(a, b) == 0 <==> a == b
    ensures Compare(b, a) == -Compare(a, b)
    ensures -1 <= Compare(a, b) <= 1
    decreases |a|
  {
    if a != [] && b != [] && a[0] == b[0] {
      CompareEqual(a[1..], b[1..]);
      assert a == [a[0]] + a[1..] && b == [b[0]] + b[1..];
    }
  }

  lemma {:induction false} CompareTransitive(a: Bytes, b: Bytes, c: Bytes)
    requires Compare(a, b) <= 0 && Compare(b, c) <= 0
    ensures Compare(a, c) <= 0
    decreases |a|
  {
    if a != [] && b != [] && c != [] && a[0] == b[0] == c[0] {
      CompareTransitive(a[1..], b[1..], c[1..]);
    }
  }

  ghost predicate Sorted(s: seq<Bytes>) {
    forall i, j :: 0 <= i < j < |s| ==> Compare(s[i], s[j]) <= 0
  }

  function Insert(s: seq<Bytes>, x: Bytes): seq<Bytes> {
    if s == [] || Compare(x, s[0]) <= 0 then [x] + s else [s[0]] + Insert(s[1..], x)
  }

  /** utils.SortBytes. */
  function SortBytes(s: seq<Bytes>): seq<Bytes> {
    if s == [] then [] else Insert(SortBytes(s[1..]), s[0])
  }

  lemma {:induction false} InsertElements(s: seq<Bytes>, x: Bytes)
    ensures multiset(Insert(s, x)) == multiset(s) + multiset{x}
  {
    if s != [] && Compare(x, s[0]) > 0 {
      InsertElements(s[1..], x);
      assert s == [s[0]] + s[1..];
    }
  }

  lemma {:induction false} InsertKeepsSorted(s: seq<Bytes>, x: Bytes)
    requires Sorted(s)
    ensures Sorted(Insert(s, x))
  {
    if s == [] {
    } else if Compare(x, s[0]) <= 0 {
      forall j | 0 <= j < |s|
        ensures Compare(x, s[j]) <= 0
      {
        if 0 < j { CompareTransitive(x, s[0], s[j]); }
      }
    } else {
      var r := Insert(s[1..], x);
      InsertKeepsSorted(s[1..], x);
      forall j | 0 <= j < |r|
        ensures Compare(s[0], r[j]) <= 0
      {
        InsertElements(s[1..], x);
        assert r[j] in multiset(r);
        if r[j] == x { CompareEqual(x, s[0]); }
      }
    }
  }

  lemma {:induction false} SortBytesSorts(s: seq<Bytes>)
    ensures Sorted(SortBytes(s))
    ensures multiset(SortBytes(s)) == multiset(s)
  {
    if s != [] {
      SortBytesSorts(s[1..]);
      InsertKeepsSorted(SortBytes(s[1..]), s[0]);
      InsertElements(SortBytes(s[1..]), s[0]);
      assert s == [s[0]] + s[1..];
    }
  }
}
