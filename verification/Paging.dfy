/** Paginated lookup of keys by trait: getKeys and appendTraitKeys of chains/atomic/state.go.

The hash of a key is taken to be injective, so the set of hashes is the set of keys collected so far.
A nil start key is the empty byte string.
*/
module Paging {
  import opened ByteStrings
  import opened AtomicState

  /** The part of `list` from `start` on, or nothing when `start` is not in it. */
  function From(list: seq<Bytes>, start: Bytes): seq<Bytes> {
    if list == [] then [] else if list[0] == start then list else From(list[1..], start)
  }

  /** What linkeddb.NewIteratorWithStart iterates over: an unknown start key means the head. */
  function Iterate(list: seq<Bytes>, start: Bytes): seq<Bytes> {
    if start in list then From(list, start) else list
  }

  datatype Progress = Progress(keys: seq<Bytes>, limit: int, lastKey: Bytes)

  function AppendKeys(p: Progress, rest: seq<Bytes>): Progress
    decreases |rest|
  {
    if rest == [] || p.limit <= 0 then p
    else if rest[0] in p.keys then AppendKeys(p.(lastKey := rest[0]), rest[1..])
    else AppendKeys(Progress(p.keys + [rest[0]], p.limit - 1, rest[0]), rest[1..])
  }

  datatype Page = Page(keys: seq<Bytes>, lastTrait: Bytes, lastKey: Bytes)

  /** The trait loop of getKeys over the sorted `traits`. */
  function Walk(index: Index, traits: seq<Bytes>, startTrait: Bytes, startKey: Bytes,
                keys: seq<Bytes>, limit: int, lastTrait: Bytes, lastKey: Bytes): Page
    decreases |traits|
  {
    if traits == [] then Page(keys, lastTrait, lastKey)
    else
      var t := traits[0];
      if Compare(t, startTrait) < 0 then
        Walk(index, traits[1..], startTrait, startKey, keys, limit, lastTrait, lastKey)
      else
        var from := if Compare(t, startTrait) > 0 then [] else startKey;
        var p := AppendKeys(Progress(keys, limit, from), Iterate(TraitKeys(index, t), from));
        if p.limit == 0 then Page(p.keys, t, p.lastKey)
        else Walk(index, traits[1..], startTrait, from, p.keys, p.limit, t, p.lastKey)
  }

  function GetKeys(index: Index, traits: seq<Bytes>, startTrait: Bytes, startKey: Bytes, limit: int): Page {
    Walk(index, SortBytes(traits), startTrait, startKey, [], limit, startTrait, startKey)
  }

  method AppendTraitKeys(index: Index, keys: seq<Bytes>, limit: int, trait_: Bytes, startKey: Bytes)
    returns (p: Progress)
    ensures p == AppendKeys(Progress(keys, limit, startKey), Iterate(TraitKeys(index, trait_), startKey))
  {
    p := Progress(keys, limit, startKey);
    var iter := Iterate(TraitKeys(index, trait_), startKey);
    while iter != [] && p.limit > 0
      invariant AppendKeys(p, iter) == AppendKeys(Progress(keys, limit, startKey), Iterate(TraitKeys(index, trait_), startKey))
      decreases |iter|
    {
      var key := iter[0];
      iter := iter[1..];
      p := p.(lastKey := key);
      if key !in p.keys {
        p := p.(keys := p.keys + [key], limit := p.limit - 1);
      }
    }
  }

  method GetKeysLoop(index: Index, traits: seq<Bytes>, startTrait: Bytes, startKey: Bytes, limit: int)
    returns (page: Page)
    ensures page == GetKeys(index, traits, startTrait, startKey, limit)
  {
    var sorted := SortBytes(traits);
    var from, left := startKey, limit;
    page := Page([], startTrait, startKey);
    for i := 0 to |sorted|
      invariant Walk(index, sorted[i..], startTrait, from, page.keys, left, page.lastTrait, page.lastKey)
             == GetKeys(index, traits, startTrait, startKey, limit)
    {
      assert sorted[i..][0] == sorted[i] && sorted[i..][1..] == sorted[i + 1..];
      if Compare(sorted[i], startTrait) < 0 { continue; }
      if Compare(sorted[i], startTrait) > 0 { from := []; }
      var p := AppendTraitKeys(index, page.keys, left, sorted[i], from);
      page, left := Page(p.keys, sorted[i], p.lastKey), p.limit;
      if left == 0 { return; }
    }
  }

  // ---------------------------------------------------------------- lists and their tails

  lemma {:induction false} FromIsSuffix(list: seq<Bytes>, start: Bytes) returns (n: nat)
    requires start in list
    ensures n < |list| && list[n] == start && From(list, start) == list[n..]
  {
    if list[0] == start {
      n := 0;
    } else {
      n := FromIsSuffix(list[1..], start);
      n := n + 1;
    }
  }

  lemma {:induction false} FromAt(list: seq<Bytes>, n: nat)
    requires n < |list| && NoDuplicates(list)
    ensures From(list, list[n]) == list[n..]
  {
    if 0 < n {
      assert list[0] != list[n];
      FromAt(list[1..], n - 1);
    }
  }

  lemma IterateIsSuffix(list: seq<Bytes>, start: Bytes) returns (n: nat)
    requires NoDuplicates(list)
    ensures n <= |list| && Iterate(list, start) == list[n..]
  {
    if start in list { n := FromIsSuffix(list, start); } else { n := 0; }
  }

  /** Restarting an iteration at one of its keys resumes exactly there. */
  lemma IterateResumes(list: seq<Bytes>, start: Bytes, i: nat)
    requires NoDuplicates(list) && i < |Iterate(list, start)|
    ensures Iterate(list, Iterate(list, start)[i]) == Iterate(list, start)[i..]
  {
    var n := IterateIsSuffix(list, start);
    FromAt(list, n + i);
  }

  // ---------------------------------------------------------------- one trait

  /** `r` is what collecting the first `n` keys of `rest` makes of `p`: `n` is all of them, or ends
      with the key that filled the page. */
  ghost predicate Consumed(p: Progress, rest: seq<Bytes>, n: nat, r: Progress) {
    && n <= |rest|
    && p.keys <= r.keys && NoDuplicates(r.keys)
    && 0 <= r.limit && |r.keys| + r.limit == |p.keys| + p.limit
    && (forall k :: k in r.keys ==> k in p.keys || k in rest[..n])
    && (forall k :: k in rest[..n] ==> k in r.keys)
    && (r.limit == 0 ==> 0 < n && |r.keys| != 0 && r.lastKey == rest[n - 1] == r.keys[|r.keys| - 1])
    && (r.limit != 0 ==> n == |rest|)
    && (p.keys == [] && rest != [] ==> r.keys != [] && r.keys[0] == rest[0])
  }

  lemma {:induction false} AppendConsumes(p: Progress, rest: seq<Bytes>) returns (n: nat)
    requires NoDuplicates(p.keys) && 0 < p.limit
    ensures Consumed(p, rest, n, AppendKeys(p, rest))
    decreases |rest|
  {
    if rest == [] {
      n := 0;
    } else {
      var q := if rest[0] in p.keys then p.(lastKey := rest[0])
               else Progress(p.keys + [rest[0]], p.limit - 1, rest[0]);
      assert rest[0] in q.keys;
      if q.limit == 0 {
        n := 1;
        assert AppendKeys(q, rest[1..]) == q;
      } else {
        var m := AppendConsumes(q, rest[1..]);
        n := m + 1;
        ConsumedCons(p, q, rest, m, AppendKeys(q, rest[1..]));
      }
    }
  }

  lemma ConsumedCons(p: Progress, q: Progress, rest: seq<Bytes>, m: nat, r: Progress)
    requires rest != [] && 0 < q.limit && rest[0] in q.keys
    requires (q.keys == p.keys && q.limit == p.limit) || (q.keys == p.keys + [rest[0]] && q.limit == p.limit - 1)
    requires Consumed(q, rest[1..], m, r)
    ensures Consumed(p, rest, m + 1, r)
  {
    assert rest[..m + 1] == [rest[0]] + rest[1..][..m];
    assert r.keys == q.keys + r.keys[|q.keys|..];
  }

  // ---------------------------------------------------------------- one page

  /** The cursor of a caller: where the next page starts. */
  datatype Cursor = Cursor(lastTrait: Bytes, lastKey: Bytes)

  /** The keys of trait `t` that are at or after the cursor. */
  ghost function Ahead(index: Index, t: Bytes, c: Cursor): seq<Bytes> {
    if Compare(t, c.lastTrait) < 0 then []
    else Iterate(TraitKeys(index, t), if Compare(t, c.lastTrait) > 0 then [] else c.lastKey)
  }

  ghost predicate AheadOfSome(index: Index, traits: seq<Bytes>, c: Cursor, key: Bytes) {
    exists t :: t in traits && key in Ahead(index, t, c)
  }

  /** All of trait `t` at or after the cursor has been collected. */
  ghost predicate Collected(index: Index, t: Bytes, c: Cursor, keys: seq<Bytes>) {
    forall key :: key in Ahead(index, t, c) ==> key in keys
  }

  /** A page that reached its limit inside trait `p.lastTrait`, after `n` of the keys ahead in it. */
  ghost predicate StopsAt(index: Index, traits: seq<Bytes>, c: Cursor, p: Page, n: nat) {
    && p.keys != [] && p.lastKey == p.keys[|p.keys| - 1]
    && p.lastTrait in traits && 0 <= Compare(p.lastTrait, c.lastTrait)
    && (var ahead := Ahead(index, p.lastTrait, c);
        && 0 < n <= |ahead| && ahead[n - 1] == p.lastKey
        && (forall key :: key in ahead[..n] ==> key in p.keys))
    && (forall t :: t in traits && Compare(t, p.lastTrait) < 0 ==> Collected(index, t, c, p.keys))
  }

  /** The first key of a page is the first key ahead of some requested trait. */
  ghost predicate StartsAt(index: Index, traits: seq<Bytes>, c: Cursor, p: Page, t: Bytes) {
    && t in traits && Compare(t, p.lastTrait) <= 0
    && p.keys != [] && Ahead(index, t, c) != [] && p.keys[0] == Ahead(index, t, c)[0]
  }

  ghost predicate IsPage(index: Index, traits: seq<Bytes>, c: Cursor, keys: seq<Bytes>, limit: int, p: Page) {
    && keys <= p.keys && NoDuplicates(p.keys) && |p.keys| <= |keys| + limit
    && (forall k :: k in p.keys ==> k in keys || AheadOfSome(index, traits, c, k))
    && (|p.keys| < |keys| + limit ==> forall t :: t in traits ==> Collected(index, t, c, p.keys))
    && (|p.keys| == |keys| + limit ==> exists n: nat :: StopsAt(index, traits, c, p, n))
    && (|p.keys| == |keys| + limit && keys == [] ==> exists t :: StartsAt(index, traits, c, p, t))
  }

  lemma {:induction false} WalkIsPage(index: Index, traits: seq<Bytes>, c: Cursor, startKey: Bytes,
                                      keys: seq<Bytes>, limit: int, lastTrait: Bytes, lastKey: Bytes)
    requires Sorted(traits) && NoDuplicates(keys) && 0 < limit
    requires startKey == c.lastKey || forall t :: t in traits ==> 0 < Compare(t, c.lastTrait)
    ensures IsPage(index, traits, c, keys, limit,
                   Walk(index, traits, c.lastTrait, startKey, keys, limit, lastTrait, lastKey))
    decreases |traits|
  {
    if traits == [] { return; }
    var t, rest := traits[0], traits[1..];
    assert traits == [t] + rest;
    var p := Walk(index, traits, c.lastTrait, startKey, keys, limit, lastTrait, lastKey);
    if Compare(t, c.lastTrait) < 0 {
      WalkIsPage(index, rest, c, startKey, keys, limit, lastTrait, lastKey);
      IsPageSkip(index, t, rest, c, keys, limit, p);
    } else {
      var from := if Compare(t, c.lastTrait) > 0 then [] else startKey;
      var ahead := Iterate(TraitKeys(index, t), from);
      assert ahead == Ahead(index, t, c);
      var q := Progress(keys, limit, from);
      var r := AppendKeys(q, ahead);
      var n := AppendConsumes(q, ahead);
      if r.limit == 0 {
        IsPageStop(index, t, rest, c, q, n, r, p);
      } else {
        forall u | u in rest && Compare(t, c.lastTrait) > 0
          ensures 0 < Compare(u, c.lastTrait)
        {
          LaterStaysLater(c.lastTrait, t, traits, u);
        }
        WalkIsPage(index, rest, c, from, r.keys, r.limit, t, r.lastKey);
        IsPageContinue(index, t, rest, c, q, n, r, p);
      }
    }
  }

  lemma LaterStaysLater(start: Bytes, t: Bytes, traits: seq<Bytes>, u: Bytes)
    requires Sorted(traits) && traits != [] && traits[0] == t && u in traits[1..] && 0 < Compare(t, start)
    ensures 0 < Compare(u, start)
  {
    CompareEqual(t, start);
    CompareEqual(u, start);
    var i :| 0 <= i < |traits| - 1 && traits[1..][i] == u;
    assert Compare(traits[0], traits[i + 1]) <= 0;
    if Compare(u, start) <= 0 {
      CompareTransitive(t, u, start);
    }
  }

  lemma IsPageSkip(index: Index, t: Bytes, rest: seq<Bytes>, c: Cursor, keys: seq<Bytes>, limit: int, p: Page)
    requires Compare(t, c.lastTrait) < 0 && IsPage(index, rest, c, keys, limit, p)
    ensures IsPage(index, [t] + rest, c, keys, limit, p)
  {
    var traits := [t] + rest;
    assert Ahead(index, t, c) == [];
    forall k | AheadOfSome(index, rest, c, k)
      ensures AheadOfSome(index, traits, c, k)
    {
      var u :| u in rest && k in Ahead(index, u, c);
      assert u in traits;
    }
    if |p.keys| == |keys| + limit {
      var n: nat :| StopsAt(index, rest, c, p, n);
      assert StopsAt(index, traits, c, p, n);
      if keys == [] {
        var u :| StartsAt(index, rest, c, p, u);
        assert StartsAt(index, traits, c, p, u);
      }
    }
  }

  lemma IsPageStop(index: Index, t: Bytes, rest: seq<Bytes>, c: Cursor, q: Progress, n: nat, r: Progress, p: Page)
    requires 0 <= Compare(t, c.lastTrait) && Sorted([t] + rest)
    requires Consumed(q, Ahead(index, t, c), n, r) && r.limit == 0 && p == Page(r.keys, t, r.lastKey)
    ensures IsPage(index, [t] + rest, c, q.keys, q.limit, p)
  {
    var traits := [t] + rest;
    forall u | u in traits
      ensures 0 <= Compare(u, t)
    {
      var i :| 0 <= i < |traits| && traits[i] == u;
      CompareEqual(u, t);
      if 0 < i { assert Compare(traits[0], traits[i]) <= 0; }
    }
    assert StopsAt(index, traits, c, p, n);
    CompareEqual(t, t);
    if q.keys == [] { assert StartsAt(index, traits, c, p, t); }
    forall k | k in p.keys
      ensures k in q.keys || AheadOfSome(index, traits, c, k)
    {
      assert t in traits;
    }
  }

  lemma IsPageContinue(index: Index, t: Bytes, rest: seq<Bytes>, c: Cursor, q: Progress, n: nat, r: Progress, p: Page)
    requires 0 <= Compare(t, c.lastTrait) && Sorted([t] + rest)
    requires Consumed(q, Ahead(index, t, c), n, r) && 0 < r.limit
    requires IsPage(index, rest, c, r.keys, r.limit, p)
    ensures IsPage(index, [t] + rest, c, q.keys, q.limit, p)
  {
    var traits := [t] + rest;
    var ahead := Ahead(index, t, c);
    assert ahead[..n] == ahead;
    assert p.keys == r.keys + p.keys[|r.keys|..];
    assert Collected(index, t, c, p.keys);
    forall k | k in p.keys
      ensures k in q.keys || AheadOfSome(index, traits, c, k)
    {
      assert t in traits;
      if AheadOfSome(index, rest, c, k) {
        var u :| u in rest && k in Ahead(index, u, c);
        assert u in traits;
      }
    }
    if |p.keys| == |q.keys| + q.limit {
      var m: nat :| StopsAt(index, rest, c, p, m);
      assert StopsAt(index, traits, c, p, m);
      if q.keys == [] { IsPageContinueStart(index, t, rest, c, q, n, r, p); }
    }
  }

  lemma IsPageContinueStart(index: Index, t: Bytes, rest: seq<Bytes>, c: Cursor, q: Progress, n: nat, r: Progress, p: Page)
    requires Sorted([t] + rest)
    requires Consumed(q, Ahead(index, t, c), n, r) && q.keys == [] && r.keys <= p.keys && p.lastTrait in rest
    requires r.keys == [] ==> exists u :: StartsAt(index, rest, c, p, u)
    ensures exists u :: StartsAt(index, [t] + rest, c, p, u)
  {
    var traits := [t] + rest;
    if r.keys == [] {
      var u :| StartsAt(index, rest, c, p, u);
      assert StartsAt(index, traits, c, p, u);
    } else {
      assert r.keys[0] in r.keys && p.keys[0] == r.keys[0];
      var i :| 0 <= i < |rest| && rest[i] == p.lastTrait;
      assert Compare(traits[0], traits[i + 1]) <= 0;
      assert StartsAt(index, traits, c, p, t);
    }
  }

  /** What every call of getKeys returns when it is given a positive limit. */
  lemma GetKeysIsPage(index: Index, traits: seq<Bytes>, c: Cursor, limit: int)
    requires 0 < limit
    ensures IsPage(index, SortBytes(traits), c, [], limit, GetKeys(index, traits, c.lastTrait, c.lastKey, limit))
    ensures forall t :: t in SortBytes(traits) <==> t in traits
  {
    SortBytesSorts(traits);
    assert forall t :: t in SortBytes(traits) <==> t in multiset(SortBytes(traits));
    WalkIsPage(index, SortBytes(traits), c, c.lastKey, [], limit, c.lastTrait, c.lastKey);
  }

  // ---------------------------------------------------------------- all pages

  ghost predicate ListsDistinct(index: Index) {
    forall t :: NoDuplicates(TraitKeys(index, t))
  }

  /** The (trait, key) pairs at or after the cursor. */
  ghost function Remaining(index: Index, traits: seq<Bytes>, c: Cursor): set<(Bytes, Bytes)> {
    set t, k | t in traits && k in Ahead(index, t, c) :: (t, k)
  }

  ghost function AheadKeys(index: Index, traits: seq<Bytes>, c: Cursor): set<Bytes> {
    set pair | pair in Remaining(index, traits, c) :: pair.1
  }

  lemma AheadKeysAre(index: Index, traits: seq<Bytes>, c: Cursor, k: Bytes)
    ensures k in AheadKeys(index, traits, c) <==> AheadOfSome(index, traits, c, k)
  {
    if AheadOfSome(index, traits, c, k) {
      var t :| t in traits && k in Ahead(index, t, c);
      assert (t, k) in Remaining(index, traits, c);
    }
  }

  function KeySet(keys: seq<Bytes>): set<Bytes> { set k | k in keys }

  function PageCursor(p: Page): Cursor { Cursor(p.lastTrait, p.lastKey) }

  /** The keys returned by `n` successive calls, each starting where the previous one ended. */
  ghost function ReachedBy(next: Cursor -> Page, c: Cursor, n: nat): set<Bytes>
    decreases n
  {
    if n == 0 then {} else KeySet(next(c).keys) + ReachedBy(next, PageCursor(next(c)), n - 1)
  }

  ghost function Reached(index: Index, traits: seq<Bytes>, c: Cursor, limit: int, n: nat): set<Bytes> {
    ReachedBy(Pages(index, traits, limit), c, n)
  }

  function Pages(index: Index, traits: seq<Bytes>, limit: int): Cursor -> Page {
    (c: Cursor) => GetKeys(index, traits, c.lastTrait, c.lastKey, limit)
  }

  /** After a full page the next one resumes at the last key returned, within the same trait. */
  lemma AheadAfterStop(index: Index, traits: seq<Bytes>, c: Cursor, p: Page, n: nat, t: Bytes)
    requires ListsDistinct(index) && StopsAt(index, traits, c, p, n)
    ensures Ahead(index, t, PageCursor(p)) ==
            if Compare(t, p.lastTrait) < 0 then []
            else if t == p.lastTrait then Ahead(index, t, c)[n - 1..]
            else Ahead(index, t, c)
  {
    CompareEqual(t, p.lastTrait);
    CompareEqual(t, c.lastTrait);
    CompareEqual(c.lastTrait, p.lastTrait);
    if t == p.lastTrait {
      IterateResumes(TraitKeys(index, t), if Compare(t, c.lastTrait) > 0 then [] else c.lastKey, n - 1);
    } else if 0 < Compare(t, p.lastTrait) {
      CompareTransitive(c.lastTrait, p.lastTrait, t);
      CompareEqual(p.lastTrait, t);
      if t == c.lastTrait { assert false; }
    }
  }

  lemma AheadDistinct(index: Index, t: Bytes, c: Cursor)
    requires ListsDistinct(index)
    ensures NoDuplicates(Ahead(index, t, c))
  {
    assert NoDuplicates(TraitKeys(index, t));
    if 0 <= Compare(t, c.lastTrait) {
      var n := IterateIsSuffix(TraitKeys(index, t), if Compare(t, c.lastTrait) > 0 then [] else c.lastKey);
    }
  }

  /** A full page of two keys or more moves the cursor strictly forward. */
  lemma FullPageAdvances(index: Index, traits: seq<Bytes>, c: Cursor, p: Page, n: nat, t0: Bytes)
    requires ListsDistinct(index) && NoDuplicates(p.keys) && 2 <= |p.keys|
    requires StopsAt(index, traits, c, p, n) && StartsAt(index, traits, c, p, t0)
    ensures Remaining(index, traits, PageCursor(p)) < Remaining(index, traits, c)
  {
    forall t, k | (t, k) in Remaining(index, traits, PageCursor(p))
      ensures (t, k) in Remaining(index, traits, c)
    {
      AheadAfterStop(index, traits, c, p, n, t);
    }
    var first := (t0, p.keys[0]);
    assert first in Remaining(index, traits, c);
    AheadAfterStop(index, traits, c, p, n, t0);
    AheadDistinct(index, t0, c);
    CompareEqual(t0, p.lastTrait);
    assert first !in Remaining(index, traits, PageCursor(p)) by {
      if t0 == p.lastTrait {
        var ahead := Ahead(index, t0, c);
        assert 1 < n;
        assert forall i :: n - 1 <= i < |ahead| ==> ahead[i] != ahead[0];
      }
    }
  }

  lemma FullPageCovers(index: Index, traits: seq<Bytes>, c: Cursor, p: Page, n: nat, t: Bytes, k: Bytes)
    requires ListsDistinct(index) && StopsAt(index, traits, c, p, n)
    requires t in traits && k in Ahead(index, t, c)
    ensures k in p.keys || k in Ahead(index, t, PageCursor(p))
  {
    AheadAfterStop(index, traits, c, p, n, t);
    CompareEqual(t, p.lastTrait);
    if Compare(t, p.lastTrait) < 0 {
      assert Collected(index, t, c, p.keys);
    } else if t == p.lastTrait {
      var ahead := Ahead(index, t, c);
      var i :| 0 <= i < |ahead| && ahead[i] == k;
      if i < n { assert ahead[..n][i] == k; } else { assert ahead[n - 1..][i - (n - 1)] == k; }
    }
  }

  lemma ShortPageCovers(index: Index, traits: seq<Bytes>, c: Cursor, limit: int)
    requires 0 < limit && |GetKeys(index, traits, c.lastTrait, c.lastKey, limit).keys| < limit
    ensures KeySet(GetKeys(index, traits, c.lastTrait, c.lastKey, limit).keys) == AheadKeys(index, traits, c)
  {
    var p := GetKeys(index, traits, c.lastTrait, c.lastKey, limit);
    GetKeysIsPage(index, traits, c, limit);
    forall k
      ensures k in KeySet(p.keys) <==> k in AheadKeys(index, traits, c)
    {
      AheadKeysAre(index, traits, c, k);
      if k in p.keys {
        var t :| t in SortBytes(traits) && k in Ahead(index, t, c);
        assert t in traits;
      }
      if AheadOfSome(index, traits, c, k) {
        var t :| t in traits && k in Ahead(index, t, c);
        assert Collected(index, t, c, p.keys);
      }
    }
  }

  lemma FullPageStep(index: Index, traits: seq<Bytes>, c: Cursor, limit: int)
    requires ListsDistinct(index) && 2 <= limit
    requires |GetKeys(index, traits, c.lastTrait, c.lastKey, limit).keys| >= limit
    ensures var p := GetKeys(index, traits, c.lastTrait, c.lastKey, limit);
      && |Remaining(index, traits, PageCursor(p))| < |Remaining(index, traits, c)|
      && KeySet(p.keys) + AheadKeys(index, traits, PageCursor(p)) == AheadKeys(index, traits, c)
  {
    var p := GetKeys(index, traits, c.lastTrait, c.lastKey, limit);
    var sorted := SortBytes(traits);
    GetKeysIsPage(index, traits, c, limit);
    var m: nat :| StopsAt(index, sorted, c, p, m);
    var t0 :| StartsAt(index, sorted, c, p, t0);
    FullPageAdvances(index, sorted, c, p, m, t0);
    SameRemaining(index, traits, c);
    SameRemaining(index, traits, PageCursor(p));
    ProperSubsetSmaller(Remaining(index, traits, PageCursor(p)), Remaining(index, traits, c));
    forall k
      ensures k in KeySet(p.keys) + AheadKeys(index, traits, PageCursor(p)) <==> k in AheadKeys(index, traits, c)
    {
      FullPageSplits(index, traits, sorted, c, p, m, k);
      AheadKeysAre(index, traits, c, k);
      AheadKeysAre(index, traits, PageCursor(p), k);
    }
  }

  /** A source of pages from cursor `c`: a short page has everything ahead, and a full page leaves
      less ahead. */
  ghost predicate Progresses(next: Cursor -> Page, ahead: Cursor -> set<Bytes>, size: Cursor -> nat, limit: int, c: Cursor) {
    var p := next(c);
    if |p.keys| < limit then KeySet(p.keys) == ahead(c)
    else size(PageCursor(p)) < size(c) && KeySet(p.keys) + ahead(PageCursor(p)) == ahead(c)
  }

  lemma {:induction false} ProgressReachesAll(next: Cursor -> Page, ahead: Cursor -> set<Bytes>, size: Cursor -> nat,
                                              limit: int, c: Cursor) returns (n: nat)
    requires forall d :: Progresses(next, ahead, size, limit, d)
    ensures n <= size(c) + 1 && ReachedBy(next, c, n) == ahead(c)
    decreases size(c)
  {
    assert Progresses(next, ahead, size, limit, c);
    if |next(c).keys| < limit {
      n := 1;
      assert ReachedBy(next, PageCursor(next(c)), 0) == {};
    } else {
      n := ProgressReachesAll(next, ahead, size, limit, PageCursor(next(c)));
      n := n + 1;
    }
  }

  /** Feeding the returned cursor back reaches exactly the keys ahead of the first cursor, in
      finitely many calls. */
  lemma PagesReachAll(index: Index, traits: seq<Bytes>, c: Cursor, limit: int) returns (n: nat)
    requires ListsDistinct(index) && 2 <= limit
    ensures n <= |Remaining(index, traits, c)| + 1
    ensures Reached(index, traits, c, limit, n) == AheadKeys(index, traits, c)
  {
    var next := Pages(index, traits, limit);
    var ahead := (d: Cursor) => AheadKeys(index, traits, d);
    var size := (d: Cursor) => |Remaining(index, traits, d)|;
    forall d
      ensures Progresses(next, ahead, size, limit, d)
    {
      if |next(d).keys| < limit { ShortPageCovers(index, traits, d, limit); } else { FullPageStep(index, traits, d, limit); }
    }
    n := ProgressReachesAll(next, ahead, size, limit, c);
  }

  // ---------------------------------------------------------------- no number of calls reaches more

  lemma {:induction false} AppendLast(p: Progress, rest: seq<Bytes>)
    requires 0 < AppendKeys(p, rest).limit
    ensures 0 < p.limit && AppendKeys(p, rest).lastKey == if rest == [] then p.lastKey else rest[|rest| - 1]
    decreases |rest|
  {
    if rest != [] && 0 < p.limit {
      var q := if rest[0] in p.keys then p.(lastKey := rest[0])
               else Progress(p.keys + [rest[0]], p.limit - 1, rest[0]);
      AppendLast(q, rest[1..]);
    }
  }

  /** Where a page that came to the end of the traits leaves its cursor: at the last key of the last trait. */
  ghost predicate EndsAt(index: Index, traits: seq<Bytes>, c: Cursor, p: Page) {
    && p.lastTrait in traits && 0 <= Compare(p.lastTrait, c.lastTrait)
    && (forall t :: t in traits ==> Compare(t, p.lastTrait) <= 0)
    && (var ahead := Ahead(index, p.lastTrait, c); ahead == [] || p.lastKey == ahead[|ahead| - 1])
  }

  ghost predicate AllBefore(traits: seq<Bytes>, c: Cursor) {
    forall t :: t in traits ==> Compare(t, c.lastTrait) < 0
  }

  lemma {:induction false} ShortWalkEnds(index: Index, traits: seq<Bytes>, c: Cursor, startKey: Bytes,
                                         keys: seq<Bytes>, limit: int, lastTrait: Bytes, lastKey: Bytes)
    requires Sorted(traits) && NoDuplicates(keys) && 0 < limit
    requires startKey == c.lastKey || forall t :: t in traits ==> 0 < Compare(t, c.lastTrait)
    requires |Walk(index, traits, c.lastTrait, startKey, keys, limit, lastTrait, lastKey).keys| < |keys| + limit
    ensures var p := Walk(index, traits, c.lastTrait, startKey, keys, limit, lastTrait, lastKey);
      if AllBefore(traits, c) then PageCursor(p) == Cursor(lastTrait, lastKey) else EndsAt(index, traits, c, p)
    decreases |traits|
  {
    if traits == [] { return; }
    var t, rest := traits[0], traits[1..];
    assert traits == [t] + rest;
    var p := Walk(index, traits, c.lastTrait, startKey, keys, limit, lastTrait, lastKey);
    if Compare(t, c.lastTrait) < 0 {
      ShortWalkEnds(index, rest, c, startKey, keys, limit, lastTrait, lastKey);
      if !AllBefore(rest, c) { EndsAtSkip(index, t, rest, c, p); }
    } else {
      var from := if Compare(t, c.lastTrait) > 0 then [] else startKey;
      var ahead := Iterate(TraitKeys(index, t), from);
      assert ahead == Ahead(index, t, c);
      var r := AppendKeys(Progress(keys, limit, from), ahead);
      var n := AppendConsumes(Progress(keys, limit, from), ahead);
      AppendLast(Progress(keys, limit, from), ahead);
      forall u | u in rest ensures 0 <= Compare(u, c.lastTrait) && (0 < Compare(t, c.lastTrait) ==> 0 < Compare(u, c.lastTrait)) {
        NotBefore(c.lastTrait, t, traits, u);
      }
      ShortWalkEnds(index, rest, c, from, r.keys, r.limit, t, r.lastKey);
      if rest == [] { CompareEqual(t, t); } else { assert rest[0] in rest; EndsAtCons(index, t, rest, c, p); }
    }
  }

  lemma NotBefore(start: Bytes, t: Bytes, traits: seq<Bytes>, u: Bytes)
    requires Sorted(traits) && traits != [] && traits[0] == t && u in traits[1..] && 0 <= Compare(t, start)
    ensures 0 <= Compare(u, start) && (0 < Compare(t, start) ==> 0 < Compare(u, start))
  {
    CompareEqual(t, start);
    CompareEqual(u, start);
    var i :| 0 <= i < |traits| - 1 && traits[1..][i] == u;
    assert Compare(traits[0], traits[i + 1]) <= 0;
    CompareTransitive(start, t, u);
    if 0 < Compare(t, start) { LaterStaysLater(start, t, traits, u); }
  }

  lemma EndsAtSkip(index: Index, t: Bytes, rest: seq<Bytes>, c: Cursor, p: Page)
    requires Compare(t, c.lastTrait) < 0 && EndsAt(index, rest, c, p)
    ensures EndsAt(index, [t] + rest, c, p)
  {
    CompareEqual(c.lastTrait, p.lastTrait);
    CompareTransitive(t, c.lastTrait, p.lastTrait);
  }

  lemma EndsAtCons(index: Index, t: Bytes, rest: seq<Bytes>, c: Cursor, p: Page)
    requires Sorted([t] + rest) && EndsAt(index, rest, c, p)
    ensures EndsAt(index, [t] + rest, c, p)
  {
    var i :| 0 <= i < |rest| && rest[i] == p.lastTrait;
    assert Compare(([t] + rest)[0], ([t] + rest)[i + 1]) <= 0;
  }

  /** What is ahead after a page was ahead before it. */
  lemma AheadShrinks(index: Index, traits: seq<Bytes>, c: Cursor, limit: int, t: Bytes, k: Bytes)
    requires ListsDistinct(index) && 0 < limit && t in traits
    requires k in Ahead(index, t, PageCursor(GetKeys(index, traits, c.lastTrait, c.lastKey, limit)))
    ensures k in Ahead(index, t, c)
  {
    var p, sorted := GetKeys(index, traits, c.lastTrait, c.lastKey, limit), SortBytes(traits);
    GetKeysIsPage(index, traits, c, limit);
    if |p.keys| == limit {
      var n: nat :| StopsAt(index, sorted, c, p, n);
      AheadAfterStop(index, sorted, c, p, n, t);
    } else {
      SortBytesSorts(traits);
      ShortWalkEnds(index, sorted, c, c.lastKey, [], limit, c.lastTrait, c.lastKey);
      if !AllBefore(sorted, c) { AheadAfterEnd(index, sorted, c, p, t, k); }
    }
  }

  lemma AheadAfterEnd(index: Index, traits: seq<Bytes>, c: Cursor, p: Page, t: Bytes, k: Bytes)
    requires ListsDistinct(index) && EndsAt(index, traits, c, p) && t in traits && k in Ahead(index, t, PageCursor(p))
    ensures k in Ahead(index, t, c)
  {
    CompareEqual(t, p.lastTrait);
    assert t == p.lastTrait;
    LastResumes(TraitKeys(index, t), if Compare(t, c.lastTrait) > 0 then [] else c.lastKey, p.lastKey, k);
  }

  /** What an iteration from the last key of another one yields was in that one. */
  lemma LastResumes(list: seq<Bytes>, start: Bytes, lastKey: Bytes, k: Bytes)
    requires NoDuplicates(list) && k in Iterate(list, lastKey)
    requires var ahead := Iterate(list, start); ahead == [] || lastKey == ahead[|ahead| - 1]
    ensures k in Iterate(list, start)
  {
    var n := IterateIsSuffix(list, lastKey);
    IterateNonEmpty(list, start);
    IterateResumes(list, start, |Iterate(list, start)| - 1);
  }

  lemma IterateNonEmpty(list: seq<Bytes>, start: Bytes)
    requires list != []
    ensures Iterate(list, start) != []
  {
    if start in list { var n := FromIsSuffix(list, start); }
  }

  /** No number of calls leads beyond what was ahead of the first one. */
  lemma {:induction false} NeverBeyond(next: Cursor -> Page, ahead: Cursor -> set<Bytes>, c: Cursor, n: nat)
    requires forall d :: KeySet(next(d).keys) <= ahead(d) && ahead(PageCursor(next(d))) <= ahead(d)
    ensures ReachedBy(next, c, n) <= ahead(c)
    decreases n
  {
    if 0 < n { NeverBeyond(next, ahead, PageCursor(next(c)), n - 1); }
  }

  lemma ReachedIsAhead(index: Index, traits: seq<Bytes>, c: Cursor, limit: int, n: nat)
    requires ListsDistinct(index) && 0 < limit
    ensures Reached(index, traits, c, limit, n) <= AheadKeys(index, traits, c)
  {
    var next := Pages(index, traits, limit);
    var ahead := (d: Cursor) => AheadKeys(index, traits, d);
    forall d ensures KeySet(next(d).keys) <= ahead(d) && ahead(PageCursor(next(d))) <= ahead(d) {
      PageStaysAhead(index, traits, d, limit);
    }
    NeverBeyond(next, ahead, c, n);
  }

  lemma PageStaysAhead(index: Index, traits: seq<Bytes>, c: Cursor, limit: int)
    requires ListsDistinct(index) && 0 < limit
    ensures var p := GetKeys(index, traits, c.lastTrait, c.lastKey, limit);
      && KeySet(p.keys) <= AheadKeys(index, traits, c)
      && AheadKeys(index, traits, PageCursor(p)) <= AheadKeys(index, traits, c)
  {
    var p := GetKeys(index, traits, c.lastTrait, c.lastKey, limit);
    GetKeysIsPage(index, traits, c, limit);
    forall k | k in p.keys ensures k in AheadKeys(index, traits, c) {
      var t :| t in SortBytes(traits) && k in Ahead(index, t, c);
      assert t in traits;
      AheadKeysAre(index, traits, c, k);
    }
    forall k | k in AheadKeys(index, traits, PageCursor(p)) ensures k in AheadKeys(index, traits, c) {
      AheadKeysAre(index, traits, PageCursor(p), k);
      var t :| t in traits && k in Ahead(index, t, PageCursor(p));
      AheadShrinks(index, traits, c, limit, t, k);
      AheadKeysAre(index, traits, c, k);
    }
  }

  lemma FullPageSplits(index: Index, traits: seq<Bytes>, sorted: seq<Bytes>, c: Cursor, p: Page, m: nat, k: Bytes)
    requires ListsDistinct(index) && StopsAt(index, sorted, c, p, m)
    requires forall t :: t in sorted <==> t in traits
    requires k in p.keys ==> AheadOfSome(index, sorted, c, k)
    ensures k in p.keys || AheadOfSome(index, traits, PageCursor(p), k) <==> AheadOfSome(index, traits, c, k)
  {
    if k in p.keys {
      var t :| t in sorted && k in Ahead(index, t, c);
      assert t in traits;
    }
    if AheadOfSome(index, traits, c, k) {
      var t :| t in traits && k in Ahead(index, t, c);
      FullPageCovers(index, sorted, c, p, m, t, k);
    }
    if AheadOfSome(index, traits, PageCursor(p), k) {
      var t :| t in traits && k in Ahead(index, t, PageCursor(p));
      AheadAfterStop(index, sorted, c, p, m, t);
    }
  }

  lemma SameRemaining(index: Index, traits: seq<Bytes>, c: Cursor)
    ensures Remaining(index, SortBytes(traits), c) == Remaining(index, traits, c)
  {
    SortBytesSorts(traits);
    assert forall t :: t in SortBytes(traits) <==> t in multiset(SortBytes(traits));
  }

  lemma ProperSubsetSmaller<T>(a: set<T>, b: set<T>)
    requires a < b
    ensures |a| < |b|
  {
    assert b == a + (b - a);
  }

  const FIRST := Cursor([], [])

  /** The key stands before the empty key in a trait's list. */
  ghost predicate BeforeEmpty(list: seq<Bytes>, key: Bytes) {
    exists i, j :: 0 <= i < j < |list| && list[i] == key && list[j] == []
  }

  /** A nil start key is looked up like any other: it finds the empty key, if the list has it. */
  lemma SeenFromStart(list: seq<Bytes>, key: Bytes)
    requires NoDuplicates(list) && key in list
    ensures key in Iterate(list, []) <==> !BeforeEmpty(list, key)
  {
    var i :| 0 <= i < |list| && list[i] == key;
    if [] in list {
      var n := FromIsSuffix(list, []);
      if n <= i { assert list[n..][i - n] == key; }
    }
  }

  /** The requested key is hidden by the empty key in every requested trait that it holds. */
  ghost predicate Hidden(s: Store, traits: seq<Bytes>, key: Bytes) {
    forall t :: t in traits && HasTrait(s, key, t) ==> BeforeEmpty(TraitKeys(s.index, t), key)
  }

  ghost predicate Requested(s: Store, traits: seq<Bytes>, key: Bytes) {
    exists t :: t in traits && HasTrait(s, key, t)
  }

  lemma AheadOfFirst(s: Store, traits: seq<Bytes>, key: Bytes)
    requires Consistent(s)
    ensures AheadOfSome(s.index, traits, FIRST, key) <==> Requested(s, traits, key) && !Hidden(s, traits, key)
  {
    forall t
      ensures key in Ahead(s.index, t, FIRST) <==> HasTrait(s, key, t) && !BeforeEmpty(TraitKeys(s.index, t), key)
    {
      assert TraitAgrees(s, t);
      CompareEqual(t, []);
      if HasTrait(s, key, t) { SeenFromStart(TraitKeys(s.index, t), key); }
      else if key in Iterate(TraitKeys(s.index, t), []) { var m := IterateIsSuffix(TraitKeys(s.index, t), []); }
    }
  }

  lemma ConsistentLists(s: Store)
    requires Consistent(s)
    ensures ListsDistinct(s.index)
  {
    forall t ensures NoDuplicates(TraitKeys(s.index, t)) { assert TraitAgrees(s, t); }
  }

  lemma AheadKeysOfFirst(s: Store, traits: seq<Bytes>, k: Bytes)
    requires Consistent(s)
    ensures k in AheadKeys(s.index, traits, FIRST) <==> Requested(s, traits, k) && !Hidden(s, traits, k)
  {
    AheadKeysAre(s.index, traits, FIRST, k);
    AheadOfFirst(s, traits, k);
  }

  ghost predicate ReachedIn(s: Store, traits: seq<Bytes>, limit: int, k: Bytes, n: nat) {
    k in Reached(s.index, traits, FIRST, limit, n)
  }

  /** In a consistent store, paging from the start with a limit of at least two: a key is reached by some
      number of calls exactly if it holds a requested trait and is not hidden, and one number does for all. */
  lemma PaginationReaches(s: Store, traits: seq<Bytes>, limit: int) returns (n: nat)
    requires Consistent(s) && 2 <= limit
    ensures forall k :: ReachedIn(s, traits, limit, k, n) <==> Requested(s, traits, k) && !Hidden(s, traits, k)
    ensures forall k :: (exists m: nat :: ReachedIn(s, traits, limit, k, m)) <==> Requested(s, traits, k) && !Hidden(s, traits, k)
  {
    ConsistentLists(s);
    n := PagesReachAll(s.index, traits, FIRST, limit);
    forall k ensures ReachedIn(s, traits, limit, k, n) <==> Requested(s, traits, k) && !Hidden(s, traits, k) {
      AheadKeysOfFirst(s, traits, k);
    }
    forall k, m: nat | ReachedIn(s, traits, limit, k, m) ensures Requested(s, traits, k) && !Hidden(s, traits, k) {
      ReachedIsAhead(s.index, traits, FIRST, limit, m);
      AheadKeysOfFirst(s, traits, k);
    }
  }

  /** So it reaches every requested key if the store has no empty key. */
  lemma PaginationComplete(s: Store, traits: seq<Bytes>, limit: int) returns (n: nat)
    requires Consistent(s) && [] !in s.values && 2 <= limit
    ensures forall k :: ReachedIn(s, traits, limit, k, n) <==> Requested(s, traits, k)
  {
    n := PaginationReaches(s, traits, limit);
    forall k | Requested(s, traits, k) ensures !Hidden(s, traits, k) {
      var t :| t in traits && HasTrait(s, k, t);
      assert TraitAgrees(s, t) && !HasTrait(s, [], t);
    }
  }

  /** Every page: distinct keys, at most `limit` of them, each holding a requested trait; a page
      shorter than `limit` leaves nothing ahead of the cursor out. */
  lemma PageSound(s: Store, traits: seq<Bytes>, c: Cursor, limit: int)
    requires Consistent(s)
    ensures var p := GetKeys(s.index, traits, c.lastTrait, c.lastKey, limit);
      && NoDuplicates(p.keys) && |p.keys| <= (if limit < 0 then 0 else limit)
      && (forall k :: k in p.keys ==> exists t :: t in traits && HasTrait(s, k, t))
      && (|p.keys| < limit ==> forall t, k :: t in traits && k in Ahead(s.index, t, c) ==> k in p.keys)
  {
    var p := GetKeys(s.index, traits, c.lastTrait, c.lastKey, limit);
    if limit <= 0 {
      WalkNoLimit(s.index, SortBytes(traits), c.lastTrait, c.lastKey, limit, c.lastTrait, c.lastKey);
    } else {
      GetKeysIsPage(s.index, traits, c, limit);
      forall k | k in p.keys
        ensures exists t :: t in traits && HasTrait(s, k, t)
      {
        var t :| t in traits && k in Ahead(s.index, t, c);
        assert TraitAgrees(s, t);
        var n := IterateIsSuffix(TraitKeys(s.index, t), if Compare(t, c.lastTrait) > 0 then [] else c.lastKey);
        assert k in TraitKeys(s.index, t);
      }
      if |p.keys| < limit {
        forall t, k | t in traits && k in Ahead(s.index, t, c)
          ensures k in p.keys
        {
          assert Collected(s.index, t, c, p.keys);
        }
      }
    }
  }

  lemma {:induction false} WalkNoLimit(index: Index, traits: seq<Bytes>, startTrait: Bytes, startKey: Bytes,
                                       limit: int, lastTrait: Bytes, lastKey: Bytes)
    requires limit <= 0
    ensures Walk(index, traits, startTrait, startKey, [], limit, lastTrait, lastKey).keys == []
    decreases |traits|
  {
    if traits != [] {
      var t := traits[0];
      if Compare(t, startTrait) < 0 {
        WalkNoLimit(index, traits[1..], startTrait, startKey, limit, lastTrait, lastKey);
      } else {
        var from := if Compare(t, startTrait) > 0 then [] else startKey;
        WalkNoLimit(index, traits[1..], startTrait, from, limit, t, from);
      }
    }
  }

  /** The bound on the limit is needed: with a limit of one, whatever the traits and the cursor, all calls
      after the first return the same key again. */
  lemma LimitOneNeverAdvances(index: Index, traits: seq<Bytes>, c: Cursor, n: nat)
    requires ListsDistinct(index)
    ensures var p := GetKeys(index, traits, c.lastTrait, c.lastKey, 1);
      && |p.keys| <= 1 && (p.keys == [] <==> AheadKeys(index, traits, c) == {})
      && Reached(index, traits, c, 1, n) == if n == 0 then {} else KeySet(p.keys)
  {
    LimitOnePage(index, traits, c);
    var next := Pages(index, traits, 1);
    if next(c).keys == [] {
      ReachedIsAhead(index, traits, c, 1, n);
      assert KeySet(next(c).keys) == {};
    } else if 0 < n {
      SinglePage(index, traits, c, next(c));
      OneThenSame(next, c, n - 1);
    }
  }

  lemma LimitOnePage(index: Index, traits: seq<Bytes>, c: Cursor)
    requires ListsDistinct(index)
    ensures var p := GetKeys(index, traits, c.lastTrait, c.lastKey, 1);
      |p.keys| <= 1 && (p.keys == [] <==> AheadKeys(index, traits, c) == {})
  {
    var p := GetKeys(index, traits, c.lastTrait, c.lastKey, 1);
    GetKeysIsPage(index, traits, c, 1);
    if p.keys == [] {
      ShortPageCovers(index, traits, c, 1);
    } else {
      PageStaysAhead(index, traits, c, 1);
      assert p.keys[0] in KeySet(p.keys);
    }
  }

  /** A page of one key ends at that key, and the page from there is the same. */
  lemma SinglePage(index: Index, traits: seq<Bytes>, c: Cursor, p: Page)
    requires ListsDistinct(index) && p == GetKeys(index, traits, c.lastTrait, c.lastKey, 1) && |p.keys| == 1
    ensures GetKeys(index, traits, p.lastTrait, p.lastKey, 1) == p
  {
    GetKeysIsPage(index, traits, c, 1);
    var m: nat :| StopsAt(index, SortBytes(traits), c, p, m);
    assert p.lastKey == p.keys[0] && p == Page([p.lastKey], p.lastTrait, p.lastKey);
    StopIsListed(index, SortBytes(traits), c, p, m);
    StaysOnKey(index, traits, p.lastTrait, p.lastKey);
  }

  lemma StopIsListed(index: Index, traits: seq<Bytes>, c: Cursor, p: Page, m: nat)
    requires ListsDistinct(index) && StopsAt(index, traits, c, p, m)
    ensures p.lastKey in TraitKeys(index, p.lastTrait)
  {
    var list, from := TraitKeys(index, p.lastTrait), if Compare(p.lastTrait, c.lastTrait) > 0 then [] else c.lastKey;
    var k := IterateIsSuffix(list, from);
    assert Ahead(index, p.lastTrait, c)[m - 1] == list[k + m - 1];
  }

  lemma StaysOnKey(index: Index, traits: seq<Bytes>, t: Bytes, key: Bytes)
    requires t in SortBytes(traits) && key in TraitKeys(index, t)
    ensures GetKeys(index, traits, t, key, 1) == Page([key], t, key)
  {
    SortBytesSorts(traits);
    WalkStays(index, SortBytes(traits), t, key);
  }

  lemma OneThenSame(next: Cursor -> Page, c: Cursor, n: nat)
    requires next(PageCursor(next(c))) == next(c)
    ensures ReachedBy(next, c, n + 1) == KeySet(next(c).keys)
  {
    SamePages(next, PageCursor(next(c)), n);
  }

  lemma {:induction false} SamePages(next: Cursor -> Page, c: Cursor, n: nat)
    requires PageCursor(next(c)) == c
    ensures ReachedBy(next, c, n) == if n == 0 then {} else KeySet(next(c).keys)
    decreases n
  {
    if 0 < n { SamePages(next, c, n - 1); }
  }

  lemma {:induction false} WalkStays(index: Index, traits: seq<Bytes>, t: Bytes, key: Bytes)
    requires Sorted(traits) && t in traits && key in TraitKeys(index, t)
    ensures Walk(index, traits, t, key, [], 1, t, key) == Page([key], t, key)
    decreases |traits|
  {
    var u, rest := traits[0], traits[1..];
    CompareEqual(u, t);
    if u != t {
      var i :| 0 <= i < |traits| && traits[i] == t;
      assert Compare(traits[0], traits[i]) <= 0 && rest[i - 1] == t;
      WalkStays(index, rest, t, key);
    } else {
      var list := From(TraitKeys(index, t), key);
      var m := FromIsSuffix(TraitKeys(index, t), key);
      assert list[0] == key && [] + [list[0]] == [key];
      assert AppendKeys(Progress([], 1, key), list) == AppendKeys(Progress([key], 0, key), list[1..]);
    }
  }

  /** Non-empty keys are needed: an empty key in the middle of a list hides what precedes it. */
  lemma EmptyKeyHidesKeys(n: nat)
    ensures var ops := [Put(Element([], [], [[7]])), Put(Element([1], [], [[7]]))];
            HasTrait(Run(ops), [1], [7]) && [1] !in Reached(Run(ops).index, [[7]], FIRST, 2, n)
  {
    var e0, e1 := Element([], [], [[7]]), Element([1], [], [[7]]);
    var ops := [Put(e0), Put(e1)];
    assert ops[..1] == [Put(e0)] && ops[..1][..0] == [];
    var s0 := Store(map[[] := DbElement(true, [], [[7]])], map[[7] := [[]]]);
    assert [[7]][1..] == [];
    var i0: Index := map[];
    assert ListPut(TraitKeys(i0, [7]), []) == [[]];
    assert IndexPut(i0, [[7]], []) == map[[7] := [[]]];
    assert Run([Put(e0)]) == s0;
    assert ListPut(TraitKeys(s0.index, [7]), [1]) == [[1], []];
    assert IndexPut(s0.index, [[7]], [1]) == map[[7] := [[1], []]];
    var index := Run(ops).index;
    assert index == map[[7] := [[1], []]];
    EmptyKeyPages(index, FIRST, n);
  }

  lemma {:induction false} EmptyKeyPages(index: Index, c: Cursor, n: nat)
    requires index == map[[7] := [[1], []]] && (c == FIRST || c == Cursor([7], []))
    ensures [1] !in Reached(index, [[7]], c, 2, n)
    decreases n
  {
    if 0 < n {
      assert SortBytes([[7]]) == [[7]];
      assert From([[1], []], []) == [[]];
      assert AppendKeys(Progress([], 2, []), [[]]) == Progress([[]], 1, []);
      assert GetKeys(index, [[7]], c.lastTrait, c.lastKey, 2) == Page([[]], [7], []);
      EmptyKeyPages(index, Cursor([7], []), n - 1);
    }
  }
}
