/** The API router (api/server/router.go): routes, and the aliases under which they are installed too.

The mux behind the router is left out: a route exists when its base and endpoint are in `routes`.
*/
module Router {
  type Base = string
  type Endpoint = string
  type Handler = nat

  type Routes = map<Base, map<Endpoint, Handler>>
  type Aliases = map<Base, seq<Base>>
  type Pairs = set<(Base, Endpoint)>

  datatype Entry = Entry(base: Base, endpoint: Endpoint, handler: Handler)

  datatype RouteError = AlreadyReserved | EndpointExists | UnknownBase | UnknownEndpoint

  datatype Result = Done | Failed(error: RouteError)

  datatype Lookup = Found(handler: Handler) | Missed(error: RouteError)

  function Endpoints(routes: Routes, base: Base): map<Endpoint, Handler> {
    if base in routes then routes[base] else map[]
  }

  function AliasesOf(aliases: Aliases, base: Base): seq<Base> {
    if base in aliases then aliases[base] else []
  }

  function Install(routes: Routes, entry: Entry): Routes {
    routes[entry.base := Endpoints(routes, entry.base)[entry.endpoint := entry.handler]]
  }

  ghost function AllAliases(aliases: Aliases): set<Base> {
    set b, i | b in aliases && 0 <= i < |aliases[b]| :: aliases[b][i]
  }

  /** The bases of `universe` that do not have the endpoint yet. */
  ghost function Missing(universe: set<Base>, routes: Routes, endpoint: Endpoint): set<Base> {
    set b | b in universe && endpoint !in Endpoints(routes, b)
  }

  // ---------------------------------------------------------------- what the router maintains

  ghost predicate Has(routes: Routes, entry: Entry) {
    entry.endpoint in Endpoints(routes, entry.base) && Endpoints(routes, entry.base)[entry.endpoint] == entry.handler
  }

  ghost predicate Aliased(routes: Routes, aliases: Aliases, b: Base, a: Base, e: Endpoint) {
    e in Endpoints(routes, b) && a in AliasesOf(aliases, b)
  }

  /** Every endpoint of a base exists on each of its aliases, but for the pairs being worked on. */
  ghost predicate Closed(routes: Routes, aliases: Aliases, open: Pairs) {
    forall b, a, e :: Aliased(routes, aliases, b, a, e) && (b, e) !in open ==> e in Endpoints(routes, a)
  }

  /** ... with the same handler. */
  ghost predicate Agrees(routes: Routes, aliases: Aliases, open: Pairs) {
    forall b, a, e :: Aliased(routes, aliases, b, a, e) && (b, e) !in open ==>
      e in Endpoints(routes, a) && Endpoints(routes, a)[e] == Endpoints(routes, b)[e]
  }

  /** Nothing is replaced or removed. */
  ghost predicate Keeps(before: Routes, after: Routes) {
    forall b, e :: e in Endpoints(before, b) ==> e in Endpoints(after, b) && Endpoints(after, b)[e] == Endpoints(before, b)[e]
  }

  ghost predicate Added(before: Routes, after: Routes, b: Base, e: Endpoint) {
    e in Endpoints(after, b) && e !in Endpoints(before, b)
  }

  /** ... and all that is added is the entry's handler under its endpoint, at bases that its base reaches. */
  ghost predicate Grows(before: Routes, after: Routes, aliases: Aliases, entry: Entry) {
    && Keeps(before, after)
    && (forall b, e :: Added(before, after, b, e) ==>
          e == entry.endpoint && Endpoints(after, b)[e] == entry.handler && Reaches(aliases, entry.base, b))
  }

  /** Neither `base` nor anything it reaches has the endpoint. */
  ghost predicate NoneReached(routes: Routes, aliases: Aliases, base: Base, endpoint: Endpoint) {
    forall b :: Reaches(aliases, base, b) ==> endpoint !in Endpoints(routes, b)
  }

  /** No route is an alias twice. */
  ghost predicate Injective(aliases: Aliases) {
    forall b, i, c, j | b in aliases && c in aliases && 0 <= i < |aliases[b]| && 0 <= j < |aliases[c]| ::
      aliases[b][i] == aliases[c][j] ==> b == c && i == j
  }

  // ---------------------------------------------------------------- paths along aliases

  ghost predicate IsPath(aliases: Aliases, path: seq<Base>) {
    path != [] && forall i :: 0 <= i < |path| - 1 ==> path[i + 1] in AliasesOf(aliases, path[i])
  }

  /** `b` is `base`, one of its aliases, an alias of one of those, and so on. */
  ghost predicate Reaches(aliases: Aliases, base: Base, b: Base) {
    exists path :: IsPath(aliases, path) && path[0] == base && path[|path| - 1] == b
  }

  ghost predicate OffCycle(aliases: Aliases, base: Base) {
    forall a :: a in AliasesOf(aliases, base) ==> !Reaches(aliases, a, base)
  }

  lemma ReachesSelf(aliases: Aliases, base: Base)
    ensures Reaches(aliases, base, base)
  {
    assert IsPath(aliases, [base]);
  }

  lemma ReachesThrough(aliases: Aliases, base: Base, a: Base, b: Base)
    requires a in AliasesOf(aliases, base) && Reaches(aliases, a, b)
    ensures Reaches(aliases, base, b)
  {
    var path :| IsPath(aliases, path) && path[0] == a && path[|path| - 1] == b;
    var longer := [base] + path;
    assert IsPath(aliases, longer) && longer[0] == base && longer[|longer| - 1] == b;
  }

  lemma ReachesOnward(aliases: Aliases, path: seq<Base>, k: nat)
    requires IsPath(aliases, path) && k < |path|
    ensures Reaches(aliases, path[0], path[k])
  {
    assert IsPath(aliases, path[..k + 1]);
  }

  lemma ReachesFirst(aliases: Aliases, base: Base, b: Base) returns (k: nat)
    requires Reaches(aliases, base, b) && b != base
    ensures k < |AliasesOf(aliases, base)| && Reaches(aliases, AliasesOf(aliases, base)[k], b)
  {
    var p :| IsPath(aliases, p) && p[0] == base && p[|p| - 1] == b;
    assert p[0 + 1] in AliasesOf(aliases, p[0]);
    k :| k < |AliasesOf(aliases, base)| && AliasesOf(aliases, base)[k] == p[1];
    assert IsPath(aliases, p[1..]);
  }

  /** Where no route is an alias twice, two paths to the same route share all of the shorter one. */
  lemma {:induction false} PathsMeet(aliases: Aliases, p: seq<Base>, q: seq<Base>)
    requires Injective(aliases) && IsPath(aliases, p) && IsPath(aliases, q)
    requires p[|p| - 1] == q[|q| - 1] && |p| <= |q|
    ensures p[0] == q[|q| - |p|]
  {
    if |p| > 1 {
      var i, j := |p| - 2, |q| - 2;
      assert p[i + 1] in AliasesOf(aliases, p[i]) && q[j + 1] in AliasesOf(aliases, q[j]);
      assert p[i] == q[j];
      PathsMeet(aliases, p[..i + 1], q[..j + 1]);
    }
  }

  /** Of two paths that start at different aliases of a base and meet, the longer runs through the base. */
  lemma MeetsBase(aliases: Aliases, base: Base, i: nat, k: nat, p: seq<Base>, q: seq<Base>)
    requires Injective(aliases) && IsPath(aliases, p) && IsPath(aliases, q)
    requires i < |AliasesOf(aliases, base)| && k < |AliasesOf(aliases, base)| && i != k
    requires p[0] == AliasesOf(aliases, base)[i] && q[0] == AliasesOf(aliases, base)[k]
    requires p[|p| - 1] == q[|q| - 1] && |p| <= |q|
    ensures Reaches(aliases, q[0], base)
  {
    PathsMeet(aliases, p, q);
    var at := |q| - |p| - 1;
    assert q[at + 1] in AliasesOf(aliases, q[at]);
    ReachesOnward(aliases, q, at);
  }

  /** Two aliases of one base that do not reach it reach nothing in common. */
  lemma SiblingsDisjoint(aliases: Aliases, base: Base, i: nat, k: nat, b: Base)
    requires Injective(aliases)
    requires i < |AliasesOf(aliases, base)| && k < |AliasesOf(aliases, base)| && i != k
    requires !Reaches(aliases, AliasesOf(aliases, base)[i], base) && !Reaches(aliases, AliasesOf(aliases, base)[k], base)
    requires Reaches(aliases, AliasesOf(aliases, base)[i], b)
    ensures !Reaches(aliases, AliasesOf(aliases, base)[k], b)
  {
    var targets := AliasesOf(aliases, base);
    var p :| IsPath(aliases, p) && p[0] == targets[i] && p[|p| - 1] == b;
    forall q | IsPath(aliases, q) && q[0] == targets[k] ensures q[|q| - 1] != b {
      if q[|q| - 1] == b {
        if |p| <= |q| { MeetsBase(aliases, base, i, k, p, q); } else { MeetsBase(aliases, base, k, i, q, p); }
      }
    }
  }

  /** A cycle through an alias runs through the only base that has it. */
  lemma CycleThroughBase(aliases: Aliases, base: Base, a: Base, c: Base)
    requires Injective(aliases) && a in AliasesOf(aliases, base)
    requires c in AliasesOf(aliases, a) && Reaches(aliases, c, a)
    ensures Reaches(aliases, a, base)
  {
    var p :| IsPath(aliases, p) && p[0] == c && p[|p| - 1] == a;
    if |p| == 1 {
      assert a == base;
      ReachesSelf(aliases, a);
    } else {
      var at := |p| - 2;
      assert p[at + 1] in AliasesOf(aliases, p[at]);
      ReachesOnward(aliases, p, at);
      ReachesThrough(aliases, a, c, base);
    }
  }

  lemma OffCycleAlias(aliases: Aliases, base: Base, a: Base)
    requires Injective(aliases) && a in AliasesOf(aliases, base) && !Reaches(aliases, a, base)
    ensures OffCycle(aliases, a)
  {
    forall c | c in AliasesOf(aliases, a) ensures !Reaches(aliases, c, a) {
      if Reaches(aliases, c, a) { CycleThroughBase(aliases, base, a, c); }
    }
  }

  lemma ReachesTransitive(aliases: Aliases, a: Base, b: Base, c: Base)
    requires Reaches(aliases, a, b) && Reaches(aliases, b, c)
    ensures Reaches(aliases, a, c)
  {
    var p :| IsPath(aliases, p) && p[0] == a && p[|p| - 1] == b;
    var q :| IsPath(aliases, q) && q[0] == b && q[|q| - 1] == c;
    var path := p + q[1..];
    assert forall i :: 0 <= i < |p| ==> path[i] == p[i];
    assert forall i :: 0 <= i < |q| ==> path[|p| - 1 + i] == q[i];
    forall i | 0 <= i < |path| - 1 ensures path[i + 1] in AliasesOf(aliases, path[i]) {
      if i < |p| - 1 {
        assert p[i + 1] in AliasesOf(aliases, p[i]);
      } else {
        var j := i - (|p| - 1);
        assert q[j + 1] in AliasesOf(aliases, q[j]);
      }
    }
    assert IsPath(aliases, path) && path[0] == a && path[|path| - 1] == c;
  }

  /** The part of the alias table that a base reaches. */
  ghost function Below(aliases: Aliases, base: Base): Aliases {
    map b | b in aliases && Reaches(aliases, base, b) :: aliases[b]
  }

  /** What a base reaches is a tree: the base is on no cycle, and no route below it is an alias twice. */
  ghost predicate Treelike(aliases: Aliases, base: Base) {
    OffCycle(aliases, base) && Injective(Below(aliases, base))
  }

  /** It is none if AddAlias was given a route twice, so that no endpoint can be added to the base any more. */
  lemma RepeatedIsNoTree(aliases: Aliases, base: Base, i: nat, k: nat)
    requires base in aliases && i < k < |aliases[base]| && aliases[base][i] == aliases[base][k]
    ensures !Treelike(aliases, base)
  {
    ReachesSelf(aliases, base);
    var below := Below(aliases, base);
    assert base in below && below[base][i] == below[base][k];
  }

  ghost predicate Apart(aliases: Aliases, a: Base, b: Base) {
    forall x :: Reaches(aliases, a, x) ==> !Reaches(aliases, b, x)
  }

  lemma BelowPath(aliases: Aliases, base: Base, path: seq<Base>)
    requires path != [] && Reaches(aliases, base, path[0])
    ensures IsPath(Below(aliases, base), path) <==> IsPath(aliases, path)
  {
    if IsPath(aliases, path) {
      forall i | 0 <= i < |path| - 1 ensures path[i + 1] in AliasesOf(Below(aliases, base), path[i]) {
        ReachesOnward(aliases, path, i);
        ReachesTransitive(aliases, base, path[0], path[i]);
        assert path[i + 1] in AliasesOf(aliases, path[i]);
      }
    }
    if IsPath(Below(aliases, base), path) {
      forall i | 0 <= i < |path| - 1 ensures path[i + 1] in AliasesOf(aliases, path[i]) {
        assert path[i + 1] in AliasesOf(Below(aliases, base), path[i]);
      }
    }
  }

  lemma BelowReaches(aliases: Aliases, base: Base, a: Base, b: Base)
    requires Reaches(aliases, base, a)
    ensures Reaches(Below(aliases, base), a, b) <==> Reaches(aliases, a, b)
  {
    if Reaches(aliases, a, b) {
      var path :| IsPath(aliases, path) && path[0] == a && path[|path| - 1] == b;
      BelowPath(aliases, base, path);
    }
    if Reaches(Below(aliases, base), a, b) {
      var path :| IsPath(Below(aliases, base), path) && path[0] == a && path[|path| - 1] == b;
      BelowPath(aliases, base, path);
    }
  }

  lemma AliasReached(aliases: Aliases, base: Base, a: Base)
    requires a in AliasesOf(aliases, base)
    ensures Reaches(aliases, base, a)
  {
    ReachesSelf(aliases, a);
    ReachesThrough(aliases, base, a, a);
  }

  /** The aliases of a tree's root are roots of trees. */
  lemma TreelikeAlias(aliases: Aliases, base: Base, a: Base)
    requires Treelike(aliases, base) && a in AliasesOf(aliases, base)
    ensures Treelike(aliases, a)
  {
    var below := Below(aliases, base);
    ReachesSelf(aliases, base);
    AliasReached(aliases, base, a);
    BelowReaches(aliases, base, a, base);
    OffCycleAlias(below, base, a);
    forall c | c in AliasesOf(aliases, a) ensures !Reaches(aliases, c, a) {
      AliasReached(aliases, a, c);
      ReachesTransitive(aliases, base, a, c);
      BelowReaches(aliases, base, c, a);
    }
    BelowShrinks(aliases, base, a);
  }

  lemma BelowShrinks(aliases: Aliases, base: Base, a: Base)
    requires Reaches(aliases, base, a) && Injective(Below(aliases, base))
    ensures Injective(Below(aliases, a))
  {
    forall b | b in Below(aliases, a) ensures b in Below(aliases, base) && Below(aliases, base)[b] == Below(aliases, a)[b] {
      ReachesTransitive(aliases, base, a, b);
    }
  }

  /** ... and have nothing in common. */
  lemma SiblingsApart(aliases: Aliases, base: Base, i: nat, k: nat)
    requires Treelike(aliases, base) && i < |AliasesOf(aliases, base)| && k < |AliasesOf(aliases, base)| && i != k
    ensures Apart(aliases, AliasesOf(aliases, base)[i], AliasesOf(aliases, base)[k])
  {
    var below, a, b := Below(aliases, base), AliasesOf(aliases, base)[i], AliasesOf(aliases, base)[k];
    ReachesSelf(aliases, base);
    AliasReached(aliases, base, a);
    AliasReached(aliases, base, b);
    BelowReaches(aliases, base, a, base);
    BelowReaches(aliases, base, b, base);
    forall x | Reaches(aliases, a, x) ensures !Reaches(aliases, b, x) {
      BelowReaches(aliases, base, a, x);
      BelowReaches(aliases, base, b, x);
      SiblingsDisjoint(below, base, i, k, x);
    }
  }

  /** Off a cycle, nothing that a route reaches has it as an alias. */
  lemma NoWayBack(aliases: Aliases, a: Base, c: Base)
    requires OffCycle(aliases, a) && Reaches(aliases, a, c)
    ensures a !in AliasesOf(aliases, c)
  {
    if a in AliasesOf(aliases, c) {
      ReachesSelf(aliases, a);
      if c != a {
        var k := ReachesFirst(aliases, a, c);
        AliasReached(aliases, c, a);
        ReachesTransitive(aliases, AliasesOf(aliases, a)[k], c, a);
      }
    }
  }

  /** Every alias position below the base belongs to the base or is below one of its aliases. */
  lemma WhichAlias(aliases: Aliases, base: Base, b: Base, i: nat) returns (k: nat)
    requires Reaches(aliases, base, b) && i < |AliasesOf(aliases, b)|
    ensures k < |AliasesOf(aliases, base)| && Reaches(aliases, AliasesOf(aliases, base)[k], AliasesOf(aliases, b)[i])
    ensures b == base ==> k == i
    ensures b != base ==> Reaches(aliases, AliasesOf(aliases, base)[k], b)
  {
    if b == base {
      k := i;
      ReachesSelf(aliases, AliasesOf(aliases, base)[i]);
    } else {
      k := ReachesFirst(aliases, base, b);
      AliasReached(aliases, b, AliasesOf(aliases, b)[i]);
      ReachesTransitive(aliases, AliasesOf(aliases, base)[k], b, AliasesOf(aliases, b)[i]);
    }
  }

  /** The aliases of the base are roots of trees that have nothing in common and do not lead back to it. */
  ghost predicate Branches(aliases: Aliases, base: Base) {
    var targets := AliasesOf(aliases, base);
    && OffCycle(aliases, base)
    && (forall k :: 0 <= k < |targets| ==> Treelike(aliases, targets[k]))
    && (forall i, k :: 0 <= i < k < |targets| ==> Apart(aliases, targets[i], targets[k]))
  }

  lemma BranchesUnique(aliases: Aliases, base: Base, b: Base, i: nat, c: Base, j: nat)
    requires Branches(aliases, base) && Reaches(aliases, base, b) && Reaches(aliases, base, c)
    requires i < |AliasesOf(aliases, b)| && j < |AliasesOf(aliases, c)| && AliasesOf(aliases, b)[i] == AliasesOf(aliases, c)[j]
    ensures b == c && i == j
  {
    var targets := AliasesOf(aliases, base);
    var k := WhichAlias(aliases, base, b, i);
    var m := WhichAlias(aliases, base, c, j);
    assert k == m;
    assert Treelike(aliases, targets[k]);
    if b != base { NoWayBack(aliases, targets[k], b); }
    if c != base { NoWayBack(aliases, targets[k], c); }
    if b != base && c != base {
      var below := Below(aliases, targets[k]);
      assert b in below && c in below && below[b] == aliases[b] && below[c] == aliases[c];
    }
  }

  lemma BranchesTreelike(aliases: Aliases, base: Base)
    requires Branches(aliases, base)
    ensures Treelike(aliases, base)
  {
    var below := Below(aliases, base);
    forall b, i, c, j | b in below && c in below && 0 <= i < |below[b]| && 0 <= j < |below[c]| && below[b][i] == below[c][j]
      ensures b == c && i == j
    {
      BranchesUnique(aliases, base, b, i, c, j);
    }
  }

  lemma TreelikeBranches(aliases: Aliases, base: Base)
    requires Treelike(aliases, base)
    ensures Branches(aliases, base)
  {
    var targets := AliasesOf(aliases, base);
    forall k | 0 <= k < |targets| ensures Treelike(aliases, targets[k]) { TreelikeAlias(aliases, base, targets[k]); }
    forall i, k | 0 <= i < k < |targets| ensures Apart(aliases, targets[i], targets[k]) { SiblingsApart(aliases, base, i, k); }
  }

  lemma NoAliasOffCycle(aliases: Aliases, base: Base)
    requires base !in AllAliases(aliases)
    ensures OffCycle(aliases, base)
  {
    forall a, p | a in AliasesOf(aliases, base) && IsPath(aliases, p) && p[0] == a
      ensures p[|p| - 1] != base
    {
      if |p| > 1 {
        var at := |p| - 2;
        assert p[at + 1] in AliasesOf(aliases, p[at]);
        assert p[at + 1] in AllAliases(aliases);
      } else {
        assert a in AllAliases(aliases);
      }
    }
  }

  /** What a base has, everything it reaches has. */
  lemma {:induction false} ClosedAlong(routes: Routes, aliases: Aliases, path: seq<Base>, e: Endpoint)
    requires Closed(routes, aliases, {}) && IsPath(aliases, path) && e in Endpoints(routes, path[0])
    ensures e in Endpoints(routes, path[|path| - 1])
  {
    if |path| > 1 {
      assert path[0 + 1] in AliasesOf(aliases, path[0]);
      assert Aliased(routes, aliases, path[0], path[1], e);
      ClosedAlong(routes, aliases, path[1..], e);
    }
  }

  lemma ReachedHas(routes: Routes, aliases: Aliases, base: Base, b: Base, e: Endpoint)
    requires Closed(routes, aliases, {}) && Reaches(aliases, base, b) && e in Endpoints(routes, base)
    ensures e in Endpoints(routes, b)
  {
    var path :| IsPath(aliases, path) && path[0] == base && path[|path| - 1] == b;
    ClosedAlong(routes, aliases, path, e);
  }

  // ---------------------------------------------------------------- adding an entry to aliases

  /** The first `done` aliases of the entry's base have been handled since `start`, the errors so far
      being `r`. If `agree`, handlers agree as long as there is no error. */
  ghost predicate Spread(start: Routes, now: Routes, aliases: Aliases, open: Pairs, entry: Entry,
                         done: nat, agree: bool, r: Result)
  {
    var targets := AliasesOf(aliases, entry.base);
    && done <= |targets|
    && Has(now, entry)
    && Closed(now, aliases, open)
    && Grows(start, now, aliases, entry)
    && (r == Failed(EndpointExists) || r == Done)
    && (forall k :: 0 <= k < done ==> entry.endpoint in Endpoints(now, targets[k]))
    && (r.Done? && agree ==>
          Agrees(now, aliases, open) && forall k :: 0 <= k < done ==> Has(now, entry.(base := targets[k])))
  }

  /** The endpoint is below none of the aliases from `first` to `done`, and these are roots of trees that
      have nothing in common. */
  ghost predicate Clear(routes: Routes, aliases: Aliases, base: Base, first: nat, done: nat, e: Endpoint) {
    var targets := AliasesOf(aliases, base);
    && first <= done <= |targets|
    && (forall k :: first <= k < done ==> NoneReached(routes, aliases, targets[k], e) && Treelike(aliases, targets[k]))
    && (forall i, k :: first <= i < k < done ==> Apart(aliases, targets[i], targets[k]))
  }

  ghost predicate AllReached(routes: Routes, aliases: Aliases, base: Base, endpoint: Endpoint) {
    forall b :: Reaches(aliases, base, b) ==> endpoint in Endpoints(routes, b)
  }

  ghost predicate BelowSome(aliases: Aliases, base: Base, first: nat, done: nat, b: Base) {
    exists k :: first <= k < done && k < |AliasesOf(aliases, base)| && Reaches(aliases, AliasesOf(aliases, base)[k], b)
  }

  /** Handling the aliases from `first` to `done` goes without an error exactly if that is so; the endpoint
      is then added exactly to what they reach. */
  ghost predicate SpreadExact(start: Routes, now: Routes, aliases: Aliases, entry: Entry, first: nat, done: nat, r: Result) {
    var targets := AliasesOf(aliases, entry.base);
    && first <= done <= |targets|
    && (r.Done? <==> Clear(start, aliases, entry.base, first, done, entry.endpoint))
    && (r.Done? ==> forall k :: first <= k < done ==> AllReached(now, aliases, targets[k], entry.endpoint))
    && (forall b :: Added(start, now, b, entry.endpoint) ==> BelowSome(aliases, entry.base, first, done, b))
  }

  /** What forceAddRouter leaves behind, whether or not it returns an error. */
  ghost predicate Forced(before: Routes, after: Routes, aliases: Aliases, open: Pairs, entry: Entry, agree: bool, r: Result) {
    && Closed(after, aliases, open)
    && entry.endpoint in Endpoints(after, entry.base)
    && Grows(before, after, aliases, entry)
    && (r == Failed(EndpointExists) || r == Done)
    && (entry.endpoint in Endpoints(before, entry.base) ==> after == before)
    && (r.Done? ==> Has(after, entry))
    && (r.Done? && agree ==> Agrees(after, aliases, open))
  }

  /** ... and when it returns none: exactly if the base reaches a tree that is free of the endpoint. */
  ghost predicate ForcedExact(before: Routes, after: Routes, aliases: Aliases, entry: Entry, r: Result) {
    && (r.Done? <==> NoneReached(before, aliases, entry.base, entry.endpoint) && Treelike(aliases, entry.base))
    && (r.Done? ==> AllReached(after, aliases, entry.base, entry.endpoint))
  }

  lemma GrowsTransitive(a: Routes, b: Routes, c: Routes, aliases: Aliases, entry: Entry, alias: Base)
    requires Grows(a, b, aliases, entry) && Grows(b, c, aliases, entry.(base := alias))
    requires alias in AliasesOf(aliases, entry.base)
    ensures Grows(a, c, aliases, entry)
  {
    forall x, e | Added(a, c, x, e)
      ensures e == entry.endpoint && Endpoints(c, x)[e] == entry.handler && Reaches(aliases, entry.base, x)
    {
      if Added(b, c, x, e) { ReachesThrough(aliases, entry.base, alias, x); } else { assert Added(a, b, x, e); }
    }
  }

  /** Installing at `base` opens exactly the pair (base, endpoint). */
  lemma InstallOpens(routes: Routes, aliases: Aliases, open: Pairs, entry: Entry, agree: bool)
    requires Closed(routes, aliases, open) && entry.endpoint !in Endpoints(routes, entry.base)
    requires agree ==> Agrees(routes, aliases, open)
    ensures var start, working := Install(routes, entry), open + {(entry.base, entry.endpoint)};
      && Spread(start, start, aliases, working, entry, 0, agree, Done)
      && Grows(routes, start, aliases, entry)
  {
    var start, working := Install(routes, entry), open + {(entry.base, entry.endpoint)};
    assert forall b, e :: e in Endpoints(start, b) <==> e in Endpoints(routes, b) || (b == entry.base && e == entry.endpoint);
    ReachesSelf(aliases, entry.base);
    forall b, a, e | Aliased(start, aliases, b, a, e) && (b, e) !in working
      ensures e in Endpoints(start, a) && (agree ==> Endpoints(start, a)[e] == Endpoints(start, b)[e])
    {
      assert Aliased(routes, aliases, b, a, e) && (b, e) !in open;
    }
  }

  /** Off a cycle, the base's own new entry is in nobody's way. */
  lemma InstallClears(routes: Routes, aliases: Aliases, entry: Entry)
    requires OffCycle(aliases, entry.base) && NoneReached(routes, aliases, entry.base, entry.endpoint)
    ensures forall a :: a in AliasesOf(aliases, entry.base) ==> NoneReached(Install(routes, entry), aliases, a, entry.endpoint)
  {
    forall a, b | a in AliasesOf(aliases, entry.base) && Reaches(aliases, a, b)
      ensures entry.endpoint !in Endpoints(Install(routes, entry), b)
    {
      ReachesThrough(aliases, entry.base, a, b);
    }
  }

  /** One more alias is handled by a call that returned `inner`. */
  lemma NextAlias(start: Routes, was: Routes, now: Routes, aliases: Aliases, open: Pairs, entry: Entry,
                  i: nat, agree: bool, r: Result, inner: Result)
    requires Spread(start, was, aliases, open, entry, i, agree, r) && i < |AliasesOf(aliases, entry.base)|
    requires Forced(was, now, aliases, open, entry.(base := AliasesOf(aliases, entry.base)[i]), agree && r.Done?, inner)
    ensures Spread(start, now, aliases, open, entry, i + 1, agree, if r.Done? then inner else r)
  {
    GrowsTransitive(start, was, now, aliases, entry, AliasesOf(aliases, entry.base)[i]);
  }

  /** What is in the way of the next alias: the endpoint was below it before, or it has something in common
      with an alias that was handled before. */
  lemma NextClear(start: Routes, was: Routes, aliases: Aliases, entry: Entry, first: nat, i: nat)
    requires SpreadExact(start, was, aliases, entry, first, i, Done) && i < |AliasesOf(aliases, entry.base)| && Keeps(start, was)
    ensures var targets := AliasesOf(aliases, entry.base);
      NoneReached(was, aliases, targets[i], entry.endpoint) <==>
      && NoneReached(start, aliases, targets[i], entry.endpoint)
      && (forall j :: first <= j < i ==> Apart(aliases, targets[j], targets[i]))
  {
    var targets, endpoint := AliasesOf(aliases, entry.base), entry.endpoint;
    if NoneReached(was, aliases, targets[i], endpoint) {
      forall j | first <= j < i ensures Apart(aliases, targets[j], targets[i]) {
        assert AllReached(was, aliases, targets[j], endpoint);
      }
    }
    if NoneReached(start, aliases, targets[i], endpoint) && forall j :: first <= j < i ==> Apart(aliases, targets[j], targets[i]) {
      forall b | Reaches(aliases, targets[i], b) ensures endpoint !in Endpoints(was, b) {
        forall k | first <= k < i ensures !Reaches(aliases, targets[k], b) {
          assert Apart(aliases, targets[k], targets[i]);
        }
        assert !BelowSome(aliases, entry.base, first, i, b);
        assert !Added(start, was, b, endpoint);
      }
    }
  }

  lemma AllReachedKept(was: Routes, now: Routes, aliases: Aliases, base: Base, e: Endpoint)
    requires AllReached(was, aliases, base, e) && Keeps(was, now)
    ensures AllReached(now, aliases, base, e)
  {
  }

  lemma NextAdded(start: Routes, was: Routes, now: Routes, aliases: Aliases, entry: Entry, first: nat, i: nat, b: Base)
    requires first <= i < |AliasesOf(aliases, entry.base)|
    requires Grows(was, now, aliases, entry.(base := AliasesOf(aliases, entry.base)[i]))
    requires Added(start, was, b, entry.endpoint) ==> BelowSome(aliases, entry.base, first, i, b)
    requires Added(start, now, b, entry.endpoint)
    ensures BelowSome(aliases, entry.base, first, i + 1, b)
  {
    if Added(start, was, b, entry.endpoint) {
      var k :| first <= k < i && k < |AliasesOf(aliases, entry.base)| && Reaches(aliases, AliasesOf(aliases, entry.base)[k], b);
      assert first <= k < i + 1;
    } else {
      assert Added(was, now, b, entry.endpoint);
      assert first <= i < i + 1;
    }
  }

  lemma NextAliasExact(start: Routes, was: Routes, now: Routes, aliases: Aliases, entry: Entry,
                       first: nat, i: nat, r: Result, inner: Result)
    requires SpreadExact(start, was, aliases, entry, first, i, r) && i < |AliasesOf(aliases, entry.base)|
    requires Keeps(start, was)
    requires Grows(was, now, aliases, entry.(base := AliasesOf(aliases, entry.base)[i]))
    requires ForcedExact(was, now, aliases, entry.(base := AliasesOf(aliases, entry.base)[i]), inner)
    ensures SpreadExact(start, now, aliases, entry, first, i + 1, if r.Done? then inner else r)
  {
    var targets := AliasesOf(aliases, entry.base);
    forall b | Added(start, now, b, entry.endpoint) ensures BelowSome(aliases, entry.base, first, i + 1, b) {
      NextAdded(start, was, now, aliases, entry, first, i, b);
    }
    if r.Done? {
      NextClear(start, was, aliases, entry, first, i);
      ClearNext(start, aliases, entry.base, first, i, entry.endpoint);
      forall k | first <= k < i ensures AllReached(now, aliases, targets[k], entry.endpoint) {
        AllReachedKept(was, now, aliases, targets[k], entry.endpoint);
      }
    } else {
      ClearNext(start, aliases, entry.base, first, i, entry.endpoint);
    }
  }

  lemma ClearNext(start: Routes, aliases: Aliases, base: Base, first: nat, i: nat, e: Endpoint)
    requires first <= i < |AliasesOf(aliases, base)|
    ensures var targets := AliasesOf(aliases, base);
      Clear(start, aliases, base, first, i + 1, e) <==>
      && Clear(start, aliases, base, first, i, e)
      && NoneReached(start, aliases, targets[i], e) && Treelike(aliases, targets[i])
      && (forall j :: first <= j < i ==> Apart(aliases, targets[j], targets[i]))
  {
  }

  lemma ForcedDone(before: Routes, now: Routes, aliases: Aliases, open: Pairs, entry: Entry, agree: bool, r: Result)
    requires entry.endpoint !in Endpoints(before, entry.base)
    requires Grows(before, Install(before, entry), aliases, entry)
    requires Spread(Install(before, entry), now, aliases, open + {(entry.base, entry.endpoint)}, entry,
                    |AliasesOf(aliases, entry.base)|, agree, r)
    ensures Forced(before, now, aliases, open, entry, agree, r)
  {
    var start := Install(before, entry);
    forall x, e | Added(before, now, x, e)
      ensures e == entry.endpoint && Endpoints(now, x)[e] == entry.handler && Reaches(aliases, entry.base, x)
    {
      if !Added(start, now, x, e) { assert Added(before, start, x, e); }
    }
  }

  /** The base and its aliases are in nobody's way exactly if the base reaches a tree free of the endpoint. */
  lemma ClearIsTree(before: Routes, aliases: Aliases, entry: Entry)
    requires entry.endpoint !in Endpoints(before, entry.base)
    ensures Clear(Install(before, entry), aliases, entry.base, 0, |AliasesOf(aliases, entry.base)|, entry.endpoint) <==>
            NoneReached(before, aliases, entry.base, entry.endpoint) && Treelike(aliases, entry.base)
  {
    var targets, start, e := AliasesOf(aliases, entry.base), Install(before, entry), entry.endpoint;
    if Clear(start, aliases, entry.base, 0, |targets|, e) {
      forall b | Reaches(aliases, entry.base, b) ensures e !in Endpoints(before, b) {
        if b != entry.base {
          var k := ReachesFirst(aliases, entry.base, b);
          assert NoneReached(start, aliases, targets[k], e);
        }
      }
      forall a | a in targets ensures !Reaches(aliases, a, entry.base) {
        var k :| 0 <= k < |targets| && targets[k] == a;
        assert NoneReached(start, aliases, targets[k], e);
      }
      BranchesTreelike(aliases, entry.base);
    }
    if NoneReached(before, aliases, entry.base, e) && Treelike(aliases, entry.base) {
      InstallClears(before, aliases, entry);
      TreelikeBranches(aliases, entry.base);
    }
  }

  lemma ForcedDoneExact(before: Routes, now: Routes, aliases: Aliases, entry: Entry, r: Result)
    requires entry.endpoint !in Endpoints(before, entry.base) && entry.endpoint in Endpoints(now, entry.base)
    requires SpreadExact(Install(before, entry), now, aliases, entry, 0, |AliasesOf(aliases, entry.base)|, r)
    ensures ForcedExact(before, now, aliases, entry, r)
  {
    ClearIsTree(before, aliases, entry);
    forall b | r.Done? && Reaches(aliases, entry.base, b) ensures entry.endpoint in Endpoints(now, b) {
      if b != entry.base {
        var k := ReachesFirst(aliases, entry.base, b);
        assert AllReached(now, aliases, AliasesOf(aliases, entry.base)[k], entry.endpoint);
      }
    }
  }

  // ---------------------------------------------------------------- adding aliases to a base

  function Appended(aliases: Aliases, base: Base, more: seq<Base>): Aliases {
    aliases[base := AliasesOf(aliases, base) + more]
  }

  /** The new aliases come after those that the base had, and no other base has changed its aliases. */
  ghost predicate AliasesAdded(before: Aliases, after: Aliases, base: Base, more: seq<Base>) {
    && AliasesOf(after, base) == AliasesOf(before, base) + more
    && forall b :: b != base ==> AliasesOf(after, b) == AliasesOf(before, b)
  }

  /** Every endpoint that the base had is found under each of the new aliases. */
  ghost predicate ServesAliases(before: Routes, after: Routes, base: Base, more: seq<Base>) {
    forall i, e :: 0 <= i < |more| && e in Endpoints(before, base) ==> e in Endpoints(after, more[i])
  }

  lemma ClosedServes(before: Routes, after: Routes, aliases: Aliases, base: Base, more: seq<Base>, first: nat)
    requires Closed(after, aliases, {}) && Endpoints(after, base) == Endpoints(before, base)
    requires first <= |AliasesOf(aliases, base)| && AliasesOf(aliases, base)[first..] == more
    ensures ServesAliases(before, after, base, more)
  {
    forall i, e | 0 <= i < |more| && e in Endpoints(before, base) ensures e in Endpoints(after, more[i]) {
      assert more[i] == AliasesOf(aliases, base)[first + i];
      assert Aliased(after, aliases, base, more[i], e);
    }
  }

  ghost function Open(base: Base, endpoints: set<Endpoint>): Pairs {
    set e | e in endpoints :: (base, e)
  }

  ghost predicate Distinct(s: seq<Base>) {
    forall i, j :: 0 <= i < j < |s| ==> s[i] != s[j]
  }

  /** The endpoints of `base` outside `left` have been given to its aliases from `first` on. */
  ghost predicate Shared(before: Routes, now: Routes, aliases: Aliases, base: Base, left: set<Endpoint>) {
    && Keeps(before, now)
    && Endpoints(now, base) == Endpoints(before, base)
    && (forall b, e :: Added(before, now, b, e) ==>
          && e in Endpoints(before, base) && e !in left
          && Endpoints(now, b)[e] == Endpoints(before, base)[e] && Reaches(aliases, base, b))
  }

  ghost predicate SharedExact(before: Routes, aliases: Aliases, base: Base, first: nat, left: set<Endpoint>, r: Result) {
    r.Done? <==> forall e :: e in Endpoints(before, base) && e !in left ==>
                   Clear(before, aliases, base, first, |AliasesOf(aliases, base)|, e)
  }

  /** Every endpoint of the base can be given to its aliases from `first` on. */
  ghost predicate AllClear(routes: Routes, aliases: Aliases, base: Base, first: nat) {
    forall e :: e in Endpoints(routes, base) ==> Clear(routes, aliases, base, first, |AliasesOf(aliases, base)|, e)
  }

  /** Nothing that these aliases reach has an endpoint of the base. */
  ghost predicate NothingInTheWay(routes: Routes, aliases: Aliases, base: Base, first: nat) {
    forall e, k :: e in Endpoints(routes, base) && first <= k < |AliasesOf(aliases, base)| ==>
      NoneReached(routes, aliases, AliasesOf(aliases, base)[k], e)
  }

  /** Where no route is an alias twice, that is all that matters. */
  lemma InjectiveClear(routes: Routes, aliases: Aliases, base: Base, first: nat)
    requires Injective(aliases) && first <= |AliasesOf(aliases, base)|
    ensures AllClear(routes, aliases, base, first) <==> NothingInTheWay(routes, aliases, base, first)
  {
    var targets := AliasesOf(aliases, base);
    if NothingInTheWay(routes, aliases, base, first) {
      forall e | e in Endpoints(routes, base) ensures Clear(routes, aliases, base, first, |targets|, e) {
        forall k | first <= k < |targets| ensures NoneReached(routes, aliases, targets[k], e) && Treelike(aliases, targets[k]) {
          assert !Reaches(aliases, targets[k], base);
          OffCycleAlias(aliases, base, targets[k]);
        }
        forall i, k | first <= i < k < |targets| ensures Apart(aliases, targets[i], targets[k]) {
          assert !Reaches(aliases, targets[i], base) && !Reaches(aliases, targets[k], base);
          forall x | Reaches(aliases, targets[i], x) ensures !Reaches(aliases, targets[k], x) {
            SiblingsDisjoint(aliases, base, i, k, x);
          }
        }
      }
    }
  }

  lemma AppendedReserves(aliases: Aliases, base: Base, more: seq<Base>)
    ensures AllAliases(Appended(aliases, base, more)) == AllAliases(aliases) + set a | a in more
  {
    var longer, had := Appended(aliases, base, more), AliasesOf(aliases, base);
    forall a | a in more ensures a in AllAliases(longer) {
      var k :| 0 <= k < |more| && more[k] == a;
      assert longer[base][|had| + k] == a;
    }
    forall a | a in AllAliases(aliases) ensures a in AllAliases(longer) {
      var b, i :| b in aliases && 0 <= i < |aliases[b]| && aliases[b][i] == a;
      assert longer[b][i] == a;
    }
  }

  lemma AppendedInjective(aliases: Aliases, base: Base, more: seq<Base>)
    requires Injective(aliases) && Distinct(more) && (forall a :: a in more ==> a !in AllAliases(aliases))
    ensures Injective(Appended(aliases, base, more))
  {
    var longer, had := Appended(aliases, base, more), AliasesOf(aliases, base);
    forall b, i | b in longer && 0 <= i < |longer[b]|
      ensures if b == base && i >= |had| then longer[b][i] == more[i - |had|] else longer[b][i] in AllAliases(aliases)
    {
    }
  }

  /** All endpoints of the base are open once it has more aliases. */
  lemma AppendedOpens(routes: Routes, aliases: Aliases, base: Base, more: seq<Base>, agree: bool)
    requires Closed(routes, aliases, {}) && (agree ==> Agrees(routes, aliases, {}))
    ensures var longer, open := Appended(aliases, base, more), Open(base, Endpoints(routes, base).Keys);
      Closed(routes, longer, open) && (agree ==> Agrees(routes, longer, open))
  {
    var longer, open := Appended(aliases, base, more), Open(base, Endpoints(routes, base).Keys);
    forall b, a, e | Aliased(routes, longer, b, a, e) && (b, e) !in open
      ensures e in Endpoints(routes, a) && (agree ==> Endpoints(routes, a)[e] == Endpoints(routes, b)[e])
    {
      assert b != base;
      assert Aliased(routes, aliases, b, a, e);
    }
  }

  /** The aliases that the base had before are already served. */
  lemma ServedBefore(before: Routes, now: Routes, aliases: Aliases, base: Base, more: seq<Base>, left: set<Endpoint>,
                     e: Endpoint, agree: bool)
    requires Closed(before, aliases, {}) && (agree ==> Agrees(before, aliases, {}))
    requires e in Endpoints(before, base)
    requires Shared(before, now, Appended(aliases, base, more), base, left)
    requires Closed(now, Appended(aliases, base, more), Open(base, left))
    requires agree ==> Agrees(now, Appended(aliases, base, more), Open(base, left))
    ensures Spread(now, now, Appended(aliases, base, more), Open(base, left), Entry(base, e, Endpoints(before, base)[e]),
                   |AliasesOf(aliases, base)|, agree, Done)
  {
    forall k | 0 <= k < |AliasesOf(aliases, base)|
      ensures e in Endpoints(now, AliasesOf(aliases, base)[k])
      ensures agree ==> Has(now, Entry(AliasesOf(aliases, base)[k], e, Endpoints(before, base)[e]))
    {
      assert Aliased(before, aliases, base, AliasesOf(aliases, base)[k], e);
    }
  }

  /** One more endpoint of the base is given to its new aliases. */
  lemma NextEndpoint(before: Routes, was: Routes, now: Routes, aliases: Aliases, base: Base, left: set<Endpoint>,
                     e: Endpoint, agree: bool, r: Result)
    requires Shared(before, was, aliases, base, left) && e in left && e in Endpoints(before, base)
    requires Spread(was, now, aliases, Open(base, left), Entry(base, e, Endpoints(before, base)[e]),
                    |AliasesOf(aliases, base)|, agree, r)
    ensures Shared(before, now, aliases, base, left - {e})
    ensures Closed(now, aliases, Open(base, left - {e}))
    ensures r.Done? && agree ==> Agrees(now, aliases, Open(base, left - {e}))
  {
    var entry := Entry(base, e, Endpoints(before, base)[e]);
    assert Open(base, left) == Open(base, left - {e}) + {(base, e)};
    forall b, f | Added(before, now, b, f)
      ensures f in Endpoints(before, base) && f !in left - {e}
      ensures Endpoints(now, b)[f] == Endpoints(before, base)[f] && Reaches(aliases, base, b)
    {
      if !Added(was, now, b, f) { assert Added(before, was, b, f); }
    }
    assert forall f :: !Added(was, now, base, f);
    assert Endpoints(now, base) == Endpoints(before, base);
  }

  /** What was added for other endpoints does not matter for this one. */
  lemma NextEndpointExact(before: Routes, was: Routes, now: Routes, aliases: Aliases, base: Base, first: nat,
                          left: set<Endpoint>, e: Endpoint, r: Result, inner: Result)
    requires Shared(before, was, aliases, base, left) && e in left && e in Endpoints(before, base)
    requires SharedExact(before, aliases, base, first, left, r)
    requires SpreadExact(was, now, aliases, Entry(base, e, Endpoints(before, base)[e]), first, |AliasesOf(aliases, base)|, inner)
    ensures SharedExact(before, aliases, base, first, left - {e}, if r.Done? then inner else r)
  {
    assert forall b :: e in Endpoints(was, b) <==> e in Endpoints(before, b) by {
      assert forall b :: !Added(before, was, b, e);
    }
    assert forall b :: NoneReached(was, aliases, b, e) <==> NoneReached(before, aliases, b, e);
    assert Clear(was, aliases, base, first, |AliasesOf(aliases, base)|, e) <==>
           Clear(before, aliases, base, first, |AliasesOf(aliases, base)|, e);
  }

  // ---------------------------------------------------------------- the router object

  class ApiRouter {
    var routes: Routes
    var aliases: Aliases
    var reservedRoutes: set<Base>
    ghost var errored: bool   // some call has returned an error
    ghost var repeated: bool  // some AddAlias call has named a route twice

    ghost predicate Valid()
      reads this
    {
      && Closed(routes, aliases, {})
      && (!errored ==> Agrees(routes, aliases, {}))
      && (!repeated ==> Injective(aliases))
      && reservedRoutes == AllAliases(aliases)
    }

    constructor ()
      ensures Valid() && routes == map[] && aliases == map[] && !errored && !repeated
    {
      routes, aliases, reservedRoutes, errored, repeated := map[], map[], {}, false, false;
    }

    method GetHandler(base: Base, endpoint: Endpoint) returns (r: Lookup)
      ensures r.Found? <==> endpoint in Endpoints(routes, base)
      ensures r.Found? ==> Has(routes, Entry(base, endpoint, r.handler))
      ensures r.Missed? ==> r.error == if base in routes then UnknownEndpoint else UnknownBase
    {
      if base !in routes { return Missed(UnknownBase); }
      if endpoint !in routes[base] { return Missed(UnknownEndpoint); }
      return Found(routes[base][endpoint]);
    }

    /** Installs the handler at `base` and, recursively, at its aliases. Terminates on every alias
        graph: a base that has the endpoint is not entered again. */
    method ForceAddRouter(entry: Entry, ghost universe: set<Base>, ghost open: Pairs, ghost agree: bool)
      returns (r: Result)
      requires entry.base in universe && AllAliases(aliases) <= universe
      requires Closed(routes, aliases, open) && (agree ==> Agrees(routes, aliases, open))
      modifies `routes
      ensures Forced(old(routes), routes, aliases, open, entry, agree, r)
      ensures ForcedExact(old(routes), routes, aliases, entry, r)
      decreases Missing(universe, routes, entry.endpoint), 0
    {
      ghost var before := routes;
      ReachesSelf(aliases, entry.base);
      if entry.endpoint in Endpoints(routes, entry.base) { return Failed(EndpointExists); }

      routes := Install(routes, entry);
      InstallOpens(before, aliases, open, entry, agree);
      assert entry.base in Missing(universe, before, entry.endpoint) - Missing(universe, routes, entry.endpoint);
      r := AddToAliases(entry, 0, universe, open + {(entry.base, entry.endpoint)}, agree);
      ForcedDone(before, routes, aliases, open, entry, agree, r);
      ForcedDoneExact(before, routes, aliases, entry, r);
    }

    /** The loop over the aliases of a base that has the entry, from position `first` on; the first
        error is returned and the rest is still done. */
    method AddToAliases(entry: Entry, first: nat, ghost universe: set<Base>, ghost open: Pairs, ghost agree: bool)
      returns (r: Result)
      requires AllAliases(aliases) <= universe
      requires Spread(routes, routes, aliases, open, entry, first, agree, Done)
      modifies `routes
      ensures Spread(old(routes), routes, aliases, open, entry, |AliasesOf(aliases, entry.base)|, agree, r)
      ensures SpreadExact(old(routes), routes, aliases, entry, first, |AliasesOf(aliases, entry.base)|, r)
      decreases Missing(universe, routes, entry.endpoint), 1
    {
      r := Done;
      ghost var start := routes;
      var targets := AliasesOf(aliases, entry.base);
      for i := first to |targets|
        invariant Spread(start, routes, aliases, open, entry, i, agree, r)
        invariant SpreadExact(start, routes, aliases, entry, first, i, r)
        invariant Missing(universe, routes, entry.endpoint) <= Missing(universe, start, entry.endpoint)
      {
        ghost var was := routes;
        assert targets[i] in AllAliases(aliases);
        var inner := ForceAddRouter(entry.(base := targets[i]), universe, open, agree && r.Done?);
        NextAlias(start, was, routes, aliases, open, entry, i, agree, r, inner);
        NextAliasExact(start, was, routes, aliases, entry, first, i, r, inner);
        if r.Done? { r := inner; }
      }
    }

    method AddRouter(entry: Entry) returns (r: Result)
      requires Valid()
      modifies `routes, `errored
      ensures Valid() && errored == (old(errored) || r.Failed?)
      ensures r == Failed(AlreadyReserved) <==> entry.base in reservedRoutes
      ensures entry.base in reservedRoutes ==> routes == old(routes)
      ensures Grows(old(routes), routes, aliases, entry)
      ensures entry.base !in reservedRoutes ==>
                forall b :: Reaches(aliases, entry.base, b) ==> entry.endpoint in Endpoints(routes, b)
      ensures r.Done? ==> Has(routes, entry)
      ensures r.Done? <==>
                && entry.base !in reservedRoutes
                && NoneReached(old(routes), aliases, entry.base, entry.endpoint) && Treelike(aliases, entry.base)
      ensures !repeated && entry.base !in reservedRoutes ==> Treelike(aliases, entry.base)
    {
      if entry.base in reservedRoutes {
        errored := true;
        return Failed(AlreadyReserved);
      }
      NoAliasOffCycle(aliases, entry.base);
      r := ForceAddRouter(entry, AllAliases(aliases) + {entry.base}, {}, !errored);
      forall b | Reaches(aliases, entry.base, b) ensures entry.endpoint in Endpoints(routes, b) {
        ReachedHas(routes, aliases, entry.base, b, entry.endpoint);
      }
      errored := errored || r.Failed?;
    }

    /** AddAlias's loops over the endpoints of the base, in any order, and its new aliases. */
    method ShareEndpoints(base: Base, first: nat, ghost had: Aliases, ghost more: seq<Base>, ghost agree: bool)
      returns (r: Result)
      requires aliases == Appended(had, base, more) && first == |AliasesOf(had, base)|
      requires Closed(routes, had, {}) && (agree ==> Agrees(routes, had, {}))
      requires Closed(routes, aliases, Open(base, Endpoints(routes, base).Keys))
      requires agree ==> Agrees(routes, aliases, Open(base, Endpoints(routes, base).Keys))
      modifies `routes
      ensures Closed(routes, aliases, {}) && (agree && r.Done? ==> Agrees(routes, aliases, {}))
      ensures r == Failed(EndpointExists) || r == Done
      ensures Shared(old(routes), routes, aliases, base, {})
      ensures SharedExact(old(routes), aliases, base, first, {}, r)
    {
      r := Done;
      ghost var before := routes;
      var endpoints := Endpoints(routes, base);
      var left := endpoints.Keys;
      while left != {}
        invariant left <= endpoints.Keys
        invariant Shared(before, routes, aliases, base, left)
        invariant SharedExact(before, aliases, base, first, left, r)
        invariant r == Failed(EndpointExists) || r == Done
        invariant Closed(routes, aliases, Open(base, left))
        invariant agree && r.Done? ==> Agrees(routes, aliases, Open(base, left))
        decreases left
      {
        var e :| e in left;
        ghost var was := routes;
        ServedBefore(before, routes, had, base, more, left, e, agree && r.Done?);
        var inner := AddToAliases(Entry(base, e, endpoints[e]), first, AllAliases(aliases), Open(base, left), agree && r.Done?);
        NextEndpoint(before, was, routes, aliases, base, left, e, agree && r.Done?, inner);
        NextEndpointExact(before, was, routes, aliases, base, first, left, e, r, inner);
        if r.Done? { r := inner; }
        left := left - {e};
      }
    }

    /** The first two loops of AddAlias: all the aliases are reserved, unless one of them is already. */
    method Reserve(more: seq<Base>) returns (ok: bool)
      modifies `reservedRoutes
      ensures ok <==> forall i :: 0 <= i < |more| ==> more[i] !in old(reservedRoutes)
      ensures reservedRoutes == if ok then old(reservedRoutes) + set a | a in more else old(reservedRoutes)
    {
      for i := 0 to |more|
        invariant reservedRoutes == old(reservedRoutes)
        invariant forall k :: 0 <= k < i ==> more[k] !in reservedRoutes
      {
        if more[i] in reservedRoutes { return false; }
      }
      for i := 0 to |more|
        invariant reservedRoutes == old(reservedRoutes) + set a | a in more[..i]
      {
        reservedRoutes := reservedRoutes + {more[i]};
      }
      assert more[..|more|] == more;
      ok := true;
    }

    method AddAlias(base: Base, more: seq<Base>) returns (r: Result)
      requires Valid()
      modifies this
      ensures Valid() && errored == (old(errored) || r.Failed?)
      ensures r == Failed(AlreadyReserved) <==> exists a :: a in more && a in old(reservedRoutes)
      ensures r == Failed(AlreadyReserved) ==>
                routes == old(routes) && aliases == old(aliases) && repeated == old(repeated)
      ensures r != Failed(AlreadyReserved) ==>
                && aliases == Appended(old(aliases), base, more) && AliasesAdded(old(aliases), aliases, base, more)
                && ServesAliases(old(routes), routes, base, more)
                && repeated == (old(repeated) || !Distinct(more))
                && Shared(old(routes), routes, aliases, base, {})
                && (r.Done? <==> AllClear(old(routes), aliases, base, |AliasesOf(old(aliases), base)|))
                && (!repeated ==>
                      (r.Done? <==> NothingInTheWay(old(routes), aliases, base, |AliasesOf(old(aliases), base)|)))
    {
      var ok := Reserve(more);
      if !ok {
        errored := true;
        return Failed(AlreadyReserved);
      }
      ghost var agree := !errored;
      var first := |AliasesOf(aliases, base)|;
      aliases := Appended(aliases, base, more);
      repeated := repeated || !Distinct(more);
      AppendedReserves(old(aliases), base, more);
      if !repeated { AppendedInjective(old(aliases), base, more); }
      AppendedOpens(routes, old(aliases), base, more, agree);

      r := ShareEndpoints(base, first, old(aliases), more, agree);
      if !repeated { InjectiveClear(old(routes), aliases, base, first); }
      assert AliasesOf(aliases, base)[first..] == more;
      ClosedServes(old(routes), routes, aliases, base, more, first);
      errored := errored || r.Failed?;
    }
  }
}
