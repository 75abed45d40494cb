/** The bookkeeping of health checks (api/health/worker.go): which checks a tag has, which of them
fail, and the gauge that each tag's number of failing checks is published in.

Every locked region is one method call, so a run is any sequence of calls. A check's own work and the
clock are left out: RunCheck is told whether the check failed and when it ended. The float64 gauges are
integers here.
*/
module HealthWorker {
  type Name = string
  type Tag = string

  const ALL_TAG: Tag := "all"
  const APPLICATION_TAG: Tag := "application"

  datatype Check = Check(isApplication: bool, tags: seq<Tag>)

  type Checks = map<Name, Check>

  datatype Outcome = Registered | RestrictedTag | DuplicateCheck

  // ---------------------------------------------------------------- what the gauges should show

  /** A check belongs to the tags it was registered with and to AllTag. */
  predicate Carries(c: Check, t: Tag) {
    t == ALL_TAG || t in c.tags
  }

  /** It matters for a tag's health when it belongs to it, or is an application check. */
  predicate Matters(c: Check, t: Tag) {
    c.isApplication || Carries(c, t)
  }

  function Relevant(checks: Checks, s: set<Name>, t: Tag): set<Name> {
    set n | n in s && n in checks && Matters(checks[n], t)
  }

  /** How often a tag stands in a list. */
  function Times(list: seq<Tag>, t: Tag): nat {
    if list == [] then 0 else Times(list[..|list| - 1], t) + (if list[|list| - 1] == t then 1 else 0)
  }

  predicate Distinct(list: seq<Tag>) {
    forall i, j :: 0 <= i < j < |list| ==> list[i] != list[j]
  }

  lemma {:induction false} TimesPositive(list: seq<Tag>, t: Tag)
    ensures Times(list, t) > 0 <==> t in list
  {
    if list != [] {
      var rest := list[..|list| - 1];
      TimesPositive(rest, t);
      assert list == rest + [list[|list| - 1]];
    }
  }

  lemma {:induction false} TimesDistinct(list: seq<Tag>)
    ensures Distinct(list) <==> forall t :: Times(list, t) <= 1
  {
    if list != [] {
      var rest, last := list[..|list| - 1], list[|list| - 1];
      TimesDistinct(rest);
      TimesPositive(rest, last);
      assert list == rest + [last];
      if Distinct(rest) && last in rest {
        assert Times(list, last) == Times(rest, last) + 1;
        var k :| 0 <= k < |rest| && rest[k] == last;
        assert list[k] == list[|list| - 1];
      } else if !Distinct(rest) {
        var t :| Times(rest, t) > 1;
        assert Times(list, t) >= Times(rest, t);
        var i, j :| 0 <= i < j < |rest| && rest[i] == rest[j];
        assert list[i] == list[j];
      } else {
        forall t ensures Times(list, t) <= 1 {
          assert Times(rest, t) <= 1;
        }
      }
    }
  }

  // ---------------------------------------------------------------- what the gauges do show

  /** What a failing check adds to a tag's gauge. */
  function Weight(c: Check, t: Tag): nat {
    if c.isApplication || t == ALL_TAG then 1 else Times(c.tags, t)
  }

  ghost function Weights(checks: Checks, s: set<Name>, t: Tag): nat
    requires s <= checks.Keys
  {
    if s == {} then 0 else var n :| n in s; Weight(checks[n], t) + Weights(checks, s - {n}, t)
  }

  lemma {:induction false} WeightsAdd(checks: Checks, s: set<Name>, n: Name, t: Tag)
    requires s <= checks.Keys && n in checks && n !in s
    ensures Weights(checks, s + {n}, t) == Weights(checks, s, t) + Weight(checks[n], t)
  {
    var m :| m in s + {n} && Weights(checks, s + {n}, t) == Weight(checks[m], t) + Weights(checks, s + {n} - {m}, t);
    if m == n {
      assert s + {n} - {m} == s;
    } else {
      assert s + {n} - {m} == s - {m} + {n};
      WeightsAdd(checks, s - {m}, n, t);
      assert s == s - {m} + {m};
      WeightsAdd(checks, s - {m}, m, t);
    }
  }

  lemma {:induction false} WeightsFrame(checks: Checks, more: Checks, s: set<Name>, t: Tag)
    requires s <= checks.Keys && s <= more.Keys && forall n :: n in s ==> checks[n] == more[n]
    ensures Weights(checks, s, t) == Weights(more, s, t)
  {
    if s != {} {
      var n :| n in s;
      WeightsFrame(checks, more, s - {n}, t);
      assert s == s - {n} + {n};
      WeightsAdd(checks, s - {n}, n, t);
      WeightsAdd(more, s - {n}, n, t);
    }
  }

  /** The weights count every check that matters, some of them more than once. */
  lemma {:induction false} WeightsCount(checks: Checks, s: set<Name>, t: Tag)
    requires s <= checks.Keys
    ensures Weights(checks, s, t) >= |Relevant(checks, s, t)|
    ensures (forall n :: n in s ==> Weight(checks[n], t) <= 1) ==> Weights(checks, s, t) == |Relevant(checks, s, t)|
  {
    if s != {} {
      var n :| n in s;
      WeightsCount(checks, s - {n}, t);
      assert s == s - {n} + {n};
      WeightsAdd(checks, s - {n}, n, t);
      RelevantAdd(checks, s - {n}, n, t);
      TimesPositive(checks[n].tags, t);
    }
  }

  lemma RelevantAdd(checks: Checks, s: set<Name>, n: Name, t: Tag)
    requires n in checks && n !in s
    ensures |Relevant(checks, s + {n}, t)| == |Relevant(checks, s, t)| + (if Matters(checks[n], t) then 1 else 0)
  {
    if Matters(checks[n], t) {
      assert Relevant(checks, s + {n}, t) == Relevant(checks, s, t) + {n};
    } else {
      assert Relevant(checks, s + {n}, t) == Relevant(checks, s, t);
    }
  }

  // ---------------------------------------------------------------- the invariant

  type Tags = map<Tag, set<Name>>
  type Gauges = map<Tag, int>

  function NamesOf(tags: Tags, t: Tag): set<Name> {
    if t in tags then tags[t] else {}
  }

  /** A gauge that was never touched shows 0. */
  function Gauge(gauges: Gauges, t: Tag): int {
    if t in gauges then gauges[t] else 0
  }

  ghost predicate WellTagged(c: Check) {
    ALL_TAG !in c.tags && (c.isApplication <==> APPLICATION_TAG in c.tags)
  }

  /** `tags` lists exactly the checks of each tag. */
  ghost predicate Indexed(checks: Checks, tags: Tags) {
    && (forall n :: n in checks ==> WellTagged(checks[n]))
    && (forall t, n :: n in NamesOf(tags, t) <==> n in checks && Carries(checks[n], t))
    && (forall t :: t in tags ==> tags[t] != {})
  }

  /** Each registered tag's gauge is off by its drift, which is settled when the tag is first used. */
  ghost predicate Shows(checks: Checks, failing: set<Name>, tags: Tags, gauges: Gauges, drift: Gauges) {
    && failing <= checks.Keys
    && (forall t :: t in tags ==> t in drift && Gauge(gauges, t) == Weights(checks, failing, t) + drift[t])
    && (forall t :: t !in tags ==> Gauge(gauges, t) == 0)
  }

  /** What the documentation promises: each registered tag's gauge is its number of failing checks. */
  ghost predicate Accurate(checks: Checks, failing: set<Name>, tags: Tags, gauges: Gauges) {
    forall t :: t in tags ==> Gauge(gauges, t) == |Relevant(checks, failing, t)|
  }

  /** The failing application checks. */
  function Applications(checks: Checks, failing: set<Name>): set<Name> {
    set n | n in failing && n in checks && checks[n].isApplication
  }

  /** The registrations that do not upset an accurate gauge. */
  ghost predicate Clean(c: Check, tags: Tags, failingApplications: int) {
    if c.isApplication then failingApplications == 0 || forall t :: t in c.tags ==> t in tags
    else Distinct(c.tags)
  }

  /** What updateMetrics adds to a gauge. `tags` lists the check already when it is registered. */
  ghost function Change(c: Check, t: Tag, tags: Tags, healthy: bool, register: bool, failingApplications: int): int {
    var d := if healthy then -1 else 1;
    if c.isApplication then if t in tags then d else 0
    else if t == ALL_TAG then d
    else Times(c.tags, t) * PerTime(t, tags, healthy, register, failingApplications)
  }

  /** ... each time the tag stands in the check's list. */
  ghost function PerTime(t: Tag, tags: Tags, healthy: bool, register: bool, failingApplications: int): int {
    if healthy then -1
    else 1 + if register && |NamesOf(tags, t)| == 1 then failingApplications else 0
  }

  ghost function Bumps(list: seq<Tag>, t: Tag, each: int): int {
    if list == [] then 0 else Bumps(list[..|list| - 1], t, each) + if list[|list| - 1] == t then each else 0
  }

  lemma {:induction false} BumpsTimes(list: seq<Tag>, t: Tag, each: int)
    ensures Bumps(list, t, each) == Times(list, t) * each
  {
    if list != [] {
      BumpsTimes(list[..|list| - 1], t, each);
    }
  }

  /** Nothing but the failing application checks weighs on a tag that no check carries. */
  lemma {:induction false} WeightsUnused(checks: Checks, s: set<Name>, t: Tag)
    requires s <= checks.Keys && t != ALL_TAG && forall n :: n in s ==> t !in checks[n].tags
    ensures Weights(checks, s, t) == |Applications(checks, s)|
  {
    if s != {} {
      var n :| n in s;
      var rest := s - {n};
      WeightsUnused(checks, rest, t);
      assert s == rest + {n};
      WeightsAdd(checks, rest, n, t);
      TimesPositive(checks[n].tags, t);
      ApplicationsAdd(checks, rest, n);
    }
  }

  lemma ApplicationsAdd(checks: Checks, s: set<Name>, n: Name)
    requires n in checks && n !in s
    ensures |Applications(checks, s + {n})| == |Applications(checks, s)| + if checks[n].isApplication then 1 else 0
  {
    if checks[n].isApplication {
      assert Applications(checks, s + {n}) == Applications(checks, s) + {n};
    } else {
      assert Applications(checks, s + {n}) == Applications(checks, s);
    }
  }

  // ---------------------------------------------------------------- what a registration does

  /** `after` is `tags` with the new check added to its tags. */
  ghost predicate Lists(checks: Checks, tags: Tags, after: Tags, name: Name, c: Check) {
    && Indexed(checks, tags) && name !in checks && WellTagged(c)
    && (forall t :: NamesOf(after, t) == NamesOf(tags, t) + if Carries(c, t) then {name} else {})
    && (forall t :: t in after <==> t in tags || Carries(c, t))
  }

  /** A tag has one check, when that is the new one, exactly if it is new. */
  lemma FirstUse(checks: Checks, tags: Tags, after: Tags, name: Name, c: Check, t: Tag)
    requires Lists(checks, tags, after, name, c) && Carries(c, t)
    ensures |NamesOf(after, t)| == 1 <==> t !in tags
  {
    var was := NamesOf(tags, t);
    assert name !in was && NamesOf(after, t) == was + {name};
    if t in tags { assert |was| > 0; } else { assert was == {}; }
  }

  /** The drift of a tag that this registration introduces. */
  ghost function FirstDrift(c: Check, t: Tag, failingApplications: int): int {
    if c.isApplication then -failingApplications
    else if t == ALL_TAG then 0
    else (Times(c.tags, t) - 1) * failingApplications
  }

  lemma UnusedTag(checks: Checks, failing: set<Name>, tags: Tags, t: Tag)
    requires Indexed(checks, tags) && t !in tags && failing <= checks.Keys
    ensures |Relevant(checks, failing, t)| == |Applications(checks, failing)| == Weights(checks, failing, t)
    ensures t == ALL_TAG ==> failing == {}
  {
    forall n | n in checks ensures !Carries(checks[n], t) { assert n !in NamesOf(tags, t); }
    assert Relevant(checks, failing, t) == Applications(checks, failing);
    if t == ALL_TAG {
      assert checks.Keys == {};
    } else {
      WeightsUnused(checks, failing, t);
    }
  }

  /** What the gauge of a check's own tag gains, in the two parts it should and should not. */
  lemma ChangeSplits(c: Check, t: Tag, after: Tags, fa: int)
    requires !c.isApplication && t != ALL_TAG && t in c.tags && |NamesOf(after, t)| == 1
    ensures Change(c, t, after, false, true, fa) == Times(c.tags, t) + fa + (Times(c.tags, t) - 1) * fa
  {
    var k := Times(c.tags, t);
    assert k * (1 + fa) == k + k * fa;
    assert k * fa == fa + (k - 1) * fa;
  }

  lemma RegisterChange(checks: Checks, failing: set<Name>, tags: Tags, after: Tags, name: Name, c: Check, t: Tag)
    requires Lists(checks, tags, after, name, c) && failing <= checks.Keys && t in after
    ensures t in tags ==> Change(c, t, after, false, true, |Applications(checks, failing)|) == Weight(c, t)
    ensures t !in tags ==>
              && |Relevant(checks, failing, t)| == |Applications(checks, failing)| == Weights(checks, failing, t)
              && Change(c, t, after, false, true, |Applications(checks, failing)|)
                 == |Applications(checks, failing)| + Weight(c, t) + FirstDrift(c, t, |Applications(checks, failing)|)
  {
    TimesPositive(c.tags, t);
    if t !in tags {
      UnusedTag(checks, failing, tags, t);
      FirstUse(checks, tags, after, name, c, t);
      if !c.isApplication && t != ALL_TAG { ChangeSplits(c, t, after, |Applications(checks, failing)|); }
    } else if Carries(c, t) {
      FirstUse(checks, tags, after, name, c, t);
    }
  }

  lemma RegisterShows(checks: Checks, failing: set<Name>, tags: Tags, after: Tags, name: Name, c: Check,
                      gauges: Gauges, now: Gauges, drift: Gauges, t: Tag)
    requires Lists(checks, tags, after, name, c) && Shows(checks, failing, tags, gauges, drift) && t in after
    requires Gauge(now, t) == Gauge(gauges, t) + Change(c, t, after, false, true, |Applications(checks, failing)|)
    ensures Gauge(now, t) == Weights(checks[name := c], failing + {name}, t)
                             + if t in tags then drift[t] else FirstDrift(c, t, |Applications(checks, failing)|)
  {
    RegisterChange(checks, failing, tags, after, name, c, t);
    WeightsFrame(checks, checks[name := c], failing, t);
    WeightsAdd(checks[name := c], failing, name, t);
  }

  /** By how much the change of one gauge misses the change of the count. */
  lemma OffBy(checks: Checks, failing: set<Name>, tags: Tags, after: Tags, name: Name, c: Check, t: Tag)
    requires Lists(checks, tags, after, name, c) && failing <= checks.Keys && t in after
    ensures
      (if t in tags then |Relevant(checks, failing, t)| else 0)
      + Change(c, t, after, false, true, |Applications(checks, failing)|)
      == |Relevant(checks[name := c], failing + {name}, t)|
         + (if Carries(c, t) then Weight(c, t) - 1 else 0)
         + (if t in tags then 0 else FirstDrift(c, t, |Applications(checks, failing)|))
  {
    RegisterChange(checks, failing, tags, after, name, c, t);
    RelevantGrows(checks, failing, name, c, t);
    TimesPositive(c.tags, t);
  }

  lemma RelevantGrows(checks: Checks, failing: set<Name>, name: Name, c: Check, t: Tag)
    requires name !in checks && failing <= checks.Keys
    ensures |Relevant(checks[name := c], failing + {name}, t)|
            == |Relevant(checks, failing, t)| + if Matters(c, t) then 1 else 0
  {
    assert Relevant(checks[name := c], failing, t) == Relevant(checks, failing, t);
    RelevantAdd(checks[name := c], failing, name, t);
  }

  /** The two misses add up to nothing exactly if the registration is clean for the tag. */
  lemma MissZero(c: Check, t: Tag, isNew: bool, fa: nat)
    requires WellTagged(c) && (isNew ==> Carries(c, t)) && (isNew && t == ALL_TAG ==> fa == 0)
    ensures (if Carries(c, t) then Weight(c, t) - 1 else 0) + (if isNew then FirstDrift(c, t, fa) else 0) == 0
            <==> if c.isApplication then !isNew || fa == 0 else Times(c.tags, t) <= 1
  {
    TimesPositive(c.tags, t);
    if !c.isApplication && t != ALL_TAG && Times(c.tags, t) > 0 {
      var k := Times(c.tags, t) - 1;
      assert k > 0 ==> k + k * fa > 0;
      assert k == 0 ==> k * fa == 0;
    }
  }

  /** From accurate gauges, a registration leads to accurate gauges exactly if it is clean. */
  lemma RegisterAccurate(checks: Checks, failing: set<Name>, tags: Tags, after: Tags, name: Name, c: Check,
                         gauges: Gauges, now: Gauges)
    requires Lists(checks, tags, after, name, c) && failing <= checks.Keys
    requires Accurate(checks, failing, tags, gauges)
    requires forall t :: t !in tags ==> Gauge(gauges, t) == 0
    requires forall t :: Gauge(now, t) == Gauge(gauges, t) + Change(c, t, after, false, true, |Applications(checks, failing)|)
    ensures Accurate(checks[name := c], failing + {name}, after, now) <==> Clean(c, tags, |Applications(checks, failing)|)
  {
    forall t | t in after
      ensures Gauge(now, t) == |Relevant(checks[name := c], failing + {name}, t)| <==>
              CleanFor(c, t, tags, |Applications(checks, failing)|)
    {
      OffBy(checks, failing, tags, after, name, c, t);
      if t !in tags { UnusedTag(checks, failing, tags, t); }
      MissZero(c, t, t !in tags, |Applications(checks, failing)|);
    }
    CleanForAll(checks, failing, tags, after, name, c);
  }

  ghost predicate CleanFor(c: Check, t: Tag, tags: Tags, fa: nat) {
    if c.isApplication then t in tags || fa == 0 else Times(c.tags, t) <= 1
  }

  lemma CleanForAll(checks: Checks, failing: set<Name>, tags: Tags, after: Tags, name: Name, c: Check)
    requires Lists(checks, tags, after, name, c) && failing <= checks.Keys
    ensures (forall t :: t in after ==> CleanFor(c, t, tags, |Applications(checks, failing)|))
            <==> Clean(c, tags, |Applications(checks, failing)|)
  {
    var fa := |Applications(checks, failing)|;
    TimesDistinct(c.tags);
    forall t | t !in after ensures Times(c.tags, t) <= 1 { TimesPositive(c.tags, t); }
    if ALL_TAG !in tags {
      UnusedTag(checks, failing, tags, ALL_TAG);
      assert fa == 0;
    }
    if Clean(c, tags, fa) {
      forall t | t in after ensures CleanFor(c, t, tags, fa) { assert t in tags || Carries(c, t); }
    }
    if forall t :: t in after ==> CleanFor(c, t, tags, fa) {
      if !c.isApplication {
        forall t ensures Times(c.tags, t) <= 1 { if t in after { assert CleanFor(c, t, tags, fa); } }
      } else if fa != 0 {
        forall t | t in c.tags ensures t in tags { assert Carries(c, t) && CleanFor(c, t, tags, fa); }
      }
    }
  }

  /** A clean registration gives new tags no drift. */
  lemma FirstDriftZero(checks: Checks, failing: set<Name>, tags: Tags, c: Check, t: Tag)
    requires Indexed(checks, tags) && failing <= checks.Keys && WellTagged(c)
    requires Clean(c, tags, |Applications(checks, failing)|) && Carries(c, t) && t !in tags
    ensures FirstDrift(c, t, |Applications(checks, failing)|) == 0
  {
    UnusedTag(checks, failing, tags, t);
    TimesDistinct(c.tags);
    TimesPositive(c.tags, t);
    if !c.isApplication && t != ALL_TAG { assert Times(c.tags, t) == 1; }
  }

  lemma NewlyIndexed(checks: Checks, tags: Tags, after: Tags, name: Name, c: Check)
    requires Lists(checks, tags, after, name, c)
    ensures Indexed(checks[name := c], after)
  {
    var more := checks[name := c];
    forall t, n ensures n in NamesOf(after, t) <==> n in more && Carries(more[n], t) {
      assert n in NamesOf(tags, t) <==> n in checks && Carries(checks[n], t);
    }
    forall t | t in after ensures after[t] != {} {
      assert NamesOf(after, t) == after[t];
    }
  }

  // ---------------------------------------------------------------- what a result does

  /** A check of another result than before moves the gauges of the tags it weighs on, by its weight. */
  lemma ResultShows(checks: Checks, failing: set<Name>, tags: Tags, name: Name, healthy: bool, fa: int,
                    gauges: Gauges, now: Gauges, drift: Gauges)
    requires Indexed(checks, tags) && Shows(checks, failing, tags, gauges, drift)
    requires name in checks && (name in failing <==> healthy)
    requires forall t :: Gauge(now, t) == Gauge(gauges, t) + Change(checks[name], t, tags, healthy, false, fa)
    ensures Shows(checks, if healthy then failing - {name} else failing + {name}, tags, now, drift)
  {
    var rest := failing - {name};
    assert if healthy then failing == rest + {name} else failing == rest;
    forall t | t in tags
      ensures Gauge(now, t) == Weights(checks, if healthy then rest else rest + {name}, t) + drift[t]
    {
      WeightsAdd(checks, rest, name, t);
      assert healthy ==> Change(checks[name], t, tags, healthy, false, fa) == 0 - Weight(checks[name], t);
      assert !healthy ==> Change(checks[name], t, tags, healthy, false, fa) == Weight(checks[name], t);
    }
    forall t | t !in tags ensures Gauge(now, t) == 0 {
      TimesPositive(checks[name].tags, t);
      assert name !in NamesOf(tags, t);
    }
  }

  /** Gauges without drift are accurate when no failing check has a tag twice. */
  lemma ShowsAccurate(checks: Checks, failing: set<Name>, tags: Tags, gauges: Gauges, drift: Gauges)
    requires Indexed(checks, tags) && Shows(checks, failing, tags, gauges, drift)
    requires forall t :: t in tags ==> drift[t] == 0
    requires forall n :: n in failing ==> checks[n].isApplication || Distinct(checks[n].tags)
    ensures Accurate(checks, failing, tags, gauges)
  {
    forall t | t in tags ensures Gauge(gauges, t) == |Relevant(checks, failing, t)| {
      forall n | n in failing ensures Weight(checks[n], t) <= 1 {
        TimesDistinct(checks[n].tags);
        if !checks[n].isApplication { assert Times(checks[n].tags, t) <= 1; }
      }
      WeightsCount(checks, failing, t);
    }
  }

  // ---------------------------------------------------------------- all of it together

  datatype View = View(checks: Checks, failing: set<Name>, failingApplications: int, tags: Tags, gauges: Gauges,
                       drift: Gauges, clean: bool)

  ghost predicate Good(v: View) {
    && Indexed(v.checks, v.tags)
    && Shows(v.checks, v.failing, v.tags, v.gauges, v.drift)
    && v.failingApplications == |Applications(v.checks, v.failing)|
    && (v.clean ==>
          && (forall t :: t in v.tags ==> v.drift[t] == 0)
          && (forall n :: n in v.checks ==> v.checks[n].isApplication || Distinct(v.checks[n].tags)))
  }

  ghost predicate IsAccurate(v: View) {
    Accurate(v.checks, v.failing, v.tags, v.gauges)
  }

  /** `w` is `v` after a registration. */
  ghost predicate Registers(v: View, w: View, name: Name, c: Check) {
    && Lists(v.checks, v.tags, w.tags, name, c)
    && w.checks == v.checks[name := c] && w.failing == v.failing + {name}
    && (forall t :: Gauge(w.gauges, t) == Gauge(v.gauges, t) + Change(c, t, w.tags, false, true, v.failingApplications))
    && w.failingApplications == v.failingApplications + (if c.isApplication then 1 else 0)
    && (forall t :: t in w.tags ==>
          t in w.drift && (t in v.tags ==> t in v.drift)
          && w.drift[t] == if t in v.tags then v.drift[t] else FirstDrift(c, t, v.failingApplications))
    && w.clean == (v.clean && Clean(c, v.tags, v.failingApplications))
  }

  ghost function NextDrift(v: View, tags: Tags, c: Check): Gauges
    requires v.tags.Keys <= v.drift.Keys
  {
    map t | t in tags :: if t in v.tags then v.drift[t] else FirstDrift(c, t, v.failingApplications)
  }

  lemma RegistersShows(v: View, w: View, name: Name, c: Check)
    requires Good(v) && Registers(v, w, name, c)
    ensures Shows(w.checks, w.failing, w.tags, w.gauges, w.drift)
  {
    forall t | t in w.tags ensures Gauge(w.gauges, t) == Weights(w.checks, w.failing, t) + w.drift[t] {
      RegisterShows(v.checks, v.failing, v.tags, w.tags, name, c, v.gauges, w.gauges, v.drift, t);
    }
    forall t | t !in w.tags ensures Gauge(w.gauges, t) == 0 { TimesPositive(c.tags, t); }
  }

  lemma RegistersApplications(v: View, w: View, name: Name, c: Check)
    requires Good(v) && Registers(v, w, name, c)
    ensures w.failingApplications == |Applications(w.checks, w.failing)|
  {
    assert Applications(w.checks, v.failing) == Applications(v.checks, v.failing);
    ApplicationsAdd(w.checks, v.failing, name);
  }

  lemma RegistersClean(v: View, w: View, name: Name, c: Check)
    requires Good(v) && Registers(v, w, name, c) && w.clean
    ensures forall t :: t in w.tags ==> w.drift[t] == 0
    ensures forall n :: n in w.checks ==> w.checks[n].isApplication || Distinct(w.checks[n].tags)
  {
    forall t | t in w.tags && t !in v.tags ensures w.drift[t] == 0 {
      FirstDriftZero(v.checks, v.failing, v.tags, c, t);
    }
  }

  lemma RegisterGood(v: View, w: View, name: Name, c: Check)
    requires Good(v) && Registers(v, w, name, c)
    ensures Good(w)
  {
    NewlyIndexed(v.checks, v.tags, w.tags, name, c);
    RegistersShows(v, w, name, c);
    RegistersApplications(v, w, name, c);
    if w.clean { RegistersClean(v, w, name, c); }
  }

  /** A registration keeps the gauges accurate exactly if it is clean. */
  lemma RegisterKeepsAccurate(v: View, w: View, name: Name, c: Check)
    requires Good(v) && Registers(v, w, name, c) && IsAccurate(v)
    ensures IsAccurate(w) <==> Clean(c, v.tags, v.failingApplications)
  {
    RegisterAccurate(v.checks, v.failing, v.tags, w.tags, name, c, v.gauges, w.gauges);
  }

  /** After clean registrations only, whatever the results were, the gauges are accurate. */
  lemma CleanIsAccurate(v: View)
    requires Good(v) && v.clean
    ensures IsAccurate(v)
  {
    ShowsAccurate(v.checks, v.failing, v.tags, v.gauges, v.drift);
  }

  const NOTHING := View(map[], {}, 0, map[], map[], map[], true)

  /** An unclean registration: a tag that is named twice counts its check twice. */
  lemma RepeatedTagCountsTwice(w: View)
    requires Registers(NOTHING, w, "check", Check(false, ["tag", "tag"]))
    ensures Gauge(w.gauges, "tag") == 2 && |Relevant(w.checks, w.failing, "tag")| == 1
  {
    var list := ["tag", "tag"];
    assert list[..1] == ["tag"] && list[..1][..0] == [];
    assert Times(list, "tag") == 2;
    assert Relevant(w.checks, w.failing, "tag") == {"check"};
  }

  /** Another one: a tag that an application check introduces while another application check fails does not
      count the other one. */
  lemma NewTagMissesFailing(v: View, w: View)
    requires Registers(NOTHING, v, "a", Check(true, [APPLICATION_TAG]))
    requires Registers(v, w, "b", Check(true, [APPLICATION_TAG, "x"]))
    ensures Gauge(w.gauges, "x") == 1 && Relevant(w.checks, w.failing, "x") == {"a", "b"}
    ensures |Relevant(w.checks, w.failing, "x")| == 2
  {
    NewTagGauge(v, w);
    assert v.failing == {"a"} && w.failing == {"a", "b"};
    assert Relevant(w.checks, w.failing, "x") == {"a", "b"};
  }

  lemma NewTagGauge(v: View, w: View)
    requires Registers(NOTHING, v, "a", Check(true, [APPLICATION_TAG]))
    requires Registers(v, w, "b", Check(true, [APPLICATION_TAG, "x"]))
    ensures Gauge(w.gauges, "x") == 1
  {
    assert !Carries(Check(true, [APPLICATION_TAG]), "x") && Carries(Check(true, [APPLICATION_TAG, "x"]), "x");
    assert "x" !in v.tags && "x" in w.tags;
    assert Gauge(v.gauges, "x") == 0;
  }

  lemma ResultGood(v: View, w: View, name: Name, healthy: bool)
    requires Good(v) && name in v.checks && (name in v.failing <==> healthy)
    requires w == v.(failing := w.failing, gauges := w.gauges, failingApplications := w.failingApplications)
    requires w.failing == if healthy then v.failing - {name} else v.failing + {name}
    requires forall t :: Gauge(w.gauges, t) ==
               Gauge(v.gauges, t) + Change(v.checks[name], t, v.tags, healthy, false, v.failingApplications)
    requires w.failingApplications ==
               v.failingApplications + if !v.checks[name].isApplication then 0 else if healthy then -1 else 1
    ensures Good(w)
  {
    ResultShows(v.checks, v.failing, v.tags, name, healthy, v.failingApplications, v.gauges, w.gauges, v.drift);
    var rest := v.failing - {name};
    assert if healthy then v.failing == rest + {name} else v.failing == rest;
    ApplicationsAdd(v.checks, rest, name);
  }

  /** The tags that Results is asked for. */
  function Wanted(tagList: seq<Tag>): (wanted: set<Tag>)
    ensures wanted != {}
  {
    if tagList == [] then {ALL_TAG}
    else
      var named := set t | t in tagList;
      assert tagList[0] in named;
      named
  }

  /** Results is asked about a check: it is an application check or carries one of the tags, or there are none. */
  ghost predicate AskedFor(c: Check, tagList: seq<Tag>) {
    tagList == [] || c.isApplication || exists i :: 0 <= i < |tagList| && Carries(c, tagList[i])
  }

  lemma WantedIsAskedFor(c: Check, tagList: seq<Tag>)
    ensures (exists t :: t in Wanted(tagList) && Matters(c, t)) <==> AskedFor(c, tagList)
  {
    if tagList == [] {
      assert Matters(c, ALL_TAG);
    } else {
      assert tagList[0] in Wanted(tagList) && (c.isApplication ==> Matters(c, tagList[0]));
      if i :| 0 <= i < |tagList| && Carries(c, tagList[i]) { assert tagList[i] in Wanted(tagList); }
      if t :| t in Wanted(tagList) && Carries(c, t) { var i :| 0 <= i < |tagList| && tagList[i] == t; }
    }
  }

  /** The names under the wanted tags and ApplicationTag are the checks that matter to a wanted tag. */
  lemma NamesMatter(checks: Checks, tags: Tags, wanted: set<Tag>, n: Name)
    requires Indexed(checks, tags) && wanted != {}
    ensures (exists t :: t in wanted + {APPLICATION_TAG} && n in NamesOf(tags, t)) <==>
            n in checks && exists t :: t in wanted && Matters(checks[n], t)
  {
    if t :| t in wanted + {APPLICATION_TAG} && n in NamesOf(tags, t) {
      var u :| u in wanted;
      if t in wanted { assert Matters(checks[n], t); } else { assert Matters(checks[n], u); }
    }
    if n in checks && exists t :: t in wanted && Matters(checks[n], t) {
      var t :| t in wanted && Matters(checks[n], t);
      if checks[n].isApplication {
        assert Carries(checks[n], APPLICATION_TAG);
        assert n in NamesOf(tags, APPLICATION_TAG);
      } else {
        assert n in NamesOf(tags, t);
      }
    }
  }

  lemma NamesAsked(checks: Checks, tags: Tags, tagList: seq<Tag>, n: Name)
    requires Indexed(checks, tags)
    ensures (exists t :: t in Wanted(tagList) + {APPLICATION_TAG} && n in NamesOf(tags, t)) <==>
            n in checks && AskedFor(checks[n], tagList)
  {
    NamesMatter(checks, tags, Wanted(tagList), n);
    if n in checks { WantedIsAskedFor(checks[n], tagList); }
  }

  /** All the checks asked for pass exactly if none of those that matter to a wanted tag fails. */
  lemma HealthyIsRelevant(checks: Checks, failing: set<Name>, tagList: seq<Tag>, names: set<Name>)
    requires failing <= checks.Keys
    requires forall n :: n in names <==> n in checks && AskedFor(checks[n], tagList)
    ensures names * failing == {} <==> forall t :: t in Wanted(tagList) ==> Relevant(checks, failing, t) == {}
  {
    if n :| n in names * failing {
      WantedIsAskedFor(checks[n], tagList);
      var t :| t in Wanted(tagList) && Matters(checks[n], t);
      assert n in Relevant(checks, failing, t);
    }
    if t, n :| t in Wanted(tagList) && n in Relevant(checks, failing, t) {
      WantedIsAskedFor(checks[n], tagList);
      assert n in names * failing;
    }
  }

  // ---------------------------------------------------------------- the result of a check

  datatype Since = Never | At(time: int)

  /** Whether the latest outcome is an error, how many failures there were in a row, and since when. */
  datatype CheckResult = CheckResult(failed: bool, contiguousFailures: nat, firstFailure: Since)

  /** A check that has not run is failing, but has no failures yet. */
  const NOT_YET_RUN := CheckResult(true, 0, Never)

  datatype RunOutcome = RunOutcome(failed: bool, time: int)

  function NextResult(prev: CheckResult, failed: bool, end: int): CheckResult {
    if !failed then CheckResult(false, 0, Never)
    else CheckResult(true, prev.contiguousFailures + 1, if prev.contiguousFailures > 0 then prev.firstFailure else At(end))
  }

  function ResultOf(outcomes: seq<RunOutcome>): CheckResult {
    if outcomes == [] then NOT_YET_RUN
    else
      var last := outcomes[|outcomes| - 1];
      NextResult(ResultOf(outcomes[..|outcomes| - 1]), last.failed, last.time)
  }

  /** The last `n` outcomes are failures, and there are not `n + 1` of them. */
  ghost predicate FailedInARow(outcomes: seq<RunOutcome>, n: nat) {
    && n <= |outcomes|
    && (forall i :: |outcomes| - n <= i < |outcomes| ==> outcomes[i].failed)
    && (n < |outcomes| ==> !outcomes[|outcomes| - n - 1].failed)
  }

  /** After any outcomes, the result has the length of the last row of failures and the time of its first. */
  lemma {:induction false} ResultCounts(outcomes: seq<RunOutcome>)
    ensures var r := ResultOf(outcomes);
      && FailedInARow(outcomes, r.contiguousFailures)
      && (r.failed <==> outcomes == [] || outcomes[|outcomes| - 1].failed)
      && r.firstFailure == if r.contiguousFailures == 0 then Never else At(outcomes[|outcomes| - r.contiguousFailures].time)
  {
    if outcomes != [] { ResultCounts(outcomes[..|outcomes| - 1]); }
  }

  // ---------------------------------------------------------------- the worker object

  class Worker {
    var checks: Checks
    var results: map<Name, CheckResult>
    var numFailingApplicationChecks: int
    var tags: Tags
    var gauges: Gauges
    ghost var drift: Gauges
    ghost var clean: bool          // every registration so far was clean

    ghost function Failing(): set<Name>
      reads this
    {
      set n | n in results && results[n].failed
    }

    ghost function Now(): View
      reads this
    {
      View(checks, Failing(), numFailingApplicationChecks, tags, gauges, drift, clean)
    }

    ghost predicate Valid()
      reads this
    {
      results.Keys == checks.Keys && Good(Now())
    }

    constructor ()
      ensures Valid() && checks == map[] && clean
    {
      checks, results, numFailingApplicationChecks, tags := map[], map[], 0, map[];
      gauges := map[ALL_TAG := 0, APPLICATION_TAG := 0];
      drift, clean := map[], true;
    }

    method RegisterCheck(name: Name, tagList: seq<Tag>) returns (r: Outcome)
      requires Valid()
      modifies this
      ensures Valid()
      ensures r == RestrictedTag <==> ALL_TAG in tagList
      ensures r == DuplicateCheck <==> ALL_TAG !in tagList && name in old(checks)
      ensures r != Registered ==> Now() == old(Now()) && results == old(results)
      ensures r == Registered ==>
                && results == old(results)[name := NOT_YET_RUN]
                && Registers(old(Now()), Now(), name, Check(APPLICATION_TAG in tagList, tagList))
                && (old(IsAccurate(Now())) ==>
                      (IsAccurate(Now()) <==>
                       Clean(Check(APPLICATION_TAG in tagList, tagList), old(tags), old(numFailingApplicationChecks))))
    {
      if ALL_TAG in tagList { return RestrictedTag; }
      if name in checks { return DuplicateCheck; }

      Enter(name, tagList);
      RegisterGood(old(Now()), Now(), name, Check(APPLICATION_TAG in tagList, tagList));
      if old(IsAccurate(Now())) {
        RegisterKeepsAccurate(old(Now()), Now(), name, Check(APPLICATION_TAG in tagList, tagList));
      }
      r := Registered;
    }

    /** The part of RegisterCheck under the results lock. */
    method Enter(name: Name, tagList: seq<Tag>)
      requires Indexed(checks, tags) && tags.Keys <= drift.Keys && name !in checks && ALL_TAG !in tagList
      modifies this
      ensures results == old(results)[name := NOT_YET_RUN]
      ensures Registers(old(Now()), Now(), name, Check(APPLICATION_TAG in tagList, tagList))
    {
      var c := ListCheck(name, tagList);
      assert Failing() == old(Failing()) + {name};
      CountNewCheck(old(Now()), name, c);
    }

    method CountNewCheck(ghost was: View, name: Name, c: Check)
      requires Lists(was.checks, was.tags, tags, name, c) && was.tags.Keys <= was.drift.Keys
      requires Now() == was.(checks := was.checks[name := c], failing := was.failing + {name}, tags := tags)
      modifies `gauges, `numFailingApplicationChecks, `drift, `clean
      ensures Registers(was, Now(), name, c)
    {
      drift := NextDrift(was, tags, c);
      clean := clean && Clean(c, was.tags, numFailingApplicationChecks);
      UpdateMetrics(c, false, true);
    }

    /** RegisterCheck's changes to the tables, before it turns to the metrics. */
    method ListCheck(name: Name, tagList: seq<Tag>) returns (c: Check)
      requires Indexed(checks, tags) && name !in checks && ALL_TAG !in tagList
      modifies `checks, `results, `tags
      ensures c == Check(APPLICATION_TAG in tagList, tagList)
      ensures Lists(old(checks), old(tags), tags, name, c)
      ensures checks == old(checks)[name := c] && results == old(results)[name := NOT_YET_RUN]
    {
      AddToTags(name, tagList);
      c := Check(name in NamesOf(tags, APPLICATION_TAG), tagList);
      assert name !in NamesOf(old(tags), APPLICATION_TAG);
      checks, results := checks[name := c], results[name := NOT_YET_RUN];
    }

    /** What runCheck does under the lock with the outcome of a registered check. */
    method RunCheck(name: Name, failed: bool, end: int)
      requires Valid() && name in checks
      modifies `results, `gauges, `numFailingApplicationChecks
      ensures Valid()
      ensures results == old(results)[name := NextResult(old(results)[name], failed, end)]
      ensures failed == old(results)[name].failed ==> gauges == old(gauges)
      ensures clean ==> IsAccurate(Now())
    {
      var prev := results[name];
      if failed != prev.failed {
        UpdateMetrics(checks[name], !failed, false);
      }
      results := results[name := NextResult(prev, failed, end)];
      if failed != prev.failed {
        assert Failing() == if failed then old(Failing()) + {name} else old(Failing()) - {name};
        ResultGood(old(Now()), Now(), name, !failed);
      } else {
        assert Failing() == old(Failing());
      }
      if clean { CleanIsAccurate(Now()); }
    }

    /** The checks of the tags and the application checks, with whether all of them pass. */
    method Results(tagList: seq<Tag>) returns (found: map<Name, CheckResult>, healthy: bool)
      requires Valid()
      ensures forall n :: n in found <==> n in checks && AskedFor(checks[n], tagList)
      ensures forall n :: n in found ==> n in results && found[n] == results[n]
      ensures healthy <==> forall n :: n in found ==> !found[n].failed
      ensures healthy <==> forall t :: t in Wanted(tagList) ==> Relevant(checks, Failing(), t) == {}
      ensures forall t :: clean && t in tags && Wanted(tagList) == {t} ==> (healthy <==> Gauge(gauges, t) == 0)
    {
      var names := CollectNames(Wanted(tagList) + {APPLICATION_TAG});
      forall n ensures n in names <==> n in checks && AskedFor(checks[n], tagList) {
        NamesAsked(checks, tags, tagList, n);
      }
      HealthyIsRelevant(checks, Failing(), tagList, names);
      found, healthy := CollectResults(names);
      assert found.Keys == names;
      if clean { CleanIsAccurate(Now()); }
    }

    method CollectResults(names: set<Name>) returns (found: map<Name, CheckResult>, healthy: bool)
      ensures found.Keys == names * results.Keys
      ensures forall n :: n in found ==> found[n] == results[n]
      ensures healthy <==> forall n :: n in found ==> !found[n].failed
      ensures healthy <==> names * Failing() == {}
    {
      found, healthy := map[], true;
      var left := names;
      while left != {}
        invariant left <= names
        invariant found.Keys == (names - left) * results.Keys
        invariant forall n :: n in found ==> found[n] == results[n]
        invariant healthy <==> forall n :: n in found ==> !found[n].failed
        decreases left
      {
        var n :| n in left;
        assert names - (left - {n}) == (names - left) + {n};
        if n in results {
          found := found[n := results[n]];
          healthy := healthy && !results[n].failed;
        }
        left := left - {n};
      }
      assert forall n :: n in found && found[n].failed ==> n in names * Failing();
    }

    method CollectNames(wanted: set<Tag>) returns (names: set<Name>)
      ensures forall n :: n in names <==> exists t :: t in wanted && n in NamesOf(tags, t)
    {
      names := {};
      var left := wanted;
      while left != {}
        invariant left <= wanted
        invariant forall n :: n in names <==> exists t :: t in wanted - left && n in NamesOf(tags, t)
        decreases left
      {
        var t :| t in left;
        var before := names;
        names := names + NamesOf(tags, t);
        forall n ensures n in names <==> exists u :: u in wanted - (left - {t}) && n in NamesOf(tags, u) {
          if n in NamesOf(tags, t) { assert t in wanted - (left - {t}); }
          if n in before { var u :| u in wanted - left && n in NamesOf(tags, u); assert u in wanted - (left - {t}); }
        }
        left := left - {t};
      }
    }

    /** RegisterCheck's loop over the tags, and AllTag after it. */
    method AddToTags(name: Name, tagList: seq<Tag>)
      modifies `tags
      ensures forall t :: NamesOf(tags, t) == NamesOf(old(tags), t) + if t == ALL_TAG || t in tagList then {name} else {}
      ensures forall t :: t in tags <==> t in old(tags) || t == ALL_TAG || t in tagList
    {
      for i := 0 to |tagList|
        invariant forall t :: t in tags <==> t in old(tags) || t in tagList[..i]
        invariant forall t :: NamesOf(tags, t) == NamesOf(old(tags), t) + if t in tagList[..i] then {name} else {}
      {
        assert tagList[..i + 1] == tagList[..i] + [tagList[i]];
        tags := tags[tagList[i] := NamesOf(tags, tagList[i]) + {name}];
      }
      assert tagList[..|tagList|] == tagList;
      tags := tags[ALL_TAG := NamesOf(tags, ALL_TAG) + {name}];
    }

    method UpdateMetrics(c: Check, healthy: bool, register: bool)
      requires WellTagged(c)
      modifies `gauges, `numFailingApplicationChecks
      ensures forall t :: Gauge(gauges, t) ==
                Gauge(old(gauges), t) + Change(c, t, tags, healthy, register, old(numFailingApplicationChecks))
      ensures numFailingApplicationChecks ==
                old(numFailingApplicationChecks) + if !c.isApplication then 0 else if healthy then -1 else 1
    {
      if c.isApplication {
        BumpAll(if healthy then -1 else 1);
        numFailingApplicationChecks := numFailingApplicationChecks + if healthy then -1 else 1;
      } else {
        BumpTags(c.tags, healthy, register);
        forall t ensures Bumps(c.tags, t, PerTime(t, tags, healthy, register, numFailingApplicationChecks))
                         == Times(c.tags, t) * PerTime(t, tags, healthy, register, numFailingApplicationChecks)
        {
          BumpsTimes(c.tags, t, PerTime(t, tags, healthy, register, numFailingApplicationChecks));
        }
        TimesPositive(c.tags, ALL_TAG);
        gauges := gauges[ALL_TAG := Gauge(gauges, ALL_TAG) + if healthy then -1 else 1];
      }
    }

    method BumpAll(d: int)
      modifies `gauges
      ensures forall t :: Gauge(gauges, t) == Gauge(old(gauges), t) + if t in tags then d else 0
    {
      var left := tags.Keys;
      while left != {}
        invariant left <= tags.Keys
        invariant forall t :: Gauge(gauges, t) == Gauge(old(gauges), t) + if t in tags && t !in left then d else 0
        decreases left
      {
        var t :| t in left;
        gauges := gauges[t := Gauge(gauges, t) + d];
        left := left - {t};
      }
    }

    method BumpTags(list: seq<Tag>, healthy: bool, register: bool)
      modifies `gauges
      ensures forall t :: Gauge(gauges, t) == Gauge(old(gauges), t)
                + Bumps(list, t, PerTime(t, tags, healthy, register, numFailingApplicationChecks))
    {
      for i := 0 to |list|
        invariant forall t :: Gauge(gauges, t) == Gauge(old(gauges), t)
                    + Bumps(list[..i], t, PerTime(t, tags, healthy, register, numFailingApplicationChecks))
      {
        var t := list[i];
        assert list[..i + 1][..i] == list[..i];
        gauges := gauges[t := Gauge(gauges, t) + if healthy then -1 else 1];
        if !healthy && register && |NamesOf(tags, t)| == 1 {
          gauges := gauges[t := Gauge(gauges, t) + numFailingApplicationChecks];
        }
      }
      assert list[..|list|] == list;
    }
  }
}
