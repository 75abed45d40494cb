/** The reference-counted locks of cross-chain shared memory, as a step machine.

Any number of callers of Get, Indexed and Apply run against one `Memory`. Each caller takes the
locks of a strictly ascending list of shared IDs and then runs its deferred releases in reverse
order. One step is one of the points at which the Go scheduler can switch: the critical section
of makeLock, the acquisition of the mutex it returned, the critical section of releaseLock, and
the Unlock that follows it outside of that critical section.
*/
module LockProtocol {

  // Shared IDs are 32 bytes compared bytewise, so they are ordered like the numbers they spell.
  type ID = nat

  // The identity of an rcLock object, allocated in increasing order.
  type Mutex = nat

  datatype RcLock = RcLock(mutex: Mutex, count: int)

  datatype Phase =
    | Acquiring              // next: makeLock(ids[held]), or start the deferred releases
    | Waiting(mutex: Mutex)  // makeLock(ids[held]) has returned `mutex`; next: mutex.Lock()
    | Releasing              // next: releaseLock(ids[held - 1]), or finished when held == 0
    | Unlocking(mutex: Mutex)  // releaseLock(ids[held]) has returned `mutex`; next: mutex.Unlock()

  /** `held` counts the IDs between Lock and releaseLock: they are ids[..held]. */
  datatype Caller = Caller(ids: seq<ID>, held: nat, phase: Phase)
  {
    ghost predicate Done() { phase == Releasing && held == 0 }

    ghost predicate WellFormed() {
      && (forall i, j :: 0 <= i < j < |ids| ==> ids[i] < ids[j])
      && held <= |ids|
      && (phase.Waiting? || phase.Unlocking? ==> held < |ids|)
    }

    /** Between Lock and releaseLock of `id`. */
    ghost predicate Holds(id: ID)
      requires WellFormed()
    {
      id in ids[..held]
    }

    ghost function Referenced(): nat {
      if phase.Waiting? then held + 1 else held
    }

    /** Between makeLock and releaseLock of `id`. */
    ghost predicate References(id: ID)
      requires WellFormed()
    {
      id in ids[..Referenced()]
    }

    /** An upper bound on the steps this caller can still take. */
    ghost function Remaining(): nat
      requires WellFormed()
    {
      match phase
      case Acquiring => 2 * (|ids| - held) + 1 + 2 * |ids|
      case Waiting(_) => 2 * (|ids| - held) + 2 * |ids|
      case Releasing => 2 * held
      case Unlocking(_) => 2 * held + 1
    }
  }

  datatype State = State(
    locks: map<ID, RcLock>,     // Memory.locks
    owner: map<Mutex, nat>,     // which caller holds each locked mutex
    next: Mutex,                // the identity of the next rcLock to be allocated
    callers: seq<Caller>)

  datatype Action = MakeLock | Lock | StartRelease | ReleaseLock | Unlock

  ghost predicate Init(s: State) {
    && s.locks == map[] && s.owner == map[]
    && forall c :: 0 <= c < |s.callers| ==>
         s.callers[c].WellFormed() && s.callers[c].held == 0 && s.callers[c].phase == Acquiring
  }

  /** The scheduler may let caller `c` perform `a`: only Lock can be blocked by the others. */
  ghost predicate Enabled(s: State, c: nat, a: Action) {
    && c < |s.callers|
    && s.callers[c].WellFormed()
    && var p := s.callers[c];
       match a
       case MakeLock => p.phase == Acquiring && p.held < |p.ids|
       case Lock => p.phase.Waiting? && p.phase.mutex !in s.owner
       // Apply returns early only after at least one lock was taken.
       case StartRelease => p.phase == Acquiring && (p.held == |p.ids| || 0 < p.held)
       case ReleaseLock => p.phase == Releasing && 0 < p.held
       case Unlock => p.phase.Unlocking?
  }

  /** releaseLock panics on an unknown lock; Go stops the process on Unlock of an unlocked mutex. */
  ghost predicate Panics(s: State, c: nat, a: Action)
    requires Enabled(s, c, a)
  {
    var p := s.callers[c];
    || (a == ReleaseLock && p.ids[p.held - 1] !in s.locks)
    || (a == Unlock && p.phase.mutex !in s.owner)
  }

  function MakeLockMap(locks: map<ID, RcLock>, id: ID, mutex: Mutex): map<ID, RcLock> {
    if id in locks then locks[id := locks[id].(count := locks[id].count + 1)]
    else locks[id := RcLock(mutex, 1)]
  }

  function ReleaseLockMap(locks: map<ID, RcLock>, id: ID): map<ID, RcLock>
    requires id in locks
  {
    if locks[id].count - 1 == 0 then locks - {id}
    else locks[id := locks[id].(count := locks[id].count - 1)]
  }

  ghost function Step(s: State, c: nat, a: Action): State
    requires Enabled(s, c, a) && !Panics(s, c, a)
  {
    var p := s.callers[c];
    match a
    case MakeLock =>
      var locks := MakeLockMap(s.locks, p.ids[p.held], s.next);
      s.(locks := locks, next := s.next + 1,
         callers := s.callers[c := p.(phase := Waiting(locks[p.ids[p.held]].mutex))])
    case Lock =>
      s.(owner := s.owner[p.phase.mutex := c],
         callers := s.callers[c := p.(held := p.held + 1, phase := Acquiring)])
    case StartRelease =>
      s.(callers := s.callers[c := p.(phase := Releasing)])
    case ReleaseLock =>
      var id := p.ids[p.held - 1];
      s.(locks := ReleaseLockMap(s.locks, id),
         callers := s.callers[c := p.(held := p.held - 1, phase := Unlocking(s.locks[id].mutex))])
    case Unlock =>
      s.(owner := s.owner - {p.phase.mutex},
         callers := s.callers[c := p.(phase := Releasing)])
  }

  // ---------------------------------------------------------------- the invariant

  ghost predicate AllWellFormed(callers: seq<Caller>) {
    forall c :: 0 <= c < |callers| ==> callers[c].WellFormed()
  }

  ghost function Referrers(callers: seq<Caller>, id: ID): set<nat>
    requires AllWellFormed(callers)
  {
    set c: nat | c < |callers| && callers[c].References(id)
  }

  ghost predicate CountFits(locks: map<ID, RcLock>, id: ID, referrers: set<nat>) {
    if id in locks then locks[id].count == |referrers| && 0 < locks[id].count
    else referrers == {}
  }

  /** The count of `id` is the number of callers between makeLock(id) and releaseLock(id), and the
      entry exists exactly when that number is positive. */
  ghost predicate CountExact(s: State, id: ID)
    requires AllWellFormed(s.callers)
  {
    CountFits(s.locks, id, Referrers(s.callers, id))
  }

  ghost predicate MutexesDistinct(s: State) {
    && (forall id, jd :: id in s.locks && jd in s.locks && s.locks[id].mutex == s.locks[jd].mutex ==> id == jd)
    && (forall id :: id in s.locks ==> s.locks[id].mutex < s.next)
    && (forall m :: m in s.owner ==> m < s.next)
  }

  /** What caller `c` knows about the mutexes it waits for, holds or is about to unlock. */
  ghost predicate OwnsItsLocks(s: State, c: nat)
    requires c < |s.callers| && s.callers[c].WellFormed()
  {
    var p := s.callers[c];
    && (p.phase.Waiting? ==> p.ids[p.held] in s.locks && s.locks[p.ids[p.held]].mutex == p.phase.mutex)
    && (forall i :: 0 <= i < p.held ==>
          && p.ids[i] in s.locks
          && s.locks[p.ids[i]].mutex in s.owner
          && s.owner[s.locks[p.ids[i]].mutex] == c)
    && (p.phase.Unlocking? ==> p.phase.mutex in s.owner && s.owner[p.phase.mutex] == c)
    && (p.phase.Unlocking? ==> forall i :: 0 <= i < p.held ==> s.locks[p.ids[i]].mutex != p.phase.mutex)
  }

  /** A locked mutex is either held for a shared ID or about to be unlocked. */
  ghost predicate Accounted(s: State, m: Mutex)
    requires AllWellFormed(s.callers) && m in s.owner
  {
    && s.owner[m] < |s.callers|
    && var p := s.callers[s.owner[m]];
       || p.phase == Unlocking(m)
       || exists i :: 0 <= i < p.held && p.ids[i] in s.locks && s.locks[p.ids[i]].mutex == m
  }

  ghost predicate OwnersAccounted(s: State)
    requires AllWellFormed(s.callers)
  {
    forall m :: m in s.owner ==> Accounted(s, m)
  }

  ghost predicate Inv(s: State) {
    && AllWellFormed(s.callers)
    && (forall id :: CountExact(s, id))
    && MutexesDistinct(s)
    && (forall c :: 0 <= c < |s.callers| ==> OwnsItsLocks(s, c))
    && OwnersAccounted(s)
  }

  lemma InitInv(s: State)
    requires Init(s)
    ensures Inv(s)
  {
  }

  lemma InvNeverPanics(s: State, c: nat, a: Action)
    requires Inv(s) && Enabled(s, c, a)
    ensures !Panics(s, c, a)
  {
    assert OwnsItsLocks(s, c);
  }

  /** How one caller's own step changes the set of IDs it references. */
  lemma CallerReferences(p: Caller, q: Caller, id: ID)
    requires p.WellFormed() && q.WellFormed() && p.ids == q.ids && q.Referenced() == p.Referenced() + 1
    ensures q.References(id) <==> p.References(id) || id == p.ids[p.Referenced()]
    ensures !p.References(p.ids[p.Referenced()])
  {
    assert q.ids[..q.Referenced()] == p.ids[..p.Referenced()] + [p.ids[p.Referenced()]];
  }

  lemma ReferrersUpdate(callers: seq<Caller>, c: nat, q: Caller, id: ID)
    requires AllWellFormed(callers) && c < |callers| && q.WellFormed()
    ensures AllWellFormed(callers[c := q])
    ensures Referrers(callers[c := q], id) ==
            if q.References(id) then Referrers(callers, id) + {c} else Referrers(callers, id) - {c}
  {
  }

  lemma StepWellFormed(s: State, c: nat, a: Action)
    requires AllWellFormed(s.callers) && Enabled(s, c, a) && !Panics(s, c, a)
    ensures AllWellFormed(Step(s, c, a).callers)
  {
    assert Step(s, c, a).callers[c].WellFormed();
  }

  lemma StepReferrers(s: State, c: nat, a: Action, id: ID)
    requires AllWellFormed(s.callers) && Enabled(s, c, a) && !Panics(s, c, a)
    ensures AllWellFormed(Step(s, c, a).callers)
    ensures var p := s.callers[c];
            Referrers(Step(s, c, a).callers, id) ==
            if a == MakeLock && id == p.ids[p.held] then Referrers(s.callers, id) + {c}
            else if a == ReleaseLock && id == p.ids[p.held - 1] then Referrers(s.callers, id) - {c}
            else Referrers(s.callers, id)
    ensures a == MakeLock && id == s.callers[c].ids[s.callers[c].held] ==> c !in Referrers(s.callers, id)
    ensures a == ReleaseLock && id == s.callers[c].ids[s.callers[c].held - 1] ==> c in Referrers(s.callers, id)
  {
    StepWellFormed(s, c, a);
    var p := s.callers[c];
    var q := Step(s, c, a).callers[c];
    assert Step(s, c, a).callers == s.callers[c := q];
    ReferrersUpdate(s.callers, c, q, id);
    if a == MakeLock {
      CallerReferences(p, q, id);
    } else if a == ReleaseLock {
      CallerReferences(q, p, id);
    } else {
      assert p.Referenced() == q.Referenced() && p.ids == q.ids;
    }
  }

  lemma MakeLockCount(locks: map<ID, RcLock>, id: ID, mutex: Mutex, referrers: set<nat>, c: nat)
    requires CountFits(locks, id, referrers) && c !in referrers
    ensures CountFits(MakeLockMap(locks, id, mutex), id, referrers + {c})
  {
  }

  lemma ReleaseLockCount(locks: map<ID, RcLock>, id: ID, referrers: set<nat>, c: nat)
    requires CountFits(locks, id, referrers) && c in referrers
    ensures CountFits(ReleaseLockMap(locks, id), id, referrers - {c})
  {
    assert |referrers - {c}| == |referrers| - 1;
  }

  lemma StepCount(s: State, c: nat, a: Action, id: ID)
    requires AllWellFormed(s.callers) && CountExact(s, id) && Enabled(s, c, a) && !Panics(s, c, a)
    ensures AllWellFormed(Step(s, c, a).callers) && CountExact(Step(s, c, a), id)
  {
    StepReferrers(s, c, a, id);
    var p := s.callers[c];
    if a == MakeLock && id == p.ids[p.held] {
      MakeLockCount(s.locks, id, s.next, Referrers(s.callers, id), c);
    } else if a == ReleaseLock && id == p.ids[p.held - 1] {
      ReleaseLockCount(s.locks, id, Referrers(s.callers, id), c);
    }
  }

  lemma StepMutexes(s: State, c: nat, a: Action)
    requires MutexesDistinct(s) && Enabled(s, c, a) && OwnsItsLocks(s, c) && !Panics(s, c, a)
    ensures MutexesDistinct(Step(s, c, a))
  {
  }

  lemma StepKeepsMutex(s: State, c: nat, a: Action, id: ID)
    requires Enabled(s, c, a) && !Panics(s, c, a)
    requires id in s.locks && id in Step(s, c, a).locks
    ensures Step(s, c, a).locks[id].mutex == s.locks[id].mutex
  {
  }

  lemma ReferencedExists(s: State, d: nat, id: ID)
    requires AllWellFormed(s.callers) && CountExact(s, id) && d in Referrers(s.callers, id)
    ensures id in s.locks
  {
  }

  /** A lock entry that a caller depends on survives the steps of the others. */
  lemma StepKeepsEntries(s: State, c: nat, a: Action, d: nat, id: ID)
    requires AllWellFormed(s.callers) && CountExact(s, id) && Enabled(s, c, a) && !Panics(s, c, a)
    requires d < |s.callers| && s.callers[d].References(id)
    requires d != c || a != ReleaseLock || id != s.callers[c].ids[s.callers[c].held - 1]
    ensures id in s.locks && id in Step(s, c, a).locks
    ensures Step(s, c, a).locks[id].mutex == s.locks[id].mutex
  {
    assert d in Referrers(s.callers, id);
    ReferencedExists(s, d, id);
    StepReferrers(s, c, a, id);
    StepCount(s, c, a, id);
    ReferencedExists(Step(s, c, a), d, id);
    StepKeepsMutex(s, c, a, id);
  }

  lemma StepOwnsOther(s: State, c: nat, a: Action, d: nat)
    requires AllWellFormed(s.callers) && Enabled(s, c, a) && !Panics(s, c, a)
    requires forall id :: CountExact(s, id)
    requires d < |s.callers| && d != c && OwnsItsLocks(s, d) && OwnsItsLocks(s, c)
    ensures Step(s, c, a).callers[d] == s.callers[d] && OwnsItsLocks(Step(s, c, a), d)
  {
    var t := Step(s, c, a);
    var p := s.callers[d];
    if p.phase.Waiting? {
      StepKeepsEntries(s, c, a, d, p.ids[p.held]);
    }
    forall i | 0 <= i < p.held
      ensures p.ids[i] in t.locks && t.locks[p.ids[i]].mutex == s.locks[p.ids[i]].mutex
    {
      assert p.Holds(p.ids[i]);
      StepKeepsEntries(s, c, a, d, p.ids[i]);
    }
  }

  lemma StepOwnsSelf(s: State, c: nat, a: Action)
    requires AllWellFormed(s.callers) && Enabled(s, c, a) && !Panics(s, c, a)
    requires forall id :: CountExact(s, id)
    requires MutexesDistinct(s) && OwnsItsLocks(s, c)
    ensures Step(s, c, a).callers[c].WellFormed() && OwnsItsLocks(Step(s, c, a), c)
  {
    var t := Step(s, c, a);
    var p := s.callers[c];
    StepWellFormed(s, c, a);
    forall i | 0 <= i < t.callers[c].held && i < p.held
      ensures p.ids[i] in t.locks && t.locks[p.ids[i]].mutex == s.locks[p.ids[i]].mutex
    {
      assert p.Holds(p.ids[i]);
      StepKeepsEntries(s, c, a, c, p.ids[i]);
    }
    if a == Lock {
      StepKeepsEntries(s, c, a, c, p.ids[p.held]);
    }
  }

  lemma StepAccountedAt(s: State, c: nat, a: Action, m: Mutex)
    requires AllWellFormed(s.callers) && Enabled(s, c, a) && !Panics(s, c, a)
    requires forall id :: CountExact(s, id)
    requires m in Step(s, c, a).owner
    requires m in s.owner ==> Accounted(s, m)
    requires OwnsItsLocks(s, c)
    ensures AllWellFormed(Step(s, c, a).callers) && Accounted(Step(s, c, a), m)
  {
    var t := Step(s, c, a);
    StepWellFormed(s, c, a);
    if a == Lock && m == s.callers[c].phase.mutex {
      var q := t.callers[c];
      assert q.ids[q.held - 1] in t.locks && t.locks[q.ids[q.held - 1]].mutex == m;
    } else {
      var d := s.owner[m];
      var p := s.callers[d];
      if p.phase != Unlocking(m) {
        var i :| 0 <= i < p.held && p.ids[i] in s.locks && s.locks[p.ids[i]].mutex == m;
        assert p.Holds(p.ids[i]);
        if d == c && a == ReleaseLock && i == p.held - 1 {
          assert t.callers[d].phase == Unlocking(m);
        } else {
          StepKeepsEntries(s, c, a, d, p.ids[i]);
        }
      }
    }
  }

  /** Every step of every caller keeps the invariant. */
  lemma StepInv(s: State, c: nat, a: Action)
    requires Inv(s) && Enabled(s, c, a)
    ensures !Panics(s, c, a) && Inv(Step(s, c, a))
  {
    InvNeverPanics(s, c, a);
    StepWellFormed(s, c, a);
    forall id
      ensures CountExact(Step(s, c, a), id)
    {
      StepCount(s, c, a, id);
    }
    StepMutexes(s, c, a);
    forall d: nat | d < |s.callers|
      ensures OwnsItsLocks(Step(s, c, a), d)
    {
      if d == c { StepOwnsSelf(s, c, a); } else { StepOwnsOther(s, c, a, d); }
    }
    forall m | m in Step(s, c, a).owner
      ensures Accounted(Step(s, c, a), m)
    {
      StepAccountedAt(s, c, a, m);
    }
  }

  // ---------------------------------------------------------------- whole runs

  type Schedule = seq<(nat, Action)>

  /** `schedule` can be executed from `s` without a panic and ends in `t`. */
  ghost predicate Runs(s: State, schedule: Schedule, t: State)
    decreases |schedule|
  {
    if schedule == [] then s == t
    else
      var (c, a) := schedule[0];
      Enabled(s, c, a) && !Panics(s, c, a) && Runs(Step(s, c, a), schedule[1..], t)
  }

  ghost function TotalRemaining(callers: seq<Caller>): nat
    requires forall c :: 0 <= c < |callers| ==> callers[c].WellFormed()
  {
    if callers == [] then 0 else callers[0].Remaining() + TotalRemaining(callers[1..])
  }

  lemma {:induction false} TotalRemainingUpdate(callers: seq<Caller>, c: nat, q: Caller)
    requires forall d :: 0 <= d < |callers| ==> callers[d].WellFormed()
    requires c < |callers| && q.WellFormed()
    ensures TotalRemaining(callers[c := q]) == TotalRemaining(callers) - callers[c].Remaining() + q.Remaining()
  {
    if c == 0 {
      assert callers[c := q][1..] == callers[1..];
    } else {
      TotalRemainingUpdate(callers[1..], c - 1, q);
      assert callers[c := q][1..] == callers[1..][c - 1 := q];
    }
  }

  lemma StepConsumes(s: State, c: nat, a: Action)
    requires Inv(s) && Enabled(s, c, a) && !Panics(s, c, a)
    ensures AllWellFormed(Step(s, c, a).callers)
    ensures TotalRemaining(Step(s, c, a).callers) < TotalRemaining(s.callers)
  {
    StepWellFormed(s, c, a);
    TotalRemainingUpdate(s.callers, c, Step(s, c, a).callers[c]);
  }

  /** Safety and boundedness of every interleaving: the invariant holds at its end, and its length
      is bounded by what the callers set out to do, so no caller can spin. */
  lemma {:induction false} RunInv(s: State, schedule: Schedule, t: State)
    requires Inv(s) && Runs(s, schedule, t)
    ensures Inv(t)
    ensures |schedule| + TotalRemaining(t.callers) <= TotalRemaining(s.callers)
    decreases |schedule|
  {
    if schedule != [] {
      var (c, a) := schedule[0];
      StepInv(s, c, a);
      StepConsumes(s, c, a);
      RunInv(Step(s, c, a), schedule[1..], t);
    }
  }

  /** At most one caller is between Lock and releaseLock for a shared ID. */
  lemma MutualExclusion(s: State, c: nat, d: nat, id: ID)
    requires Inv(s) && c < |s.callers| && d < |s.callers|
    requires s.callers[c].Holds(id) && s.callers[d].Holds(id)
    ensures c == d
  {
    assert OwnsItsLocks(s, c) && OwnsItsLocks(s, d);
  }

  ghost predicate NotBelowWanted(s: State, c: nat, id: ID)
    requires c < |s.callers| && s.callers[c].WellFormed()
  {
    s.callers[c].phase.Waiting? ==> s.callers[c].ids[s.callers[c].held] <= id
  }

  /** Following the owner of a blocked caller's mutex leads to a strictly larger awaited ID, so the
      chain ends in a caller that can step. */
  lemma {:induction false} FindStep(s: State, c: nat, ids: set<ID>) returns (d: nat, a: Action)
    requires Inv(s) && c < |s.callers| && !s.callers[c].Done()
    requires forall e, i :: (0 <= e < |s.callers| && 0 <= i < |s.callers[e].ids| && NotBelowWanted(s, c, s.callers[e].ids[i]))
                            ==> s.callers[e].ids[i] in ids
    ensures Enabled(s, d, a)
    decreases ids
  {
    var p := s.callers[c];
    match p.phase
    case Acquiring => d, a := c, if p.held < |p.ids| then MakeLock else StartRelease;
    case Releasing => d, a := c, ReleaseLock;
    case Unlocking(_) => d, a := c, Unlock;
    case Waiting(m) =>
      if m !in s.owner {
        d, a := c, Lock;
      } else {
        var wanted := p.ids[p.held];
        assert OwnsItsLocks(s, c);
        var e := s.owner[m];
        var q := s.callers[e];
        if q.phase == Unlocking(m) {
          d, a := e, Unlock;
        } else {
          var i :| 0 <= i < q.held && q.ids[i] in s.locks && s.locks[q.ids[i]].mutex == m;
          assert q.ids[i] == wanted;
          if q.phase.Waiting? {
            assert wanted < q.ids[q.held];
            assert wanted in ids;
            d, a := FindStep(s, e, ids - {wanted});
          } else {
            d, a := FindStepUnblocked(s, e);
          }
        }
      }
  }

  lemma FindStepUnblocked(s: State, c: nat) returns (d: nat, a: Action)
    requires Inv(s) && c < |s.callers| && !s.callers[c].Done() && !s.callers[c].phase.Waiting?
    ensures Enabled(s, d, a)
  {
    var p := s.callers[c];
    d := c;
    match p.phase
    case Acquiring => a := if p.held < |p.ids| then MakeLock else StartRelease;
    case Releasing => a := ReleaseLock;
    case Unlocking(_) => a := Unlock;
  }

  ghost function AllIds(s: State): set<ID> {
    set c, i | 0 <= c < |s.callers| && 0 <= i < |s.callers[c].ids| :: s.callers[c].ids[i]
  }

  /** No deadlock: while some caller is unfinished, some caller can step. */
  lemma NoDeadlock(s: State, c: nat)
    requires Inv(s) && c < |s.callers| && !s.callers[c].Done()
    ensures exists d, a :: Enabled(s, d, a)
  {
    var d, a := FindStep(s, c, AllIds(s));
  }

  /** The guarantees of the locking protocol for every schedule of any number of callers. */
  lemma EveryRun(s: State, schedule: Schedule, t: State)
    requires Init(s) && Runs(s, schedule, t)
    ensures AllWellFormed(s.callers) && |schedule| <= TotalRemaining(s.callers)
    ensures AllWellFormed(t.callers)
    ensures forall id, c, d :: (0 <= c < |t.callers| && 0 <= d < |t.callers| && t.callers[c].Holds(id) && t.callers[d].Holds(id))
                               ==> c == d
    ensures forall id :: CountExact(t, id)
    ensures forall c, a :: Enabled(t, c, a) ==> !Panics(t, c, a)
    ensures (exists c :: 0 <= c < |t.callers| && !t.callers[c].Done()) ==> exists d, a :: Enabled(t, d, a)
    ensures (forall d, a :: !Enabled(t, d, a)) ==> t.locks == map[] && t.owner == map[]
  {
    InitInv(s);
    RunInv(s, schedule, t);
    forall id, c, d | 0 <= c < |t.callers| && 0 <= d < |t.callers| && t.callers[c].Holds(id) && t.callers[d].Holds(id)
      ensures c == d
    {
      MutualExclusion(t, c, d, id);
    }
    forall c, a | Enabled(t, c, a)
      ensures !Panics(t, c, a)
    {
      InvNeverPanics(t, c, a);
    }
    if c :| 0 <= c < |t.callers| && !t.callers[c].Done() {
      NoDeadlock(t, c);
    } else {
      AllDoneIsClean(t);
    }
  }

  lemma AllDoneIsClean(s: State)
    requires Inv(s) && forall c :: 0 <= c < |s.callers| ==> s.callers[c].Done()
    ensures s.locks == map[] && s.owner == map[]
  {
    forall id
      ensures id !in s.locks
    {
      assert CountExact(s, id) && Referrers(s.callers, id) == {};
    }
  }

  // ---------------------------------------------------------------- the table itself

  /** rcLock: the mutex and the number of callers that were given it. */
  class RcMutex {
    ghost const name: Mutex
    var count: int

    constructor (ghost name: Mutex)
      ensures this.name == name && count == 0
    {
      this.name := name;
      count := 0;
    }
  }

  /** The `locks` field of Memory, with the critical sections of makeLock and releaseLock. Its
      contents are what one step of the protocol above makes of them. */
  class LockTable {
    var locks: map<ID, RcMutex>
    ghost var next: Mutex

    ghost predicate Valid()
      reads this, locks.Values
    {
      && (forall id, jd :: id in locks && jd in locks && locks[id] == locks[jd] ==> id == jd)
      && (forall id :: id in locks ==> locks[id].name < next)
    }

    ghost function Contents(): map<ID, RcLock>
      reads this, locks.Values
    {
      map id | id in locks :: RcLock(locks[id].name, locks[id].count)
    }

    constructor ()
      ensures Valid() && Contents() == map[]
    {
      locks := map[];
      next := 0;
    }

    method MakeLock(id: ID) returns (rc: RcMutex)
      requires Valid()
      modifies this, locks.Values
      ensures Valid() && next == old(next) + 1
      ensures Contents() == MakeLockMap(old(Contents()), id, old(next))
      ensures id in locks && rc == locks[id]
      ensures id !in old(locks) ==> fresh(rc)
    {
      if id !in locks {
        var created := new RcMutex(next);
        locks := locks[id := created];
      }
      next := next + 1;
      rc := locks[id];
      rc.count := rc.count + 1;
      assert Contents() == MakeLockMap(old(Contents()), id, old(next));
    }

    /** releaseLock panics exactly on an unknown lock; `rc` is then null. */
    method ReleaseLock(id: ID) returns (rc: RcMutex?)
      requires Valid()
      modifies this, locks.Values
      ensures Valid() && next == old(next)
      ensures rc == null <==> id !in old(locks)
      ensures rc == null ==> Contents() == old(Contents())
      ensures rc != null ==> rc == old(locks[id]) && Contents() == ReleaseLockMap(old(Contents()), id)
    {
      if id !in locks { return null; }
      var lock := locks[id];
      lock.count := lock.count - 1;
      if lock.count == 0 {
        locks := locks - {id};
      }
      assert Contents() == ReleaseLockMap(old(Contents()), id);
      rc := lock;
    }
  }
}
