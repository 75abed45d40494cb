/** The locking protocol and the concurrent calls it serves, together: every caller takes its locks by the
steps of makeLock, Lock, releaseLock and Unlock (chains/atomic/memory.go), and performs, commits and
returns in between (chains/atomic/shared_memory.go). Nothing is assumed about who holds which lock.

Each run of this machine is a run of the machine of ConcurrentApply, in which a lock has one holder, so
every call is atomic; and it never deadlocks.
*/
module LockedApply {
  import L = LockProtocol
  import A = ConcurrentApply
  import AtomicState
  import opened ByteStrings
  import opened SharedMemory

  datatype State = State(locks: L.State, apply: A.State)

  datatype Action =
    | Locking(step: L.Action)
    | Perform(peer: ID)
    | Commit
    | GiveUp

  ghost predicate Enabled(s: State, h: Hash, c: nat, a: Action) {
    && c < |s.locks.callers| && c < |s.apply.callers|
    && var p, q := s.locks.callers[c], s.apply.callers[c];
       match a
       case Locking(x) =>
         L.Enabled(s.locks, c, x) && (x == L.MakeLock ==> !q.returned) && (x == L.StartRelease ==> q.returned)
       case Perform(peer) => p.phase == L.Acquiring && A.Enabled(s.apply, h, c, A.Perform(peer))
       case Commit => p.phase == L.Acquiring && p.held == |p.ids| && A.Enabled(s.apply, h, c, A.Commit)
       // A call returns only after it has taken a lock, unless it needs none.
       case GiveUp => p.phase == L.Acquiring && (0 < p.held || p.held == |p.ids|) && A.Enabled(s.apply, h, c, A.GiveUp)
  }

  ghost predicate Panics(s: State, h: Hash, c: nat, a: Action)
    requires Enabled(s, h, c, a)
  {
    a.Locking? && L.Panics(s.locks, c, a.step)
  }

  ghost function SetHeld(a: A.State, c: nat, held: set<ID>): A.State
    requires c < |a.callers|
  {
    a.(callers := a.callers[c := a.callers[c].(held := held)])
  }

  ghost function Step(s: State, h: Hash, c: nat, a: Action): State
    requires Enabled(s, h, c, a) && !Panics(s, h, c, a)
  {
    var p, q := s.locks.callers[c], s.apply.callers[c];
    match a
    case Locking(x) =>
      State(L.Step(s.locks, c, x),
            if x == L.Lock then SetHeld(s.apply, c, q.held + {p.ids[p.held]})
            else if x == L.ReleaseLock then SetHeld(s.apply, c, q.held - {p.ids[p.held - 1]})
            else s.apply)
    case Perform(peer) => s.(apply := A.Step(s.apply, h, c, A.Perform(peer)))
    case Commit => s.(apply := A.Step(s.apply, h, c, A.Commit))
    case GiveUp => s.(apply := A.Step(s.apply, h, c, A.GiveUp))
  }

  // ---------------------------------------------------------------- the invariant

  ghost function HeldIDs(p: L.Caller): set<ID>
    requires p.WellFormed()
  {
    set id | id in p.ids[..p.held]
  }

  /** A caller is between Lock and releaseLock of exactly the spaces it holds, and releases after it returned. */
  ghost predicate Matches(p: L.Caller, q: A.Caller)
    requires p.WellFormed()
  {
    && q.held == HeldIDs(p)
    && (p.phase == L.Releasing || p.phase.Unlocking? ==> q.returned)
    && (p.phase.Waiting? ==> !q.returned)
    && (p.phase == L.Acquiring && q.returned ==> 0 < p.held || p.held == |p.ids|)
  }

  /** The list of spaces that a call locks has those it shares with the peers of its requests. */
  ghost predicate Listed(h: Hash, p: L.Caller, q: A.Caller) {
    forall peer :: peer in q.requests ==> SharedID(h, q.my, peer) in p.ids
  }

  ghost predicate Inv(s: State, h: Hash) {
    && L.Inv(s.locks) && A.Inv(s.apply, h)
    && |s.locks.callers| == |s.apply.callers|
    && (forall c :: 0 <= c < |s.locks.callers| ==>
          Matches(s.locks.callers[c], s.apply.callers[c]) && Listed(h, s.locks.callers[c], s.apply.callers[c]))
  }

  ghost predicate Init(s: State, h: Hash) {
    && L.Init(s.locks) && A.Init(s.apply) && |s.locks.callers| == |s.apply.callers|
    && (forall c :: 0 <= c < |s.locks.callers| ==> Listed(h, s.locks.callers[c], s.apply.callers[c]))
  }

  lemma InitInv(s: State, h: Hash)
    requires Init(s, h)
    ensures Inv(s, h)
  {
    L.InitInv(s.locks);
  }

  lemma HeldMore(p: L.Caller)
    requires p.WellFormed() && p.held < |p.ids|
    ensures HeldIDs(p.(held := p.held + 1, phase := L.Acquiring)) == HeldIDs(p) + {p.ids[p.held]}
    ensures p.ids[p.held] !in HeldIDs(p)
  {
    assert p.ids[..p.held + 1] == p.ids[..p.held] + [p.ids[p.held]];
  }

  lemma HeldLess(p: L.Caller, m: L.Mutex)
    requires p.WellFormed() && 0 < p.held
    ensures HeldIDs(p.(held := p.held - 1, phase := L.Unlocking(m))) == HeldIDs(p) - {p.ids[p.held - 1]}
    ensures p.ids[p.held - 1] in HeldIDs(p)
  {
    assert p.ids[..p.held] == p.ids[..p.held - 1] + [p.ids[p.held - 1]];
  }

  /** By mutual exclusion, nobody holds the space whose mutex a caller has just locked. */
  lemma LockIsFree(s: State, h: Hash, c: nat)
    requires Inv(s, h) && L.Enabled(s.locks, c, L.Lock)
    ensures A.Free(s.apply, s.locks.callers[c].ids[s.locks.callers[c].held])
  {
    var p := s.locks.callers[c];
    var id := p.ids[p.held];
    L.StepInv(s.locks, c, L.Lock);
    var t := L.Step(s.locks, c, L.Lock);
    HeldMore(p);
    forall d | 0 <= d < |s.apply.callers| ensures id !in s.apply.callers[d].held {
      assert Matches(s.locks.callers[d], s.apply.callers[d]);
      if d != c && id in s.apply.callers[d].held {
        assert t.callers[d] == s.locks.callers[d] && t.callers[d].Holds(id);
        assert t.callers[c].Holds(id);
        L.MutualExclusion(t, c, d, id);
      }
    }
  }

  // ---------------------------------------------------------------- the refinement

  /** What a step is to the machine in which a lock has one holder: one of its steps, or nothing. */
  ghost function Abstract(s: State, h: Hash, c: nat, a: Action): seq<(nat, A.Action)>
    requires Enabled(s, h, c, a)
  {
    var p := s.locks.callers[c];
    match a
    case Locking(x) =>
      if x == L.Lock then [(c, A.Lock(p.ids[p.held]))]
      else if x == L.ReleaseLock then [(c, A.Unlock(p.ids[p.held - 1]))]
      else []
    case Perform(peer) => [(c, A.Perform(peer))]
    case Commit => [(c, A.Commit)]
    case GiveUp => [(c, A.GiveUp)]
  }

  lemma LockingRefines(s: State, h: Hash, c: nat, x: L.Action)
    requires Inv(s, h) && Enabled(s, h, c, Locking(x))
    ensures !Panics(s, h, c, Locking(x))
    ensures A.Runs(s.apply, h, Abstract(s, h, c, Locking(x)), Step(s, h, c, Locking(x)).apply)
  {
    var p, q := s.locks.callers[c], s.apply.callers[c];
    assert Matches(p, q);
    L.InvNeverPanics(s.locks, c, x);
    if x == L.Lock {
      LockIsFree(s, h, c);
      OneStep(s.apply, h, c, A.Lock(p.ids[p.held]));
    } else if x == L.ReleaseLock {
      HeldLess(p, 0);
      OneStep(s.apply, h, c, A.Unlock(p.ids[p.held - 1]));
    }
  }

  lemma OneStep(s: A.State, h: Hash, c: nat, a: A.Action)
    requires A.Enabled(s, h, c, a)
    ensures A.Runs(s, h, [(c, a)], A.Step(s, h, c, a))
  {
    assert [(c, a)][1..] == [];
  }

  lemma StepRefines(s: State, h: Hash, c: nat, a: Action)
    requires Inv(s, h) && Enabled(s, h, c, a)
    ensures !Panics(s, h, c, a)
    ensures A.Runs(s.apply, h, Abstract(s, h, c, a), Step(s, h, c, a).apply)
  {
    match a
    case Locking(x) => LockingRefines(s, h, c, x);
    case Perform(peer) => OneStep(s.apply, h, c, A.Perform(peer));
    case Commit => OneStep(s.apply, h, c, A.Commit);
    case GiveUp => OneStep(s.apply, h, c, A.GiveUp);
  }

  lemma StepMatches(s: State, h: Hash, c: nat, a: Action)
    requires Inv(s, h) && Enabled(s, h, c, a) && !Panics(s, h, c, a)
    ensures var t := Step(s, h, c, a);
      && |t.locks.callers| == |t.apply.callers| == |s.locks.callers|
      && t.locks.callers[c].WellFormed() && Matches(t.locks.callers[c], t.apply.callers[c])
      && Listed(h, t.locks.callers[c], t.apply.callers[c])
      && (forall d :: 0 <= d < |s.locks.callers| && d != c ==>
            t.locks.callers[d] == s.locks.callers[d] && t.apply.callers[d] == s.apply.callers[d])
  {
    var p := s.locks.callers[c];
    assert Matches(p, s.apply.callers[c]);
    if a == Locking(L.Lock) { HeldMore(p); }
    if a == Locking(L.ReleaseLock) { HeldLess(p, s.locks.locks[p.ids[p.held - 1]].mutex); }
  }

  /** The invariant, and with it the refinement, holds along every run. */
  lemma StepInv(s: State, h: Hash, c: nat, a: Action)
    requires Injective(h) && Inv(s, h) && Enabled(s, h, c, a)
    ensures !Panics(s, h, c, a) && Inv(Step(s, h, c, a), h)
  {
    StepRefines(s, h, c, a);
    StepMatches(s, h, c, a);
    StepPartsInv(s, h, c, a);
  }

  lemma StepPartsInv(s: State, h: Hash, c: nat, a: Action)
    requires Injective(h) && L.Inv(s.locks) && A.Inv(s.apply, h) && Enabled(s, h, c, a) && !Panics(s, h, c, a)
    requires A.Runs(s.apply, h, Abstract(s, h, c, a), Step(s, h, c, a).apply)
    ensures L.Inv(Step(s, h, c, a).locks) && A.Inv(Step(s, h, c, a).apply, h)
  {
    if a.Locking? { L.StepInv(s.locks, c, a.step); }
    A.RunInv(s.apply, h, Abstract(s, h, c, a), Step(s, h, c, a).apply);
  }

  ghost predicate Runs(s: State, h: Hash, schedule: seq<(nat, Action)>, t: State)
    decreases |schedule|
  {
    if schedule == [] then s == t
    else
      var (c, a) := schedule[0];
      Enabled(s, h, c, a) && !Panics(s, h, c, a) && Runs(Step(s, h, c, a), h, schedule[1..], t)
  }

  /** The callers of a schedule's commits, in that order. */
  function Committers(schedule: seq<(nat, Action)>): seq<nat> {
    if schedule == [] then []
    else (if schedule[0].1 == Commit then [schedule[0].0] else []) + Committers(schedule[1..])
  }

  lemma {:induction false} RunsConcat(s: A.State, h: Hash, a: seq<(nat, A.Action)>, t: A.State, b: seq<(nat, A.Action)>, u: A.State)
    requires A.Runs(s, h, a, t) && A.Runs(t, h, b, u)
    ensures A.Runs(s, h, a + b, u)
    decreases |a|
  {
    if a == [] {
      assert a + b == b;
    } else {
      RunsConcat(A.Step(s, h, a[0].0, a[0].1), h, a[1..], t, b, u);
      assert (a + b)[0] == a[0] && (a + b)[1..] == a[1..] + b;
    }
  }

  lemma {:induction false} CommittersConcat(a: seq<(nat, A.Action)>, b: seq<(nat, A.Action)>)
    ensures A.Committers(a + b) == A.Committers(a) + A.Committers(b)
  {
    if a == [] {
      assert a + b == b;
    } else {
      CommittersConcat(a[1..], b);
      assert (a + b)[0] == a[0] && (a + b)[1..] == a[1..] + b;
      var first := if a[0].1 == A.Commit then [a[0].0] else [];
      assert A.Committers(a + b) == first + (A.Committers(a[1..]) + A.Committers(b));
    }
  }

  lemma AbstractCommitters(s: State, h: Hash, c: nat, a: Action)
    requires Enabled(s, h, c, a)
    ensures A.Committers(Abstract(s, h, c, a)) == if a == Commit then [c] else []
  {
    var steps := Abstract(s, h, c, a);
    if steps != [] { assert steps[1..] == []; }
  }

  /** Every run with the real lock steps is a run of callers whose locks have one holder, with the same commits. */
  lemma {:induction false} RunRefines(s: State, h: Hash, schedule: seq<(nat, Action)>, t: State)
    returns (steps: seq<(nat, A.Action)>)
    requires Injective(h) && Inv(s, h) && Runs(s, h, schedule, t)
    ensures Inv(t, h) && A.Runs(s.apply, h, steps, t.apply) && A.Committers(steps) == Committers(schedule)
    decreases |schedule|
  {
    if schedule == [] {
      steps := [];
    } else {
      var (c, a) := schedule[0];
      StepInv(s, h, c, a);
      StepRefines(s, h, c, a);
      AbstractCommitters(s, h, c, a);
      var rest := RunRefines(Step(s, h, c, a), h, schedule[1..], t);
      RunsConcat(s.apply, h, Abstract(s, h, c, a), Step(s, h, c, a).apply, rest, t.apply);
      CommittersConcat(Abstract(s, h, c, a), rest);
      steps := Abstract(s, h, c, a) + rest;
    }
  }

  /** So, with nothing assumed about the locks: every run leads to the database that the committing callers'
      calls would have led to one after the other, and keeps every trait index in agreement with its table. */
  lemma EveryRun(s: State, h: Hash, schedule: seq<(nat, Action)>, t: State)
    requires Injective(h) && Init(s, h) && Runs(s, h, schedule, t)
    ensures A.OnceEach(s.apply.callers, Committers(schedule))
    ensures A.Serial(h, s.apply.db, A.Calls(s.apply.callers, Committers(schedule)), t.apply.db)
    ensures AllConsistent(t.apply.db, h)
  {
    InitInv(s, h);
    var steps := RunRefines(s, h, schedule, t);
    A.RunIsSerial(s.apply, h, steps, t.apply);
    A.EveryScheduleConsistent(s.apply, h, steps, t.apply);
  }

  /** And the status of a key between two chains is what these calls have put less what they have removed. */
  lemma EveryRunConserves(s: State, h: Hash, schedule: seq<(nat, Action)>, t: State, a: ID, b: ID, k: Bytes)
    requires Injective(h) && Init(s, h) && Runs(s, h, schedule, t) && a != b
    ensures A.OnceEach(s.apply.callers, Committers(schedule))
    ensures AtomicState.Status(StoreAt(t.apply.db, Inbound(h, b, a)), k) ==
            A.Traffic(A.Calls(s.apply.callers, Committers(schedule)), a, b, k)
  {
    InitInv(s, h);
    var steps := RunRefines(s, h, schedule, t);
    A.EveryScheduleConserves(s.apply, h, steps, t.apply, a, b, k);
  }

  // ---------------------------------------------------------------- progress

  /** No deadlock: while some caller is unfinished, some caller can step, and without giving up. */
  lemma NoDeadlock(s: State, h: Hash, c: nat)
    requires Inv(s, h) && c < |s.locks.callers| && !s.locks.callers[c].Done()
    ensures exists d: nat, a :: Enabled(s, h, d, a) && a != GiveUp
  {
    L.NoDeadlock(s.locks, c);
    var d: nat, x :| L.Enabled(s.locks, d, x);
    var p, q := s.locks.callers[d], s.apply.callers[d];
    assert Matches(p, q);
    if x == L.MakeLock && q.returned {
      assert Enabled(s, h, d, Locking(L.StartRelease));
    } else if x == L.StartRelease && !q.returned {
      NotStuck(s, h, d);
    } else {
      assert Enabled(s, h, d, Locking(x));
    }
  }

  /** A caller that is not waiting for a lock and has not returned can lock, perform or commit. */
  lemma NotStuck(s: State, h: Hash, d: nat)
    requires d < |s.locks.callers| && d < |s.apply.callers| && s.locks.callers[d].WellFormed()
    requires Matches(s.locks.callers[d], s.apply.callers[d]) && Listed(h, s.locks.callers[d], s.apply.callers[d])
    requires A.Pending(s.apply.db, h, s.apply.callers[d])
    requires s.locks.callers[d].phase == L.Acquiring && !s.apply.callers[d].returned
    ensures exists a :: Enabled(s, h, d, a) && a != GiveUp
  {
    var p, q := s.locks.callers[d], s.apply.callers[d];
    if p.held < |p.ids| {
      assert L.Enabled(s.locks, d, L.MakeLock);
      assert Enabled(s, h, d, Locking(L.MakeLock));
    } else if peer :| peer in q.requests && peer !in q.performed {
      assert p.ids[..p.held] == p.ids;
      assert Enabled(s, h, d, Perform(peer));
    } else {
      assert q.performed == q.requests.Keys;
      assert Enabled(s, h, d, Commit);
    }
  }
}
