/** Concurrent calls of Apply, Get and Indexed (chains/atomic/shared_memory.go) as a step machine: any number
of callers lock shared spaces one after the other, perform each peer's request on an overlay of the database
while others commit, and write the overlay at once before they let go of the locks. A call of Get or Indexed
is one without requests. That a lock has one holder at a time is here a condition of the Lock step; module
LockedApply shows that the locking protocol meets it.

Every call turns out to act as if it had run alone at one moment.
*/
module ConcurrentApply {
  import AtomicState
  import opened ByteStrings
  import opened SharedMemory

  /** One call of Apply: what it was asked for, the locks it holds, the peers it is done with, and the
      writes pending in its overlay. */
  datatype Caller = Caller(
    my: ID,
    requests: map<ID, Requests>,
    batches: seq<Batch>,
    held: set<ID>,
    performed: set<ID>,
    mem: Db,
    returned: bool)

  datatype State = State(db: Db, callers: seq<Caller>)

  datatype Action =
    | Lock(id: ID)        // GetSharedDatabase
    | Perform(peer: ID)   // the removes and puts of one peer
    | Commit              // CommitBatch and WriteAll
    | GiveUp              // the return of a reader, or after a failed write
    | Unlock(id: ID)      // the deferred ReleaseSharedDatabase

  ghost predicate Free(s: State, id: ID) {
    forall d :: 0 <= d < |s.callers| ==> id !in s.callers[d].held
  }

  ghost predicate Enabled(s: State, h: Hash, c: nat, a: Action) {
    c < |s.callers| &&
    var p := s.callers[c];
    match a
    case Lock(id) => !p.returned && Free(s, id)
    case Perform(peer) =>
      !p.returned && peer in p.requests && peer !in p.performed && SharedID(h, p.my, peer) in p.held
    case Commit => !p.returned && p.performed == p.requests.Keys
    case GiveUp => !p.returned
    case Unlock(id) => p.returned && id in p.held
  }

  /** What performing a peer's request adds to the overlay. It reads the database as it is then. */
  ghost function Writes(db: Db, h: Hash, my: ID, peer: ID, req: Requests): Db
    requires PeerOk(db, h, my, peer, req)
  {
    map slot | slot in PeerEffect(db, h, my, peer, req) && Touches(h, my, peer, slot) :: PeerEffect(db, h, my, peer, req)[slot]
  }

  ghost function Performed(db: Db, h: Hash, p: Caller, peer: ID): Caller
    requires peer in p.requests && PeerOk(db, h, p.my, peer, p.requests[peer])
  {
    p.(performed := p.performed + {peer}, mem := p.mem + Writes(db, h, p.my, peer, p.requests[peer]))
  }

  /** An error drops the overlay. */
  ghost function Return(p: Caller): Caller {
    p.(performed := {}, mem := map[], returned := true)
  }

  ghost function Step(s: State, h: Hash, c: nat, a: Action): State
    requires Enabled(s, h, c, a)
  {
    var p := s.callers[c];
    match a
    case Lock(id) => s.(callers := s.callers[c := p.(held := p.held + {id})])
    case Perform(peer) =>
      if PeerOk(s.db, h, p.my, peer, p.requests[peer]) then
        s.(callers := s.callers[c := Performed(s.db, h, p, peer)])
      else s.(callers := s.callers[c := Return(p)])
    case Commit => State(ReplayAll(s.db + p.mem, p.batches), s.callers[c := Return(p)])
    case GiveUp => s.(callers := s.callers[c := Return(p)])
    case Unlock(id) => s.(callers := s.callers[c := p.(held := p.held - {id})])
  }

  // ---------------------------------------------------------------- what every step keeps

  /** The overlay entries of one peer are what its request would write to the database now. */
  ghost predicate UpToDate(db: Db, h: Hash, p: Caller, peer: ID)
    requires peer in p.requests
  {
    && SharedID(h, p.my, peer) in p.held
    && PeerOk(db, h, p.my, peer, p.requests[peer])
    && (forall slot :: Touches(h, p.my, peer, slot) ==>
          SameSlot(p.mem, PeerEffect(db, h, p.my, peer, p.requests[peer]), slot))
  }

  ghost predicate Pending(db: Db, h: Hash, p: Caller) {
    && p.performed <= p.requests.Keys
    && (forall peer :: peer in p.performed ==> UpToDate(db, h, p, peer))
    && (forall slot :: slot in p.mem ==> exists peer :: peer in p.performed && Touches(h, p.my, peer, slot))
    && (forall i :: 0 <= i < |p.batches| ==> OutsideTables(p.batches[i]))
    && (p.returned ==> p.performed == {})
  }

  ghost predicate Exclusive(callers: seq<Caller>) {
    forall c, d :: 0 <= c < d < |callers| ==> callers[c].held !! callers[d].held
  }

  ghost predicate Inv(s: State, h: Hash) {
    Exclusive(s.callers) && forall c :: 0 <= c < |s.callers| ==> Pending(s.db, h, s.callers[c])
  }

  lemma TouchesShared(h: Hash, my: ID, peer: ID, slot: Slot)
    requires Touches(h, my, peer, slot)
    ensures slot.Table? && slot.shared == SharedID(h, my, peer)
  {
  }

  /** A caller does not notice changes outside the spaces it has locked. */
  lemma PendingElsewhere(a: Db, b: Db, h: Hash, p: Caller)
    requires Pending(a, h, p)
    requires forall slot: Slot :: slot.Table? && slot.shared in p.held ==> SameSlot(a, b, slot)
    ensures Pending(b, h, p)
  {
    forall peer | peer in p.performed ensures UpToDate(b, h, p, peer) {
      assert UpToDate(a, h, p, peer);
      forall slot | Touches(h, p.my, peer, slot) ensures SameSlot(a, b, slot) { TouchesShared(h, p.my, peer, slot); }
      PeerEffectDepends(a, b, h, p.my, peer, p.requests[peer]);
    }
  }

  /** A commit changes no table outside the spaces its caller has locked. */
  lemma CommitLocal(db: Db, h: Hash, p: Caller, slot: Slot)
    requires Pending(db, h, p) && slot.Table? && slot.shared !in p.held
    ensures SameSlot(db, ReplayAll(db + p.mem, p.batches), slot)
  {
    if slot in p.mem {
      var peer :| peer in p.performed && Touches(h, p.my, peer, slot);
      assert UpToDate(db, h, p, peer);
      TouchesShared(h, p.my, peer, slot);
    }
    RawKeepsAllSlots(db + p.mem, p.batches, slot);
  }

  /** The peers that were performed before are not affected, for they have other tables. */
  lemma PerformKeeps(db: Db, h: Hash, p: Caller, peer: ID, other: ID)
    requires Injective(h) && peer in p.requests && PeerOk(db, h, p.my, peer, p.requests[peer])
    requires other in p.requests && other != peer && UpToDate(db, h, p, other)
    ensures UpToDate(db, h, Performed(db, h, p, peer), other)
  {
    var q := Performed(db, h, p, peer);
    forall slot | Touches(h, p.my, other, slot)
      ensures SameSlot(q.mem, PeerEffect(db, h, p.my, other, p.requests[other]), slot)
    {
      assert SameSlot(p.mem, PeerEffect(db, h, p.my, other, p.requests[other]), slot);
      if Touches(h, p.my, peer, slot) { TouchedByOne(h, p.my, peer, other, slot); }
      assert slot !in Writes(db, h, p.my, peer, p.requests[peer]);
    }
  }

  lemma PerformAdds(db: Db, h: Hash, p: Caller, peer: ID)
    requires peer in p.requests && PeerOk(db, h, p.my, peer, p.requests[peer]) && SharedID(h, p.my, peer) in p.held
    ensures UpToDate(db, h, Performed(db, h, p, peer), peer)
  {
    var effect := PeerEffect(db, h, p.my, peer, p.requests[peer]);
    forall slot | Touches(h, p.my, peer, slot) ensures SameSlot(Performed(db, h, p, peer).mem, effect, slot) {
      EffectHas(db, h, p.my, peer, p.requests[peer], slot);
      assert slot in Writes(db, h, p.my, peer, p.requests[peer]);
    }
  }

  lemma EffectHas(db: Db, h: Hash, my: ID, peer: ID, req: Requests, slot: Slot)
    requires PeerOk(db, h, my, peer, req) && Touches(h, my, peer, slot)
    ensures slot in PeerEffect(db, h, my, peer, req)
  {
  }

  lemma PerformPending(db: Db, h: Hash, p: Caller, peer: ID)
    requires Injective(h) && Pending(db, h, p) && !p.returned
    requires peer in p.requests && peer !in p.performed && SharedID(h, p.my, peer) in p.held
    requires PeerOk(db, h, p.my, peer, p.requests[peer])
    ensures Pending(db, h, Performed(db, h, p, peer))
  {
    var q := Performed(db, h, p, peer);
    PerformAdds(db, h, p, peer);
    forall other | other in p.performed ensures UpToDate(db, h, q, other) { PerformKeeps(db, h, p, peer, other); }
    forall slot | slot in q.mem ensures exists r :: r in q.performed && Touches(h, q.my, r, slot) {
      if slot in p.mem {
        var r :| r in p.performed && Touches(h, p.my, r, slot);
        assert r in q.performed;
      } else {
        assert peer in q.performed && Touches(h, q.my, peer, slot);
      }
    }
  }

  lemma StepInv(s: State, h: Hash, c: nat, a: Action)
    requires Injective(h) && Inv(s, h) && Enabled(s, h, c, a)
    ensures Inv(Step(s, h, c, a), h)
  {
    var p, t := s.callers[c], Step(s, h, c, a);
    match a {
      case Lock(id) => PendingMoreHeld(s.db, h, p, p.held + {id});
      case Perform(peer) =>
        if PeerOk(s.db, h, p.my, peer, p.requests[peer]) { PerformPending(s.db, h, p, peer); }
      case Commit =>
        forall d | 0 <= d < |s.callers| && d != c ensures Pending(t.db, h, s.callers[d]) {
          forall slot: Slot | slot.Table? && slot.shared in s.callers[d].held ensures SameSlot(s.db, t.db, slot) {
            CommitLocal(s.db, h, p, slot);
          }
          PendingElsewhere(s.db, t.db, h, s.callers[d]);
        }
      case _ =>
    }
  }

  /** What a caller reads from a space it has locked does not change under it. */
  lemma HeldIsStable(s: State, h: Hash, c: nat, a: Action, d: nat, slot: Slot)
    requires Inv(s, h) && Enabled(s, h, c, a) && d < |s.callers| && d != c
    requires slot.Table? && slot.shared in s.callers[d].held
    ensures SameSlot(s.db, Step(s, h, c, a).db, slot)
  {
    if a == Commit { CommitLocal(s.db, h, s.callers[c], slot); }
  }

  lemma PendingMoreHeld(db: Db, h: Hash, p: Caller, held: set<ID>)
    requires Pending(db, h, p) && p.held <= held
    ensures Pending(db, h, p.(held := held))
  {
    forall peer | peer in p.performed ensures UpToDate(db, h, p.(held := held), peer) {
      assert UpToDate(db, h, p, peer);
    }
  }

  // ---------------------------------------------------------------- every call is atomic

  /** What is written at the end is what the whole call would have written to the database of that moment,
      whatever was committed while it ran. */
  lemma CommitIsApply(s: State, h: Hash, c: nat)
    requires Injective(h) && Inv(s, h) && Enabled(s, h, c, Commit)
    ensures var p := s.callers[c]; Commits(s.db, Step(s, h, c, Commit).db, h, p.my, p.requests, p.batches)
  {
    var p := s.callers[c];
    var mid := s.db + p.mem;
    forall peer | peer in p.requests ensures PeerApplied(s.db, mid, h, p.my, peer, p.requests[peer]) {
      assert UpToDate(s.db, h, p, peer);
      OverlayApplies(s.db, h, p, peer);
    }
    OverlayLocal(s.db, h, p);
    assert Applied(s.db, mid, h, p.my, p.requests, p.requests.Keys);
  }

  lemma OverlayApplies(db: Db, h: Hash, p: Caller, peer: ID)
    requires peer in p.requests && UpToDate(db, h, p, peer)
    ensures PeerApplied(db, db + p.mem, h, p.my, peer, p.requests[peer])
  {
    forall slot | Touches(h, p.my, peer, slot)
      ensures SameSlot(db + p.mem, PeerEffect(db, h, p.my, peer, p.requests[peer]), slot)
    {
      EffectHas(db, h, p.my, peer, p.requests[peer], slot);
    }
  }

  lemma OverlayLocal(db: Db, h: Hash, p: Caller)
    requires Pending(db, h, p)
    ensures forall slot :: (forall peer :: peer in p.requests ==> !Touches(h, p.my, peer, slot)) ==> SameSlot(db + p.mem, db, slot)
  {
  }

  /** Each step is an Apply of the caller on the whole database, or leaves it as it is: a failing request
      would have failed there and then on its own. */
  lemma StepIsAtomic(s: State, h: Hash, c: nat, a: Action)
    requires Injective(h) && Inv(s, h) && Enabled(s, h, c, a)
    ensures var p, t := s.callers[c], Step(s, h, c, a);
      && ApplyCall(h, s.db, t.db)
      && (a == Commit ==> Commits(s.db, t.db, h, p.my, p.requests, p.batches))
      && (a != Commit ==> t.db == s.db)
      && (a.Perform? && t.callers[c].returned ==> exists peer :: peer in p.requests && !PeerOk(s.db, h, p.my, peer, p.requests[peer]))
  {
    if a == Commit {
      CommitIsApply(s, h, c);
      assert Pending(s.db, h, s.callers[c]);
    }
  }

  ghost predicate Init(s: State) {
    && s.db == map[]
    && (forall c :: 0 <= c < |s.callers| ==>
          var p := s.callers[c];
          && p.held == {} && p.performed == {} && p.mem == map[] && !p.returned
          && AllOutside(p.batches))
  }

  ghost predicate Runs(s: State, h: Hash, schedule: seq<(nat, Action)>, t: State)
    decreases |schedule|
  {
    if schedule == [] then s == t
    else
      var (c, a) := schedule[0];
      Enabled(s, h, c, a) && Runs(Step(s, h, c, a), h, schedule[1..], t)
  }

  // ---------------------------------------------------------------- every schedule is serial

  datatype Call = Call(my: ID, requests: map<ID, Requests>, batches: seq<Batch>)

  ghost function CallOf(p: Caller): Call { Call(p.my, p.requests, p.batches) }

  /** Running the calls one after the other, each alone, leads from one database to the other. */
  ghost predicate Serial(h: Hash, before: Db, calls: seq<Call>, after: Db)
    decreases |calls|
  {
    if calls == [] then before == after
    else exists mid :: Commits(before, mid, h, calls[0].my, calls[0].requests, calls[0].batches)
                       && Serial(h, mid, calls[1..], after)
  }

  /** The callers of a schedule's commits, in that order. */
  function Committers(schedule: seq<(nat, Action)>): seq<nat> {
    if schedule == [] then []
    else (if schedule[0].1 == Commit then [schedule[0].0] else []) + Committers(schedule[1..])
  }

  ghost function Calls(callers: seq<Caller>, order: seq<nat>): seq<Call>
    requires forall i :: 0 <= i < |order| ==> order[i] < |callers|
  {
    seq(|order|, i requires 0 <= i < |order| => CallOf(callers[order[i]]))
  }

  ghost predicate SameCalls(a: seq<Caller>, b: seq<Caller>) {
    |a| == |b| && forall c :: 0 <= c < |a| ==> CallOf(a[c]) == CallOf(b[c])
  }

  /** Callers that have yet to return, each at most once. */
  ghost predicate OnceEach(callers: seq<Caller>, order: seq<nat>) {
    && (forall i :: 0 <= i < |order| ==> order[i] < |callers| && !callers[order[i]].returned)
    && (forall i, j :: 0 <= i < j < |order| ==> order[i] != order[j])
  }

  lemma OnceEachBefore(s: State, h: Hash, c: nat, a: Action, rest: seq<nat>)
    requires Enabled(s, h, c, a) && OnceEach(Step(s, h, c, a).callers, rest)
    ensures OnceEach(s.callers, if a == Commit then [c] + rest else rest)
  {
    var t := Step(s, h, c, a).callers;
    forall i | 0 <= i < |rest| ensures !s.callers[rest[i]].returned && (a == Commit ==> rest[i] != c) {
      assert !t[rest[i]].returned;
    }
  }

  lemma SerialCons(h: Hash, before: Db, mid: Db, first: Call, rest: seq<Call>, after: Db)
    requires Commits(before, mid, h, first.my, first.requests, first.batches) && Serial(h, mid, rest, after)
    ensures Serial(h, before, [first] + rest, after)
  {
    assert ([first] + rest)[1..] == rest;
  }

  lemma StepSameCalls(s: State, h: Hash, c: nat, a: Action)
    requires Enabled(s, h, c, a)
    ensures SameCalls(s.callers, Step(s, h, c, a).callers)
  {
  }

  lemma CallsSame(a: seq<Caller>, b: seq<Caller>, order: seq<nat>)
    requires SameCalls(a, b) && forall i :: 0 <= i < |order| ==> order[i] < |a|
    ensures Calls(a, order) == Calls(b, order)
  {
  }

  lemma CallsCons(callers: seq<Caller>, c: nat, rest: seq<nat>)
    requires c < |callers| && forall i :: 0 <= i < |rest| ==> rest[i] < |callers|
    ensures forall i :: 0 <= i < |[c] + rest| ==> ([c] + rest)[i] < |callers|
    ensures Calls(callers, [c] + rest) == [CallOf(callers[c])] + Calls(callers, rest)
  {
  }

  /** A commit adds its caller's call in front. */
  lemma CommitSerial(s: State, h: Hash, c: nat, rest: seq<nat>, after: Db)
    requires Injective(h) && Inv(s, h) && Enabled(s, h, c, Commit)
    requires forall i :: 0 <= i < |rest| ==> rest[i] < |s.callers|
    requires Serial(h, Step(s, h, c, Commit).db, Calls(s.callers, rest), after)
    ensures forall i :: 0 <= i < |[c] + rest| ==> ([c] + rest)[i] < |s.callers|
    ensures Serial(h, s.db, Calls(s.callers, [c] + rest), after)
  {
    CommitIsApply(s, h, c);
    CallsCons(s.callers, c, rest);
    SerialCons(h, s.db, Step(s, h, c, Commit).db, CallOf(s.callers[c]), Calls(s.callers, rest), after);
  }

  /** Each caller commits at most once. */
  lemma {:induction false} CommitsOnce(s: State, h: Hash, schedule: seq<(nat, Action)>, t: State)
    requires Runs(s, h, schedule, t)
    ensures OnceEach(s.callers, Committers(schedule))
    decreases |schedule|
  {
    if schedule != [] {
      var (c, a) := schedule[0];
      CommitsOnce(Step(s, h, c, a), h, schedule[1..], t);
      OnceEachBefore(s, h, c, a, Committers(schedule[1..]));
      CommittersStep(schedule);
    }
  }

  lemma CommittersStep(schedule: seq<(nat, Action)>)
    requires schedule != []
    ensures schedule[0].1 == Commit ==> Committers(schedule) == [schedule[0].0] + Committers(schedule[1..])
    ensures schedule[0].1 != Commit ==> Committers(schedule) == Committers(schedule[1..])
  {
  }

  lemma {:induction false} RunInv(s: State, h: Hash, schedule: seq<(nat, Action)>, t: State)
    requires Injective(h) && Inv(s, h) && Runs(s, h, schedule, t)
    ensures Inv(t, h) && SameCalls(s.callers, t.callers)
    decreases |schedule|
  {
    if schedule != [] {
      var (c, a) := schedule[0];
      StepInv(s, h, c, a);
      StepSameCalls(s, h, c, a);
      RunInv(Step(s, h, c, a), h, schedule[1..], t);
    }
  }

  /** Every schedule of concurrent calls leads to the database that the committing callers' own calls would
      have led to one after the other, each once and in the order of their commits. */
  lemma {:induction false} RunIsSerial(s: State, h: Hash, schedule: seq<(nat, Action)>, t: State)
    requires Injective(h) && Inv(s, h) && Runs(s, h, schedule, t)
    ensures OnceEach(s.callers, Committers(schedule))
    ensures Serial(h, s.db, Calls(s.callers, Committers(schedule)), t.db)
    decreases |schedule|
  {
    CommitsOnce(s, h, schedule, t);
    if schedule != [] {
      var (c, a) := schedule[0];
      StepInv(s, h, c, a);
      RunIsSerial(Step(s, h, c, a), h, schedule[1..], t);
      CommittersStep(schedule);
      SerialBefore(s, h, c, a, Committers(schedule[1..]), t.db);
    }
  }

  /** A step that does not commit adds nothing. */
  lemma SerialBefore(s: State, h: Hash, c: nat, a: Action, rest: seq<nat>, after: Db)
    requires Injective(h) && Inv(s, h) && Enabled(s, h, c, a)
    requires OnceEach(Step(s, h, c, a).callers, rest)
    requires Serial(h, Step(s, h, c, a).db, Calls(Step(s, h, c, a).callers, rest), after)
    ensures a != Commit ==> Serial(h, s.db, Calls(s.callers, rest), after)
    ensures a == Commit ==>
              && (forall i :: 0 <= i < |[c] + rest| ==> ([c] + rest)[i] < |s.callers|)
              && Serial(h, s.db, Calls(s.callers, [c] + rest), after)
  {
    StepSameCalls(s, h, c, a);
    CallsSame(s.callers, Step(s, h, c, a).callers, rest);
    if a == Commit { CommitSerial(s, h, c, rest, after); }
  }

  lemma {:induction false} SerialConsistent(h: Hash, before: Db, calls: seq<Call>, after: Db)
    requires Injective(h) && AllConsistent(before, h) && Serial(h, before, calls, after)
    requires forall i :: 0 <= i < |calls| ==> AllOutside(calls[i].batches)
    ensures AllConsistent(after, h)
    decreases |calls|
  {
    if calls != [] {
      var mid :| Commits(before, mid, h, calls[0].my, calls[0].requests, calls[0].batches) && Serial(h, mid, calls[1..], after);
      ApplyCallConsistent(h, before, mid);
      SerialConsistent(h, mid, calls[1..], after);
    }
  }

  /** So in every schedule of concurrent calls the trait indices agree with their tables. */
  lemma EveryScheduleConsistent(s: State, h: Hash, schedule: seq<(nat, Action)>, t: State)
    requires Injective(h) && Init(s) && Runs(s, h, schedule, t)
    ensures AllConsistent(t.db, h)
  {
    RunIsSerial(s, h, schedule, t);
    ReachableConsistent(h, [s.db]);
    SerialConsistent(h, s.db, Calls(s.callers, Committers(schedule)), t.db);
  }

  /** What the calls add to the status of a key that `a` sends to `b`, all together. */
  ghost function Traffic(calls: seq<Call>, a: ID, b: ID, k: Bytes): int {
    if calls == [] then 0 else Moved(calls[0].my, calls[0].requests, a, b, k) + Traffic(calls[1..], a, b, k)
  }

  lemma {:induction false} SerialMoves(h: Hash, before: Db, calls: seq<Call>, after: Db, a: ID, b: ID, k: Bytes)
    requires Injective(h) && Serial(h, before, calls, after) && a != b
    requires forall i :: 0 <= i < |calls| ==> AllOutside(calls[i].batches)
    ensures AtomicState.Status(StoreAt(after, Outbound(h, a, b)), k) ==
            AtomicState.Status(StoreAt(before, Outbound(h, a, b)), k) + Traffic(calls, a, b, k)
    decreases |calls|
  {
    if calls != [] {
      var call := calls[0];
      var mid :| Commits(before, mid, h, call.my, call.requests, call.batches) && Serial(h, mid, calls[1..], after);
      CommitsMoves(before, mid, h, call.my, call.requests, call.batches, a, b, k);
      SerialMoves(h, mid, calls[1..], after, a, b, k);
    }
  }

  /** Nothing is lost or made up between two chains: in every schedule of concurrent calls, the status of a key
      is the number of times the one chain has put it less the number of times the other has removed it, counting
      the calls that have committed. */
  lemma EveryScheduleConserves(s: State, h: Hash, schedule: seq<(nat, Action)>, t: State, a: ID, b: ID, k: Bytes)
    requires Injective(h) && Init(s) && Runs(s, h, schedule, t) && a != b
    ensures OnceEach(s.callers, Committers(schedule))
    ensures AtomicState.Status(StoreAt(t.db, Inbound(h, b, a)), k) == Traffic(Calls(s.callers, Committers(schedule)), a, b, k)
    ensures -1 <= Traffic(Calls(s.callers, Committers(schedule)), a, b, k) <= 1
  {
    RunIsSerial(s, h, schedule, t);
    SerialMoves(h, s.db, Calls(s.callers, Committers(schedule)), t.db, a, b, k);
    ChannelIsShared(h, a, b);
  }
}
