/** The peer bookkeeping of network/network.go: every region that runs under `peersLock` is one step.

The gossip tracker is the set of (peer, validator) pairs it records, and the primary-network validator
set is the tracker's table from transaction IDs to node IDs. Certificates and signatures are reduced to
the flag that authenticateIPs computed before the lock was taken. Dial goroutines may run their cleanup
for any node at any time.
*/
module Network {
  type NodeID = nat
  type TxID = nat
  type IPPort = nat

  datatype SignedIP = SignedIP(ipPort: IPPort, timestamp: nat)

  /** A claimed IP of a peer list, with the result of its authentication. */
  datatype Claim = Claim(nodeID: NodeID, ip: SignedIP, txID: TxID, verified: bool)

  /** An acknowledgement; `Malformed` has a transaction ID of the wrong length. */
  datatype Ack = Ack(txID: TxID, timestamp: nat) | Malformed

  /** How far a peer object's Disconnected call has come. */
  datatype Leaving = Stopped | FromConnecting | FromConnected

  datatype State = State(
    peerIPs: map<NodeID, SignedIP>,
    trackedIPs: map<NodeID, IPPort>,
    connecting: set<NodeID>,
    connected: set<NodeID>,
    leaving: map<NodeID, Leaving>,
    closing: bool,
    manual: set<NodeID>,
    validators: map<TxID, NodeID>,
    tracking: set<NodeID>,               // peers with a gossip bitset
    known: set<(NodeID, NodeID)>)        // (peer, validator): the peer knows the validator's IP

  const INITIAL := State(map[], map[], {}, {}, map[], false, {}, map[], {}, {})

  predicate Wants(s: State, n: NodeID) {
    n in s.validators.Values || n in s.manual
  }

  // ---------------------------------------------------------------- the locked regions

  /** GossipTracker.ResetValidator: nothing happens for a node that is no validator. */
  function ResetValidator(s: State, n: NodeID): State {
    if n in s.validators.Values then s.(known := set p | p in s.known && p.1 != n) else s
  }

  /** A fresher IP replaces the one we hold; what peers know about it is forgotten if it differs. */
  function ReplaceIP(s: State, n: NodeID, ip: SignedIP): State
    requires n in s.peerIPs
  {
    var u := s.(peerIPs := s.peerIPs[n := ip]);
    if s.peerIPs[n].ipPort == ip.ipPort then u else ResetValidator(u, n)
  }

  function Connected(s: State, n: NodeID, ip: SignedIP): State {
    if n !in s.connecting then s
    else
      var t :=
        if n !in s.peerIPs then s.(peerIPs := s.peerIPs[n := ip])
        else if s.peerIPs[n].timestamp < ip.timestamp then ReplaceIP(s, n, ip)
        else s;
      t.(trackedIPs := t.trackedIPs - {n}, connecting := t.connecting - {n}, connected := t.connected + {n})
  }

  /** The loop of Track: what it has changed so far and what it will report. */
  datatype Tracking = Tracking(state: State, newest: map<TxID, nat>, upToDate: set<TxID>)

  function TrackOne(t: Tracking, c: Claim): Tracking {
    var s, n := t.state, c.nodeID;
    if n in s.peerIPs && s.peerIPs[n].timestamp > c.ip.timestamp then
      t.(newest := t.newest[c.txID := s.peerIPs[n].timestamp])
    else if n in s.peerIPs && s.peerIPs[n].timestamp == c.ip.timestamp then
      t.(newest := t.newest[c.txID := s.peerIPs[n].timestamp], upToDate := t.upToDate + {c.txID})
    else if c.verified && n in s.peerIPs then
      var u := ReplaceIP(s, n, c.ip);
      var v := if s.peerIPs[n].ipPort != c.ip.ipPort && n in s.trackedIPs
               then u.(trackedIPs := u.trackedIPs[n := c.ip.ipPort]) else u;
      Tracking(v, t.newest[c.txID := c.ip.timestamp], t.upToDate + {c.txID})
    else if c.verified && n !in s.peerIPs && Wants(s, n) then
      Tracking(s.(peerIPs := s.peerIPs[n := c.ip], trackedIPs := s.trackedIPs[n := c.ip.ipPort]),
               t.newest[c.txID := c.ip.timestamp], t.upToDate + {c.txID})
    else t
  }

  function TrackAll(t: Tracking, claims: seq<Claim>): Tracking {
    if claims == [] then t else TrackOne(TrackAll(t, claims[..|claims| - 1]), claims[|claims| - 1])
  }

  /** GossipTracker.AddKnown, which ignores untracked peers and unknown transactions. */
  function AddKnown(s: State, peer: NodeID, txIDs: set<TxID>): State {
    if peer !in s.tracking then s
    else s.(known := s.known + set tx | tx in txIDs && tx in s.validators :: (peer, s.validators[tx]))
  }

  function Track(s: State, peer: NodeID, claims: seq<Claim>): State {
    var t := TrackAll(Tracking(s, map[], {}), claims);
    AddKnown(t.state, peer, t.upToDate)
  }

  /** The transactions a peer has acknowledged with a timestamp that is not behind ours. */
  function Acknowledged(s: State, acks: seq<Ack>): set<TxID> {
    set a | a in acks && a.Ack? && a.txID in s.validators && s.validators[a.txID] in s.peerIPs
            && s.peerIPs[s.validators[a.txID]].timestamp <= a.timestamp :: a.txID
  }

  /** A malformed acknowledgement is an error, and then nothing is recorded. */
  function MarkTracked(s: State, peer: NodeID, acks: seq<Ack>): State {
    if Malformed in acks then s else AddKnown(s, peer, Acknowledged(s, acks))
  }

  function ManuallyTrack(s: State, n: NodeID, ip: IPPort): State {
    if n in s.connected || n in s.trackedIPs then s else s.(trackedIPs := s.trackedIPs[n := ip])
  }

  function DisconnectedFromConnecting(s: State, n: NodeID): State {
    var t := s.(connecting := s.connecting - {n}, leaving := s.leaving - {n});
    if n !in s.trackedIPs || Wants(s, n) then t
    else t.(peerIPs := t.peerIPs - {n}, trackedIPs := t.trackedIPs - {n})
  }

  /** The read of peerIPs is unchecked in the source. */
  function DisconnectedFromConnected(s: State, n: NodeID): State
    requires Wants(s, n) ==> n in s.peerIPs
  {
    var t := s.(connected := s.connected - {n}, leaving := s.leaving - {n});
    if Wants(s, n) then t.(trackedIPs := t.trackedIPs[n := s.peerIPs[n].ipPort])
    else t.(peerIPs := t.peerIPs - {n})
  }

  /** What a dial goroutine does when its node is no longer wanted. */
  function DialCleanup(s: State, n: NodeID): State {
    if Wants(s, n) || n !in s.trackedIPs then s
    else s.(peerIPs := s.peerIPs - {n}, trackedIPs := s.trackedIPs - {n})
  }

  function Upgrade(s: State, n: NodeID): State {
    if s.closing || n in s.connecting || n in s.connected then s
    else s.(tracking := s.tracking + {n}, connecting := s.connecting + {n})
  }

  function StartClose(s: State): State {
    s.(closing := true, peerIPs := s.peerIPs - s.trackedIPs.Keys, trackedIPs := map[])
  }

  function AddValidator(s: State, tx: TxID, n: NodeID): State {
    if tx in s.validators || n in s.validators.Values then s else s.(validators := s.validators[tx := n])
  }

  function RemoveValidator(s: State, n: NodeID): State {
    s.(validators := map tx | tx in s.validators && s.validators[tx] != n :: s.validators[tx],
       known := set p | p in s.known && p.1 != n)
  }

  // ---------------------------------------------------------------- steps and runs

  datatype Action =
    | DoUpgrade(n: NodeID)
    | DoConnected(n: NodeID, ip: SignedIP)
    | DoTrack(peer: NodeID, claims: seq<Claim>)
    | DoMarkTracked(peer: NodeID, acks: seq<Ack>)
    | StopTracking(n: NodeID)            // the first part of Disconnected
    | TakeSnapshot(n: NodeID)            // its read-locked part
    | FinishConnecting(n: NodeID)        // disconnectedFromConnecting
    | FinishConnected(n: NodeID)         // disconnectedFromConnected
    | MarkManual(n: NodeID)
    | DoManuallyTrack(n: NodeID, ipPort: IPPort)
    | DoDialCleanup(n: NodeID)
    | DoAddValidator(tx: TxID, n: NodeID)
    | DoRemoveValidator(n: NodeID)
    | DoStartClose

  /** The promises of the peer objects: one Disconnected call per object, and no Connected call after
      it. Everything else can happen at any time. */
  ghost predicate Enabled(s: State, a: Action) {
    match a
    case DoConnected(n, _) => n !in s.leaving
    case StopTracking(n) => (n in s.connecting || n in s.connected) && n !in s.leaving
    case TakeSnapshot(n) => n in s.leaving && s.leaving[n] == Stopped
    case FinishConnecting(n) => n in s.leaving && s.leaving[n] == FromConnecting
    case FinishConnected(n) => n in s.leaving && s.leaving[n] == FromConnected
    case DoManuallyTrack(n, _) => n in s.manual
    case _ => true
  }

  /** The unchecked reads of peerIPs: in disconnectedFromConnected, and in Peers for a validator that
      is connected. */
  ghost predicate SafeReads(s: State) {
    && (forall n :: Enabled(s, FinishConnected(n)) && Wants(s, n) ==> n in s.peerIPs)
    && (forall n :: n in s.connected ==> n in s.peerIPs)
  }

  ghost function Step(s: State, a: Action): State
    requires Enabled(s, a) && SafeReads(s)
  {
    match a
    case DoUpgrade(n) => Upgrade(s, n)
    case DoConnected(n, ip) => Connected(s, n, ip)
    case DoTrack(peer, claims) => Track(s, peer, claims)
    case DoMarkTracked(peer, acks) => MarkTracked(s, peer, acks)
    case StopTracking(n) =>
      s.(tracking := s.tracking - {n}, known := (set p | p in s.known && p.0 != n), leaving := s.leaving[n := Stopped])
    case TakeSnapshot(n) =>
      s.(leaving := if n in s.connecting then s.leaving[n := FromConnecting]
                    else if n in s.connected then s.leaving[n := FromConnected]
                    else s.leaving - {n})
    case FinishConnecting(n) => DisconnectedFromConnecting(s, n)
    case FinishConnected(n) => DisconnectedFromConnected(s, n)
    case MarkManual(n) => s.(manual := s.manual + {n})
    case DoManuallyTrack(n, ip) => ManuallyTrack(s, n, ip)
    case DoDialCleanup(n) => DialCleanup(s, n)
    case DoAddValidator(tx, n) => AddValidator(s, tx, n)
    case DoRemoveValidator(n) => RemoveValidator(s, n)
    case DoStartClose => StartClose(s)
  }

  // ---------------------------------------------------------------- connection states

  /** What every interleaving keeps about the four tables. */
  ghost predicate Inv(s: State) {
    && s.connecting !! s.connected
    && (forall n :: n in s.connected ==> n in s.peerIPs && n !in s.trackedIPs)
    && (forall n :: n in s.trackedIPs && n !in s.manual ==> n in s.peerIPs)
    && (forall n :: n in s.leaving ==>
          && (s.leaving[n] == FromConnecting ==> n in s.connecting)
          && (s.leaving[n] == FromConnected ==> n in s.connected))
  }

  lemma InvSafe(s: State)
    requires Inv(s)
    ensures SafeReads(s)
  {
  }

  /** The parts of the state that the loop of Track does not touch. */
  ghost predicate SamePeers(s: State, t: State) {
    && t.connecting == s.connecting && t.connected == s.connected && t.leaving == s.leaving
    && t.closing == s.closing && t.manual == s.manual && t.validators == s.validators && t.tracking == s.tracking
  }

  /** One claim either leaves the keys of both tables alone or adds an unknown node to both. */
  ghost predicate SameKeysOrAdds(s: State, r: State, n: NodeID) {
    || (r.peerIPs.Keys == s.peerIPs.Keys && r.trackedIPs.Keys == s.trackedIPs.Keys)
    || (n !in s.peerIPs && r.peerIPs.Keys == s.peerIPs.Keys + {n} && r.trackedIPs.Keys == s.trackedIPs.Keys + {n})
  }

  lemma ReplaceIPFrame(s: State, n: NodeID, ip: SignedIP)
    requires n in s.peerIPs
    ensures SamePeers(s, ReplaceIP(s, n, ip))
    ensures ReplaceIP(s, n, ip).peerIPs == s.peerIPs[n := ip] && ReplaceIP(s, n, ip).trackedIPs == s.trackedIPs
    ensures ReplaceIP(s, n, ip).peerIPs.Keys == s.peerIPs.Keys
    ensures ReplaceIP(s, n, ip).known <= s.known
  {
  }

  lemma UpdateKeys<K, V>(m: map<K, V>, k: K, v: V)
    ensures m[k := v].Keys == m.Keys + {k}
  {
  }

  lemma TrackOneFrame(t: Tracking, c: Claim)
    ensures SamePeers(t.state, TrackOne(t, c).state)
    ensures SameKeysOrAdds(t.state, TrackOne(t, c).state, c.nodeID)
  {
    var s := t.state;
    if c.nodeID in s.peerIPs {
      ReplaceIPFrame(s, c.nodeID, c.ip);
    } else {
      UpdateKeys(s.peerIPs, c.nodeID, c.ip);
    }
    UpdateKeys(s.trackedIPs, c.nodeID, c.ip.ipPort);
    if c.nodeID in s.trackedIPs { assert s.trackedIPs.Keys + {c.nodeID} == s.trackedIPs.Keys; }
  }

  lemma InvByKeys(s: State, r: State, n: NodeID)
    requires Inv(s) && SamePeers(s, r) && SameKeysOrAdds(s, r, n)
    ensures Inv(r)
  {
    assert forall m :: m in r.peerIPs <==> m in r.peerIPs.Keys;
    assert forall m :: m in r.trackedIPs <==> m in r.trackedIPs.Keys;
  }

  lemma TrackOneInv(t: Tracking, c: Claim)
    requires Inv(t.state)
    ensures SamePeers(t.state, TrackOne(t, c).state)
    ensures Inv(TrackOne(t, c).state)
  {
    TrackOneFrame(t, c);
    InvByKeys(t.state, TrackOne(t, c).state, c.nodeID);
  }

  lemma {:induction false} TrackAllInv(t: Tracking, claims: seq<Claim>)
    requires Inv(t.state)
    ensures SamePeers(t.state, TrackAll(t, claims).state)
    ensures Inv(TrackAll(t, claims).state)
  {
    if claims != [] {
      TrackAllInv(t, claims[..|claims| - 1]);
      TrackOneInv(TrackAll(t, claims[..|claims| - 1]), claims[|claims| - 1]);
    }
  }

  lemma ConnectedInv(s: State, n: NodeID, ip: SignedIP)
    requires Inv(s) && n !in s.leaving
    ensures Inv(Connected(s, n, ip))
  {
  }

  lemma FinishConnectingInv(s: State, n: NodeID)
    requires Inv(s) && n in s.leaving && s.leaving[n] == FromConnecting
    ensures Inv(DisconnectedFromConnecting(s, n))
  {
  }

  lemma FinishConnectedInv(s: State, n: NodeID)
    requires Inv(s) && n in s.leaving && s.leaving[n] == FromConnected
    ensures n in s.peerIPs && Inv(DisconnectedFromConnected(s, n))
  {
  }

  lemma StepInv(s: State, a: Action)
    requires Inv(s) && Enabled(s, a)
    ensures SafeReads(s) && Inv(Step(s, a))
  {
    InvSafe(s);
    match a
    case DoTrack(peer, claims) => TrackAllInv(Tracking(s, map[], {}), claims);
    case DoConnected(n, ip) => ConnectedInv(s, n, ip);
    case FinishConnecting(n) => FinishConnectingInv(s, n);
    case FinishConnected(n) => FinishConnectedInv(s, n);
    case _ =>
  }

  ghost predicate Runs(s: State, actions: seq<Action>, t: State)
    decreases |actions|
  {
    if actions == [] then s == t
    else Enabled(s, actions[0]) && SafeReads(s) && Runs(Step(s, actions[0]), actions[1..], t)
  }

  lemma {:induction false} RunInv(s: State, actions: seq<Action>, t: State)
    requires Inv(s) && Runs(s, actions, t)
    ensures Inv(t)
    decreases |actions|
  {
    if actions != [] {
      StepInv(s, actions[0]);
      RunInv(Step(s, actions[0]), actions[1..], t);
    }
  }

  /** The guarantees about the connection tables in every interleaving. */
  lemma EveryRun(actions: seq<Action>, s: State)
    requires Runs(INITIAL, actions, s)
    ensures s.connecting !! s.connected
    ensures forall n :: n in s.connected ==> n in s.peerIPs && n !in s.trackedIPs
    ensures forall n :: n in s.trackedIPs && n !in s.manual ==> n in s.peerIPs
    ensures SafeReads(s)
  {
    RunInv(INITIAL, actions, s);
    InvSafe(s);
  }

  /** What Track relies on: a node without a known IP is not tracked. */
  ghost predicate TrackedAreKnown(s: State) {
    s.trackedIPs.Keys <= s.peerIPs.Keys
  }

  /** ManuallyTrack starts to dial a node of which we hold no IP. */
  ghost predicate DialsUnknown(s: State, a: Action) {
    a.DoManuallyTrack? && a.n !in s.connected && a.n !in s.trackedIPs && a.n !in s.peerIPs
  }

  lemma {:induction false} TrackAllKnown(t: Tracking, claims: seq<Claim>)
    requires TrackedAreKnown(t.state)
    ensures TrackedAreKnown(TrackAll(t, claims).state)
  {
    if claims != [] {
      var before := TrackAll(t, claims[..|claims| - 1]);
      TrackAllKnown(t, claims[..|claims| - 1]);
      TrackOneFrame(before, claims[|claims| - 1]);
    }
  }

  /** A step breaks it exactly if it is such a call. */
  lemma StepTrackedAreKnown(s: State, a: Action)
    requires Inv(s) && Enabled(s, a) && SafeReads(s) && TrackedAreKnown(s)
    ensures TrackedAreKnown(Step(s, a)) <==> !DialsUnknown(s, a)
  {
    match a
    case DoTrack(peer, claims) => TrackAllKnown(Tracking(s, map[], {}), claims);
    case DoConnected(n, ip) => if n in s.peerIPs { ReplaceIPFrame(s, n, ip); } else { UpdateKeys(s.peerIPs, n, ip); }
    case DoManuallyTrack(n, ip) => UpdateKeys(s.trackedIPs, n, ip);
    case FinishConnected(n) => if Wants(s, n) { UpdateKeys(s.trackedIPs, n, s.peerIPs[n].ipPort); }
    case _ =>
  }

  ghost predicate AlwaysTrackedAreKnown(s: State, actions: seq<Action>, t: State)
    requires Runs(s, actions, t)
    decreases |actions|
  {
    TrackedAreKnown(s) && (actions != [] ==> AlwaysTrackedAreKnown(Step(s, actions[0]), actions[1..], t))
  }

  ghost predicate NeverDialsUnknown(s: State, actions: seq<Action>, t: State)
    requires Runs(s, actions, t)
    decreases |actions|
  {
    actions != [] ==> !DialsUnknown(s, actions[0]) && NeverDialsUnknown(Step(s, actions[0]), actions[1..], t)
  }

  lemma {:induction false} TrackedAreKnownExactly(s: State, actions: seq<Action>, t: State)
    requires Inv(s) && TrackedAreKnown(s) && Runs(s, actions, t)
    ensures AlwaysTrackedAreKnown(s, actions, t) <==> NeverDialsUnknown(s, actions, t)
    decreases |actions|
  {
    if actions != [] {
      StepTrackedAreKnown(s, actions[0]);
      StepInv(s, actions[0]);
      if TrackedAreKnown(Step(s, actions[0])) {
        TrackedAreKnownExactly(Step(s, actions[0]), actions[1..], t);
      } else {
        assert !AlwaysTrackedAreKnown(Step(s, actions[0]), actions[1..], t);
      }
    }
  }

  /** From an empty network, what Track relies on holds throughout a run exactly if ManuallyTrack is never
      called for a node that is neither connected, nor tracked, nor known. */
  lemma TrackReliesOn(actions: seq<Action>, s: State)
    requires Runs(INITIAL, actions, s)
    ensures AlwaysTrackedAreKnown(INITIAL, actions, s) <==> NeverDialsUnknown(INITIAL, actions, s)
  {
    TrackedAreKnownExactly(INITIAL, actions, s);
  }

  /** And it does fail: a node that was tracked manually is tracked before its first gossiped IP. */
  lemma ManualBreaksTrackInvariant(n: NodeID, ip: IPPort) returns (actions: seq<Action>, s: State)
    ensures Runs(INITIAL, actions, s)
    ensures n !in s.peerIPs && Wants(s, n) && n in s.trackedIPs
  {
    var s1 := INITIAL.(manual := {n});
    s := s1.(trackedIPs := map[n := ip]);
    actions := [MarkManual(n), DoManuallyTrack(n, ip)];
    assert Step(INITIAL, actions[0]) == s1 && Step(s1, actions[1]) == s;
    assert actions[1..] == [DoManuallyTrack(n, ip)];
    assert Runs(s, [], s);
    assert Runs(s1, actions[1..], s);
  }

  // ---------------------------------------------------------------- what peers know

  /** The address we hold for a node, if any. */
  function AddressOf(s: State, n: NodeID): Address { if n in s.peerIPs then Held(s.peerIPs[n].ipPort) else NotHeld }

  datatype Address = Held(ipPort: IPPort) | NotHeld

  /** The IP we held when a pair was last recorded, and how often that validator's address had changed. */
  datatype Record = Record(ip: SignedIP, moves: nat)

  /** `heard` holds every (peer, validator, timestamp) a peer has gossiped or acknowledged; `moves` counts,
      for each node, the changes of the address we hold, its removals included. */
  datatype History = History(
    records: map<(NodeID, NodeID), Record>,
    heard: set<(NodeID, NodeID, nat)>,
    moves: NodeID -> nat)

  const NO_HISTORY := History(map[], {}, _ => 0)

  ghost function CountMoves(s: State, t: State, moves: NodeID -> nat): NodeID -> nat {
    n => if AddressOf(s, n) == AddressOf(t, n) then moves(n) else moves(n) + 1
  }

  /** Within Track, every claim may change an address. */
  ghost function TrackMoves(t: Tracking, claims: seq<Claim>, moves: NodeID -> nat): NodeID -> nat {
    if claims == [] then moves
    else
      var before := claims[..|claims| - 1];
      CountMoves(TrackAll(t, before).state, TrackAll(t, claims).state, TrackMoves(t, before, moves))
  }

  ghost function Recorded(s: State, moves: NodeID -> nat, peer: NodeID, txIDs: set<TxID>): map<(NodeID, NodeID), Record> {
    map tx | tx in txIDs && tx in s.validators && s.validators[tx] in s.peerIPs ::
      (peer, s.validators[tx]) := Record(s.peerIPs[s.validators[tx]], moves(s.validators[tx]))
  }

  ghost function Gossiped(peer: NodeID, claims: seq<Claim>): set<(NodeID, NodeID, nat)> {
    set c | c in claims :: (peer, c.nodeID, c.ip.timestamp)
  }

  ghost function Acked(s: State, peer: NodeID, acks: seq<Ack>): set<(NodeID, NodeID, nat)> {
    set a | a in acks && a.Ack? && a.txID in s.validators :: (peer, s.validators[a.txID], a.timestamp)
  }

  ghost function TrackHistory(s: State, h: History, peer: NodeID, claims: seq<Claim>): History {
    var t := TrackAll(Tracking(s, map[], {}), claims);
    var moves := TrackMoves(Tracking(s, map[], {}), claims, h.moves);
    History(h.records + Recorded(t.state, moves, peer, t.upToDate), h.heard + Gossiped(peer, claims), moves)
  }

  ghost function MarkHistory(s: State, h: History, peer: NodeID, acks: seq<Ack>): History {
    if Malformed in acks then h
    else
      History(h.records + Recorded(s, h.moves, peer, Acknowledged(s, acks)), h.heard + Acked(s, peer, acks), h.moves)
  }

  ghost function NextHistory(s: State, h: History, a: Action): History
    requires Enabled(s, a) && SafeReads(s)
  {
    match a
    case DoTrack(peer, claims) => TrackHistory(s, h, peer, claims)
    case DoMarkTracked(peer, acks) => MarkHistory(s, h, peer, acks)
    case _ => h.(moves := CountMoves(s, Step(s, a), h.moves))
  }

  /** `p` has gossiped or acknowledged an IP of `v` that is at least as fresh as `timestamp`. */
  ghost predicate HeardSince(heard: set<(NodeID, NodeID, nat)>, p: NodeID, v: NodeID, timestamp: nat) {
    exists ts :: (p, v, ts) in heard && timestamp <= ts
  }

  /** Why we do not gossip `v` to `p`: it told us of an IP no older than the one we held then, and
      our address for `v` has not changed since. */
  ghost predicate Justified(s: State, h: History, p: NodeID, v: NodeID) {
    && (p, v) in h.records && v in s.validators.Values && v in s.peerIPs
    && s.peerIPs[v].ipPort == h.records[(p, v)].ip.ipPort
    && h.moves(v) == h.records[(p, v)].moves
    && HeardSince(h.heard, p, v, h.records[(p, v)].ip.timestamp)
  }

  ghost predicate GossipInv(s: State, h: History) {
    forall p, v :: (p, v) in s.known ==> Justified(s, h, p, v)
  }

  /** The unverified transaction IDs of a peer list name the validators they come with. */
  ghost predicate Truthful(s: State, claims: seq<Claim>) {
    forall c :: c in claims && c.txID in s.validators ==> s.validators[c.txID] == c.nodeID
  }

  ghost predicate TruthfulAction(s: State, a: Action) {
    a.DoTrack? ==> Truthful(s, a.claims)
  }

  /** The peer has told us, in this call or before, about an IP of tx's validator that is at least as
      fresh as ours. */
  ghost predicate Covered(s: State, heard: set<(NodeID, NodeID, nat)>, peer: NodeID, tx: TxID)
    requires tx in s.validators
  {
    var v := s.validators[tx];
    v in s.peerIPs && HeardSince(heard, peer, v, s.peerIPs[v].timestamp)
  }

  ghost predicate AllCovered(t: Tracking, heard: set<(NodeID, NodeID, nat)>, peer: NodeID) {
    forall tx :: tx in t.upToDate && tx in t.state.validators ==> Covered(t.state, heard, peer, tx)
  }

  /** A step that keeps the known pairs of a validator does not change our address for it. */
  ghost predicate ForgetsMoved(s: State, t: State) {
    forall p, v :: (p, v) in t.known && v in s.validators.Values && v in s.peerIPs ==>
      (p, v) in s.known && v in t.validators.Values && AddressOf(s, v) == AddressOf(t, v)
  }

  lemma ForgettingKeepsJustified(s: State, t: State, h: History)
    requires GossipInv(s, h) && ForgetsMoved(s, t) && t.known <= s.known
    ensures GossipInv(t, h.(moves := CountMoves(s, t, h.moves)))
  {
    forall p, v | (p, v) in t.known
      ensures Justified(t, h.(moves := CountMoves(s, t, h.moves)), p, v)
    {
      assert Justified(s, h, p, v);
    }
  }

  lemma ReplaceForgetsMoved(s: State, n: NodeID, ip: SignedIP)
    requires n in s.peerIPs
    ensures ForgetsMoved(s, ReplaceIP(s, n, ip))
  {
  }

  lemma TrackOneForgetsMoved(t: Tracking, c: Claim)
    ensures ForgetsMoved(t.state, TrackOne(t, c).state) && TrackOne(t, c).state.known <= t.state.known
  {
    if c.nodeID in t.state.peerIPs { ReplaceForgetsMoved(t.state, c.nodeID, c.ip); }
  }

  lemma TrackOneCovered(t: Tracking, c: Claim, heard: set<(NodeID, NodeID, nat)>, peer: NodeID)
    requires AllCovered(t, heard, peer)
    requires Truthful(t.state, [c]) && (peer, c.nodeID, c.ip.timestamp) in heard
    ensures AllCovered(TrackOne(t, c), heard, peer)
  {
    var r := TrackOne(t, c);
    assert c in [c];
    forall tx | tx in r.upToDate && tx in r.state.validators
      ensures Covered(r.state, heard, peer, tx)
    {
      if tx in t.upToDate { assert Covered(t.state, heard, peer, tx); }
    }
  }

  lemma {:induction false} TrackAllGossip(t: Tracking, claims: seq<Claim>, h: History, peer: NodeID)
    requires Inv(t.state) && GossipInv(t.state, h) && AllCovered(t, h.heard, peer)
    requires Truthful(t.state, claims) && Gossiped(peer, claims) <= h.heard
    ensures GossipInv(TrackAll(t, claims).state, h.(moves := TrackMoves(t, claims, h.moves)))
    ensures AllCovered(TrackAll(t, claims), h.heard, peer)
  {
    if claims != [] {
      var before, c := claims[..|claims| - 1], claims[|claims| - 1];
      assert claims == before + [c];
      assert c in claims && (peer, c.nodeID, c.ip.timestamp) in Gossiped(peer, claims);
      TrackAllGossip(t, before, h, peer);
      TrackAllInv(t, before);
      TrackOneForgetsMoved(TrackAll(t, before), c);
      ForgettingKeepsJustified(TrackAll(t, before).state, TrackAll(t, claims).state,
                               h.(moves := TrackMoves(t, before, h.moves)));
      TrackOneCovered(TrackAll(t, before), c, h.heard, peer);
    }
  }

  lemma AddKnownGossip(s: State, h: History, peer: NodeID, txIDs: set<TxID>)
    requires GossipInv(s, h)
    requires forall tx :: tx in txIDs && tx in s.validators ==> Covered(s, h.heard, peer, tx)
    ensures GossipInv(AddKnown(s, peer, txIDs), h.(records := h.records + Recorded(s, h.moves, peer, txIDs)))
  {
    var g := h.(records := h.records + Recorded(s, h.moves, peer, txIDs));
    forall p, v | (p, v) in AddKnown(s, peer, txIDs).known
      ensures Justified(s, g, p, v)
    {
      if (p, v) in Recorded(s, h.moves, peer, txIDs) {
        var tx :| tx in txIDs && tx in s.validators && s.validators[tx] in s.peerIPs && (p, v) == (peer, s.validators[tx]);
        assert Covered(s, h.heard, peer, tx);
      } else {
        assert Justified(s, h, p, v);
      }
    }
  }

  lemma TrackGossip(s: State, h: History, peer: NodeID, claims: seq<Claim>)
    requires Inv(s) && GossipInv(s, h) && Truthful(s, claims)
    ensures GossipInv(Track(s, peer, claims), TrackHistory(s, h, peer, claims))
  {
    var g := h.(heard := h.heard + Gossiped(peer, claims));
    TrackAllGossip(Tracking(s, map[], {}), claims, g, peer);
    var t := TrackAll(Tracking(s, map[], {}), claims);
    AddKnownGossip(t.state, g.(moves := TrackMoves(Tracking(s, map[], {}), claims, h.moves)), peer, t.upToDate);
  }

  lemma MarkTrackedGossip(s: State, h: History, peer: NodeID, acks: seq<Ack>)
    requires GossipInv(s, h)
    ensures GossipInv(MarkTracked(s, peer, acks), MarkHistory(s, h, peer, acks))
  {
    if Malformed in acks { return; }
    var g := h.(heard := h.heard + Acked(s, peer, acks));
    forall tx | tx in Acknowledged(s, acks) ensures Covered(s, g.heard, peer, tx) {
      AcknowledgedCovered(s, g.heard, peer, acks, tx);
    }
    AddKnownGossip(s, g, peer, Acknowledged(s, acks));
  }

  lemma AcknowledgedCovered(s: State, heard: set<(NodeID, NodeID, nat)>, peer: NodeID, acks: seq<Ack>, tx: TxID)
    requires tx in Acknowledged(s, acks) && Acked(s, peer, acks) <= heard
    ensures Covered(s, heard, peer, tx)
  {
    var a :| a in acks && a.Ack? && a.txID == tx && s.peerIPs[s.validators[tx]].timestamp <= a.timestamp;
    assert (peer, s.validators[tx], a.timestamp) in Acked(s, peer, acks);
  }

  /** Dropping the IP of a node that is no validator concerns no known pair. */
  lemma DropForgetsMoved(s: State, t: State, n: NodeID)
    requires n !in s.validators.Values && t.peerIPs == s.peerIPs - {n}
    requires t.known == s.known && t.validators == s.validators
    ensures ForgetsMoved(s, t)
  {
  }

  lemma ConnectedForgetsMoved(s: State, n: NodeID, ip: SignedIP)
    ensures ForgetsMoved(s, Connected(s, n, ip)) && Connected(s, n, ip).known <= s.known
  {
    if n in s.peerIPs { ReplaceForgetsMoved(s, n, ip); }
  }

  lemma RemoveValidatorForgetsMoved(s: State, n: NodeID)
    ensures ForgetsMoved(s, RemoveValidator(s, n)) && RemoveValidator(s, n).known <= s.known
  {
    forall v | v in s.validators.Values && v != n ensures v in RemoveValidator(s, n).validators.Values {
      var tx :| tx in s.validators && s.validators[tx] == v;
      assert tx in RemoveValidator(s, n).validators;
    }
  }

  lemma AddValidatorForgetsMoved(s: State, tx: TxID, n: NodeID)
    ensures ForgetsMoved(s, AddValidator(s, tx, n)) && AddValidator(s, tx, n).known == s.known
  {
    forall v | v in s.validators.Values ensures v in AddValidator(s, tx, n).validators.Values {
      var other :| other in s.validators && s.validators[other] == v;
      assert other in AddValidator(s, tx, n).validators;
    }
  }

  /** Every other step forgets pairs rather than letting them go stale. */
  lemma OtherForgetsMoved(s: State, a: Action)
    requires Inv(s) && Enabled(s, a) && SafeReads(s)
    requires !a.DoTrack? && !a.DoMarkTracked? && !a.DoStartClose?
    ensures ForgetsMoved(s, Step(s, a)) && Step(s, a).known <= s.known
  {
    match a
    case DoConnected(n, ip) => ConnectedForgetsMoved(s, n, ip);
    case FinishConnecting(n) => if !Wants(s, n) && n in s.trackedIPs { DropForgetsMoved(s, Step(s, a), n); }
    case FinishConnected(n) => if !Wants(s, n) { DropForgetsMoved(s, Step(s, a), n); }
    case DoDialCleanup(n) => if !Wants(s, n) && n in s.trackedIPs { DropForgetsMoved(s, Step(s, a), n); }
    case DoRemoveValidator(n) => RemoveValidatorForgetsMoved(s, n);
    case DoAddValidator(tx, n) => AddValidatorForgetsMoved(s, tx, n);
    case _ =>
  }

  lemma OtherGossip(s: State, h: History, a: Action)
    requires Inv(s) && GossipInv(s, h) && Enabled(s, a) && SafeReads(s)
    requires !a.DoTrack? && !a.DoMarkTracked? && !a.DoStartClose?
    ensures GossipInv(Step(s, a), NextHistory(s, h, a))
  {
    OtherForgetsMoved(s, a);
    ForgettingKeepsJustified(s, Step(s, a), h);
  }

  lemma StepGossip(s: State, h: History, a: Action)
    requires Inv(s) && GossipInv(s, h) && Enabled(s, a) && SafeReads(s) && TruthfulAction(s, a) && !a.DoStartClose?
    ensures GossipInv(Step(s, a), NextHistory(s, h, a))
  {
    match a
    case DoTrack(peer, claims) => TrackGossip(s, h, peer, claims);
    case DoMarkTracked(peer, acks) => MarkTrackedGossip(s, h, peer, acks);
    case _ => OtherGossip(s, h, a);
  }

  /** A run with its history, of truthful peers, before StartClose. */
  ghost predicate OpenRun(s: State, h: History, actions: seq<Action>, t: State, g: History)
    decreases |actions|
  {
    if actions == [] then s == t && h == g
    else
      && Enabled(s, actions[0]) && SafeReads(s) && TruthfulAction(s, actions[0]) && !actions[0].DoStartClose?
      && OpenRun(Step(s, actions[0]), NextHistory(s, h, actions[0]), actions[1..], t, g)
  }

  /** Whenever a peer is recorded as knowing a validator, the record is justified. */
  lemma {:induction false} KnownIsJustified(s: State, h: History, actions: seq<Action>, t: State, g: History)
    requires Inv(s) && GossipInv(s, h) && OpenRun(s, h, actions, t, g)
    ensures GossipInv(t, g)
    decreases |actions|
  {
    if actions != [] {
      StepInv(s, actions[0]);
      StepGossip(s, h, actions[0]);
      KnownIsJustified(Step(s, actions[0]), NextHistory(s, h, actions[0]), actions[1..], t, g);
    }
  }

  /** From an empty network, in every run of truthful peers before StartClose: a peer that is recorded as
      knowing a validator told us of an IP no older than the one we held at the record, and our address for
      the validator has not changed since. */
  lemma EveryOpenRun(actions: seq<Action>, s: State, h: History, p: NodeID, v: NodeID)
    requires OpenRun(INITIAL, NO_HISTORY, actions, s, h) && (p, v) in s.known
    ensures (p, v) in h.records && v in s.peerIPs
    ensures HeardSince(h.heard, p, v, h.records[(p, v)].ip.timestamp)
    ensures s.peerIPs[v].ipPort == h.records[(p, v)].ip.ipPort && h.moves(v) == h.records[(p, v)].moves
  {
    KnownIsJustified(INITIAL, NO_HISTORY, actions, s, h);
    assert Justified(s, h, p, v);
  }

  /** A run with its history, of any peers. */
  ghost predicate AnyRun(s: State, h: History, actions: seq<Action>, t: State, g: History)
    decreases |actions|
  {
    if actions == [] then s == t && h == g
    else
      && Enabled(s, actions[0]) && SafeReads(s)
      && AnyRun(Step(s, actions[0]), NextHistory(s, h, actions[0]), actions[1..], t, g)
  }

  lemma {:induction false} AnyRunExtends(s: State, h: History, actions: seq<Action>, t: State, g: History, a: Action)
    requires AnyRun(s, h, actions, t, g) && Enabled(t, a) && SafeReads(t)
    ensures AnyRun(s, h, actions + [a], Step(t, a), NextHistory(t, g, a))
    decreases |actions|
  {
    if actions == [] {
      assert [a][1..] == [];
    } else {
      AnyRunExtends(Step(s, actions[0]), NextHistory(s, h, actions[0]), actions[1..], t, g, a);
      assert (actions + [a])[1..] == actions[1..] + [a];
    }
  }

  /** Truthful transaction IDs are needed: by naming one validator's transaction with another node's IP, a
      peer is recorded as knowing a validator it has never mentioned. */
  lemma UntruthfulRecordsUnmentioned(p: NodeID, u: NodeID, v: NodeID, tx: TxID, ip: SignedIP)
    returns (actions: seq<Action>, s: State, h: History)
    requires p != v && u != v
    ensures AnyRun(INITIAL, NO_HISTORY, actions, s, h)
    ensures (p, u) in s.known && forall ts :: (p, u, ts) !in h.heard
  {
    actions, s, h := OneKnownNode(p, u, v, tx, ip);
    MislabelledClaim(s, p, v, tx);
    actions, s, h := Extended(INITIAL, NO_HISTORY, actions, s, h, DoTrack(p, [Claim(v, ip, tx, false)]));
  }

  /** `p` has a connection, `v` is known, `u` is the validator of `tx`, and nothing was heard. */
  lemma OneKnownNode(p: NodeID, u: NodeID, v: NodeID, tx: TxID, ip: SignedIP)
    returns (actions: seq<Action>, s: State, h: History)
    requires p != v
    ensures AnyRun(INITIAL, NO_HISTORY, actions, s, h) && Inv(s)
    ensures p in s.tracking && s.peerIPs == map[v := ip] && s.validators == map[tx := u] && h.heard == {}
  {
    actions, s, h := TwoConnecting(p, v);
    actions, s, h := Extended(INITIAL, NO_HISTORY, actions, s, h, DoConnected(v, ip));
    assert s == INITIAL.(tracking := {p, v}, connecting := {p, v} - {v}, connected := {v}, peerIPs := map[v := ip]);
    actions, s, h := Extended(INITIAL, NO_HISTORY, actions, s, h, DoAddValidator(tx, u));
  }

  lemma TwoConnecting(p: NodeID, v: NodeID) returns (actions: seq<Action>, s: State, h: History)
    requires p != v
    ensures AnyRun(INITIAL, NO_HISTORY, actions, s, h) && Inv(s)
    ensures s == INITIAL.(tracking := {p, v}, connecting := {p, v}) && h.heard == {}
  {
    actions, s, h := [], INITIAL, NO_HISTORY;
    actions, s, h := Extended(INITIAL, NO_HISTORY, actions, s, h, DoUpgrade(p));
    actions, s, h := Extended(INITIAL, NO_HISTORY, actions, s, h, DoUpgrade(v));
  }

  lemma MislabelledClaim(s: State, p: NodeID, v: NodeID, tx: TxID)
    requires p in s.tracking && v in s.peerIPs && tx in s.validators
    ensures (p, s.validators[tx]) in Track(s, p, [Claim(v, s.peerIPs[v], tx, false)]).known
  {
    TrackOneClaim(s, Claim(v, s.peerIPs[v], tx, false));
  }

  lemma Extended(s0: State, h0: History, actions: seq<Action>, s: State, h: History, a: Action)
    returns (longer: seq<Action>, t: State, g: History)
    requires AnyRun(s0, h0, actions, s, h) && Enabled(s, a) && Inv(s)
    ensures SafeReads(s) && t == Step(s, a) && g == NextHistory(s, h, a) && Inv(t)
    ensures AnyRun(s0, h0, longer, t, g)
  {
    StepInv(s, a);
    AnyRunExtends(s0, h0, actions, s, h, a);
    longer, t, g := actions + [a], Step(s, a), NextHistory(s, h, a);
  }

  lemma TrackOneClaim(s: State, c: Claim)
    ensures TrackAll(Tracking(s, map[], {}), [c]) == TrackOne(Tracking(s, map[], {}), c)
  {
    assert TrackAll(Tracking(s, map[], {}), [c][..0]) == Tracking(s, map[], {});
  }

  // ---------------------------------------------------------------- the network object

  /** The fields of `network` that peersLock guards, with one method per locked region. */
  class PeerTable {
    var peerIPs: map<NodeID, SignedIP>
    var trackedIPs: map<NodeID, IPPort>
    var connectingPeers: set<NodeID>
    var connectedPeers: set<NodeID>
    var closing: bool
    var manuallyTrackedIDs: set<NodeID>
    var validators: map<TxID, NodeID>
    var tracking: set<NodeID>
    var known: set<(NodeID, NodeID)>
    ghost var leaving: map<NodeID, Leaving>

    ghost function Abs(): State
      reads this
    {
      State(peerIPs, trackedIPs, connectingPeers, connectedPeers, leaving, closing, manuallyTrackedIDs,
            validators, tracking, known)
    }

    ghost predicate Valid()
      reads this
    {
      Inv(Abs())
    }

    constructor ()
      ensures Valid() && Abs() == INITIAL
    {
      peerIPs, trackedIPs, connectingPeers, connectedPeers := map[], map[], {}, {};
      closing, manuallyTrackedIDs, validators, tracking, known := false, {}, map[], {}, {};
      leaving := map[];
    }

    method WantsConnection(n: NodeID) returns (b: bool)
      ensures b == Wants(Abs(), n)
    {
      b := n in validators.Values || n in manuallyTrackedIDs;
    }

    method Upgrade(n: NodeID)
      requires Valid()
      modifies this
      ensures SafeReads(old(Abs())) && Abs() == Step(old(Abs()), DoUpgrade(n)) && Valid()
    {
      if closing || n in connectingPeers || n in connectedPeers { return; }
      tracking := tracking + {n};
      connectingPeers := connectingPeers + {n};
    }

    method ResetGossip(n: NodeID)
      modifies this`known
      ensures Abs() == ResetValidator(old(Abs()), n)
    {
      if n in validators.Values {
        known := set p | p in known && p.1 != n;
      }
    }

    method Connected(n: NodeID, newIP: SignedIP)
      requires Valid() && Enabled(Abs(), DoConnected(n, newIP))
      modifies this
      ensures SafeReads(old(Abs())) && Abs() == Step(old(Abs()), DoConnected(n, newIP)) && Valid()
      ensures n in old(connectingPeers) ==> n in connectedPeers && n in peerIPs && n !in trackedIPs
      ensures n in old(connectingPeers) && n in old(peerIPs) && newIP.timestamp <= old(peerIPs)[n].timestamp ==>
                peerIPs[n] == old(peerIPs)[n]
      ensures n in old(connectingPeers) && (n in old(peerIPs) ==> old(peerIPs)[n].timestamp < newIP.timestamp) ==>
                peerIPs[n] == newIP
    {
      StepInv(Abs(), DoConnected(n, newIP));
      if n !in connectingPeers { return; }
      if n !in peerIPs {
        peerIPs := peerIPs[n := newIP];
      } else if peerIPs[n].timestamp < newIP.timestamp {
        var prevIP := peerIPs[n];
        peerIPs := peerIPs[n := newIP];
        if prevIP.ipPort != newIP.ipPort { ResetGossip(n); }
      }
      trackedIPs := trackedIPs - {n};
      connectingPeers := connectingPeers - {n};
      connectedPeers := connectedPeers + {n};
    }

    /** The acknowledgements carry, per validator transaction, the freshest timestamp we know. */
    method Track(peer: NodeID, claims: seq<Claim>) returns (acks: map<TxID, nat>)
      requires Valid()
      modifies this
      ensures SafeReads(old(Abs())) && Abs() == Step(old(Abs()), DoTrack(peer, claims)) && Valid()
      ensures var newest := TrackAll(Tracking(old(Abs()), map[], {}), claims).newest;
              acks == if peer in tracking then map tx | tx in newest && tx in validators :: newest[tx] else map[]
    {
      StepInv(Abs(), DoTrack(peer, claims));
      ghost var start := Tracking(Abs(), map[], {});
      var newest: map<TxID, nat>, upToDate: set<TxID> := map[], {};
      assert claims[..0] == [];
      for i := 0 to |claims|
        invariant Tracking(Abs(), newest, upToDate) == TrackAll(start, claims[..i])
      {
        assert claims[..i + 1][..i] == claims[..i];
        newest, upToDate := TrackClaim(claims[i], newest, upToDate);
      }
      assert claims[..|claims|] == claims;
      if peer !in tracking { return map[]; }
      known := known + set tx | tx in upToDate && tx in validators :: (peer, validators[tx]);
      acks := map tx | tx in newest && tx in validators :: newest[tx];
    }

    method TrackClaim(c: Claim, newest: map<TxID, nat>, upToDate: set<TxID>)
      returns (newest': map<TxID, nat>, upToDate': set<TxID>)
      modifies this
      ensures Tracking(Abs(), newest', upToDate') == TrackOne(Tracking(old(Abs()), newest, upToDate), c)
    {
      newest', upToDate' := newest, upToDate;
      var n, ip := c.nodeID, c.ip;
      var wants := WantsConnection(n);
      if n in peerIPs && peerIPs[n].timestamp > ip.timestamp {
        newest' := newest[c.txID := peerIPs[n].timestamp];
      } else if n in peerIPs && peerIPs[n].timestamp == ip.timestamp {
        newest', upToDate' := newest[c.txID := peerIPs[n].timestamp], upToDate + {c.txID};
      } else if c.verified && n in peerIPs {
        newest', upToDate' := newest[c.txID := ip.timestamp], upToDate + {c.txID};
        var prevIP := peerIPs[n];
        peerIPs := peerIPs[n := ip];
        if prevIP.ipPort == ip.ipPort { return; }
        ResetGossip(n);
        if n in trackedIPs { trackedIPs := trackedIPs[n := ip.ipPort]; }
      } else if c.verified && wants {
        newest', upToDate' := newest[c.txID := ip.timestamp], upToDate + {c.txID};
        peerIPs := peerIPs[n := ip];
        trackedIPs := trackedIPs[n := ip.ipPort];
      }
    }

    /** Fails exactly on a malformed acknowledgement. */
    method MarkTracked(peer: NodeID, acks: seq<Ack>) returns (ok: bool)
      requires Valid()
      modifies this
      ensures ok <==> Malformed !in acks
      ensures SafeReads(old(Abs())) && Abs() == Step(old(Abs()), DoMarkTracked(peer, acks)) && Valid()
    {
      StepInv(Abs(), DoMarkTracked(peer, acks));
      var txIDs: set<TxID> := {};
      for i := 0 to |acks|
        invariant txIDs == Acknowledged(Abs(), acks[..i])
        invariant Abs() == old(Abs()) && Malformed !in acks[..i]
      {
        var a := acks[i];
        assert acks[..i + 1] == acks[..i] + [a];
        if a.Malformed? { return false; }
        if a.txID in validators && validators[a.txID] in peerIPs && peerIPs[validators[a.txID]].timestamp <= a.timestamp {
          txIDs := txIDs + {a.txID};
        }
      }
      assert acks[..|acks|] == acks;
      if peer in tracking {
        known := known + set tx | tx in txIDs && tx in validators :: (peer, validators[tx]);
      }
      ok := true;
    }

    /** GossipTracker.StopTrackingPeer, the first part of Disconnected. */
    method StopTrackingPeer(n: NodeID)
      requires Valid() && Enabled(Abs(), StopTracking(n))
      modifies this
      ensures SafeReads(old(Abs())) && Abs() == Step(old(Abs()), StopTracking(n)) && Valid()
    {
      tracking := tracking - {n};
      known := set p | p in known && p.0 != n;
      leaving := leaving[n := Stopped];
    }

    /** Which of the two clean-ups Disconnected will run. */
    method ReadConnection(n: NodeID) returns (connecting: bool, connected: bool)
      requires Valid() && Enabled(Abs(), TakeSnapshot(n))
      modifies this`leaving
      ensures SafeReads(old(Abs())) && Abs() == Step(old(Abs()), TakeSnapshot(n)) && Valid()
      ensures connecting ==> Enabled(Abs(), FinishConnecting(n))
      ensures connected ==> Enabled(Abs(), FinishConnected(n))
    {
      connecting, connected := n in connectingPeers, n in connectedPeers;
      leaving := if connecting then leaving[n := FromConnecting]
                 else if connected then leaving[n := FromConnected] else leaving - {n};
    }

    method DisconnectedFromConnecting(n: NodeID)
      requires Valid() && Enabled(Abs(), FinishConnecting(n))
      modifies this
      ensures SafeReads(old(Abs())) && Abs() == Step(old(Abs()), FinishConnecting(n)) && Valid()
    {
      StepInv(Abs(), FinishConnecting(n));
      var wants := WantsConnection(n);
      connectingPeers := connectingPeers - {n};
      leaving := leaving - {n};
      if n in trackedIPs && !wants {
        peerIPs := peerIPs - {n};
        trackedIPs := trackedIPs - {n};
      }
    }

    method DisconnectedFromConnected(n: NodeID)
      requires Valid() && Enabled(Abs(), FinishConnected(n))
      modifies this
      ensures SafeReads(old(Abs())) && Abs() == Step(old(Abs()), FinishConnected(n)) && Valid()
    {
      StepInv(Abs(), FinishConnected(n));
      var wants := WantsConnection(n);
      connectedPeers := connectedPeers - {n};
      leaving := leaving - {n};
      if wants {
        var prevIP := peerIPs[n];
        trackedIPs := trackedIPs[n := prevIP.ipPort];
      } else {
        peerIPs := peerIPs - {n};
      }
    }

    method ManuallyTrack(n: NodeID, ip: IPPort)
      requires Valid() && Enabled(Abs(), DoManuallyTrack(n, ip))
      modifies this
      ensures SafeReads(old(Abs())) && Abs() == Step(old(Abs()), DoManuallyTrack(n, ip)) && Valid()
    {
      if n in connectedPeers { return; }
      if n !in trackedIPs { trackedIPs := trackedIPs[n := ip]; }
    }

    method DialCleanup(n: NodeID)
      requires Valid()
      modifies this
      ensures SafeReads(old(Abs())) && Abs() == Step(old(Abs()), DoDialCleanup(n)) && Valid()
    {
      var wants := WantsConnection(n);
      if !wants && n in trackedIPs {
        peerIPs := peerIPs - {n};
        trackedIPs := trackedIPs - {n};
      }
    }

    method StartClose()
      requires Valid()
      modifies this
      ensures SafeReads(old(Abs())) && Abs() == Step(old(Abs()), DoStartClose) && Valid()
    {
      StepInv(Abs(), DoStartClose);
      closing := true;
      DropTracked();
    }

    method DropTracked()
      modifies `peerIPs, `trackedIPs
      ensures peerIPs == old(peerIPs) - old(trackedIPs).Keys && trackedIPs == map[]
    {
      while trackedIPs != map[]
        invariant peerIPs - trackedIPs.Keys == old(peerIPs) - old(trackedIPs).Keys
        decreases trackedIPs.Keys
      {
        var n :| n in trackedIPs;
        ghost var before := peerIPs - trackedIPs.Keys;
        peerIPs := peerIPs - {n};
        trackedIPs := trackedIPs - {n};
        assert peerIPs - trackedIPs.Keys == before;
      }
      assert peerIPs - trackedIPs.Keys == peerIPs;
    }
  }

  // ---------------------------------------------------------------- choosing what to gossip

  /** A validator's IP as it is sent to a peer. */
  datatype Gossip = Gossip(txID: TxID, nodeID: NodeID, ip: SignedIP)

  /** GossipTracker.GetUnknown: `drawn` lists, each once, the transactions of the validators that the peer is
      not recorded as knowing. The order is the sampler's. */
  ghost predicate ListsUnknown(s: State, peer: NodeID, drawn: seq<TxID>) {
    && (forall i, j :: 0 <= i < j < |drawn| ==> drawn[i] != drawn[j])
    && (forall tx :: tx in drawn <==> tx in s.validators && (peer, s.validators[tx]) !in s.known)
  }

  /** What is sent for the validator drawn at position `i`, if the table `now` has it connected. */
  ghost predicate Sends(s: State, drawn: seq<TxID>, tables: seq<State>, i: nat, g: Gossip)
    requires |tables| == |drawn|
  {
    && i < |drawn| && drawn[i] in s.validators
    && var n := s.validators[drawn[i]];
       n in tables[i].connected && n in tables[i].peerIPs && g == Gossip(drawn[i], n, tables[i].peerIPs[n])
  }

  /** Peers: at most `limit` of the validators that the peer does not know, those that are connected, each
      with the IP we hold. The tables are read once per validator, and may change in between: `tables[i]` is
      what they are at the i-th reading. The read of peerIPs is unchecked. */
  method Peers(s: State, peer: NodeID, drawn: seq<TxID>, tables: seq<State>, limit: nat) returns (found: bool, result: seq<Gossip>)
    requires ListsUnknown(s, peer, drawn) && |tables| == |drawn|
    requires forall i :: 0 <= i < |tables| ==> Inv(tables[i])
    ensures found <==> peer in s.tracking
    ensures !found ==> result == []
    ensures |result| <= limit
    ensures forall g :: g in result ==>
              g.txID in s.validators && (peer, g.nodeID) !in s.known && exists i: nat :: Sends(s, drawn, tables, i, g)
    ensures found && |result| < limit ==> forall i: nat, g :: Sends(s, drawn, tables, i, g) ==> g in result
    ensures forall j, k :: 0 <= j < k < |result| ==> result[j].txID != result[k].txID
  {
    if peer !in s.tracking { return false, []; }
    result := [];
    var i := 0;
    while i < |drawn| && |result| < limit
      invariant i <= |drawn| && |result| <= limit
      invariant forall g :: g in result ==> (peer, g.nodeID) !in s.known && exists k: nat :: Sends(s, drawn, tables, k, g)
      invariant forall k: nat, g :: k < i && Sends(s, drawn, tables, k, g) ==> g in result
      invariant forall j :: 0 <= j < |result| ==> result[j].txID in drawn[..i]
      invariant forall j, k :: 0 <= j < k < |result| ==> result[j].txID != result[k].txID
    {
      assert drawn[i] in drawn && drawn[i] !in drawn[..i] && Inv(tables[i]);
      var n := s.validators[drawn[i]];
      if n in tables[i].connected {
        var g := Gossip(drawn[i], n, tables[i].peerIPs[n]);
        assert Sends(s, drawn, tables, i, g);
        result := result + [g];
      }
      i := i + 1;
    }
    found := true;
  }
}
