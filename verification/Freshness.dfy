/** What the peer tables hold over whole runs (network/network.go): which IP of a node is kept, what is dialled,
who takes part in gossip, and what the loop of Track reports. */
module Freshness {
  import opened Network

  // ---------------------------------------------------------------- which IP is kept

  /** The step offers us `ip` as the IP of `n`: a handshake that completes, or a verified claim. */
  ghost predicate Offers(s: State, a: Action, n: NodeID, ip: SignedIP) {
    match a
    case DoConnected(m, i) => m == n && i == ip && n in s.connecting
    case DoTrack(_, claims) => Claimed(claims, n, ip)
    case _ => false
  }

  ghost predicate Claimed(claims: seq<Claim>, n: NodeID, ip: SignedIP) {
    exists i :: 0 <= i < |claims| && claims[i].verified && claims[i].nodeID == n && claims[i].ip == ip
  }

  /** The step drops the IP of `n`: its connection or its dialling ends and it is not wanted, or we close. */
  ghost predicate Drops(s: State, a: Action, n: NodeID) {
    match a
    case FinishConnecting(m) => m == n && n in s.trackedIPs && !Wants(s, n)
    case FinishConnected(m) => m == n && !Wants(s, n)
    case DoDialCleanup(m) => m == n && n in s.trackedIPs && !Wants(s, n)
    case DoStartClose => n in s.trackedIPs
    case _ => false
  }

  /** What is held after offers: the freshest of them and of what was held, which only a fresher one replaces. */
  ghost predicate Freshest(held: map<NodeID, SignedIP>, offered: SignedIP -> bool, n: NodeID, ip: SignedIP) {
    && ((n in held && ip == held[n]) || offered(ip))
    && (n in held && ip != held[n] ==> held[n].timestamp < ip.timestamp)
    && (forall other :: offered(other) ==> other.timestamp <= ip.timestamp)
  }

  /** Offers after offers. */
  lemma FreshestThen(held: map<NodeID, SignedIP>, first: SignedIP -> bool, then_: map<NodeID, SignedIP>,
                     second: SignedIP -> bool, both: SignedIP -> bool, n: NodeID, ip: SignedIP)
    requires if n in then_ then Freshest(held, first, n, then_[n]) else n !in held && forall i :: !first(i)
    requires Freshest(then_, second, n, ip) && forall i :: both(i) <==> first(i) || second(i)
    ensures Freshest(held, both, n, ip)
  {
  }

  lemma ConnectedFreshest(s: State, n: NodeID, ip: SignedIP)
    requires n in s.connecting
    ensures n in Connected(s, n, ip).peerIPs
    ensures Freshest(s.peerIPs, i => i == ip, n, Connected(s, n, ip).peerIPs[n])
    ensures forall m :: m != n ==> SameIP(s, Connected(s, n, ip), m)
  {
    if n in s.peerIPs { ReplaceIPFrame(s, n, ip); }
  }

  ghost predicate SameIP(s: State, t: State, n: NodeID) {
    (n in s.peerIPs <==> n in t.peerIPs) && (n in s.peerIPs ==> s.peerIPs[n] == t.peerIPs[n])
  }

  lemma TrackOneFreshest(t: Tracking, c: Claim, n: NodeID)
    ensures var r := TrackOne(t, c).state;
      && (c.nodeID != n || !c.verified ==> SameIP(t.state, r, n))
      && (c.nodeID == n && c.verified && (n in t.state.peerIPs || Wants(t.state, n)) ==>
            n in r.peerIPs && Freshest(t.state.peerIPs, i => i == c.ip, n, r.peerIPs[n]))
      && (n !in t.state.peerIPs && !Wants(t.state, n) ==> n !in r.peerIPs)
  {
    if c.nodeID in t.state.peerIPs { ReplaceIPFrame(t.state, c.nodeID, c.ip); }
  }

  /** The loop of Track keeps the freshest IP of every node that is known or wanted, and none of any other. */
  lemma {:induction false} TrackAllFreshest(t: Tracking, claims: seq<Claim>, n: NodeID)
    ensures var r := TrackAll(t, claims).state;
      && SamePeers(t.state, r)
      && (n in r.peerIPs <==> n in t.state.peerIPs || (Wants(t.state, n) && exists ip :: Claimed(claims, n, ip)))
      && (n in r.peerIPs ==> Freshest(t.state.peerIPs, ip => Claimed(claims, n, ip), n, r.peerIPs[n]))
  {
    if claims != [] {
      var before, c := claims[..|claims| - 1], claims[|claims| - 1];
      assert claims == before + [c];
      var mid := TrackAll(t, before);
      TrackAllFreshest(t, before, n);
      TrackOneFrame(mid, c);
      TrackOneFreshest(mid, c, n);
      forall ip ensures Claimed(claims, n, ip) <==> Claimed(before, n, ip) || (c.verified && c.nodeID == n && c.ip == ip) {
        ClaimedLast(before, c, n, ip);
      }
      if c.verified && c.nodeID == n {
        assert Claimed(claims, n, c.ip);
        if n in TrackOne(mid, c).state.peerIPs {
          FreshestThen(t.state.peerIPs, ip => Claimed(before, n, ip), mid.state.peerIPs, ip => ip == c.ip,
                       ip => Claimed(claims, n, ip), n, TrackOne(mid, c).state.peerIPs[n]);
        }
      }
    }
  }

  lemma ClaimedLast(before: seq<Claim>, c: Claim, n: NodeID, ip: SignedIP)
    ensures Claimed(before + [c], n, ip) <==> Claimed(before, n, ip) || (c.verified && c.nodeID == n && c.ip == ip)
  {
    var claims := before + [c];
    if Claimed(before, n, ip) {
      var i :| 0 <= i < |before| && before[i].verified && before[i].nodeID == n && before[i].ip == ip;
      assert claims[i] == before[i];
    }
    if c.verified && c.nodeID == n && c.ip == ip { assert claims[|before|] == c; }
  }

  /** The IP of `n` after a step that offers some IPs. */
  ghost predicate HeldAfter(s: State, a: Action, t: State, n: NodeID) {
    && (n in t.peerIPs <==>
          || (n in s.peerIPs && !Drops(s, a, n))
          || ((a.DoConnected? || Wants(s, n)) && exists ip :: Offers(s, a, n, ip)))
    && (n in t.peerIPs ==> Freshest(s.peerIPs, ip => Offers(s, a, n, ip), n, t.peerIPs[n]))
  }

  lemma TrackHeldAfter(s: State, peer: NodeID, claims: seq<Claim>, n: NodeID)
    ensures HeldAfter(s, DoTrack(peer, claims), Track(s, peer, claims), n)
  {
    var a := DoTrack(peer, claims);
    TrackAllFreshest(Tracking(s, map[], {}), claims, n);
    assert forall ip :: Offers(s, a, n, ip) <==> Claimed(claims, n, ip);
  }

  lemma ConnectedHeldAfter(s: State, m: NodeID, ip: SignedIP, n: NodeID)
    ensures HeldAfter(s, DoConnected(m, ip), Connected(s, m, ip), n)
  {
    var a := DoConnected(m, ip);
    if m in s.connecting {
      ConnectedFreshest(s, m, ip);
      if m == n { assert Offers(s, a, n, ip); } else { assert SameIP(s, Connected(s, m, ip), n); }
    }
  }

  /** The other steps offer nothing. */
  lemma QuietHeldAfter(s: State, a: Action, n: NodeID)
    requires Enabled(s, a) && SafeReads(s) && !a.DoTrack? && !a.DoConnected?
    ensures if Drops(s, a, n) then n !in Step(s, a).peerIPs else SameIP(s, Step(s, a), n)
  {
  }

  /** For every step: an IP is dropped exactly if the step drops it, a node that is known, wanted or connecting
      gets the freshest IP on offer, and nobody's IP changes otherwise. */
  lemma StepHeldAfter(s: State, a: Action, n: NodeID)
    requires Enabled(s, a) && SafeReads(s)
    ensures HeldAfter(s, a, Step(s, a), n)
  {
    match a
    case DoTrack(peer, claims) => TrackHeldAfter(s, peer, claims, n);
    case DoConnected(m, ip) => ConnectedHeldAfter(s, m, ip, n);
    case _ =>
      QuietHeldAfter(s, a, n);
      assert forall ip :: !Offers(s, a, n, ip);
  }

  // ---------------------------------------------------------------- over whole runs

  /** We hold an IP of `n` in every state of the run. */
  ghost predicate HeldThroughout(s: State, actions: seq<Action>, t: State, n: NodeID)
    requires Runs(s, actions, t)
    decreases |actions|
  {
    n in s.peerIPs && (actions != [] ==> HeldThroughout(Step(s, actions[0]), actions[1..], t, n))
  }

  ghost predicate OfferedIn(s: State, actions: seq<Action>, t: State, n: NodeID, ip: SignedIP)
    requires Runs(s, actions, t)
    decreases |actions|
  {
    actions != [] && (Offers(s, actions[0], n, ip) || OfferedIn(Step(s, actions[0]), actions[1..], t, n, ip))
  }

  /** While an IP of a node stays held it only gives way to fresher ones, and at the end of the run it is the
      freshest of all that were on offer. */
  lemma {:induction false} RunFreshest(s: State, actions: seq<Action>, t: State, n: NodeID)
    requires Runs(s, actions, t) && HeldThroughout(s, actions, t, n)
    ensures n in t.peerIPs
    ensures Freshest(s.peerIPs, ip => OfferedIn(s, actions, t, n, ip), n, t.peerIPs[n])
    decreases |actions|
  {
    if actions != [] {
      StepHeldAfter(s, actions[0], n);
      RunFreshest(Step(s, actions[0]), actions[1..], t, n);
    }
  }

  // ---------------------------------------------------------------- connections and dialling

  datatype Phase = NoConnection | Handshaking | Established

  ghost function PhaseOf(s: State, n: NodeID): Phase {
    if n in s.connected then Established else if n in s.connecting then Handshaking else NoConnection
  }

  /** The life of a connection: upgraded unless we close, established when the handshake completes, and gone
      when its clean-up has run. */
  lemma StepPhase(s: State, a: Action, n: NodeID)
    requires Inv(s) && Enabled(s, a) && SafeReads(s)
    ensures PhaseOf(Step(s, a), n) ==
      if a == DoUpgrade(n) && PhaseOf(s, n) == NoConnection && !s.closing then Handshaking
      else if a.DoConnected? && a.n == n && PhaseOf(s, n) == Handshaking then Established
      else if a == FinishConnecting(n) || a == FinishConnected(n) then NoConnection
      else PhaseOf(s, n)
  {
    match a
    case DoTrack(peer, claims) => TrackAllInv(Tracking(s, map[], {}), claims);
    case DoConnected(m, ip) => if m in s.peerIPs { ReplaceIPFrame(s, m, ip); }
    case _ =>
  }

  /** What a connection's Disconnected call does next is always possible, and ends with its clean-up. */
  lemma LeavingGoesOn(s: State, n: NodeID)
    requires Inv(s) && TracksPeer(s, n) && n in s.leaving && SafeReads(s)
    ensures s.leaving[n] == Stopped ==>
      && Enabled(s, TakeSnapshot(n))
      && var t := Step(s, TakeSnapshot(n));
         Enabled(t, if PhaseOf(s, n) == Handshaking then FinishConnecting(n) else FinishConnected(n))
    ensures s.leaving[n] != Stopped ==> Enabled(s, FinishConnecting(n)) || Enabled(s, FinishConnected(n))
    ensures forall a :: (a == FinishConnecting(n) || a == FinishConnected(n)) && Enabled(s, a) ==> n !in Step(s, a).leaving
  {
  }

  /** We close once and for all, and nodes stay manually tracked. */
  lemma StepSettings(s: State, a: Action, n: NodeID)
    requires Inv(s) && Enabled(s, a) && SafeReads(s)
    ensures Step(s, a).closing <==> s.closing || a == DoStartClose
    ensures n in Step(s, a).manual <==> n in s.manual || a == MarkManual(n)
    ensures !a.DoAddValidator? && !a.DoRemoveValidator? ==> Step(s, a).validators == s.validators
  {
    match a
    case DoTrack(peer, claims) => TrackAllInv(Tracking(s, map[], {}), claims);
    case DoConnected(m, ip) => if m in s.peerIPs { ReplaceIPFrame(s, m, ip); }
    case _ =>
  }

  /** A node whose IP we hold is connected, or it is being dialled at that address. */
  ghost predicate DialsAt(s: State, n: NodeID) {
    n in s.peerIPs ==> n in s.connected || (n in s.trackedIPs && s.trackedIPs[n] == s.peerIPs[n].ipPort)
  }

  ghost predicate DialsHeld(s: State) { forall n :: DialsAt(s, n) }

  lemma {:induction false} TrackAllDials(t: Tracking, claims: seq<Claim>, n: NodeID)
    requires DialsAt(t.state, n)
    ensures var r := TrackAll(t, claims).state;
      && DialsAt(r, n) && (n in t.state.peerIPs ==> n in r.peerIPs)
      && (n in r.trackedIPs <==> n in t.state.trackedIPs || (n !in t.state.peerIPs && n in r.peerIPs))
  {
    if claims != [] {
      var before, c := TrackAll(t, claims[..|claims| - 1]), claims[|claims| - 1];
      TrackAllDials(t, claims[..|claims| - 1], n);
      TrackOneFrame(before, c);
      if c.nodeID in before.state.peerIPs { ReplaceIPFrame(before.state, c.nodeID, c.ip); }
    }
  }

  /** Which steps make us dial a node that we did not dial before. */
  ghost predicate StartsDialling(s: State, a: Action, n: NodeID) {
    match a
    case DoTrack(_, claims) => n !in s.peerIPs && Wants(s, n) && exists ip :: Claimed(claims, n, ip)
    case FinishConnected(m) => m == n && Wants(s, n)
    case DoManuallyTrack(m, _) => m == n && n !in s.connected
    case _ => false
  }

  ghost predicate DialledAfter(s: State, a: Action, t: State, n: NodeID) {
    n in t.trackedIPs <==>
      StartsDialling(s, a, n) || (n in s.trackedIPs && !Drops(s, a, n) && PhaseOf(t, n) != Established)
  }

  lemma TrackDials(s: State, peer: NodeID, claims: seq<Claim>, n: NodeID)
    requires Inv(s) && DialsAt(s, n)
    ensures DialsAt(Track(s, peer, claims), n) && DialledAfter(s, DoTrack(peer, claims), Track(s, peer, claims), n)
  {
    TrackAllDials(Tracking(s, map[], {}), claims, n);
    TrackAllFreshest(Tracking(s, map[], {}), claims, n);
  }

  lemma ConnectedDials(s: State, m: NodeID, ip: SignedIP, n: NodeID)
    requires Inv(s) && DialsAt(s, n)
    ensures DialsAt(Connected(s, m, ip), n) && DialledAfter(s, DoConnected(m, ip), Connected(s, m, ip), n)
  {
    if m in s.peerIPs { ReplaceIPFrame(s, m, ip); }
  }

  lemma QuietDials(s: State, a: Action, n: NodeID)
    requires Enabled(s, a) && SafeReads(s) && DialsAt(s, n) && !a.DoTrack? && !a.DoConnected?
    requires n in s.connected ==> n !in s.trackedIPs && n !in s.connecting
    requires a == FinishConnecting(n) ==> n in s.connecting
    requires a == FinishConnected(n) ==> n in s.connected
    ensures DialsAt(Step(s, a), n) && DialledAfter(s, a, Step(s, a), n)
  {
  }

  /** A node is dialled from then on until it is connected or dropped. */
  lemma StepDials(s: State, a: Action, n: NodeID)
    requires Inv(s) && DialsAt(s, n) && Enabled(s, a) && SafeReads(s)
    ensures DialsAt(Step(s, a), n) && DialledAfter(s, a, Step(s, a), n)
  {
    if a.DoTrack? {
      TrackDials(s, a.peer, a.claims, n);
    } else if a.DoConnected? {
      ConnectedDials(s, a.n, a.ip, n);
    } else {
      QuietDials(s, a, n);
    }
  }

  // ---------------------------------------------------------------- who takes part in gossip

  /** Gossip is tracked for exactly the peers with a connection that is not being left. */
  ghost predicate TracksPeer(s: State, n: NodeID) {
    && (n in s.leaving ==> PhaseOf(s, n) != NoConnection)
    && (n in s.tracking <==> PhaseOf(s, n) != NoConnection && n !in s.leaving)
  }

  ghost predicate TracksPeers(s: State) { forall n :: TracksPeer(s, n) }

  /** And a peer is only recorded as knowing validators. */
  ghost predicate KnownAreCurrent(s: State) {
    forall p, v :: (p, v) in s.known ==> p in s.tracking && v in s.validators.Values
  }

  lemma {:induction false} TrackAllForgets(t: Tracking, claims: seq<Claim>)
    ensures TrackAll(t, claims).state.known <= t.state.known
  {
    if claims != [] {
      var before, c := TrackAll(t, claims[..|claims| - 1]), claims[|claims| - 1];
      TrackAllForgets(t, claims[..|claims| - 1]);
      if c.nodeID in before.state.peerIPs { ReplaceIPFrame(before.state, c.nodeID, c.ip); }
    }
  }

  lemma StepTracksPeer(s: State, a: Action, n: NodeID)
    requires Inv(s) && TracksPeer(s, n) && Enabled(s, a) && SafeReads(s)
    ensures TracksPeer(Step(s, a), n)
  {
    StepPhase(s, a, n);
    match a
    case DoTrack(peer, claims) => TrackAllInv(Tracking(s, map[], {}), claims);
    case DoConnected(m, ip) => if m in s.peerIPs { ReplaceIPFrame(s, m, ip); }
    case _ =>
  }

  lemma StepKnownAreCurrent(s: State, a: Action)
    requires Inv(s) && KnownAreCurrent(s) && Enabled(s, a) && SafeReads(s)
    ensures KnownAreCurrent(Step(s, a))
  {
    match a
    case DoTrack(peer, claims) =>
      TrackAllForgets(Tracking(s, map[], {}), claims);
      TrackAllInv(Tracking(s, map[], {}), claims);
    case DoConnected(n, ip) => if n in s.peerIPs { ReplaceIPFrame(s, n, ip); }
    case DoAddValidator(tx, n) => AddedValues(s, tx, n);
    case DoRemoveValidator(n) => RemovedValues(s, n);
    case _ =>
  }

  lemma AddedValues(s: State, tx: TxID, n: NodeID)
    ensures s.validators.Values <= AddValidator(s, tx, n).validators.Values
  {
    forall v | v in s.validators.Values ensures v in AddValidator(s, tx, n).validators.Values {
      var x :| x in s.validators && s.validators[x] == v;
      assert x in AddValidator(s, tx, n).validators && AddValidator(s, tx, n).validators[x] == v;
    }
  }

  lemma RemovedValues(s: State, n: NodeID)
    ensures forall v :: v in s.validators.Values && v != n ==> v in RemoveValidator(s, n).validators.Values
  {
    forall v | v in s.validators.Values && v != n ensures v in RemoveValidator(s, n).validators.Values {
      var tx :| tx in s.validators && s.validators[tx] == v;
      assert tx in RemoveValidator(s, n).validators;
    }
  }

  ghost predicate Linked(s: State) { DialsHeld(s) && TracksPeers(s) && KnownAreCurrent(s) }

  lemma {:induction false} RunLinked(s: State, actions: seq<Action>, t: State)
    requires Inv(s) && Linked(s) && Runs(s, actions, t)
    ensures Linked(t)
    decreases |actions|
  {
    if actions != [] {
      StepInv(s, actions[0]);
      var mid := Step(s, actions[0]);
      forall n ensures DialsAt(mid, n) && TracksPeer(mid, n) {
        assert DialsAt(s, n) && TracksPeer(s, n);
        StepDials(s, actions[0], n);
        StepTracksPeer(s, actions[0], n);
      }
      StepKnownAreCurrent(s, actions[0]);
      RunLinked(Step(s, actions[0]), actions[1..], t);
    }
  }

  /** In every interleaving: a known node is connected or dialled where we know it to be, and gossip is tracked
      for exactly the peers that are not being left, about validators only. */
  lemma EveryRunLinked(actions: seq<Action>, s: State)
    requires Runs(INITIAL, actions, s)
    ensures forall n :: n in s.peerIPs ==> n in s.connected || (n in s.trackedIPs && s.trackedIPs[n] == s.peerIPs[n].ipPort)
    ensures forall n :: n in s.tracking <==> (n in s.connecting || n in s.connected) && n !in s.leaving
    ensures forall p, v :: (p, v) in s.known ==> p in s.tracking && v in s.validators.Values
  {
    RunLinked(INITIAL, actions, s);
    forall n
      ensures n in s.peerIPs ==> n in s.connected || (n in s.trackedIPs && s.trackedIPs[n] == s.peerIPs[n].ipPort)
      ensures n in s.tracking <==> (n in s.connecting || n in s.connected) && n !in s.leaving
    {
      assert DialsAt(s, n) && TracksPeer(s, n);
    }
  }

  // ---------------------------------------------------------------- what Track reports and who is recorded

  /** A claim is settled if we then hold an IP of its node that is no older. */
  ghost predicate Settled(r: State, c: Claim) {
    c.nodeID in r.peerIPs && c.ip.timestamp <= r.peerIPs[c.nodeID].timestamp
  }

  /** A claim is acknowledged exactly if it is settled, with the timestamp we then hold, and its transaction is
      up to date exactly if that is the claim's own. A verified claim of a known or wanted node is settled. */
  lemma TrackOneReports(t: Tracking, c: Claim)
    ensures var u := TrackOne(t, c);
      && u.newest == (if Settled(u.state, c) then t.newest[c.txID := u.state.peerIPs[c.nodeID].timestamp] else t.newest)
      && u.upToDate == (if Settled(u.state, c) && u.state.peerIPs[c.nodeID].timestamp == c.ip.timestamp
                        then t.upToDate + {c.txID} else t.upToDate)
      && (c.verified && (c.nodeID in t.state.peerIPs || Wants(t.state, c.nodeID)) ==> Settled(u.state, c))
  {
    if c.nodeID in t.state.peerIPs { ReplaceIPFrame(t.state, c.nodeID, c.ip); }
  }

  /** Each transaction ID is claimed for one node, and each node under one transaction ID. */
  ghost predicate NamesNodes(claims: seq<Claim>) {
    forall i, j :: 0 <= i < |claims| && 0 <= j < |claims| ==> (claims[i].txID == claims[j].txID <==> claims[i].nodeID == claims[j].nodeID)
  }

  /** So if transaction IDs name nodes, every acknowledgement carries the timestamp of the IP held at the end. */
  lemma {:induction false} AckIsFreshest(s: State, claims: seq<Claim>, tx: TxID) returns (i: nat)
    requires NamesNodes(claims) && tx in TrackAll(Tracking(s, map[], {}), claims).newest
    ensures var r := TrackAll(Tracking(s, map[], {}), claims);
      && i < |claims| && claims[i].txID == tx && claims[i].nodeID in r.state.peerIPs
      && r.newest[tx] == r.state.peerIPs[claims[i].nodeID].timestamp
  {
    var n := |claims| - 1;
    var before, c := TrackAll(Tracking(s, map[], {}), claims[..n]), claims[n];
    TrackOneReports(before, c);
    if tx == c.txID && Settled(TrackOne(before, c).state, c) {
      i := n;
    } else {
      assert forall k :: 0 <= k < n ==> claims[..n][k] == claims[k];
      i := AckIsFreshest(s, claims[..n], tx);
      TrackOneFreshest(before, c, claims[i].nodeID);
    }
  }

  /** The address of a validator has changed from one that was held to another. */
  ghost predicate Moves(s: State, t: State, v: NodeID) {
    && v in s.validators.Values
    && v in s.peerIPs && v in t.peerIPs && s.peerIPs[v].ipPort != t.peerIPs[v].ipPort
  }

  /** What peers know about a validator is forgotten exactly if its address changes. */
  lemma TrackOneKnown(t: Tracking, c: Claim)
    ensures var r := TrackOne(t, c).state;
      forall p, v :: (p, v) in r.known <==> (p, v) in t.state.known && !Moves(t.state, r, v)
  {
    if c.nodeID in t.state.peerIPs { ReplaceIPFrame(t.state, c.nodeID, c.ip); }
  }

  /** ... or if the peer or the validator leaves; only Track and MarkTracked add a pair. */
  lemma StepKnown(s: State, a: Action, p: NodeID, v: NodeID)
    requires Inv(s) && Enabled(s, a) && SafeReads(s) && !a.DoTrack?
    ensures (p, v) in Step(s, a).known <==>
              || ((p, v) in s.known && !Moves(s, Step(s, a), v) && a != StopTracking(p) && a != DoRemoveValidator(v))
              || (a.DoMarkTracked? && a.peer == p && p in s.tracking && Malformed !in a.acks && Acknowledges(s, a.acks, v))
  {
    match a
    case DoConnected(n, ip) => if n in s.peerIPs { ReplaceIPFrame(s, n, ip); }
    case DoMarkTracked(peer, acks) =>
      if Acknowledges(s, acks, v) {
        var x :| x in acks && Answers(s, x, v);
        assert x.txID in Acknowledged(s, acks);
      }
    case _ =>
  }

  /** An acknowledgement that is not behind the IP we hold of the validator. */
  ghost predicate Answers(s: State, x: Ack, v: NodeID) {
    && x.Ack? && x.txID in s.validators && s.validators[x.txID] == v
    && v in s.peerIPs && s.peerIPs[v].timestamp <= x.timestamp
  }

  ghost predicate Acknowledges(s: State, acks: seq<Ack>, v: NodeID) {
    exists x :: x in acks && Answers(s, x, v)
  }

  /** Track records its peer as knowing every validator that it claimed exactly as we then held it. */
  lemma TrackRecords(s: State, peer: NodeID, claims: seq<Claim>, i: nat)
    requires i < |claims| && peer in s.tracking && claims[i].txID in s.validators
    requires var r := TrackAll(Tracking(s, map[], {}), claims[..i + 1]).state;
      Settled(r, claims[i]) && r.peerIPs[claims[i].nodeID].timestamp == claims[i].ip.timestamp
    ensures (peer, s.validators[claims[i].txID]) in Track(s, peer, claims).known
  {
    var start := Tracking(s, map[], {});
    assert claims[..i + 1][..i] == claims[..i];
    TrackOneReports(TrackAll(start, claims[..i]), claims[i]);
    UpToDateGrows(start, claims, i + 1);
    TrackAllFreshest(start, claims, peer);
  }

  lemma {:induction false} UpToDateGrows(t: Tracking, claims: seq<Claim>, n: nat)
    requires n <= |claims|
    ensures TrackAll(t, claims[..n]).upToDate <= TrackAll(t, claims).upToDate
    decreases |claims|
  {
    if n == |claims| {
      assert claims[..n] == claims;
    } else {
      var before := claims[..|claims| - 1];
      assert before[..n] == claims[..n];
      UpToDateGrows(t, before, n);
      TrackOneReports(TrackAll(t, before), claims[|claims| - 1]);
    }
  }
}
