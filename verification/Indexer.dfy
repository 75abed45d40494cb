/** When the indexer opens an index for a chain (indexer/indexer.go), over any sequence of runs of the
node on one database.

A run is a process that starts with NewIndexer; it may end at any point. Any database operation and
any opening of an index may fail; a failed write has no effect. Runs are numbered from 0.
*/
module Indexer {
  type ChainID = nat

  datatype Config = Config(indexingEnabled: bool, allowIncompleteIndex: bool)

  datatype VM = DagVM | ChainVM | OtherVM

  datatype Fault =
    | NoFault
    | ReadIncompleteFails | ReadIndexedFails | MarkFails
    | BlockIndexFails | VtxIndexFails | TxIndexFails

  /** The flags that persist: markHasRun, markIncomplete, markPreviouslyIndexed. */
  datatype Flags = Flags(hasRun: bool, incomplete: set<ChainID>, indexed: set<ChainID>)

  datatype Process = Process(
    config: Config,
    hasRunBefore: bool,
    closed: bool,
    blockIndices: set<ChainID>,
    vtxIndices: set<ChainID>,
    txIndices: set<ChainID>)

  // ---------------------------------------------------------------- registering a chain

  predicate BeingIndexed(p: Process, chain: ChainID) {
    chain in p.blockIndices || chain in p.vtxIndices || chain in p.txIndices
  }

  /** What a call of RegisterChain does to its chain. */
  datatype Effect = Nothing | Skips | Opens | ClosesOnly

  function Close(p: Process): Process { p.(closed := true) }

  /** The switch on the VM, after the block index was opened. */
  function OpenRest(p: Process, chain: ChainID, vm: VM, fault: Fault): Process {
    match vm
    case ChainVM => p
    case OtherVM => Close(p)
    case DagVM =>
      if fault == VtxIndexFails then Close(p)
      else
        var q := p.(vtxIndices := p.vtxIndices + {chain});
        if fault == TxIndexFails then Close(q) else q.(txIndices := q.txIndices + {chain})
  }

  function Registered(p: Process, f: Flags, chain: ChainID, primary: bool, vm: VM, fault: Fault)
    : (Process, Flags, Effect)
  {
    if p.closed || !primary || BeingIndexed(p, chain) then (p, f, Nothing)
    else if fault == ReadIncompleteFails || fault == ReadIndexedFails then (Close(p), f, ClosesOnly)
    else if !p.config.indexingEnabled then
      if chain in f.indexed && !p.config.allowIncompleteIndex then (Close(p), f, ClosesOnly)
      else if fault == MarkFails then (Close(p), f, ClosesOnly)
      else (p, f.(incomplete := f.incomplete + {chain}), Skips)
    else if !p.config.allowIncompleteIndex && chain in f.incomplete && (chain in f.indexed || p.hasRunBefore) then
      (Close(p), f, ClosesOnly)
    else if fault == MarkFails then (Close(p), f, ClosesOnly)
    else
      var g := f.(indexed := f.indexed + {chain});
      if fault == BlockIndexFails then (Close(p), g, ClosesOnly)
      else (OpenRest(p.(blockIndices := p.blockIndices + {chain}), chain, vm, fault), g, Opens)
  }

  // ---------------------------------------------------------------- runs of the node

  datatype Event =
    | Start(config: Config, fails: bool)
    | Register(chain: ChainID, primary: bool, vm: VM, fault: Fault)
    | Shutdown

  /** The flags, the running process if there is one, and what has happened: the configurations of all
      runs, and which chain was passed over or had its index opened in which run. */
  datatype State = State(
    flags: Flags,
    running: bool,
    process: Process,
    configs: seq<Config>,
    passedOver: set<(ChainID, int)>,
    served: set<(ChainID, int)>)

  const NO_PROCESS := Process(Config(false, false), false, true, {}, {}, {})

  const INITIAL := State(Flags(false, {}, {}), false, NO_PROCESS, [], {}, {})

  function Step(s: State, e: Event): State {
    match e
    case Start(config, fails) =>
      if fails then s.(running := false, process := NO_PROCESS)
      else
        State(s.flags.(hasRun := true), true, Process(config, s.flags.hasRun, false, {}, {}, {}), s.configs + [config],
              s.passedOver, s.served)
    case Shutdown => s.(process := Close(s.process))
    case Register(chain, primary, vm, fault) =>
      if !s.running then s
      else
        var (p, f, effect) := Registered(s.process, s.flags, chain, primary, vm, fault);
        s.(process := p, flags := f,
           passedOver := if effect == Skips then s.passedOver + {(chain, |s.configs| - 1)} else s.passedOver,
           served := if effect == Opens then s.served + {(chain, |s.configs| - 1)} else s.served)
  }

  function Run(events: seq<Event>): State {
    if events == [] then INITIAL else Step(Run(events[..|events| - 1]), events[|events| - 1])
  }

  ghost predicate PassedOver(s: State, chain: ChainID, run: int) { (chain, run) in s.passedOver }

  ghost predicate Served(s: State, chain: ChainID, run: int) { (chain, run) in s.served }

  ghost predicate Disallows(s: State, run: int) {
    0 <= run < |s.configs| && !s.configs[run].allowIncompleteIndex
  }

  /** The two promises about runs that disallow incomplete indices. */
  ghost predicate NeverIncomplete(s: State) {
    && (forall c, k, j :: Served(s, c, k) && PassedOver(s, c, j) && Disallows(s, k) ==> k <= j)
    && (forall c, k, j :: PassedOver(s, c, k) && Served(s, c, j) && Disallows(s, k) ==> k <= j)
  }

  /** How the flags and the process reflect what has happened. */
  ghost predicate Recorded(s: State) {
    && s.flags.hasRun == (s.configs != [])
    && (forall c, k :: PassedOver(s, c, k) ==> 0 <= k < |s.configs| && !s.configs[k].indexingEnabled && c in s.flags.incomplete)
    && (forall c, k :: Served(s, c, k) ==> 0 <= k < |s.configs| && s.configs[k].indexingEnabled && c in s.flags.indexed)
    && (forall c :: c in s.flags.incomplete ==> exists k :: PassedOver(s, c, k))
    && (s.running ==>
          s.configs != [] && s.process.config == s.configs[|s.configs| - 1] && s.process.hasRunBefore == (|s.configs| > 1))
  }

  /** In a run with indexing enabled, an incomplete index stems from an earlier run. */
  lemma IncompleteIsEarlier(s: State, chain: ChainID)
    requires Recorded(s) && s.running && s.process.config.indexingEnabled && chain in s.flags.incomplete
    ensures s.process.hasRunBefore
    ensures exists k :: PassedOver(s, chain, k) && k < |s.configs| - 1
  {
    var k :| PassedOver(s, chain, k);
    assert k != |s.configs| - 1;
  }

  /** What one event adds to the record. */
  lemma StepAdds(s: State, e: Event)
    ensures forall c, k :: PassedOver(Step(s, e), c, k) ==>
              PassedOver(s, c, k) || (AddsTo(s, e, Skips) && c == e.chain && k == |s.configs| - 1)
    ensures forall c, k :: Served(Step(s, e), c, k) ==>
              Served(s, c, k) || (AddsTo(s, e, Opens) && c == e.chain && k == |s.configs| - 1)
    ensures s.configs <= Step(s, e).configs
    ensures s.flags.incomplete <= Step(s, e).flags.incomplete && s.flags.indexed <= Step(s, e).flags.indexed
  {
    forall c, k | PassedOver(Step(s, e), c, k)
      ensures PassedOver(s, c, k) || (AddsTo(s, e, Skips) && c == e.chain && k == |s.configs| - 1)
    {
    }
    forall c, k | Served(Step(s, e), c, k)
      ensures Served(s, c, k) || (AddsTo(s, e, Opens) && c == e.chain && k == |s.configs| - 1)
    {
    }
  }

  ghost predicate AddsTo(s: State, e: Event, effect: Effect) {
    e.Register? && s.running && Registered(s.process, s.flags, e.chain, e.primary, e.vm, e.fault).2 == effect
  }

  lemma StepRecorded(s: State, e: Event)
    requires Recorded(s)
    ensures Recorded(Step(s, e))
  {
    var t := Step(s, e);
    StepAdds(s, e);
    forall c | c in t.flags.incomplete ensures exists k :: PassedOver(t, c, k) {
      if c in s.flags.incomplete {
        var k :| PassedOver(s, c, k);
        assert PassedOver(t, c, k);
      } else {
        assert PassedOver(t, c, |s.configs| - 1);
      }
    }
  }

  lemma StepNeverIncomplete(s: State, e: Event)
    requires Recorded(s) && NeverIncomplete(s)
    ensures NeverIncomplete(Step(s, e))
  {
    var t := Step(s, e);
    StepAdds(s, e);
    forall c, k, j | Served(t, c, k) && PassedOver(t, c, j) && Disallows(t, k)
      ensures k <= j
    {
      if !Served(s, c, k) {
        assert PassedOver(s, c, j) ==> c in s.flags.incomplete;
      }
    }
    forall c, k, j | PassedOver(t, c, k) && Served(t, c, j) && Disallows(t, k)
      ensures k <= j
    {
      if !PassedOver(s, c, k) {
        assert Served(s, c, j) ==> c in s.flags.indexed;
      }
    }
  }

  /** Over any sequence of runs, a run that disallows incomplete indices opens an index only for a chain
      that no earlier run passed over, and passes over only a chain that no earlier run served. */
  lemma {:induction false} EveryRun(events: seq<Event>)
    ensures Recorded(Run(events)) && NeverIncomplete(Run(events))
  {
    if events != [] {
      EveryRun(events[..|events| - 1]);
      StepRecorded(Run(events[..|events| - 1]), events[|events| - 1]);
      StepNeverIncomplete(Run(events[..|events| - 1]), events[|events| - 1]);
    }
  }

  /** In any state of any sequence of runs, exactly when a registration opens the chain's index. The
      condition is about what earlier runs did, not about the flags. */
  lemma OpensExactlyWhen(events: seq<Event>, e: Event)
    requires e.Register?
    ensures var s := Run(events);
      AddsTo(s, e, Opens) <==>
      && s.running && !s.process.closed && e.primary && !BeingIndexed(s.process, e.chain)
      && s.process.config.indexingEnabled
      && e.fault in {NoFault, VtxIndexFails, TxIndexFails}
      && (s.process.config.allowIncompleteIndex || forall k :: k < |s.configs| - 1 ==> !PassedOver(s, e.chain, k))
  {
    EveryRun(events);
    var s := Run(events);
    if s.running && s.process.config.indexingEnabled && e.chain in s.flags.incomplete {
      IncompleteIsEarlier(s, e.chain);
    }
  }

  /** Exactly when a registration passes over the chain; otherwise a run that has indexing disabled and would
      have to look at the chain closes the indexer. */
  lemma PassesOverExactlyWhen(events: seq<Event>, e: Event)
    requires e.Register? && Run(events).running && !Run(events).process.closed && e.primary
    requires !Run(events).process.config.indexingEnabled
    ensures var s := Run(events);
      && (AddsTo(s, e, Skips) <==>
            && e.fault !in {ReadIncompleteFails, ReadIndexedFails, MarkFails}
            && (s.process.config.allowIncompleteIndex || e.chain !in s.flags.indexed))
      && Step(s, e).process.closed == !AddsTo(s, e, Skips)
      && (!s.process.config.allowIncompleteIndex && (exists k :: Served(s, e.chain, k)) ==> Step(s, e).process.closed)
  {
    EveryRun(events);
    NothingIndexed(events, e.chain);
  }

  /** A run with indexing disabled indexes no chain. */
  lemma {:induction false} NothingIndexed(events: seq<Event>, chain: ChainID)
    ensures var s := Run(events); !s.process.config.indexingEnabled ==> !BeingIndexed(s.process, chain)
  {
    if events != [] { NothingIndexed(events[..|events| - 1], chain); }
  }

  // ---------------------------------------------------------------- which indices there are

  /** A running process has the block index of a chain exactly if this run has served it, transaction indices
      only where it has vertex indices, and those only where it has block indices. */
  ghost predicate IndexesServed(s: State) {
    s.running ==>
      && (forall c :: c in s.process.blockIndices <==> Served(s, c, |s.configs| - 1))
      && s.process.txIndices <= s.process.vtxIndices <= s.process.blockIndices
  }

  lemma StepIndexesServed(s: State, e: Event)
    requires Recorded(s) && IndexesServed(s)
    ensures IndexesServed(Step(s, e))
  {
    var t := Step(s, e);
    if t.running {
      forall c ensures c in t.process.blockIndices <==> Served(t, c, |t.configs| - 1) {
        if e.Start? { assert Served(s, c, |s.configs|) ==> false; }
        assert Served(t, c, |t.configs| - 1) <==> (c, |t.configs| - 1) in t.served;
      }
    }
  }

  lemma {:induction false} EveryRunIndexes(events: seq<Event>)
    ensures IndexesServed(Run(events))
  {
    if events != [] {
      EveryRun(events[..|events| - 1]);
      EveryRunIndexes(events[..|events| - 1]);
      StepIndexesServed(Run(events[..|events| - 1]), events[|events| - 1]);
    }
  }

  /** The chain is one that RegisterChain has to look at. */
  ghost predicate LooksAt(s: State, e: Event) {
    e.Register? && s.running && !s.process.closed && e.primary && !BeingIndexed(s.process, e.chain)
  }

  /** A DAG has all three indices if none fails, and every other chain its block index only. */
  ghost predicate Succeeds(vm: VM, fault: Fault) {
    vm == ChainVM || (vm == DagVM && fault != VtxIndexFails && fault != TxIndexFails)
  }

  /** What an opening registration adds, and that it closes the indexer exactly if it does not succeed. */
  lemma OpeningAdds(s: State, e: Event)
    requires AddsTo(s, e, Opens)
    ensures var p, q := s.process, Step(s, e).process;
      && q.blockIndices == p.blockIndices + {e.chain}
      && q.vtxIndices == p.vtxIndices + (if e.vm == DagVM && e.fault != VtxIndexFails then {e.chain} else {})
      && q.txIndices == p.txIndices + (if e.vm == DagVM && Succeeds(e.vm, e.fault) then {e.chain} else {})
      && q.closed == !Succeeds(e.vm, e.fault)
  {
  }

  /** Any other registration adds no index. With indexing enabled it closes the indexer, if it looks at the
      chain at all; if it does not, it changes nothing. */
  lemma OthersAddNone(s: State, e: Event)
    requires e.Register? && !AddsTo(s, e, Opens)
    ensures var p, q := s.process, Step(s, e).process;
      && q.blockIndices == p.blockIndices && q.vtxIndices == p.vtxIndices && q.txIndices == p.txIndices
      && (LooksAt(s, e) && p.config.indexingEnabled ==> q.closed)
      && (!LooksAt(s, e) ==> Step(s, e) == s)
  {
  }

  /** Which registrations mark their chain as indexed: those that would open its index, or fail in opening it. */
  ghost predicate Attempts(s: State, e: Event) {
    && LooksAt(s, e) && s.process.config.indexingEnabled
    && e.fault !in {ReadIncompleteFails, ReadIndexedFails, MarkFails}
    && (s.process.config.allowIncompleteIndex || forall k :: k < |s.configs| - 1 ==> !PassedOver(s, e.chain, k))
  }

  /** The marks that persist are exactly those: no event takes a mark away, and none adds another. */
  lemma MarksExactly(events: seq<Event>, e: Event)
    ensures var s := Run(events);
      && Step(s, e).flags.indexed == s.flags.indexed + (if Attempts(s, e) then {e.chain} else {})
      && Step(s, e).flags.incomplete == s.flags.incomplete + (if AddsTo(s, e, Skips) then {e.chain} else {})
      && Step(s, e).flags.hasRun == (s.flags.hasRun || (e.Start? && !e.fails))
  {
    EveryRun(events);
    var s := Run(events);
    if e.Register? && s.running && s.process.config.indexingEnabled && e.chain in s.flags.incomplete {
      IncompleteIsEarlier(s, e.chain);
    }
  }

  /** If no run allows incomplete indices, no chain is ever served by one run and passed over by another. */
  lemma AllDisallowed(events: seq<Event>, chain: ChainID, k: int, j: int)
    requires forall i :: 0 <= i < |Run(events).configs| ==> !Run(events).configs[i].allowIncompleteIndex
    requires Served(Run(events), chain, k)
    ensures !PassedOver(Run(events), chain, j)
  {
    EveryRun(events);
  }

  // ---------------------------------------------------------------- the indexer object

  class ChainIndexer {
    const config: Config
    const hasRunBefore: bool
    var flags: Flags
    var closed: bool
    var blockIndices: set<ChainID>
    var vtxIndices: set<ChainID>
    var txIndices: set<ChainID>

    ghost function Now(): Process
      reads this
    {
      Process(config, hasRunBefore, closed, blockIndices, vtxIndices, txIndices)
    }

    /** NewIndexer on the flags that earlier runs have left. */
    constructor (config: Config, flags: Flags)
      ensures Now() == Process(config, flags.hasRun, false, {}, {}, {}) && this.flags == flags.(hasRun := true)
    {
      this.config, hasRunBefore := config, flags.hasRun;
      closed, blockIndices, vtxIndices, txIndices := false, {}, {}, {};
      this.flags := flags.(hasRun := true);
    }

    method RegisterChain(chain: ChainID, primary: bool, vm: VM, fault: Fault)
      modifies this
      ensures var (p, f, effect) := Registered(old(Now()), old(flags), chain, primary, vm, fault);
        Now() == p && flags == f
    {
      if closed || !primary { return; }
      if chain in blockIndices || chain in txIndices || chain in vtxIndices { return; }

      if fault == ReadIncompleteFails { closed := true; return; }
      var isIncomplete := chain in flags.incomplete;
      if fault == ReadIndexedFails { closed := true; return; }
      var previouslyIndexed := chain in flags.indexed;

      if !config.indexingEnabled {
        if previouslyIndexed && !config.allowIncompleteIndex { closed := true; return; }
        if fault == MarkFails { closed := true; return; }
        flags := flags.(incomplete := flags.incomplete + {chain});
        return;
      }

      if !config.allowIncompleteIndex && isIncomplete && (previouslyIndexed || hasRunBefore) { closed := true; return; }

      if fault == MarkFails { closed := true; return; }
      flags := flags.(indexed := flags.indexed + {chain});

      if fault == BlockIndexFails { closed := true; return; }
      blockIndices := blockIndices + {chain};

      match vm {
        case DagVM =>
          if fault == VtxIndexFails { closed := true; return; }
          vtxIndices := vtxIndices + {chain};
          if fault == TxIndexFails { closed := true; return; }
          txIndices := txIndices + {chain};
        case ChainVM =>
        case OtherVM => closed := true;
      }
    }
  }
}
