/** The start of every run: setting up on a genesis state establishes the invariant. */
module LightClientStart {
  import opened Wrappers
  import opened BlockTree
  import opened LightClientModel
  import opened LightClientTime
  import opened LightClientInvariant

  /** A genesis state at an epoch start, whose latest header is the empty genesis block. */
  ghost predicate IsGenesis(spec: Spec, anchor: Block, st: State) {
    && anchor.slot == GENESIS_SLOT && anchor.root != ZERO_ROOT && anchor.parentRoot == ZERO_ROOT
    && st.header == anchor.Id()
    && st.finalizedEpoch == GENESIS_EPOCH
    && IsEpochStart(spec, st.slot)
  }

  function StartHistory(anchor: Block, st: State): History {
    History(anchor.root, map[anchor.root := anchor], map[anchor.stateRoot := st])
  }

  lemma StartHistoryIsValid(spec: Spec, anchor: Block, st: State)
    requires IsGenesis(spec, anchor, st)
    ensures ValidHistory(spec, StartHistory(anchor, st))
    ensures forall x :: OnChain(StartHistory(anchor, st).blocks, x, anchor.root) <==> x == anchor.root
  {
    var h := StartHistory(anchor, st);
    assert OlderParent(h.blocks, anchor.root) && ParentKnown(h.blocks, ZERO_ROOT, anchor.root);
    assert ValidEntry(h, anchor.root) && ValidState(h, anchor.stateRoot);
  }

  /** Nobody has signed anything yet. */
  lemma StartCacheIsValid(spec: Spec, anchor: Block, st: State, s: Store)
    requires IsGenesis(spec, anchor, st) && ValidHistory(spec, StartHistory(anchor, st))
    requires forall x :: OnChain(StartHistory(anchor, st).blocks, x, anchor.root) <==> x == anchor.root
    requires s.cache.data == map[anchor.Id() := CachedData(anchor.stateRoot, None, GENESIS_SLOT)]
    requires s.latestFinalizedBid.slot == GENESIS_SLOT
    ensures ValidCache(spec, StartHistory(anchor, st), s)
  {
    var h := StartHistory(anchor, st);
    forall x ensures !Signs(spec, s.cache.tailSlot, h.blocks, x, anchor.root) {
      assert x == anchor.root ==> h.blocks[x].parentRoot == ZERO_ROOT;
    }
    assert ValidCacheEntry(spec, h, s, anchor.Id());
  }

  /** Setting up never raises and establishes the invariant. */
  lemma SetupIsValid(spec: Spec, anchor: Block, st: State)
    requires ValidSpec(spec) && IsGenesis(spec, anchor, st)
    ensures Setup(spec, anchor, st).Success?
    ensures Valid(spec, StartHistory(anchor, st), Setup(spec, anchor, st).value)
  {
    hide ValidCache;
    StartHistoryIsValid(spec, anchor, st);
    assert spec.EpochStart(GENESIS_EPOCH) == 0;
    var s0 := InitialStore(spec, anchor, st);
    FirstCommittee(spec, s0, anchor, st);
    var s := Setup(spec, anchor, st).value;
    StartCacheIsValid(spec, anchor, st, s);
    assert ValidHeader(spec, StartHistory(anchor, st), s, anchor.root, anchor.root);
    assert Pruned(StartHistory(anchor, st).blocks, 0) == s.blocks;
    assert PrunedStates(StartHistory(anchor, st).states, 0) == s.states;
    assert IndexOf(StartHistory(anchor, st).blocks, s.finalizedBlockRoots, anchor.root);
  }

  lemma {:induction false} OnlyAnchorIndexed(s: Store, root: Root, slot: nat)
    requires s.finalizedBlockRoots == map[GENESIS_SLOT := root]
    ensures BlockIdAtFinalizedSlot(s, slot)
      == if s.historicalTailSlot == 0 then Some(BlockID(GENESIS_SLOT, root)) else None
  {
    if slot > 0 {
      OnlyAnchorIndexed(s, root, slot - 1);
    }
  }

  /** The committee of the first period: of a genesis state at slot 0, if the fork with sync committees
      comes within that period, and else none. */
  function FirstServed(spec: Spec, anchor: Block, st: State): Option<Committee> {
    var start := spec.altairForkEpoch * spec.slotsPerEpoch;
    if st.slot == 0 && start / spec.slotsPerEpoch / spec.epochsPerPeriod == 0 then Some(Committee(anchor.root, start))
    else None
  }

  lemma FirstCommittee(spec: Spec, s: Store, anchor: Block, st: State)
    requires s == InitialStore(spec, anchor, st) && IsGenesis(spec, anchor, st)
    ensures var r := CommitteeForFinalizedPeriod(spec, s, spec.PeriodAt(anchor.slot));
            && r.Success?
            && r.value.1.Keys == {anchor.stateRoot}
            && r.value.1[anchor.stateRoot].header == st.header
            && r.value.0 == FirstServed(spec, anchor, st)
  {
    OnlyAnchorIndexed(s, anchor.root, CommitteeSlot(spec, s, spec.PeriodAt(anchor.slot)));
  }

  lemma SetupBounds(spec: Spec, anchor: Block, st: State)
    requires IsGenesis(spec, anchor, st) && Setup(spec, anchor, st).Success?
    ensures
      var s := Setup(spec, anchor, st).value;
      && s.latestFinalizedBid.slot == GENESIS_SLOT && s.cache.tailSlot == InitialStore(spec, anchor, st).cache.tailSlot
      && s.db.syncCommittees.Keys == {spec.PeriodAt(anchor.slot)}
  {
    assert spec.EpochStart(GENESIS_EPOCH) == 0;
  }

  /** Right after set-up there are no updates: no best update is cached or served, and no latest one. Only
      the anchor is cached, indexed and served, and the newest finalized block is that of its state. */
  lemma SetupContent(spec: Spec, anchor: Block, st: State)
    requires IsGenesis(spec, anchor, st) && Setup(spec, anchor, st).Success?
    ensures
      var s := Setup(spec, anchor, st).value;
      && s.db.bestUpdates == map[] && s.cache.latest == None
      && s.cache.data == map[BlockID(0, anchor.root) := CachedData(anchor.stateRoot, None, 0)]
      && s.cache.tailSlot == (if st.slot >= spec.altairForkEpoch * spec.slotsPerEpoch then st.slot
                              else spec.altairForkEpoch * spec.slotsPerEpoch)
      && s.historicalTailSlot == st.slot
      && s.db.headers == map[anchor.root := BlockID(0, anchor.root)]
      && s.db.currentBranches == map[0 := anchor.stateRoot]
      && s.db.syncCommittees == map[0 := FirstServed(spec, anchor, st)]
      && s.blocks == map[anchor.root := anchor] && s.states == map[anchor.stateRoot := st]
      && s.finalizedBlockRoots == map[0 := anchor.root]
      && s.finalizedCheckpointStates.Keys == {anchor.stateRoot}
      && s.latestFinalizedEpoch == 0 && s.latestFinalizedBid == BlockID(0, st.finalizedRoot)
  {
    assert spec.EpochStart(GENESIS_EPOCH) == 0 && spec.PeriodAt(GENESIS_SLOT) == 0;
    FirstCommittee(spec, InitialStore(spec, anchor, st), anchor, st);
  }
}
