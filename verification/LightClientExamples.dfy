/** Two runs from genesis, on one small tree, that show what can go wrong: a period recorded with the
    committee of the next one, and a head that cannot be selected. */
module LightClientExamples {
  import opened Wrappers
  import opened Numbers
  import opened BlockTree
  import opened LightClientModel
  import opened LightClientTime
  import opened LightClientInvariant
  import opened LightClientHead
  import opened LightClientFinalize
  import opened LightClientRuns
  import opened LightClientServing
  import opened LightClientStart
  import opened LightClientCommittee
  import opened LightClientTrees

  /** Two slots an epoch, one epoch a period, and the update with more participants is better. */
  function ExampleSpec(): Spec {
    Spec(2, 1, 0, 1, (u: Update, v: Update) => u.aggregate.participants > v.aggregate.participants)
  }

  // Block 2 sits at the first slot of period 1. No other block lies in that period, nor at the start
  // of period 2, where block 3 is. Block 3 has two children: the post-state of block 4 finalizes block
  // 3, for epoch 3, and that of block 5 still names block 2, for epoch 1.
  const GENESIS: Block := Block(0, 1, ZERO_ROOT, 11, 0)
  const GENESIS_STATE: State := State(0, BlockID(0, 1), GENESIS_EPOCH, ZERO_ROOT)
  const TWO: Block := Block(2, 2, 1, 12, 0)
  const THREE: Block := Block(5, 3, 2, 13, 0)
  const FOUR: Block := Block(12, 4, 3, 14, 0)
  const FIVE: Block := Block(13, 5, 3, 15, 0)
  const TWO_STATE: State := State(2, BlockID(2, 2), GENESIS_EPOCH, ZERO_ROOT)
  const THREE_STATE: State := State(5, BlockID(5, 3), GENESIS_EPOCH, ZERO_ROOT)
  const FOUR_STATE: State := State(12, BlockID(12, 4), 3, 3)
  const FIVE_STATE: State := State(13, BlockID(13, 5), 1, 2)

  function ExampleGrowth(): Growth {
    [(TWO, TWO_STATE)] + ([(THREE, THREE_STATE)] + ([(FOUR, FOUR_STATE)] + ([(FIVE, FIVE_STATE)] + [])))
  }

  const START: History := StartHistory(GENESIS, GENESIS_STATE)
  const WITH_TWO: History := Grown(START, TWO, TWO_STATE)
  const WITH_THREE: History := Grown(WITH_TWO, THREE, THREE_STATE)
  const WITH_FOUR: History := Grown(WITH_THREE, FOUR, FOUR_STATE)
  const WITH_FIVE: History := Grown(WITH_FOUR, FIVE, FIVE_STATE)

  lemma TreeContents()
    ensures WITH_FIVE.blocks == map[1 := GENESIS, 2 := TWO, 3 := THREE, 4 := FOUR, 5 := FIVE]
    ensures WITH_FIVE.states
      == map[11 := GENESIS_STATE, 12 := TWO_STATE, 13 := THREE_STATE, 14 := FOUR_STATE, 15 := FIVE_STATE]
    ensures WITH_FIVE.anchor == 1
  {
  }

  lemma ExampleIsTree()
    ensures IsTree(START, ExampleGrowth()) && GrownBy(START, ExampleGrowth()) == WITH_FIVE
  {
    TwoExtends();
    ThreeExtends();
    FourExtends();
    FiveExtends();
    hide Rooted, CanExtend, Grown;
    assert IsTree(WITH_FIVE, []) && GrownBy(WITH_FIVE, []) == WITH_FIVE;
    TreeCons(WITH_FOUR, FIVE, FIVE_STATE, []);
    TreeCons(WITH_THREE, FOUR, FOUR_STATE, [(FIVE, FIVE_STATE)] + []);
    TreeCons(WITH_TWO, THREE, THREE_STATE, [(FOUR, FOUR_STATE)] + ([(FIVE, FIVE_STATE)] + []));
    TreeCons(START, TWO, TWO_STATE, [(THREE, THREE_STATE)] + ([(FOUR, FOUR_STATE)] + ([(FIVE, FIVE_STATE)] + [])));
  }

  lemma TwoExtends()
    ensures Rooted(START) && CanExtend(START, TWO, TWO_STATE)
  {
  }

  lemma ThreeExtends()
    ensures Rooted(WITH_TWO) && CanExtend(WITH_TWO, THREE, THREE_STATE)
  {
  }

  lemma FourExtends()
    ensures Rooted(WITH_THREE) && CanExtend(WITH_THREE, FOUR, FOUR_STATE)
  {
    assert Rooted(WITH_THREE);
    OnChainSelf(WITH_THREE.blocks, 3);
  }

  lemma FiveExtends()
    ensures Rooted(WITH_FOUR) && CanExtend(WITH_FOUR, FIVE, FIVE_STATE)
  {
    assert Rooted(WITH_FOUR);
    TwoIsAboveThree(WITH_FOUR.blocks);
  }

  /** From block 3, block 2 is the ancestor at every slot from its own to the one before block 3. */
  lemma TwoIsAboveThree(m: Blocks)
    requires WellOrdered(m) && 2 in m && 3 in m && m[2] == TWO && m[3] == THREE
    ensures forall slot: nat :: 2 <= slot < 5 ==> AncestorAt(m, 3, slot) == Some(TWO)
    ensures OnChain(m, 2, 3) && OnChain(m, 3, 3)
  {
    assert OlderParent(m, 3);
    forall slot: nat | 2 <= slot < 5 ensures AncestorAt(m, 3, slot) == Some(TWO) {
      assert AncestorAt(m, 3, slot) == AncestorAt(m, 2, slot);
    }
  }

  // ---------------------------------------------------------------- before the head is selected

  /** The store in which all blocks have been added. */
  lemma AllAdded() returns (s: Store)
    ensures Setup(ExampleSpec(), GENESIS, GENESIS_STATE).Success? && IsTree(START, ExampleGrowth())
    ensures
      var spec, s0, adds := ExampleSpec(), Setup(ExampleSpec(), GENESIS, GENESIS_STATE).value,
        Adds(START, ExampleGrowth());
      AllowedRun(spec, START, s0, adds) && Run(spec, s0, adds) == Success(s) && HistoryAfter(START, adds) == WITH_FIVE
    ensures Valid(ExampleSpec(), WITH_FIVE, s) && Settled(ExampleSpec(), WITH_FIVE, s)
    ensures s.latestFinalizedBid.slot == GENESIS_SLOT && s.cache.tailSlot == 0 && s.db.syncCommittees.Keys == {0}
  {
    var spec := ExampleSpec();
    GenesisFits();
    ExampleIsTree();
    SetupIsValid(spec, GENESIS, GENESIS_STATE);
    SetupSettles(spec, GENESIS, GENESIS_STATE);
    SetupBounds(spec, GENESIS, GENESIS_STATE);
    hide Setup, Valid, Settled, IsTree, ExampleSpec, ExampleGrowth;
    var s0 := Setup(spec, GENESIS, GENESIS_STATE).value;
    TreeRuns(spec, START, s0, ExampleGrowth());
    RunSettles(spec, START, s0, Adds(START, ExampleGrowth()));
    s := Run(spec, s0, Adds(START, ExampleGrowth())).value;
  }

  lemma GenesisFits()
    ensures ValidSpec(ExampleSpec()) && IsGenesis(ExampleSpec(), GENESIS, GENESIS_STATE)
    ensures ExampleSpec().PeriodAt(0) == 0 && InitialStore(ExampleSpec(), GENESIS, GENESIS_STATE).cache.tailSlot == 0
  {
    ParticipantsAreOrder();
    ZeroIsEpochStart();
    hide StrictWeakOrder, ExampleSpec, IsEpochStart;
  }

  lemma ZeroIsEpochStart()
    ensures IsEpochStart(ExampleSpec(), 0) && ExampleSpec().PeriodAt(0) == 0
    ensures InitialStore(ExampleSpec(), GENESIS, GENESIS_STATE).cache.tailSlot == 0
  {
    StartOfTime(ExampleSpec());
    hide ExampleSpec, Spec.Window, Spec.EpochStart, Spec.PeriodAt;
    assert ExampleSpec().altairForkEpoch == 0 by {
      NoForkEpoch();
    }
  }

  lemma NoForkEpoch()
    ensures ExampleSpec().altairForkEpoch == 0
  {
  }

  lemma StartOfTime(spec: Spec)
    ensures IsEpochStart(spec, 0) && spec.PeriodAt(0) == 0 && spec.EpochStart(0) == 0
  {
    assert spec.EpochStart(0) == 0;
    WindowEnd(spec, 0, 0);
    PeriodEnd(spec, 0, 0);
  }

  lemma ParticipantsAreOrder()
    ensures StrictWeakOrder(ExampleSpec().isBetter)
  {
    var better := ExampleSpec().isBetter;
    assert forall u, v :: better(u, v) <==> u.aggregate.participants > v.aggregate.participants;
    hide ExampleSpec;
  }

  // ---------------------------------------------------------------- the wrong committee

  /** What the slots of the tree mean. */
  lemma ExampleTimes(s: Store)
    requires s.historicalTailSlot == 0
    ensures
      var spec := ExampleSpec();
      && spec.Window(2) == 1 && spec.Window(5) == 3
      && spec.PeriodAt(2) == 1 && spec.PeriodAt(4) == 2 && spec.PeriodAt(5) == 2
      && CommitteeSlot(spec, s, 1) == 2 && CommitteeSlot(spec, s, 2) == 4
  {
  }

  lemma ChainOfThree(x: Root)
    requires WellOrdered(WITH_FIVE.blocks) && OnChain(WITH_FIVE.blocks, x, 3)
    ensures x in {1, 2, 3}
  {
    TreeContents();
    OnChainSlot(WITH_FIVE.blocks, x, 3);
  }

  /** Finalizing block 3 records periods 1 and 2, both read from block 2. */
  lemma BothPeriodsAreNew(s: Store)
    requires WellOrdered(WITH_FIVE.blocks) && s.historicalTailSlot == 0
    requires s.latestFinalizedBid.slot == GENESIS_SLOT && s.cache.tailSlot == 0 && s.db.syncCommittees.Keys == {0}
    ensures forall k: nat :: NewPeriod(ExampleSpec(), WITH_FIVE, s, 3, k) <==> k == 1 || k == 2
    ensures ReadFrom(ExampleSpec(), WITH_FIVE, s, 3, 1) == ReadFrom(ExampleSpec(), WITH_FIVE, s, 3, 2)
      == Some(BlockID(2, 2))
  {
    var spec, h := ExampleSpec(), WITH_FIVE;
    TreeContents();
    ExampleTimes(s);
    TwoIsAboveThree(h.blocks);
    forall y | OnChain(h.blocks, y, 3) ensures y in {1, 2, 3} {
      ChainOfThree(y);
    }
    hide ExampleSpec, OnChain, Spec.Window, Spec.PeriodAt, CommitteeSlot, AncestorAt;
    assert WindowTop(spec, h.blocks, 2, 3) && WindowTop(spec, h.blocks, 3, 3);
    assert 2 in NewTops(spec, h, s, 3) && 3 in NewTops(spec, h, s, 3);
    forall x | x in NewTops(spec, h, s, 3) ensures x == 2 || x == 3 {
      assert OnChain(h.blocks, x, 3);
    }
  }

  lemma TwoIsLast(s: Store)
    requires WellOrdered(WITH_FIVE.blocks)
    requires forall k: nat :: NewPeriod(ExampleSpec(), WITH_FIVE, s, 3, k) <==> k == 1 || k == 2
    requires ReadFrom(ExampleSpec(), WITH_FIVE, s, 3, 1) == ReadFrom(ExampleSpec(), WITH_FIVE, s, 3, 2)
    ensures LastSharing(ExampleSpec(), WITH_FIVE, s, 3, 1, 2)
  {
    hide NewPeriod, ReadFrom;
  }

  /** The actions of the example: all blocks, and then the head that finalizes block 3. */
  ghost function ExampleActions(): seq<Action>
    requires IsTree(START, ExampleGrowth())
  {
    Adds(START, ExampleGrowth()) + [Select(FOUR.Id())]
  }

  /** The run, and the store it reaches. */
  lemma HeadSelected() returns (s: Store, s': Store)
    ensures Setup(ExampleSpec(), GENESIS, GENESIS_STATE).Success? && IsTree(START, ExampleGrowth())
    ensures
      var spec, s0 := ExampleSpec(), Setup(ExampleSpec(), GENESIS, GENESIS_STATE).value;
      AllowedRun(spec, START, s0, ExampleActions()) && Run(spec, s0, ExampleActions()) == Success(s')
    ensures s.historicalTailSlot == 0
    ensures s.latestFinalizedBid.slot == GENESIS_SLOT && s.cache.tailSlot == 0 && s.db.syncCommittees.Keys == {0}
    ensures Valid(ExampleSpec(), WITH_FIVE, s) && Settled(ExampleSpec(), WITH_FIVE, s) && WellOrdered(s.blocks)
    ensures Valid(ExampleSpec(), WITH_FIVE, s') && SelectHead(ExampleSpec(), s, FOUR.Id()) == Success(s')
    ensures CanSelectFour(s)
  {
    var spec := ExampleSpec();
    s := AllAdded();
    FourIsAdded();
    hide Setup, Settled, IsTree, ExampleSpec, ExampleGrowth, AllowedRun, Run, Valid, Allowed, SelectHead;
    SelectingIsAllowed(spec, WITH_FIVE, s, 4);
    FourIsAllowed(s);
    hide CanSelectFour;
    SelectAfter(
      spec, START, Setup(spec, GENESIS, GENESIS_STATE).value, Adds(START, ExampleGrowth()), WITH_FIVE, s, FOUR.Id());
    s' := SelectHead(spec, s, FOUR.Id()).value;
  }

  lemma FourIsAdded()
    ensures 4 in WITH_FIVE.blocks && WITH_FIVE.blocks[4] == FOUR
    ensures FOUR.stateRoot in WITH_FIVE.states && WITH_FIVE.states[FOUR.stateRoot] == FOUR_STATE
  {
    TreeContents();
  }

  /** Block 4 may become head, and its post-state advances finality to block 3. */
  ghost predicate CanSelectFour(s: Store) {
    && WellOrdered(WITH_FIVE.blocks) && s.latestFinalizedBid.slot in s.finalizedBlockRoots
    && CanSelect(WITH_FIVE, s, FOUR.Id()) && Advances(WITH_FIVE, s, FOUR.Id())
      && FinalityRetained(WITH_FIVE, s, FOUR.Id())
  }

  lemma FourIsAllowed(s: Store)
    requires Valid(ExampleSpec(), WITH_FIVE, s) && s.latestFinalizedBid.slot == GENESIS_SLOT
    requires Allowed(ExampleSpec(), WITH_FIVE, s, Select(FOUR.Id()))
    ensures CanSelectFour(s) && WellOrdered(s.blocks) && s.historicalTailSlot == 0
  {
    TreeContents();
    hide Valid, ExampleSpec, OnChain;
    FinalizedTip(ExampleSpec(), WITH_FIVE, s);
    StoredFrom(ExampleSpec(), WITH_FIVE, s, 3);
    StoredFrom(ExampleSpec(), WITH_FIVE, s, 4);
    AllowedHead(ExampleSpec(), s, FOUR.Id());
  }

  lemma AllowedHead(spec: Spec, s: Store, head: BlockID)
    requires Valid(spec, WITH_FIVE, s) && Allowed(spec, WITH_FIVE, s, Select(head))
    ensures WellOrdered(WITH_FIVE.blocks) && s.latestFinalizedBid.slot in s.finalizedBlockRoots
    ensures CanSelect(WITH_FIVE, s, head)
  {
    hide ValidCache, ValidCheckpoints, ValidDB, CanSelect;
  }

  /** Once this head is selected, period 1 has the committee that the chain has in period 2. */
  lemma WrongCommitteeExample()
    ensures Setup(ExampleSpec(), GENESIS, GENESIS_STATE).Success? && IsTree(START, ExampleGrowth())
    ensures
      var spec, s0 := ExampleSpec(), Setup(ExampleSpec(), GENESIS, GENESIS_STATE).value;
      && AllowedRun(spec, START, s0, ExampleActions()) && Run(spec, s0, ExampleActions()).Success?
      && var committees := Run(spec, s0, ExampleActions()).value.db.syncCommittees;
      && 1 in committees && committees[1] == Some(Committee(2, 4)) && spec.PeriodAt(4) == 2
  {
    var s, s' := HeadSelected();
    PeriodOneIsWrong(s, s');
  }

  lemma PeriodOneIsWrong(s: Store, s': Store)
    requires Valid(ExampleSpec(), WITH_FIVE, s) && Settled(ExampleSpec(), WITH_FIVE, s) && WellOrdered(s.blocks)
    requires CanSelectFour(s) && SelectHead(ExampleSpec(), s, FOUR.Id()) == Success(s') && s.historicalTailSlot == 0
    requires s.latestFinalizedBid.slot == GENESIS_SLOT && s.cache.tailSlot == 0 && s.db.syncCommittees.Keys == {0}
    ensures 1 in s'.db.syncCommittees && s'.db.syncCommittees[1] == Some(Committee(2, 4))
      && ExampleSpec().PeriodAt(4) == 2
  {
    hide *;
    var spec := ExampleSpec();
    FourFits(s);
    ExampleTimes(s);
    BothPeriodsAreNew(s);
    TwoIsLast(s);
    FourFinalizesThree(spec, s, s', 1);
    RecordOf(spec, WITH_FIVE, s, s', 3, 1, 2, BlockID(2, 2));
  }

  lemma FourFits(s: Store)
    requires CanSelectFour(s)
    ensures WellOrdered(WITH_FIVE.blocks)
  {
  }

  lemma FourFinalizesThree(spec: Spec, s: Store, s': Store, period: nat)
    requires Valid(spec, WITH_FIVE, s) && Settled(spec, WITH_FIVE, s) && WellOrdered(s.blocks) && CanSelectFour(s)
    requires SelectHead(spec, s, FOUR.Id()) == Success(s')
    ensures WellOrdered(WITH_FIVE.blocks) && RecordsExactly(spec, WITH_FIVE, s, s', 3, period)
  {
    FourIsAdded();
    hide Valid, Settled, SelectHead, RecordsExactly;
    SelectedCommitteeExact(spec, WITH_FIVE, s, FOUR.Id(), period);
  }

  lemma RecordOf(spec: Spec, h: History, s: Store, s': Store, f: Root, period: nat, last: nat, bid: BlockID)
    requires WellOrdered(h.blocks) && RecordsExactly(spec, h, s, s', f, period)
    requires NewPeriod(spec, h, s, f, period) && ReadFrom(spec, h, s, f, period) == Some(bid)
    requires LastSharing(spec, h, s, f, period, last)
    ensures period in s'.db.syncCommittees
    ensures s'.db.syncCommittees[period] == Some(Committee(bid.root, CommitteeSlot(spec, s, last)))
  {
    hide NewPeriod, ReadFrom, LastSharing, SharesStart, CommitteeSlot;
  }

  /** And then the other child of block 3, a descendant of the newest finalized block, cannot be selected,
      because the block that its post-state names as finalized has been pruned. */
  lemma StaleFinalityRaises()
    ensures Setup(ExampleSpec(), GENESIS, GENESIS_STATE).Success? && IsTree(START, ExampleGrowth())
    ensures
      var spec, s0 := ExampleSpec(), Setup(ExampleSpec(), GENESIS, GENESIS_STATE).value;
      && AllowedRun(spec, START, s0, ExampleActions()) && Run(spec, s0, ExampleActions()).Success?
      && var s' := Run(spec, s0, ExampleActions()).value;
      && Valid(spec, WITH_FIVE, s') && WellOrdered(WITH_FIVE.blocks) && WellOrdered(s'.blocks)
      && s'.latestFinalizedBid.slot in s'.finalizedBlockRoots && CanSelect(WITH_FIVE, s', FIVE.Id())
      && OnChain(WITH_FIVE.blocks, Tip(s'), 5)
      && SelectHead(spec, s', FIVE.Id()) == Failure(KeyMissing)
  {
    var s, s' := HeadSelected();
    ThreeIsFinalized(s, s');
    FiveIsStale(s');
  }

  lemma ThreeIsFinalized(s: Store, s': Store)
    requires Valid(ExampleSpec(), WITH_FIVE, s) && CanSelectFour(s) && WellOrdered(s.blocks)
    requires SelectHead(ExampleSpec(), s, FOUR.Id()) == Success(s')
    ensures s'.latestFinalizedBid == THREE.Id()
  {
    var spec, head := ExampleSpec(), FOUR.Id();
    TreeContents();
    hide Valid, ExampleSpec, HeadChange, Finalize;
    HeadChangeSafe(spec, WITH_FIVE, s, head);
    HeadChangeFrame(spec, s, head);
    var s1 := HeadChange(spec, s, head).value;
    FinalizeMovesLow(spec, WITH_FIVE, s1, head);
    assert WITH_FIVE.states[14] == FOUR_STATE;
  }

  lemma FiveIsStale(s: Store)
    requires Valid(ExampleSpec(), WITH_FIVE, s) && s.latestFinalizedBid == THREE.Id()
    ensures WellOrdered(WITH_FIVE.blocks) && WellOrdered(s.blocks)
    ensures s.latestFinalizedBid.slot in s.finalizedBlockRoots && CanSelect(WITH_FIVE, s, FIVE.Id())
    ensures OnChain(WITH_FIVE.blocks, Tip(s), 5)
    ensures SelectHead(ExampleSpec(), s, FIVE.Id()) == Failure(KeyMissing)
  {
    var spec, head := ExampleSpec(), FIVE.Id();
    FiveIsRetained(s);
    hide Valid, ExampleSpec, HeadChange;
    HeadChangeSafe(spec, WITH_FIVE, s, head);
    HeadChangeFrame(spec, s, head);
    var s1 := HeadChange(spec, s, head).value;
    assert Finalize(spec, s1, head) == Failure(KeyMissing);
  }

  lemma FiveIsRetained(s: Store)
    requires Valid(ExampleSpec(), WITH_FIVE, s) && s.latestFinalizedBid == THREE.Id()
    ensures WellOrdered(WITH_FIVE.blocks) && WellOrdered(s.blocks)
    ensures s.latestFinalizedBid.slot in s.finalizedBlockRoots && CanSelect(WITH_FIVE, s, FIVE.Id())
    ensures OnChain(WITH_FIVE.blocks, Tip(s), 5)
    ensures 5 in s.blocks && s.blocks[5] == FIVE && 15 in s.states && s.states[15] == FIVE_STATE && 2 !in s.blocks
  {
    TreeContents();
    hide Valid, ExampleSpec, OnChain;
    FinalizedTip(ExampleSpec(), WITH_FIVE, s);
    StoredFrom(ExampleSpec(), WITH_FIVE, s, 5);
    assert Tip(s) == 3;
    FiveIsBelowThree();
  }

  lemma FiveIsBelowThree()
    requires WellOrdered(WITH_FIVE.blocks)
    ensures OnChain(WITH_FIVE.blocks, 3, 5)
  {
    TreeContents();
    var m := WITH_FIVE.blocks;
    assert OlderParent(m, 5);
    assert AncestorAt(m, 5, 5) == AncestorAt(m, 3, 5);
  }
}
