/** The store from its set-up on: everything that holds of every run. */
module LightClientReachable {
  import opened Wrappers
  import opened BlockTree
  import opened LightClientModel
  import opened LightClientInvariant
  import opened LightClientRuns
  import opened LightClientServing
  import opened LightClientStart
  import opened LightClientCommittee
  import opened LightClientSharing
  import opened LightClientFinality

  /** The store after a run from genesis. */
  ghost function Reached(spec: Spec, anchor: Block, st: State, actions: seq<Action>): Result<Store, Error> {
    var s :- Setup(spec, anchor, st);
    Run(spec, s, actions)
  }

  /** No run of allowed actions from genesis ever raises, and the store it reaches is valid: caches,
      indices and pruning all agree with the chain, no saved state has been advanced past the periods
      finalized so far, on which the committees served depend, and no state still stored has been
      advanced at all. */
  lemma EveryRunIsSafe(spec: Spec, anchor: Block, st: State, actions: seq<Action>)
    requires ValidSpec(spec) && IsGenesis(spec, anchor, st)
    requires Setup(spec, anchor, st).Success? ==>
      AllowedRun(spec, StartHistory(anchor, st), Setup(spec, anchor, st).value, actions)
    ensures Reached(spec, anchor, st, actions).Success?
    ensures Valid(spec, HistoryAfter(StartHistory(anchor, st), actions), Reached(spec, anchor, st, actions).value)
    ensures Settled(spec, HistoryAfter(StartHistory(anchor, st), actions), Reached(spec, anchor, st, actions).value)
    ensures SharingHarmless(HistoryAfter(StartHistory(anchor, st), actions), Reached(spec, anchor, st, actions).value)
  {
    hide Valid, Settled, SharingHarmless, Setup, Run, AllowedRun;
    SetupIsValid(spec, anchor, st);
    SetupSettles(spec, anchor, st);
    SetupShares(spec, anchor, st);
    RunKeepsSharing(spec, StartHistory(anchor, st), Setup(spec, anchor, st).value, actions);
    RunSettles(spec, StartHistory(anchor, st), Setup(spec, anchor, st).value, actions);
  }

  /** In every store reached from genesis, the finalized checkpoint is that of genesis or, epoch and block
      together, that of the post-state of a head selected on the way; and no selected head finalizes a
      newer block. */
  lemma EveryCheckpointIsSelected(spec: Spec, anchor: Block, st: State, actions: seq<Action>)
    requires ValidSpec(spec) && IsGenesis(spec, anchor, st)
    requires Setup(spec, anchor, st).Success? ==>
      AllowedRun(spec, StartHistory(anchor, st), Setup(spec, anchor, st).value, actions)
    ensures Reached(spec, anchor, st, actions).Success?
    ensures
      var h, s := HistoryAfter(StartHistory(anchor, st), actions), Reached(spec, anchor, st, actions).value;
      && ((s.latestFinalizedEpoch == GENESIS_EPOCH && s.latestFinalizedBid == BlockID(GENESIS_SLOT, st.finalizedRoot))
          || exists i :: 0 <= i < |actions| && actions[i].Select?
               && Finalizes(h, actions[i].head.root, s.latestFinalizedEpoch, s.latestFinalizedBid))
      && NewestOfRun(h, actions, s.latestFinalizedBid.slot)
  {
    hide Valid, Run, AllowedRun, Finalizes, NewestOfRun;
    SetupIsValid(spec, anchor, st);
    SetupContent(spec, anchor, st);
    hide Setup, IsGenesis;
    RunRecords(spec, StartHistory(anchor, st), Setup(spec, anchor, st).value, actions);
  }

  /** In every store reached from genesis, the cached best update of every block still stored is the
      earliest maximal update that the block's own chain signs in its period. */
  lemma EveryCachedBestIsTrue(spec: Spec, anchor: Block, st: State, actions: seq<Action>, r: Root)
    requires ValidSpec(spec) && IsGenesis(spec, anchor, st)
    requires Setup(spec, anchor, st).Success? ==>
      AllowedRun(spec, StartHistory(anchor, st), Setup(spec, anchor, st).value, actions)
    requires r in HistoryAfter(StartHistory(anchor, st), actions).blocks
    ensures
      var s, blocks := Reached(spec, anchor, st, actions), HistoryAfter(StartHistory(anchor, st), actions).blocks;
      && s.Success? && WellOrdered(blocks)
      && (blocks[r].slot >= LowSlot(s.value) ==>
           && blocks[r].Id() in s.value.cache.data
           && IsBest(spec, s.value.cache.tailSlot, blocks, r, s.value.cache.data[blocks[r].Id()].best))
  {
    hide Valid, Settled, Setup, Run, AllowedRun, IsBest, LowSlot;
    SetupIsValid(spec, anchor, st);
    CachedBestIsEarliestMaximal(spec, StartHistory(anchor, st), Setup(spec, anchor, st).value, actions, r);
  }

  /** Blocks and states are held exactly from the newest finalized block on. Data is cached for exactly the
      blocks at or after the tail, or the anchor, that are no older than the newest finalized block once that
      is at or after the tail. */
  ghost predicate HeldExactly(h: History, s: Store, r: Root) {
    var low, tail := s.latestFinalizedBid.slot, s.cache.tailSlot;
    && (r in s.blocks <==> r in h.blocks && h.blocks[r].slot >= low)
    && (r in s.blocks ==> s.blocks[r] == h.blocks[r])
    && (r in s.states <==> r in h.states && h.states[r].slot >= low)
    && (r in s.states ==> s.states[r] == h.states[r])
    && forall slot: nat :: BlockID(slot, r) in s.cache.data <==>
         r in h.blocks && h.blocks[r].slot == slot && (slot >= tail || r == h.anchor) && (low >= tail ==> slot >= low)
  }

  /** So it is in every store reached from genesis. */
  lemma EveryStoreIsPruned(spec: Spec, anchor: Block, st: State, actions: seq<Action>, r: Root)
    requires ValidSpec(spec) && IsGenesis(spec, anchor, st)
    requires Setup(spec, anchor, st).Success? ==>
      AllowedRun(spec, StartHistory(anchor, st), Setup(spec, anchor, st).value, actions)
    ensures Reached(spec, anchor, st, actions).Success?
    ensures HistoryAfter(StartHistory(anchor, st), actions).anchor == anchor.root
    ensures HeldExactly(HistoryAfter(StartHistory(anchor, st), actions), Reached(spec, anchor, st, actions).value, r)
  {
    hide Valid, Setup, Run, AllowedRun, Settled, SharingHarmless, HeldExactly;
    EveryRunIsSafe(spec, anchor, st, actions);
    AnchorOfRun(StartHistory(anchor, st), actions);
    StoredAndCached(spec, HistoryAfter(StartHistory(anchor, st), actions), Reached(spec, anchor, st, actions).value, r);
  }

  lemma {:induction false} AnchorOfRun(h: History, actions: seq<Action>)
    ensures HistoryAfter(h, actions).anchor == h.anchor
    decreases |actions|
  {
    if actions != [] {
      AnchorOfRun(Recorded(h, actions[0]), actions[1..]);
    }
  }

  /** The invariant says so. */
  lemma StoredAndCached(spec: Spec, h: History, s: Store, r: Root)
    requires Valid(spec, h, s)
    ensures HeldExactly(h, s, r)
  {
    hide ValidIndex, ValidCheckpoints, ValidDB, IsBest, IsLatestSignature;
    if r in h.blocks {
      assert h.blocks[r].root == r;
      assert h.blocks[r].Id() in s.cache.data <==> Cached(s, h, r);
    }
    forall slot: nat | BlockID(slot, r) in s.cache.data ensures r in h.blocks && h.blocks[r].slot == slot {
      assert ValidCacheEntry(spec, h, s, BlockID(slot, r));
    }
  }

  /** And it is the store that a run with shared state objects reaches. */
  lemma EveryRunIsShared(spec: Spec, anchor: Block, st: State, actions: seq<Action>)
    requires ValidSpec(spec) && IsGenesis(spec, anchor, st)
    requires Setup(spec, anchor, st).Success? ==>
      AllowedRun(spec, StartHistory(anchor, st), Setup(spec, anchor, st).value, actions)
    ensures Setup(spec, anchor, st).Success?
    ensures SharedRun(spec, anchor.stateRoot, Setup(spec, anchor, st).value, actions)
      == Run(spec, Setup(spec, anchor, st).value, actions)
  {
    hide Valid, SharingHarmless, Setup, Run, SharedRun, AllowedRun;
    SetupIsValid(spec, anchor, st);
    SetupShares(spec, anchor, st);
    SharedRunIsRun(spec, StartHistory(anchor, st), Setup(spec, anchor, st).value, actions);
  }
}
