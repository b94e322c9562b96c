/** Which finalized checkpoint the store keeps: after one head change, and over whole runs. */
module LightClientFinality {
  import opened Wrappers
  import opened BlockTree
  import opened LightClientModel
  import opened LightClientInvariant
  import opened LightClientHead
  import opened LightClientFinalize
  import opened LightClientRuns
  import opened LightClientServing
  import opened LightClientStart
  import opened LightClientCommittee
  import opened LightClientTrees

  /** The post-state of block `root` finalizes block `bid` at a later epoch than genesis. */
  ghost predicate Finalizes(h: History, root: Root, epoch: nat, bid: BlockID) {
    && root in h.blocks && h.blocks[root].stateRoot in h.states
    && var st := h.states[h.blocks[root].stateRoot];
    && epoch != GENESIS_EPOCH && st.finalizedEpoch == epoch
    && st.finalizedRoot in h.blocks && h.blocks[st.finalizedRoot].Id() == bid
  }

  /** The finalization half keeps the newer of two checkpoints, with its epoch: the head's if its block
      is newer than the store's newest finalized one, and the store's otherwise. */
  lemma FinalizeRecords(spec: Spec, h: History, s: Store, head: BlockID)
    requires Valid(spec, h, s) && CanSelect(h, s, head) && WellOrdered(s.blocks)
    requires head.root in h.blocks && h.blocks[head.root].stateRoot in h.states && FinalityRetained(h, s, head)
    ensures Finalize(spec, s, head).Success?
    ensures
      var st, s' := h.states[h.blocks[head.root].stateRoot], Finalize(spec, s, head).value;
      if st.finalizedEpoch != GENESIS_EPOCH && st.finalizedRoot in h.blocks
        && h.blocks[st.finalizedRoot].slot > s.latestFinalizedBid.slot
      then
        && s'.latestFinalizedEpoch == st.finalizedEpoch
        && s'.latestFinalizedBid == h.blocks[st.finalizedRoot].Id()
        && s'.latestFinalizedBid.slot in s'.finalizedBlockRoots && Tip(s') == st.finalizedRoot
      else s' == s
  {
    hide ProcessFinalization, Valid, Walked;
    FinalizeExact(spec, h, s, head);
    HeadStateIsKnown(spec, h, s, head);
    if Advances(h, s, head) {
      var st := h.states[h.blocks[head.root].stateRoot];
      FinalizeMovesLow(spec, h, s, head);
      WalkIsTrue(spec, h, s, st.finalizedRoot);
      var seg := Segment(s.blocks, st.finalizedRoot, s.latestFinalizedBid.slot);
      ProcessKeepsBlocks(spec, s, st.finalizedEpoch, h.blocks[st.finalizedRoot], seg);
    }
  }

  /** So does `select_new_head`. */
  lemma SelectRecords(spec: Spec, h: History, s: Store, head: BlockID)
    requires Valid(spec, h, s) && CanSelect(h, s, head) && WellOrdered(s.blocks)
    requires head.root in h.blocks && h.blocks[head.root].stateRoot in h.states && FinalityRetained(h, s, head)
    ensures SelectHead(spec, s, head).Success?
    ensures
      var st, s' := h.states[h.blocks[head.root].stateRoot], SelectHead(spec, s, head).value;
      if st.finalizedEpoch != GENESIS_EPOCH && st.finalizedRoot in h.blocks
        && h.blocks[st.finalizedRoot].slot > s.latestFinalizedBid.slot
      then
        && s'.latestFinalizedEpoch == st.finalizedEpoch
        && s'.latestFinalizedBid == h.blocks[st.finalizedRoot].Id()
        && s'.latestFinalizedBid.slot in s'.finalizedBlockRoots && Tip(s') == st.finalizedRoot
      else
        && s'.latestFinalizedEpoch == s.latestFinalizedEpoch && s'.latestFinalizedBid == s.latestFinalizedBid
        && s'.finalizedBlockRoots == s.finalizedBlockRoots
  {
    hide HeadChange, Finalize, Valid, FinalityRetained;
    HeadChangeSafe(spec, h, s, head);
    var s1 := HeadChange(spec, s, head).value;
    RetainedFrame(h, s, s1, head);
    FinalizeRecords(spec, h, s1, head);
  }

  lemma RetainedFrame(h: History, s: Store, s1: Store, head: BlockID)
    requires head.root in h.blocks && h.blocks[head.root].stateRoot in h.states && s1.blocks == s.blocks
    ensures FinalityRetained(h, s1, head) == FinalityRetained(h, s, head)
  {
  }

  // ---------------------------------------------------------------- whole runs

  /** The pair of epoch and block is that of `s`, or the checkpoint of a head that the run selects. */
  ghost predicate CheckpointOfRun(h: History, s: Store, actions: seq<Action>, epoch: nat, bid: BlockID) {
    || (epoch == s.latestFinalizedEpoch && bid == s.latestFinalizedBid)
    || exists i :: 0 <= i < |actions| && actions[i].Select? && Finalizes(h, actions[i].head.root, epoch, bid)
  }

  /** No head selected on the way finalizes anything newer. */
  ghost predicate NewestOfRun(h: History, actions: seq<Action>, slot: nat) {
    forall i, epoch, bid ::
      0 <= i < |actions| && actions[i].Select? && Finalizes(h, actions[i].head.root, epoch, bid) ==> bid.slot <= slot
  }

  /** The post-state of a block is known, with the block that it finalizes. */
  ghost predicate HasState(h: History, root: Root) {
    && root in h.blocks && h.blocks[root].stateRoot in h.states
    && var st := h.states[h.blocks[root].stateRoot];
       st.finalizedEpoch != GENESIS_EPOCH ==> st.finalizedRoot in h.blocks
  }

  /** Blocks and states stay in the history as they were added. */
  ghost predicate Keeps(h: History, h': History) {
    && (forall r :: r in h.blocks ==> r in h'.blocks && h'.blocks[r] == h.blocks[r])
    && (forall q :: q in h.states ==> q in h'.states && h'.states[q] == h.states[q])
  }

  /** What one action does to the checkpoint. */
  ghost predicate Records(h: History, s: Store, a: Action, s': Store) {
    && s'.latestFinalizedBid.slot >= s.latestFinalizedBid.slot
    && ((s'.latestFinalizedEpoch == s.latestFinalizedEpoch && s'.latestFinalizedBid == s.latestFinalizedBid)
        || (a.Select? && Finalizes(h, a.head.root, s'.latestFinalizedEpoch, s'.latestFinalizedBid)))
    && (a.Select? ==>
         && HasState(h, a.head.root)
         && forall epoch, bid :: Finalizes(h, a.head.root, epoch, bid) ==> bid.slot <= s'.latestFinalizedBid.slot)
  }

  lemma StepRecords(spec: Spec, h: History, s: Store, a: Action)
    requires Valid(spec, h, s) && Allowed(spec, h, s, a)
    ensures Step(spec, s, a).Success?
    ensures Records(h, s, a, Step(spec, s, a).value)
  {
    hide Valid, SelectHead;
    StepIsSafe(spec, h, s, a);
    ValidParts(spec, h, s);
    if a.Select? {
      HeadStateIsKnown(spec, h, s, a.head);
      SelectRecords(spec, h, s, a.head);
    }
  }

  /** A run one action longer at its start. */
  lemma RunCons(h: History, h': History, s: Store, s1: Store, actions: seq<Action>, s': Store)
    requires actions != [] && Records(h, s, actions[0], s1) && Keeps(h, h')
    requires s'.latestFinalizedBid.slot >= s1.latestFinalizedBid.slot
    requires CheckpointOfRun(h', s1, actions[1..], s'.latestFinalizedEpoch, s'.latestFinalizedBid)
    requires NewestOfRun(h', actions[1..], s'.latestFinalizedBid.slot)
    ensures CheckpointOfRun(h', s, actions, s'.latestFinalizedEpoch, s'.latestFinalizedBid)
    ensures NewestOfRun(h', actions, s'.latestFinalizedBid.slot)
  {
    var a, rest := actions[0], actions[1..];
    assert forall i :: 0 < i < |actions| ==> actions[i] == rest[i - 1];
    forall epoch, bid | a.Select?
      ensures Finalizes(h', a.head.root, epoch, bid) <==> Finalizes(h, a.head.root, epoch, bid)
    {
    }
    if a.Select? && Finalizes(h, a.head.root, s1.latestFinalizedEpoch, s1.latestFinalizedBid) {
      assert Finalizes(h', actions[0].head.root, s1.latestFinalizedEpoch, s1.latestFinalizedBid);
    }
  }

  /** A run of no actions records nothing. */
  lemma NothingSelected(h: History, s: Store)
    ensures CheckpointOfRun(h, s, [], s.latestFinalizedEpoch, s.latestFinalizedBid)
    ensures NewestOfRun(h, [], s.latestFinalizedBid.slot)
  {
  }

  /** Over every run, the checkpoint kept is the one the run started from or that of a head selected on
      the way, epoch and block together, and none of these heads finalizes a newer block. */
  lemma {:induction false} RunRecords(spec: Spec, h: History, s: Store, actions: seq<Action>)
    requires Valid(spec, h, s) && AllowedRun(spec, h, s, actions)
    ensures Run(spec, s, actions).Success?
    ensures
      var h', s' := HistoryAfter(h, actions), Run(spec, s, actions).value;
      && Keeps(h, h') && s'.latestFinalizedBid.slot >= s.latestFinalizedBid.slot
      && CheckpointOfRun(h', s, actions, s'.latestFinalizedEpoch, s'.latestFinalizedBid)
      && NewestOfRun(h', actions, s'.latestFinalizedBid.slot)
    decreases |actions|
  {
    hide Step, Valid, CheckpointOfRun, NewestOfRun, Allowed, Records, Keeps;
    if actions != [] {
      var a := actions[0];
      StepIsSafe(spec, h, s, a);
      StepRecords(spec, h, s, a);
      var h1, s1 := Recorded(h, a), Step(spec, s, a).value;
      RunRecords(spec, h1, s1, actions[1..]);
      KeepsAll(spec, h, s, a, HistoryAfter(h, actions));
      RunCons(h, HistoryAfter(h, actions), s, s1, actions, Run(spec, s, actions).value);
      NotLower(h, s, a, s1);
    } else {
      NothingSelected(h, s);
      KeepsItself(h);
    }
  }

  lemma KeepsItself(h: History)
    ensures Keeps(h, h)
  {
  }

  lemma KeepsAll(spec: Spec, h: History, s: Store, a: Action, h': History)
    requires Valid(spec, h, s) && Allowed(spec, h, s, a) && Keeps(Recorded(h, a), h')
    ensures Keeps(h, h')
  {
    hide Valid;
    ValidParts(spec, h, s);
  }

  lemma NotLower(h: History, s: Store, a: Action, s': Store)
    requires Records(h, s, a, s')
    ensures s'.latestFinalizedBid.slot >= s.latestFinalizedBid.slot
  {
  }
}
