/** Exactly when a head change raises, and why no other action ever does, over whole runs. */
module LightClientRuns {
  import opened Wrappers
  import opened BlockTree
  import opened LightClientModel
  import opened LightClientInvariant
  import opened LightClientAdd
  import opened LightClientHead
  import opened LightClientSegment
  import opened LightClientFinalize

  // ---------------------------------------------------------------- one head change

  /** The head's post-state finalizes nothing yet, or a block that has not been pruned. */
  ghost predicate FinalityRetained(h: History, s: Store, head: BlockID)
    requires head.root in h.blocks && h.blocks[head.root].stateRoot in h.states
  {
    var st := h.states[h.blocks[head.root].stateRoot];
    st.finalizedEpoch == GENESIS_EPOCH || st.finalizedRoot in s.blocks
  }

  /** What the walk of the finalization half sees in the retained blocks is the true chain. */
  lemma WalkIsTrue(spec: Spec, h: History, s: Store, f: Root)
    requires Valid(spec, h, s) && OnChain(h.blocks, Tip(s), f) && WellOrdered(s.blocks)
    ensures AncestorAt(s.blocks, f, s.latestFinalizedBid.slot).Some?
    ensures Segment(s.blocks, f, s.latestFinalizedBid.slot) == Segment(h.blocks, f, s.latestFinalizedBid.slot)
    ensures TopsKnown(spec, s.states, Segment(s.blocks, f, s.latestFinalizedBid.slot))
  {
    var low := s.latestFinalizedBid.slot;
    RetainedWalk(h, s, f, low);
    SegmentAfterPruning(h.blocks, low, f, low);
    StatesOfSegmentKnown(spec, h, s, f);
  }

  lemma {:induction false} BootstrapsKeepBlocks(spec: Spec, w: Store, seg: seq<Block>, n: nat)
    requires n <= |seg| && BootstrapTops(spec, w, seg, n).Success?
    ensures BootstrapTops(spec, w, seg, n).value.blocks == w.blocks
    ensures BootstrapTops(spec, w, seg, n).value.states == w.states
    ensures BootstrapTops(spec, w, seg, n).value.latestFinalizedEpoch == w.latestFinalizedEpoch
  {
    hide CommitteeForFinalizedPeriod;
    if n > 0 {
      BootstrapsKeepBlocks(spec, w, seg, n - 1);
    }
  }

  /** Finalization itself deletes no block and no state. */
  lemma ProcessKeepsBlocks(spec: Spec, s: Store, epoch: nat, f: Block, seg: seq<Block>)
    requires TopsKnown(spec, s.states, seg)
    requires ProcessFinalization(spec, Walked(spec, s, epoch, f, seg), f.Id(), seg).Success?
    ensures ProcessFinalization(spec, Walked(spec, s, epoch, f, seg), f.Id(), seg).value.blocks == s.blocks
    ensures ProcessFinalization(spec, Walked(spec, s, epoch, f, seg), f.Id(), seg).value.states == s.states
    ensures ProcessFinalization(spec, Walked(spec, s, epoch, f, seg), f.Id(), seg).value.latestFinalizedEpoch == epoch
  {
    hide CreateLcBootstrap;
    var w := Walked(spec, s, epoch, f, seg);
    if f.slot >= w.cache.tailSlot {
      BootstrapsKeepBlocks(spec, w, seg, |seg|);
    }
  }

  /** The finalization half of a head change raises exactly when the head's post-state still
      has a finalized checkpoint older than the store's newest one. */
  lemma FinalizeExact(spec: Spec, h: History, s: Store, head: BlockID)
    requires Valid(spec, h, s) && CanSelect(h, s, head) && WellOrdered(s.blocks)
    ensures head.root in h.blocks && h.blocks[head.root].stateRoot in h.states
    ensures Finalize(spec, s, head).Success? <==> FinalityRetained(h, s, head)
    ensures FinalityRetained(h, s, head) ==> Valid(spec, h, Finalize(spec, s, head).value)
  {
    hide ProcessFinalization, Valid, Walked;
    HeadStateIsKnown(spec, h, s, head);
    if FinalityRetained(h, s, head) && Advances(h, s, head) {
      var st := h.states[h.blocks[head.root].stateRoot];
      var f := st.finalizedRoot;
      WalkIsTrue(spec, h, s, f);
      AdvanceIsSafe(spec, h, s, st.finalizedEpoch, f);
      var seg := Segment(s.blocks, f, s.latestFinalizedBid.slot);
      ProcessKeepsBlocks(spec, s, st.finalizedEpoch, h.blocks[f], seg);
    }
  }

  /** Selecting a head raises exactly in that case, and otherwise keeps the invariant. */
  lemma SelectHeadExact(spec: Spec, h: History, s: Store, head: BlockID)
    requires Valid(spec, h, s) && CanSelect(h, s, head) && WellOrdered(s.blocks)
    ensures head.root in h.blocks && h.blocks[head.root].stateRoot in h.states
    ensures SelectHead(spec, s, head).Success? <==> FinalityRetained(h, s, head)
    ensures FinalityRetained(h, s, head) ==> Valid(spec, h, SelectHead(spec, s, head).value)
  {
    hide HeadChange, Finalize;
    HeadChangeSafe(spec, h, s, head);
    FinalizeExact(spec, h, HeadChange(spec, s, head).value, head);
  }

  // ---------------------------------------------------------------- whole runs

  datatype Action =
    | Add(block: Block, post: State, parent: BlockID)
    | Select(head: BlockID)

  ghost function Step(spec: Spec, s: Store, a: Action): Result<Store, Error> {
    if !WellOrdered(s.blocks) then Failure(KeyMissing) else
    match a
    case Add(b, post, parent) => AddBlock(spec, s, b, post, parent)
    case Select(head) => SelectHead(spec, s, head)
  }

  ghost function Run(spec: Spec, s: Store, actions: seq<Action>): Result<Store, Error>
    decreases |actions|
  {
    if actions == [] then Success(s)
    else
      var s1 :- Step(spec, s, actions[0]);
      Run(spec, s1, actions[1..])
  }

  function Recorded(h: History, a: Action): History {
    if a.Add? then Grown(h, a.block, a.post) else h
  }

  function HistoryAfter(h: History, actions: seq<Action>): History
    decreases |actions|
  {
    if actions == [] then h else HistoryAfter(Recorded(h, actions[0]), actions[1..])
  }

  /** The environment's part in one step. */
  ghost predicate Allowed(spec: Spec, h: History, s: Store, a: Action) {
    Valid(spec, h, s) ==>
      match a
      case Add(b, post, parent) => CanAdd(spec, h, s, b, post, parent)
      case Select(head) => CanSelect(h, s, head) && ValidEntry(h, head.root) && FinalityRetained(h, s, head)
  }

  /** The environment's part in a whole run. */
  ghost predicate AllowedRun(spec: Spec, h: History, s: Store, actions: seq<Action>)
    decreases |actions|
  {
    actions != [] ==>
      && Allowed(spec, h, s, actions[0])
      && (Step(spec, s, actions[0]).Success? ==>
           AllowedRun(spec, Recorded(h, actions[0]), Step(spec, s, actions[0]).value, actions[1..]))
  }

  lemma StepIsSafe(spec: Spec, h: History, s: Store, a: Action)
    requires Valid(spec, h, s) && Allowed(spec, h, s, a)
    ensures Step(spec, s, a).Success?
    ensures Valid(spec, Recorded(h, a), Step(spec, s, a).value)
  {
    hide AddBlock, SelectHead;
    RetainedWalk(h, s, h.anchor, 0);
    match a
    case Add(b, post, parent) => AddBlockSafe(spec, h, s, b, post, parent);
    case Select(head) => SelectHeadExact(spec, h, s, head);
  }

  /** Over every run, no operation raises and the invariant holds at the end. */
  lemma {:induction false} RunIsSafe(spec: Spec, h: History, s: Store, actions: seq<Action>)
    requires Valid(spec, h, s) && AllowedRun(spec, h, s, actions)
    ensures Run(spec, s, actions).Success?
    ensures Valid(spec, HistoryAfter(h, actions), Run(spec, s, actions).value)
    decreases |actions|
  {
    hide Step, Valid;
    if actions != [] {
      StepIsSafe(spec, h, s, actions[0]);
      RunIsSafe(spec, Recorded(h, actions[0]), Step(spec, s, actions[0]).value, actions[1..]);
    }
  }
}
