/** What every reachable light client store satisfies, measured against the full history
    of blocks (pruned ones included). */
module LightClientInvariant {
  import opened Wrappers
  import opened BlockTree
  import opened LightClientModel
  import opened LightClientTime

  /** Every block and post-state ever added, whether or not the store still holds it. */
  datatype History = History(anchor: Root, blocks: Blocks, states: map<Root, State>)

  ghost predicate ValidSpec(spec: Spec) {
    StrictWeakOrder(spec.isBetter)
  }

  /** The environment: a tree rooted in the genesis block, states filed one to one with
      blocks, and finalized checkpoints that name a block of the state's own chain. */
  ghost predicate ValidHistory(spec: Spec, h: History) {
    && WellOrdered(h.blocks)
    && ClosedUpTo(h.blocks, ZERO_ROOT)
    && h.anchor in h.blocks
    && h.blocks[h.anchor].slot == GENESIS_SLOT
    && h.blocks[h.anchor].stateRoot in h.states
    && StartState(h).finalizedEpoch == GENESIS_EPOCH
    && IsEpochStart(spec, StartState(h).slot)
    && (forall r {:trigger ValidEntry(h, r)} :: r in h.blocks ==> ValidEntry(h, r))
    && (forall q {:trigger ValidState(h, q)} :: q in h.states ==> ValidState(h, q))
  }

  ghost function StartState(h: History): State
    requires h.anchor in h.blocks && h.blocks[h.anchor].stateRoot in h.states
  {
    h.states[h.blocks[h.anchor].stateRoot]
  }

  /** A post-state is filed under the state root of the block it belongs to. */
  ghost predicate ValidState(h: History, q: Root)
    requires q in h.states
  {
    h.states[q].header.root in h.blocks && h.blocks[h.states[q].header.root].stateRoot == q
  }

  ghost predicate ValidEntry(h: History, r: Root)
    requires WellOrdered(h.blocks) && r in h.blocks
    requires h.anchor in h.blocks && h.blocks[h.anchor].stateRoot in h.states
  {
    && h.blocks[r].stateRoot in h.states
    && var st := h.states[h.blocks[r].stateRoot];
    && st.header == h.blocks[r].Id()
    && (st.finalizedEpoch != GENESIS_EPOCH ==> OnChain(h.blocks, st.finalizedRoot, r))
    && (r != h.anchor ==>
         && h.blocks[r].parentRoot in h.blocks
         && st.slot == h.blocks[r].slot
         && st.slot > StartState(h).slot)
  }

  // ---------------------------------------------------------------- best and latest, by brute force

  /** `x` lies on the chain of `r`, attests a parent at or after the tail, and has enough
      participants. */
  ghost predicate Signs(spec: Spec, tail: nat, m: Blocks, x: Root, r: Root)
    requires WellOrdered(m)
  {
    && OnChain(m, x, r)
    && m[x].parentRoot in m
    && m[m[x].parentRoot].slot >= tail
    && m[x].participants >= spec.minParticipants
  }

  ghost function UpdateSignedBy(m: Blocks, x: Root): Update
    requires x in m && m[x].parentRoot in m
  {
    Update(m[m[x].parentRoot].Id(), m[x].slot, SyncAggregate(x, m[x].participants))
  }

  /** The signing blocks whose update competes in the period of `r`. */
  ghost predicate Eligible(spec: Spec, tail: nat, m: Blocks, x: Root, r: Root)
    requires WellOrdered(m) && r in m
  {
    && Signs(spec, tail, m, x, r)
    && spec.PeriodAt(m[x].slot) == spec.PeriodAt(m[m[x].parentRoot].slot) == spec.PeriodAt(m[r].slot)
  }

  /** `x` gives the earliest maximal update among those that compete in the period of `r`. */
  ghost predicate EarliestMaximal(spec: Spec, tail: nat, m: Blocks, x: Root, r: Root)
    requires WellOrdered(m) && r in m
  {
    && Eligible(spec, tail, m, x, r)
    && forall y :: Eligible(spec, tail, m, y, r) ==>
         && !spec.isBetter(UpdateSignedBy(m, y), UpdateSignedBy(m, x))
         && (m[y].slot < m[x].slot ==> spec.isBetter(UpdateSignedBy(m, x), UpdateSignedBy(m, y)))
  }

  ghost predicate IsBest(spec: Spec, tail: nat, m: Blocks, r: Root, best: Option<Update>)
    requires WellOrdered(m) && r in m
  {
    match best
    case None => forall x :: !Eligible(spec, tail, m, x, r)
    case Some(u) => exists x :: EarliestMaximal(spec, tail, m, x, r) && u == UpdateSignedBy(m, x)
  }

  /** `slot` is the slot of the newest signing block of the chain of `r`, or genesis. */
  ghost predicate IsLatestSignature(spec: Spec, tail: nat, m: Blocks, r: Root, slot: nat)
    requires WellOrdered(m) && r in m
  {
    && (forall y :: Signs(spec, tail, m, y, r) ==> m[y].slot <= slot)
    && (slot != GENESIS_SLOT ==> exists x :: Signs(spec, tail, m, x, r) && m[x].slot == slot)
  }

  /** Later blocks change no signing block of an older one. */
  lemma SignsInExtension(spec: Spec, tail: nat, m: Blocks, m': Blocks, x: Root, r: Root)
    requires Extends(m, m', ZERO_ROOT) && r in m
    ensures Signs(spec, tail, m', x, r) <==> Signs(spec, tail, m, x, r)
    ensures Eligible(spec, tail, m', x, r) <==> Eligible(spec, tail, m, x, r)
    ensures Signs(spec, tail, m, x, r) ==> UpdateSignedBy(m', x) == UpdateSignedBy(m, x)
  {
    ChainInExtension(m, m', ZERO_ROOT, x, r);
    if x in m {
      assert ParentKnown(m, ZERO_ROOT, x);
    }
  }

  /** So what was best for an older block stays best for it. */
  lemma BestInExtension(spec: Spec, tail: nat, m: Blocks, m': Blocks, r: Root, best: Option<Update>)
    requires Extends(m, m', ZERO_ROOT) && r in m
    requires IsBest(spec, tail, m, r, best)
    ensures IsBest(spec, tail, m', r, best)
  {
    forall x ensures Eligible(spec, tail, m', x, r) <==> Eligible(spec, tail, m, x, r)
             ensures Eligible(spec, tail, m, x, r) ==> UpdateSignedBy(m', x) == UpdateSignedBy(m, x)
    {
      SignsInExtension(spec, tail, m, m', x, r);
    }
    if best.Some? {
      var x :| EarliestMaximal(spec, tail, m, x, r) && best.value == UpdateSignedBy(m, x);
      assert EarliestMaximal(spec, tail, m', x, r);
    }
  }

  lemma LatestInExtension(spec: Spec, tail: nat, m: Blocks, m': Blocks, r: Root, slot: nat)
    requires Extends(m, m', ZERO_ROOT) && r in m
    requires IsLatestSignature(spec, tail, m, r, slot)
    ensures IsLatestSignature(spec, tail, m', r, slot)
  {
    forall x ensures Signs(spec, tail, m', x, r) <==> Signs(spec, tail, m, x, r) {
      SignsInExtension(spec, tail, m, m', x, r);
    }
    if slot != GENESIS_SLOT {
      var x :| Signs(spec, tail, m, x, r) && m[x].slot == slot;
      assert Signs(spec, tail, m', x, r) && m'[x].slot == slot;
    }
  }

  /** The earliest maximal update of a chain is unique. */
  lemma BestIsUnique(spec: Spec, tail: nat, m: Blocks, r: Root, best: Option<Update>, other: Option<Update>)
    requires WellOrdered(m) && r in m
    requires IsBest(spec, tail, m, r, best) && IsBest(spec, tail, m, r, other)
    ensures best == other
  {
    if best.Some? && other.Some? {
      var x :| EarliestMaximal(spec, tail, m, x, r) && best.value == UpdateSignedBy(m, x);
      var y :| EarliestMaximal(spec, tail, m, y, r) && other.value == UpdateSignedBy(m, y);
      if m[x].slot == m[y].slot {
        OnChainLinear(m, x, y, r);
        OnChainSlot(m, x, y);
      }
    }
  }

  // ---------------------------------------------------------------- the invariant

  /** Which blocks have cached data. */
  ghost predicate Cached(s: Store, h: History, r: Root)
    requires r in h.blocks
  {
    && (h.blocks[r].slot >= s.cache.tailSlot || r == h.anchor)
    && (s.latestFinalizedBid.slot >= s.cache.tailSlot ==> h.blocks[r].slot >= s.latestFinalizedBid.slot)
  }

  ghost predicate ValidCache(spec: Spec, h: History, s: Store)
    requires ValidHistory(spec, h)
  {
    && (forall r {:trigger Cached(s, h, r)} ::
      r in h.blocks ==> (h.blocks[r].Id() in s.cache.data <==> Cached(s, h, r)))
    && (forall bid {:trigger ValidCacheEntry(spec, h, s, bid)} ::
      bid in s.cache.data ==> ValidCacheEntry(spec, h, s, bid))
  }

  ghost predicate ValidCacheEntry(spec: Spec, h: History, s: Store, bid: BlockID)
    requires ValidHistory(spec, h) && bid in s.cache.data
  {
    && bid.root in h.blocks && h.blocks[bid.root].Id() == bid
    && s.cache.data[bid].currentBranch == h.blocks[bid.root].stateRoot
    && IsBest(spec, s.cache.tailSlot, h.blocks, bid.root, s.cache.data[bid].best)
    && IsLatestSignature(spec, s.cache.tailSlot, h.blocks, bid.root, s.cache.data[bid].latestSignatureSlot)
  }

  /** The index of finalized blocks is exactly the chain of its newest entry. */
  ghost predicate IndexOf(m: Blocks, roots: map<nat, Root>, tip: Root)
    requires WellOrdered(m)
  {
    && tip in m
    && (forall k :: k in roots ==> OnChain(m, roots[k], tip) && m[roots[k]].slot == k)
    && (forall x :: OnChain(m, x, tip) ==> m[x].slot in roots && roots[m[x].slot] == x)
  }

  ghost function Tip(s: Store): Root
    requires s.latestFinalizedBid.slot in s.finalizedBlockRoots
  {
    s.finalizedBlockRoots[s.latestFinalizedBid.slot]
  }

  ghost predicate ValidIndex(h: History, s: Store)
    requires WellOrdered(h.blocks)
  {
    && s.latestFinalizedBid.slot in s.finalizedBlockRoots
    && IndexOf(h.blocks, s.finalizedBlockRoots, Tip(s))
    && h.blocks[Tip(s)].slot == s.latestFinalizedBid.slot
  }

  /** `x` is the newest finalized block of its epoch window. */
  ghost predicate WindowTop(spec: Spec, m: Blocks, x: Root, tip: Root)
    requires WellOrdered(m)
  {
    && OnChain(m, x, tip)
    && forall y :: OnChain(m, y, tip) && m[y].slot > m[x].slot ==> spec.Window(m[y].slot) != spec.Window(m[x].slot)
  }

  /** Saved checkpoint states: one for every window top, of the block that has it. */
  ghost predicate ValidCheckpoints(spec: Spec, h: History, saved: map<Root, State>, tip: Root)
    requires ValidHistory(spec, h)
  {
    && (forall x :: WindowTop(spec, h.blocks, x, tip) ==> h.blocks[x].stateRoot in saved)
    && (forall q :: q in saved ==> q in h.states && saved[q].header == h.states[q].header)
  }

  ghost predicate ValidDB(spec: Spec, h: History, s: Store, tip: Root)
    requires ValidHistory(spec, h)
  {
    forall r {:trigger ValidHeader(spec, h, s, r, tip)} :: r in s.db.headers ==> ValidHeader(spec, h, s, r, tip)
  }

  /** Everything a bootstrap for `r` is served from is present and belongs to `r`. */
  ghost predicate ValidHeader(spec: Spec, h: History, s: Store, r: Root, tip: Root)
    requires ValidHistory(spec, h) && r in s.db.headers
  {
    && OnChain(h.blocks, r, tip)
    && s.db.headers[r] == h.blocks[r].Id()
    && spec.PeriodAt(h.blocks[r].slot) in s.db.syncCommittees
    && h.blocks[r].slot in s.db.currentBranches
    && s.db.currentBranches[h.blocks[r].slot] == h.blocks[r].stateRoot
  }

  ghost predicate ValidTails(spec: Spec, h: History, s: Store)
    requires h.anchor in h.blocks && h.blocks[h.anchor].stateRoot in h.states
  {
    && s.historicalTailSlot == StartState(h).slot
    && s.cache.tailSlot == CommitteeLowSlot(spec, s)
  }

  ghost predicate Valid(spec: Spec, h: History, s: Store) {
    && ValidSpec(spec)
    && ValidHistory(spec, h)
    && ValidTails(spec, h, s)
    && s.blocks == Pruned(h.blocks, s.latestFinalizedBid.slot)
    && s.states == PrunedStates(h.states, s.latestFinalizedBid.slot)
    && ValidIndex(h, s)
    && ValidCache(spec, h, s)
    && ValidCheckpoints(spec, h, s.finalizedCheckpointStates, Tip(s))
    && ValidDB(spec, h, s, Tip(s))
    && (s.latestFinalizedBid.slot >= s.cache.tailSlot ==>
         spec.PeriodAt(s.latestFinalizedBid.slot) in s.db.syncCommittees)
  }

  // ---------------------------------------------------------------- what the environment supplies

  /** The state transition produced block `b` with post-state `post` on top of a retained
      parent. Roots are new, the slot advances, and finality names an ancestor. */
  ghost predicate CanAdd(spec: Spec, h: History, s: Store, b: Block, post: State, parent: BlockID)
    requires ValidHistory(spec, h)
  {
    && b.root !in h.blocks && b.root != ZERO_ROOT && b.stateRoot !in h.states
    && b.parentRoot in s.blocks && b.parentRoot in h.blocks
    && parent == h.blocks[b.parentRoot].Id()
    && ValidEntry(h, b.parentRoot)
    && b.slot > h.states[h.blocks[b.parentRoot].stateRoot].slot
    && b.slot > h.blocks[b.parentRoot].slot
    && b.slot > StartState(h).slot
    && post.slot == b.slot
    && post.header == b.Id()
    && (post.finalizedEpoch != GENESIS_EPOCH ==> OnChain(h.blocks, post.finalizedRoot, b.parentRoot))
  }

  /** The head's post-state has a finalized checkpoint newer than the store's. */
  ghost predicate Advances(h: History, s: Store, head: BlockID)
    requires head.root in h.blocks && h.blocks[head.root].stateRoot in h.states
  {
    var st := h.states[h.blocks[head.root].stateRoot];
    && st.finalizedEpoch != GENESIS_EPOCH
    && st.finalizedRoot in h.blocks
    && h.blocks[st.finalizedRoot].slot > s.latestFinalizedBid.slot
  }

  ghost predicate HeadRetained(h: History, s: Store, head: BlockID) {
    head.root in s.blocks && head.root in h.blocks && head == h.blocks[head.root].Id()
  }

  /** The new head is retained, and finality advances along the chain: a head whose post-state has a
      newer finalized checkpoint descends from the newest finalized block. */
  ghost predicate CanSelect(h: History, s: Store, head: BlockID)
    requires WellOrdered(h.blocks) && s.latestFinalizedBid.slot in s.finalizedBlockRoots
  {
    && HeadRetained(h, s, head)
    && (h.blocks[head.root].stateRoot in h.states && Advances(h, s, head) ==> OnChain(h.blocks, Tip(s), head.root))
  }

  function Grown(h: History, b: Block, post: State): History {
    h.(blocks := h.blocks[b.root := b], states := h.states[b.stateRoot := post])
  }
}
