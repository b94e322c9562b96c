/** Adding a block: the per-block cache agrees with a scan of the block's own chain. */
module LightClientAdd {
  import opened Wrappers
  import opened BlockTree
  import opened LightClientModel
  import opened LightClientTime
  import opened LightClientInvariant

  /** The chain of a new block: the block itself, then the chain of its parent. */
  lemma NewBlockChain(h: History, b: Block, x: Root)
    requires Extends(h.blocks, h.blocks[b.root := b], ZERO_ROOT) && b.root !in h.blocks
    requires b.parentRoot in h.blocks
    ensures OnChain(h.blocks[b.root := b], x, b.root) <==> x == b.root || OnChain(h.blocks, x, b.parentRoot)
  {
    OnChainStep(h.blocks[b.root := b], x, b.root);
    ChainInExtension(h.blocks, h.blocks[b.root := b], ZERO_ROOT, x, b.parentRoot);
  }

  lemma GrownHistoryIsValid(spec: Spec, h: History, s: Store, b: Block, post: State, parent: BlockID)
    requires ValidHistory(spec, h) && CanAdd(spec, h, s, b, post, parent)
    ensures ValidHistory(spec, Grown(h, b, post))
  {
    var g := Grown(h, b, post);
    forall r | r in g.blocks ensures OlderParent(g.blocks, r) && ParentKnown(g.blocks, ZERO_ROOT, r) {
      if r != b.root {
        assert OlderParent(h.blocks, r) && ParentKnown(h.blocks, ZERO_ROOT, r);
      }
    }
    forall r | r in g.blocks ensures ValidEntry(g, r) {
      if r == b.root {
        NewBlockChain(h, b, post.finalizedRoot);
      } else {
        assert ValidEntry(h, r);
        ChainInExtension(h.blocks, g.blocks, ZERO_ROOT, h.states[h.blocks[r].stateRoot].finalizedRoot, r);
      }
    }
    forall q | q in g.states
      ensures ValidState(g, q)
    {
      if q != b.stateRoot {
        assert ValidState(h, q);
      }
    }
  }

  /** The signing blocks of a new block: possibly the block itself, and those of its parent. */
  lemma SignsStep(spec: Spec, tail: nat, h: History, b: Block, x: Root)
    requires Extends(h.blocks, h.blocks[b.root := b], ZERO_ROOT) && b.root !in h.blocks
    requires b.parentRoot in h.blocks
    ensures Signs(spec, tail, h.blocks[b.root := b], x, b.root) <==>
              || (x == b.root && h.blocks[b.parentRoot].slot >= tail && b.participants >= spec.minParticipants)
              || Signs(spec, tail, h.blocks, x, b.parentRoot)
    ensures Signs(spec, tail, h.blocks, x, b.parentRoot) ==>
              && UpdateSignedBy(h.blocks[b.root := b], x) == UpdateSignedBy(h.blocks, x)
              && x in h.blocks && h.blocks[x].slot <= h.blocks[b.parentRoot].slot
              && h.blocks[h.blocks[x].parentRoot].slot < h.blocks[b.parentRoot].slot
  {
    NewBlockChain(h, b, x);
    SignsInExtension(spec, tail, h.blocks, h.blocks[b.root := b], x, b.parentRoot);
    if OnChain(h.blocks, x, b.parentRoot) {
      OnChainSlot(h.blocks, x, b.parentRoot);
      assert OlderParent(h.blocks, x);
    }
  }

  lemma LatestSignatureStep(spec: Spec, tail: nat, h: History, b: Block, slot: nat)
    requires Extends(h.blocks, h.blocks[b.root := b], ZERO_ROOT) && b.root !in h.blocks
    requires b.parentRoot in h.blocks
    requires h.blocks[b.parentRoot].slot >= tail ==>
               IsLatestSignature(spec, tail, h.blocks, b.parentRoot, slot)
    ensures IsLatestSignature(spec, tail, h.blocks[b.root := b], b.root,
              if h.blocks[b.parentRoot].slot < tail then GENESIS_SLOT
              else if b.participants < spec.minParticipants then slot else b.slot)
  {
    var m, m' := h.blocks, h.blocks[b.root := b];
    forall x ensures Signs(spec, tail, m', x, b.root) <==>
              || (x == b.root && m[b.parentRoot].slot >= tail && b.participants >= spec.minParticipants)
              || Signs(spec, tail, m, x, b.parentRoot)
             ensures Signs(spec, tail, m, x, b.parentRoot) ==>
               x in m && m[x].slot <= m[b.parentRoot].slot && m[m[x].parentRoot].slot < m[b.parentRoot].slot
    {
      SignsStep(spec, tail, h, b, x);
    }
    if m[b.parentRoot].slot >= tail {
      if b.participants >= spec.minParticipants {
        assert Signs(spec, tail, m', b.root, b.root);
      } else if slot != GENESIS_SLOT {
        var x :| Signs(spec, tail, m, x, b.parentRoot) && m[x].slot == slot;
        assert Signs(spec, tail, m', x, b.root);
      }
    }
  }

  /** The competitors of a new block whose parent is in the same period. */
  lemma EligibleStep(spec: Spec, tail: nat, h: History, b: Block, x: Root)
    requires Extends(h.blocks, h.blocks[b.root := b], ZERO_ROOT) && b.root !in h.blocks
    requires b.parentRoot in h.blocks
    ensures var p := h.blocks[b.parentRoot];
            Eligible(spec, tail, h.blocks[b.root := b], x, b.root) <==>
              && p.slot >= tail && spec.PeriodAt(p.slot) == spec.PeriodAt(b.slot)
              && (|| (x == b.root && b.participants >= spec.minParticipants)
                  || Eligible(spec, tail, h.blocks, x, b.parentRoot))
    ensures Eligible(spec, tail, h.blocks, x, b.parentRoot) ==>
              && UpdateSignedBy(h.blocks[b.root := b], x) == UpdateSignedBy(h.blocks, x)
              && x in h.blocks && h.blocks[x].slot < b.slot
  {
    SignsStep(spec, tail, h, b, x);
    if x in h.blocks && Signs(spec, tail, h.blocks, x, b.parentRoot) {
      PeriodMonotone(spec, h.blocks[x].slot, h.blocks[b.parentRoot].slot);
      assert OlderParent(h.blocks[b.root := b], b.root);
      PeriodMonotone(spec, h.blocks[b.parentRoot].slot, b.slot);
    }
  }

  /** The cached best update of a new block is the earliest maximal one of its chain. */
  lemma BestStep(spec: Spec, tail: nat, h: History, b: Block, attested: CachedData)
    requires ValidSpec(spec)
    requires Extends(h.blocks, h.blocks[b.root := b], ZERO_ROOT) && b.root !in h.blocks
    requires b.parentRoot in h.blocks
    requires h.blocks[b.parentRoot].slot >= tail ==> IsBest(spec, tail, h.blocks, b.parentRoot, attested.best)
    ensures IsBest(spec, tail, h.blocks[b.root := b], b.root,
              if h.blocks[b.parentRoot].slot < tail then None
              else NewBest(spec, h.blocks[b.parentRoot].Id(), attested, b))
  {
    var m, m', p, r := h.blocks, h.blocks[b.root := b], h.blocks[b.parentRoot], b.root;
    forall x ensures Eligible(spec, tail, m', x, r) <==>
              && p.slot >= tail && spec.PeriodAt(p.slot) == spec.PeriodAt(b.slot)
              && (|| (x == r && b.participants >= spec.minParticipants)
                  || Eligible(spec, tail, m, x, b.parentRoot))
             ensures Eligible(spec, tail, m, x, b.parentRoot) ==>
              && UpdateSignedBy(m', x) == UpdateSignedBy(m, x) && x in m && m[x].slot < b.slot
    {
      EligibleStep(spec, tail, h, b, x);
    }
    if p.slot >= tail && spec.PeriodAt(p.slot) == spec.PeriodAt(b.slot) {
      var best := NewBest(spec, p.Id(), attested, b);
      if best != attested.best {
        assert UpdateSignedBy(m', r) == best.value;
        assert EarliestMaximal(spec, tail, m', r, r);
      } else if best.Some? {
        var x :| EarliestMaximal(spec, tail, m, x, b.parentRoot) && best.value == UpdateSignedBy(m, x);
        assert EarliestMaximal(spec, tail, m', x, r);
      }
    }
  }

  /** Adding a block touches only the block, state and cached data dictionaries. */
  lemma AddFrame(spec: Spec, s: Store, b: Block, post: State, parent: BlockID)
    requires AddBlock(spec, s, b, post, parent).Success?
    ensures var s' := AddBlock(spec, s, b, post, parent).value;
            s' == s.(blocks := s.blocks[b.root := b], states := s.states[b.stateRoot := post],
                     cache := s.cache.(data := s'.cache.data))
  {
  }

  lemma PrunedGrows(h: History, b: Block, post: State, low: nat)
    requires b.slot >= low && post.slot >= low
    ensures Pruned(h.blocks, low)[b.root := b] == Pruned(Grown(h, b, post).blocks, low)
    ensures PrunedStates(h.states, low)[b.stateRoot := post] == PrunedStates(Grown(h, b, post).states, low)
  {
  }

  lemma AddBlockSucceeds(spec: Spec, h: History, s: Store, b: Block, post: State, parent: BlockID)
    requires Valid(spec, h, s) && CanAdd(spec, h, s, b, post, parent)
    ensures AddBlock(spec, s, b, post, parent).Success?
    ensures parent.slot >= s.cache.tailSlot ==> parent in s.cache.data
    ensures b.Id() !in s.cache.data
  {
    if b.slot >= s.cache.tailSlot {
      PostAltairAfterStart(spec, b.slot);
    }
    assert Cached(s, h, b.parentRoot) || parent.slot < s.cache.tailSlot;
    assert b.Id() in s.cache.data ==> ValidCacheEntry(spec, h, s, b.Id());
  }

  /** The cached entry of the new block itself. */
  lemma NewEntryIsValid(spec: Spec, h: History, s: Store, b: Block, post: State, parent: BlockID)
    requires ValidSpec(spec) && ValidHistory(spec, h) && ValidCache(spec, h, s)
    requires CanAdd(spec, h, s, b, post, parent) && ValidHistory(spec, Grown(h, b, post))
    requires AddBlock(spec, s, b, post, parent).Success? && b.slot >= s.cache.tailSlot
    ensures var s' := AddBlock(spec, s, b, post, parent).value;
            b.Id() in s'.cache.data && ValidCacheEntry(spec, Grown(h, b, post), s', b.Id())
  {
    var attested := if parent in s.cache.data then s.cache.data[parent] else CachedData(0, None, 0);
    if parent.slot >= s.cache.tailSlot {
      assert ValidCacheEntry(spec, h, s, parent);
    }
    BestStep(spec, s.cache.tailSlot, h, b, attested);
    LatestSignatureStep(spec, s.cache.tailSlot, h, b, attested.latestSignatureSlot);
  }

  lemma AddKeepsCache(spec: Spec, h: History, s: Store, b: Block, post: State, parent: BlockID)
    requires ValidSpec(spec) && ValidHistory(spec, h) && ValidCache(spec, h, s)
    requires CanAdd(spec, h, s, b, post, parent) && ValidHistory(spec, Grown(h, b, post))
    requires AddBlock(spec, s, b, post, parent).Success? && b.Id() !in s.cache.data
    requires b.slot > s.latestFinalizedBid.slot
    ensures ValidCache(spec, Grown(h, b, post), AddBlock(spec, s, b, post, parent).value)
  {
    var g := Grown(h, b, post);
    var s' := AddBlock(spec, s, b, post, parent).value;
    forall bid | bid in s'.cache.data ensures ValidCacheEntry(spec, g, s', bid) {
      if bid == b.Id() {
        NewEntryIsValid(spec, h, s, b, post, parent);
      } else {
        assert ValidCacheEntry(spec, h, s, bid);
        BestInExtension(spec, s.cache.tailSlot, h.blocks, g.blocks, bid.root, s.cache.data[bid].best);
        LatestInExtension(spec, s.cache.tailSlot, h.blocks, g.blocks, bid.root, s.cache.data[bid].latestSignatureSlot);
      }
    }
    forall q | q in g.blocks ensures g.blocks[q].Id() in s'.cache.data <==> Cached(s', g, q) {
      if q != b.root {
        assert g.blocks[q].Id() in s.cache.data <==> Cached(s, h, q);
      }
    }
  }

  lemma AddKeepsIndex(spec: Spec, h: History, s: Store, b: Block, post: State, parent: BlockID, s': Store)
    requires ValidHistory(spec, h) && CanAdd(spec, h, s, b, post, parent) && ValidHistory(spec, Grown(h, b, post))
    requires ValidIndex(h, s)
    requires s'.finalizedBlockRoots == s.finalizedBlockRoots && s'.latestFinalizedBid == s.latestFinalizedBid
    ensures ValidIndex(Grown(h, b, post), s') && Tip(s') == Tip(s)
    ensures forall x :: OnChain(Grown(h, b, post).blocks, x, Tip(s)) <==> OnChain(h.blocks, x, Tip(s))
  {
    forall x ensures OnChain(Grown(h, b, post).blocks, x, Tip(s)) <==> OnChain(h.blocks, x, Tip(s)) {
      ChainInExtension(h.blocks, Grown(h, b, post).blocks, ZERO_ROOT, x, Tip(s));
    }
    assert IndexOf(Grown(h, b, post).blocks, s'.finalizedBlockRoots, Tip(s));
  }

  lemma AddKeepsFinalized(spec: Spec, h: History, s: Store, b: Block, post: State, parent: BlockID, s': Store)
    requires ValidHistory(spec, h) && CanAdd(spec, h, s, b, post, parent) && ValidHistory(spec, Grown(h, b, post))
    requires ValidIndex(h, s)
    requires ValidCheckpoints(spec, h, s.finalizedCheckpointStates, Tip(s)) && ValidDB(spec, h, s, Tip(s))
    requires forall x :: OnChain(Grown(h, b, post).blocks, x, Tip(s)) <==> OnChain(h.blocks, x, Tip(s))
    requires s'.db == s.db
    ensures ValidCheckpoints(spec, Grown(h, b, post), s.finalizedCheckpointStates, Tip(s))
    ensures ValidDB(spec, Grown(h, b, post), s', Tip(s))
  {
    var g, tip := Grown(h, b, post), Tip(s);
    forall x | WindowTop(spec, g.blocks, x, tip) ensures g.blocks[x].stateRoot in s.finalizedCheckpointStates {
      forall y | OnChain(h.blocks, y, tip) && h.blocks[y].slot > h.blocks[x].slot
        ensures spec.Window(h.blocks[y].slot) != spec.Window(h.blocks[x].slot)
      {
        assert OnChain(g.blocks, y, tip);
      }
      assert WindowTop(spec, h.blocks, x, tip);
    }
    forall r | r in s'.db.headers ensures ValidHeader(spec, g, s', r, tip) {
      assert ValidHeader(spec, h, s, r, tip);
    }
  }

  /** Adding a block never raises and keeps the invariant. */
  lemma AddBlockSafe(spec: Spec, h: History, s: Store, b: Block, post: State, parent: BlockID)
    requires Valid(spec, h, s) && CanAdd(spec, h, s, b, post, parent)
    ensures var r := AddBlock(spec, s, b, post, parent);
            r.Success? && Valid(spec, Grown(h, b, post), r.value)
  {
    GrownHistoryIsValid(spec, h, s, b, post, parent);
    AddBlockSucceeds(spec, h, s, b, post, parent);
    var g, s' := Grown(h, b, post), AddBlock(spec, s, b, post, parent).value;
    AddFrame(spec, s, b, post, parent);
    PrunedGrows(h, b, post, s.latestFinalizedBid.slot);
    AddKeepsCache(spec, h, s, b, post, parent);
    AddKeepsIndex(spec, h, s, b, post, parent, s');
    AddKeepsFinalized(spec, h, s, b, post, parent, s');
  }
}
