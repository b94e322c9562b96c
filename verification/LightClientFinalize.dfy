/** Finalization: bootstraps for the right blocks, every lookup finds its data, and the
    invariant survives pruning. */
module LightClientFinalize {
  import opened Wrappers
  import opened BlockTree
  import opened LightClientModel
  import opened LightClientTime
  import opened LightClientInvariant
  import opened LightClientSegment
  import opened LightClientHead

  /** The search down the index finds its highest entry in range. */
  lemma {:induction false} SearchFindsHighest(s: Store, slot: nat)
    ensures match BlockIdAtFinalizedSlot(s, slot)
            case Some(bid) =>
              && s.historicalTailSlot <= bid.slot <= slot
              && bid.slot in s.finalizedBlockRoots && s.finalizedBlockRoots[bid.slot] == bid.root
              && forall k :: bid.slot < k <= slot ==> k !in s.finalizedBlockRoots
            case None => forall k :: s.historicalTailSlot <= k <= slot ==> k !in s.finalizedBlockRoots
  {
    if slot >= s.historicalTailSlot && slot !in s.finalizedBlockRoots && slot > 0 {
      SearchFindsHighest(s, slot - 1);
    }
  }

  /** A finalized block with none above it up to an epoch start is the newest of its window. */
  lemma HighestIsWindowTop(spec: Spec, m: Blocks, roots: map<nat, Root>, f: Root, slot: nat, top: nat)
    requires WellOrdered(m) && IndexOf(m, roots, f)
    requires slot in roots && slot <= top && IsEpochStart(spec, top)
    requires forall k :: slot < k <= top ==> k !in roots
    ensures WindowTop(spec, m, roots[slot], f)
  {
    forall y | OnChain(m, y, f) && m[y].slot > slot ensures spec.Window(m[y].slot) != spec.Window(slot) {
      assert m[y].slot > top;
      WindowEnd(spec, m[y].slot, spec.Window(top));
      WindowMonotone(spec, slot, top);
    }
  }

  lemma CommitteeSlotIsEpochStart(spec: Spec, h: History, s: Store, period: nat)
    requires ValidHistory(spec, h) && s.historicalTailSlot == StartState(h).slot
    ensures IsEpochStart(spec, CommitteeSlot(spec, s, period))
  {
    EpochStartIsBoundary(spec, period * spec.epochsPerPeriod);
    EpochStartIsBoundary(spec, spec.altairForkEpoch);
  }

  /** The store `w` while bootstraps are made, `s` being the store before the head change and
      `f` the new finalized block. */
  ghost predicate Bootstrapping(spec: Spec, h: History, s: Store, w: Store, f: Root)
    requires ValidHistory(spec, h)
  {
    && s.latestFinalizedBid.slot in s.finalizedBlockRoots
    && OnChain(h.blocks, Tip(s), f)
    && h.blocks[Tip(s)].slot == s.latestFinalizedBid.slot
    && s.cache.tailSlot == CommitteeLowSlot(spec, s)
    && Readable(spec, h, s)
    && (s.latestFinalizedBid.slot >= s.cache.tailSlot ==>
         spec.PeriodAt(s.latestFinalizedBid.slot) in s.db.syncCommittees)
    && w.blocks == s.blocks && w.cache == s.cache && w.states == s.states
    && w.historicalTailSlot == s.historicalTailSlot == StartState(h).slot
    && IndexOf(h.blocks, w.finalizedBlockRoots, f)
    && ValidCheckpoints(spec, h, w.finalizedCheckpointStates, f)
    && s.db.syncCommittees.Keys <= w.db.syncCommittees.Keys
    && ValidDB(spec, h, w, f)
  }

  lemma IndexWhileBootstrapping(spec: Spec, h: History, s: Store, w: Store, f: Root)
    requires ValidHistory(spec, h) && Bootstrapping(spec, h, s, w, f)
    ensures WellOrdered(h.blocks) && IndexOf(h.blocks, w.finalizedBlockRoots, f)
    ensures w.historicalTailSlot <= s.cache.tailSlot
  {
  }

  /** A finalized block that gets a bootstrap in this step. */
  ghost predicate Newly(h: History, s: Store, f: Root, x: Root)
    requires WellOrdered(h.blocks)
  {
    OnChain(h.blocks, x, f) && h.blocks[x].slot > s.latestFinalizedBid.slot && h.blocks[x].slot >= s.cache.tailSlot
  }

  /** The slot at which the committee of a later period is read lies between the two blocks. */
  lemma CommitteeSlotBounds(spec: Spec, w: Store, slot: nat, cut: nat)
    requires cut < slot && CommitteeLowSlot(spec, w) <= slot
    requires cut < CommitteeLowSlot(spec, w) || spec.PeriodAt(cut) != spec.PeriodAt(slot)
    ensures spec.PeriodAt(slot) >= spec.PeriodAt(CommitteeLowSlot(spec, w))
    ensures cut <= CommitteeSlot(spec, w, spec.PeriodAt(slot)) <= slot
  {
    var period := spec.PeriodAt(slot);
    PeriodMonotone(spec, CommitteeLowSlot(spec, w), slot);
    BeforePeriodStart(spec, slot, period);
    BeforePeriodStart(spec, cut, period);
    PeriodMonotone(spec, cut, slot);
  }

  /** When the committee of a period is asked for, the block it starts from has not been
      pruned and its checkpoint state has been saved. */
  lemma CommitteeLookupFinds(spec: Spec, h: History, s: Store, w: Store, f: Root, x: Root)
    requires ValidHistory(spec, h) && Bootstrapping(spec, h, s, w, f) && Newly(h, s, f, x)
    requires spec.PeriodAt(h.blocks[x].slot) !in w.db.syncCommittees
    ensures var period := spec.PeriodAt(h.blocks[x].slot);
            var slot := CommitteeSlot(spec, w, period);
            && period >= spec.PeriodAt(CommitteeLowSlot(spec, w))
            && slot <= h.blocks[x].slot
            && slot >= s.latestFinalizedBid.slot
            && match BlockIdAtFinalizedSlot(w, slot)
               case Some(bid) =>
                 && OnChain(h.blocks, bid.root, f) && h.blocks[bid.root].slot == bid.slot <= slot
                 && (forall k :: bid.slot < k <= slot ==> k !in w.finalizedBlockRoots)
                 && bid.root in w.blocks && w.blocks[bid.root] == h.blocks[bid.root]
                 && h.blocks[bid.root].stateRoot in w.finalizedCheckpointStates
               case None => h.anchor in h.blocks && StartState(h).slot > GENESIS_SLOT
  {
    var m, cut := h.blocks, s.latestFinalizedBid.slot;
    var period := spec.PeriodAt(m[x].slot);
    var slot := CommitteeSlot(spec, w, period);
    assert spec.PeriodAt(cut) in s.db.syncCommittees || cut < s.cache.tailSlot;
    CommitteeSlotBounds(spec, w, m[x].slot, cut);
    hide CommitteeSlot, CommitteeLowSlot;
    SearchFindsHighest(w, slot);
    assert cut in w.finalizedBlockRoots;
    match BlockIdAtFinalizedSlot(w, slot)
    case Some(bid) =>
      CommitteeSlotIsEpochStart(spec, h, w, period);
      HighestIsWindowTop(spec, m, w.finalizedBlockRoots, f, bid.slot, slot);
    case None =>
  }

  lemma CommitteeLookupSucceeds(spec: Spec, h: History, s: Store, w: Store, f: Root, x: Root)
    requires ValidHistory(spec, h) && Bootstrapping(spec, h, s, w, f) && Newly(h, s, f, x)
    requires spec.PeriodAt(h.blocks[x].slot) !in w.db.syncCommittees
    ensures var r := CommitteeForFinalizedPeriod(spec, w, spec.PeriodAt(h.blocks[x].slot));
            && r.Success?
            && r.value.1.Keys == w.finalizedCheckpointStates.Keys
            && forall q ::
              q in w.finalizedCheckpointStates ==> r.value.1[q].header == w.finalizedCheckpointStates[q].header
  {
    CommitteeLookupFinds(spec, h, s, w, f, x);
  }

  /** Making one bootstrap never raises; this is the store it leaves. */
  lemma BootstrapSucceeds(spec: Spec, h: History, s: Store, w: Store, f: Root, x: Root)
    requires ValidHistory(spec, h) && Bootstrapping(spec, h, s, w, f) && Newly(h, s, f, x)
    ensures var r := CreateLcBootstrap(spec, w, h.blocks[x].Id());
            var period := spec.PeriodAt(h.blocks[x].slot);
            && r.Success?
            && var w' := r.value;
            && w' == w.(finalizedCheckpointStates := w'.finalizedCheckpointStates,
                        db := DB(w.db.headers[x := h.blocks[x].Id()],
                                 w.db.currentBranches[h.blocks[x].slot := h.blocks[x].stateRoot],
                                 w'.db.syncCommittees, w.db.bestUpdates))
            && w'.db.syncCommittees.Keys == w.db.syncCommittees.Keys + {period}
            && w'.finalizedCheckpointStates.Keys == w.finalizedCheckpointStates.Keys
            && (forall q :: q in w.finalizedCheckpointStates ==>
                 w'.finalizedCheckpointStates[q].header == w.finalizedCheckpointStates[q].header)
  {
    CachedAbove(spec, h, s, x);
    if spec.PeriodAt(h.blocks[x].slot) !in w.db.syncCommittees {
      CommitteeLookupSucceeds(spec, h, s, w, f, x);
    }
    hide CommitteeForFinalizedPeriod, OnChain, IndexOf, ValidCheckpoints, ValidDB, Spec.PeriodAt;
  }

  /** The dictionaries behind the bootstraps stay consistent. */
  lemma HeadersStayValid(spec: Spec, h: History, w: Store, w': Store, f: Root, x: Root)
    requires ValidHistory(spec, h) && ValidDB(spec, h, w, f) && OnChain(h.blocks, x, f)
    requires w'.db.headers == w.db.headers[x := h.blocks[x].Id()]
    requires w'.db.currentBranches == w.db.currentBranches[h.blocks[x].slot := h.blocks[x].stateRoot]
    requires w'.db.syncCommittees.Keys == w.db.syncCommittees.Keys + {spec.PeriodAt(h.blocks[x].slot)}
    ensures ValidDB(spec, h, w', f)
  {
    forall r | r in w'.db.headers ensures ValidHeader(spec, h, w', r, f) {
      if r != x {
        assert ValidHeader(spec, h, w, r, f);
        if h.blocks[r].slot == h.blocks[x].slot {
          SameSlotSameBlock(h.blocks, r, x, f);
        }
      }
    }
  }

  lemma BootstrapStep(spec: Spec, h: History, s: Store, w: Store, f: Root, x: Root)
    requires ValidHistory(spec, h) && Bootstrapping(spec, h, s, w, f) && Newly(h, s, f, x)
    ensures var r := CreateLcBootstrap(spec, w, h.blocks[x].Id());
            && r.Success?
            && Bootstrapping(spec, h, s, r.value, f)
            && SameBut(w, r.value)
            && r.value.db.headers.Keys == w.db.headers.Keys + {x}
            && r.value.db.syncCommittees.Keys == w.db.syncCommittees.Keys + {spec.PeriodAt(h.blocks[x].slot)}
  {
    BootstrapSucceeds(spec, h, s, w, f, x);
    HeadersStayValid(spec, h, w, CreateLcBootstrap(spec, w, h.blocks[x].Id()).value, f, x);
  }

  /** Bootstraps change the database and the content of saved states only. */
  ghost predicate SameBut(w: Store, w': Store) {
    && w' == w.(finalizedCheckpointStates := w'.finalizedCheckpointStates, db := w'.db)
    && w'.db.bestUpdates == w.db.bestUpdates
    && w'.finalizedCheckpointStates.Keys == w.finalizedCheckpointStates.Keys
  }

  /** Position `i` of the walk gets a bootstrap. */
  ghost predicate Served(spec: Spec, tail: nat, seg: seq<Block>, i: nat)
    requires i < |seg|
  {
    IsTop(spec, seg, i) && seg[i].slot >= tail
  }

  ghost predicate ServedAmong(spec: Spec, tail: nat, seg: seq<Block>, n: nat, x: Root)
    requires n <= |seg|
  {
    exists i :: 0 <= i < n && Served(spec, tail, seg, i) && seg[i].root == x
  }

  lemma ServedAmongStep(spec: Spec, tail: nat, seg: seq<Block>, n: nat, x: Root)
    requires 0 < n <= |seg|
    ensures ServedAmong(spec, tail, seg, n, x)
       <==> ServedAmong(spec, tail, seg, n - 1, x) || (Served(spec, tail, seg, n - 1) && seg[n - 1].root == x)
  {
    hide Served;
  }

  /** Some served position among the first `n` lies in `period`. */
  ghost predicate ServedPeriod(spec: Spec, tail: nat, seg: seq<Block>, n: nat, period: nat)
    requires n <= |seg|
  {
    exists i :: 0 <= i < n && Served(spec, tail, seg, i) && spec.PeriodAt(seg[i].slot) == period
  }

  lemma ServedPeriodStep(spec: Spec, tail: nat, seg: seq<Block>, n: nat, p: nat)
    requires 0 < n <= |seg|
    ensures ServedPeriod(spec, tail, seg, n, p) <==>
      || ServedPeriod(spec, tail, seg, n - 1, p)
      || (Served(spec, tail, seg, n - 1) && spec.PeriodAt(seg[n - 1].slot) == p)
  {
    hide Served;
  }

  /** Among the first `n` positions of the walk, exactly the served ones got a bootstrap, and
      the committees on record are those from before and those of the served ones' periods. */
  ghost predicate BootstrapsMade(spec: Spec, w: Store, w': Store, seg: seq<Block>, n: nat)
    requires n <= |seg|
  {
    && (forall x :: x in w'.db.headers <==> x in w.db.headers || ServedAmong(spec, w.cache.tailSlot, seg, n, x))
    && (forall p: nat :: p in w'.db.syncCommittees <==>
         p in w.db.syncCommittees || ServedPeriod(spec, w.cache.tailSlot, seg, n, p))
  }

  lemma BootstrapsMadeStep(spec: Spec, w: Store, w1: Store, w2: Store, seg: seq<Block>, n: nat)
    requires 0 < n <= |seg| && BootstrapsMade(spec, w, w1, seg, n - 1)
    requires if Served(spec, w.cache.tailSlot, seg, n - 1) then
               && w2.db.headers.Keys == w1.db.headers.Keys + {seg[n - 1].root}
               && w2.db.syncCommittees.Keys == w1.db.syncCommittees.Keys + {spec.PeriodAt(seg[n - 1].slot)}
             else w2 == w1
    ensures BootstrapsMade(spec, w, w2, seg, n)
  {
    hide Served, ServedAmong, ServedPeriod;
    forall p: nat ensures p in w2.db.syncCommittees <==>
      p in w.db.syncCommittees || ServedPeriod(spec, w.cache.tailSlot, seg, n, p)
    {
      ServedPeriodStep(spec, w.cache.tailSlot, seg, n, p);
    }
    forall x ensures x in w2.db.headers <==> x in w.db.headers || ServedAmong(spec, w.cache.tailSlot, seg, n, x) {
      ServedAmongStep(spec, w.cache.tailSlot, seg, n, x);
    }
  }

  lemma BootstrapTopsStep(spec: Spec, h: History, s: Store, w: Store, f: Root, seg: seq<Block>, n: nat)
    requires ValidHistory(spec, h)
    requires seg == Segment(h.blocks, f, s.latestFinalizedBid.slot) && 0 < n <= |seg|
    requires BootstrapTops(spec, w, seg, n - 1).Success?
    requires w.cache.tailSlot == s.cache.tailSlot
    requires Bootstrapping(spec, h, s, BootstrapTops(spec, w, seg, n - 1).value, f)
    ensures BootstrapTops(spec, w, seg, n).Success?
    ensures var before := BootstrapTops(spec, w, seg, n - 1).value;
            var after := BootstrapTops(spec, w, seg, n).value;
            && Bootstrapping(spec, h, s, after, f)
            && if Served(spec, w.cache.tailSlot, seg, n - 1) then
                 && SameBut(before, after)
                 && after.db.headers.Keys == before.db.headers.Keys + {seg[n - 1].root}
                 && after.db.syncCommittees.Keys == before.db.syncCommittees.Keys + {spec.PeriodAt(seg[n - 1].slot)}
               else after == before
  {
    SegmentDescends(h.blocks, f, s.latestFinalizedBid.slot);
    assert Visited(h.blocks, seg[n - 1], f, s.latestFinalizedBid.slot);
    hide Bootstrapping, CreateLcBootstrap, SameBut, Segment, OnChain, ValidHistory, IsTop, Spec.PeriodAt;
    if Served(spec, w.cache.tailSlot, seg, n - 1) {
      BootstrapStep(spec, h, s, BootstrapTops(spec, w, seg, n - 1).value, f, seg[n - 1].root);
    }
  }

  /** All bootstraps of a finalization step are made without raising, and no others. */
  lemma {:induction false} BootstrapsAll(spec: Spec, h: History, s: Store, w: Store, f: Root, seg: seq<Block>, n: nat)
    requires ValidHistory(spec, h) && Bootstrapping(spec, h, s, w, f) && w.cache.tailSlot == s.cache.tailSlot
    requires seg == Segment(h.blocks, f, s.latestFinalizedBid.slot) && n <= |seg|
    ensures BootstrapTops(spec, w, seg, n).Success?
    ensures var w' := BootstrapTops(spec, w, seg, n).value;
            SameBut(w, w') && Bootstrapping(spec, h, s, w', f) && BootstrapsMade(spec, w, w', seg, n)
  {
    hide CreateLcBootstrap, BootstrapTops, ValidHistory, Bootstrapping, BootstrapsMade, SameBut, Segment;
    if n == 0 {
      NoneMade(spec, w, seg);
    } else {
      BootstrapsAll(spec, h, s, w, f, seg, n - 1);
      BootstrapsAllStep(spec, h, s, w, f, seg, n);
    }
  }

  lemma BootstrapsAllStep(spec: Spec, h: History, s: Store, w: Store, f: Root, seg: seq<Block>, n: nat)
    requires ValidHistory(spec, h) && w.cache.tailSlot == s.cache.tailSlot
    requires seg == Segment(h.blocks, f, s.latestFinalizedBid.slot) && 0 < n <= |seg|
    requires BootstrapTops(spec, w, seg, n - 1).Success?
    requires var w' := BootstrapTops(spec, w, seg, n - 1).value;
             SameBut(w, w') && Bootstrapping(spec, h, s, w', f) && BootstrapsMade(spec, w, w', seg, n - 1)
    ensures BootstrapTops(spec, w, seg, n).Success?
    ensures var w' := BootstrapTops(spec, w, seg, n).value;
            SameBut(w, w') && Bootstrapping(spec, h, s, w', f) && BootstrapsMade(spec, w, w', seg, n)
  {
    hide CreateLcBootstrap, BootstrapTops, ValidHistory, Bootstrapping, BootstrapsMade, SameBut, Segment, Served;
    BootstrapTopsStep(spec, h, s, w, f, seg, n);
    SameButStep(w, BootstrapTops(spec, w, seg, n - 1).value, BootstrapTops(spec, w, seg, n).value);
    BootstrapsMadeStep(spec, w, BootstrapTops(spec, w, seg, n - 1).value, BootstrapTops(spec, w, seg, n).value, seg, n);
  }

  lemma NoneMade(spec: Spec, w: Store, seg: seq<Block>)
    ensures BootstrapTops(spec, w, seg, 0) == Success(w) && SameBut(w, w) && BootstrapsMade(spec, w, w, seg, 0)
  {
  }

  lemma SameButStep(w: Store, w1: Store, w2: Store)
    requires SameBut(w, w1)
    ensures SameBut(w1, w2) ==> SameBut(w, w2)
  {
  }

  // ---------------------------------------------------------------- the whole step

  /** What the store reads about the head and its finalized block. */
  lemma HeadStateIsKnown(spec: Spec, h: History, s: Store, head: BlockID)
    requires Valid(spec, h, s) && CanSelect(h, s, head)
    ensures var q := h.blocks[head.root].stateRoot;
            && s.blocks[head.root] == h.blocks[head.root]
            && q in h.states && q in s.states && s.states[q] == h.states[q]
            && (h.states[q].finalizedEpoch != GENESIS_EPOCH ==>
                 && OnChain(h.blocks, h.states[q].finalizedRoot, head.root)
                 && h.states[q].finalizedRoot in h.blocks
                 && (h.states[q].finalizedRoot in s.blocks <==>
                      h.blocks[h.states[q].finalizedRoot].slot >= s.latestFinalizedBid.slot)
                 && (h.states[q].finalizedRoot in s.blocks ==>
                      s.blocks[h.states[q].finalizedRoot] == h.blocks[h.states[q].finalizedRoot])
                 && (Advances(h, s, head) ==> OnChain(h.blocks, Tip(s), h.states[q].finalizedRoot)))
  {
    assert ValidEntry(h, head.root);
    if Advances(h, s, head) {
      OnChainLinear(h.blocks, Tip(s), h.states[h.blocks[head.root].stateRoot].finalizedRoot, head.root);
    }
  }

  lemma StatesOfSegmentKnown(spec: Spec, h: History, s: Store, f: Root)
    requires Valid(spec, h, s)
    ensures TopsKnown(spec, s.states, Segment(h.blocks, f, s.latestFinalizedBid.slot))
  {
    var seg := Segment(h.blocks, f, s.latestFinalizedBid.slot);
    SegmentDescends(h.blocks, f, s.latestFinalizedBid.slot);
    forall i | 0 <= i < |seg| ensures seg[i].stateRoot in s.states {
      assert Visited(h.blocks, seg[i], f, s.latestFinalizedBid.slot);
      assert ValidEntry(h, seg[i].root);
    }
  }

  /** Right after the walk the store is ready for bootstraps. */
  lemma WalkedIsReady(spec: Spec, h: History, s: Store, epoch: nat, f: Root)
    requires Valid(spec, h, s) && OnChain(h.blocks, Tip(s), f)
    requires TopsKnown(spec, s.states, Segment(h.blocks, f, s.latestFinalizedBid.slot))
    ensures var w := Walked(spec, s, epoch, h.blocks[f], Segment(h.blocks, f, s.latestFinalizedBid.slot));
            Bootstrapping(spec, h, s, w, f)
  {
    var seg := Segment(h.blocks, f, s.latestFinalizedBid.slot);
    var w := Walked(spec, s, epoch, h.blocks[f], seg);
    IndexMoves(h.blocks, s.finalizedBlockRoots, Tip(s), f);
    CheckpointsMove(spec, h, s.finalizedCheckpointStates, s.states, Tip(s), f);
    forall r | r in w.db.headers ensures ValidHeader(spec, h, w, r, f) {
      assert ValidHeader(spec, h, s, r, Tip(s));
      OnChainTransitive(h.blocks, r, Tip(s), f);
    }
  }

  /** The cache after the pruning that follows finalization. */
  lemma PrunedCacheIsValid(spec: Spec, h: History, s: Store, s': Store, f: Block)
    requires ValidHistory(spec, h) && ValidCache(spec, h, s) && f.slot > s.latestFinalizedBid.slot
    requires s'.latestFinalizedBid.slot == f.slot && s'.cache.tailSlot == s.cache.tailSlot
    requires s'.cache.data == if f.slot < s.cache.tailSlot then s.cache.data
                              else map bid | bid in s.cache.data && bid.slot >= f.slot :: s.cache.data[bid]
    ensures ValidCache(spec, h, s')
  {
    forall r | r in h.blocks ensures h.blocks[r].Id() in s'.cache.data <==> Cached(s', h, r) {
      assert h.blocks[r].Id() in s.cache.data <==> Cached(s, h, r);
    }
    forall bid | bid in s'.cache.data ensures ValidCacheEntry(spec, h, s', bid) {
      assert ValidCacheEntry(spec, h, s, bid);
    }
  }

  /** The cached data kept after finalizing up to slot `low`. */
  function KeptData(cache: Cache, low: nat): map<BlockID, CachedData> {
    if low < cache.tailSlot then cache.data else map bid | bid in cache.data && bid.slot >= low :: cache.data[bid]
  }

  /** Pruning a store in which all bootstraps have been made restores the invariant. */
  lemma FinalizedStoreIsValid(spec: Spec, h: History, s: Store, w: Store, f: Block)
    requires ValidSpec(spec) && ValidHistory(spec, h) && Bootstrapping(spec, h, s, w, f.root)
    requires f.root in h.blocks && h.blocks[f.root] == f && f.slot > s.latestFinalizedBid.slot
    requires w.latestFinalizedBid == f.Id()
    requires f.slot >= s.cache.tailSlot ==> spec.PeriodAt(f.slot) in w.db.syncCommittees
    ensures Valid(spec, h, w.(cache := w.cache.(data := KeptData(w.cache, f.slot)),
                              blocks := Pruned(h.blocks, f.slot), states := PrunedStates(h.states, f.slot)))
  {
    var s' := w.(cache := w.cache.(data := KeptData(w.cache, f.slot)),
                 blocks := Pruned(h.blocks, f.slot), states := PrunedStates(h.states, f.slot));
    PrunedCacheIsValid(spec, h, s, s', f);
    OnChainSelf(h.blocks, f.root);
    forall x | x in s'.db.headers ensures ValidHeader(spec, h, s', x, f.root) {
      assert ValidHeader(spec, h, w, x, f.root);
    }
  }

  /** The cache does not matter for the bootstraps made. */
  lemma MadeWithCache(spec: Spec, w: Store, made: Store, w': Store, seg: seq<Block>)
    requires BootstrapsMade(spec, w, made, seg, |seg|) && w'.db == made.db
    ensures BootstrapsMade(spec, w, w', seg, |seg|)
  {
  }

  lemma TailWhileBootstrapping(spec: Spec, h: History, s: Store, w: Store, f: Root)
    requires ValidHistory(spec, h) && Bootstrapping(spec, h, s, w, f)
    ensures w.cache == s.cache
  {
  }

  /** `_process_finalization_for_light_client` never raises. */
  lemma ProcessFinalizationSucceeds(spec: Spec, h: History, s: Store, w: Store, f: Block, seg: seq<Block>)
    requires ValidHistory(spec, h) && Bootstrapping(spec, h, s, w, f.root)
    requires f.root in h.blocks && h.blocks[f.root] == f && f.slot > s.latestFinalizedBid.slot
    requires seg == Segment(h.blocks, f.root, s.latestFinalizedBid.slot)
    ensures var r := ProcessFinalization(spec, w, f.Id(), seg);
            && r.Success?
            && SameBut(w, r.value.(cache := w.cache))
            && r.value.cache == w.cache.(data := KeptData(w.cache, f.slot))
            && Bootstrapping(spec, h, s, r.value.(cache := w.cache), f.root)
            && (f.slot >= s.cache.tailSlot ==>
                 spec.PeriodAt(f.slot) in r.value.db.syncCommittees && BootstrapsMade(spec, w, r.value, seg, |seg|))
            && (f.slot < s.cache.tailSlot ==> r.value == w)
  {
    TailWhileBootstrapping(spec, h, s, w, f.root);
    if f.slot >= s.cache.tailSlot {
      assert seg[0] == f && Served(spec, w.cache.tailSlot, seg, 0);
      assert ServedPeriod(spec, w.cache.tailSlot, seg, |seg|, spec.PeriodAt(f.slot));
      hide CreateLcBootstrap, BootstrapTops, ServedPeriod, Segment, ValidHistory, Spec.PeriodAt;
      BootstrapsAll(spec, h, s, w, f.root, seg, |seg|);
      hide Bootstrapping, BootstrapsMade;
      var made := BootstrapTops(spec, w, seg, |seg|).value;
      assert ProcessFinalization(spec, w, f.Id(), seg).value.(cache := w.cache) == made;
      MadeWithCache(spec, w, made, ProcessFinalization(spec, w, f.Id(), seg).value, seg);
    } else {
      assert w == w.(cache := w.cache.(data := KeptData(w.cache, f.slot)));
    }
  }

  /** The finalization step on a store that holds the invariant, when the checkpoint advances. */
  lemma AdvanceIsSafe(spec: Spec, h: History, s: Store, epoch: nat, f: Root)
    requires Valid(spec, h, s) && OnChain(h.blocks, Tip(s), f) && h.blocks[f].slot > s.latestFinalizedBid.slot
    requires TopsKnown(spec, s.states, Segment(h.blocks, f, s.latestFinalizedBid.slot))
    ensures var seg := Segment(h.blocks, f, s.latestFinalizedBid.slot);
            var w := Walked(spec, s, epoch, h.blocks[f], seg);
            var r := ProcessFinalization(spec, w, h.blocks[f].Id(), seg);
            && r.Success?
            && Valid(spec, h, r.value.(blocks := Pruned(s.blocks, h.blocks[f].slot),
                                       states := PrunedStates(s.states, h.blocks[f].slot)))
  {
    hide ProcessFinalization;
    var b := h.blocks[f];
    OnChainSlot(h.blocks, Tip(s), f);
    var seg := Segment(h.blocks, f, s.latestFinalizedBid.slot);
    var w := Walked(spec, s, epoch, b, seg);
    WalkedIsReady(spec, h, s, epoch, f);
    ProcessFinalizationSucceeds(spec, h, s, w, b, seg);
    var r := ProcessFinalization(spec, w, b.Id(), seg).value;
    FinalizedStoreIsValid(spec, h, s, r.(cache := w.cache), b);
    PrunedTwice(h, s.latestFinalizedBid.slot, b.slot);
  }

  lemma PrunedTwice(h: History, low: nat, high: nat)
    requires low <= high
    ensures Pruned(Pruned(h.blocks, low), high) == Pruned(h.blocks, high)
    ensures PrunedStates(PrunedStates(h.states, low), high) == PrunedStates(h.states, high)
  {
  }
}
