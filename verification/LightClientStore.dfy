/** The light client data store as the mutable objects of the original: dictionaries updated in
    place, with loops. Each method is tied to the function of `LightClientModel` it computes. */
module LightClientStore {
  import opened Wrappers
  import opened Numbers
  import opened BlockTree
  import opened LightClientModel
  import opened LightClientTime
  import opened LightClientInvariant
  import opened LightClientAdd
  import opened LightClientHead
  import opened LightClientSegment
  import opened LightClientFinalize
  import opened LightClientRuns
  import opened LightClientLoops
  import opened LightClientStart
  import opened LightClientFinality

  class LightClientDataCache {
    var data: map<BlockID, CachedData>
    var latest: Option<Update>
    var tailSlot: nat

    constructor (tailSlot: nat)
      ensures data == map[] && latest == None && this.tailSlot == tailSlot
    {
      data, latest, this.tailSlot := map[], None, tailSlot;
    }
  }

  class LightClientDataDB {
    var headers: map<Root, BlockID>
    var currentBranches: map<nat, Root>
    var syncCommittees: map<nat, Option<Committee>>
    var bestUpdates: map<nat, Update>

    constructor ()
      ensures headers == map[] && currentBranches == map[] && syncCommittees == map[] && bestUpdates == map[]
    {
      headers, currentBranches, syncCommittees, bestUpdates := map[], map[], map[], map[];
    }
  }

  class LightClientDataCollection {
    const spec: Spec
    const cache: LightClientDataCache
    const db: LightClientDataDB

    var blocks: Blocks
    var finalizedBlockRoots: map<nat, Root>
    var states: map<Root, State>
    var finalizedCheckpointStates: map<Root, State>
    var latestFinalizedEpoch: nat
    var latestFinalizedBid: BlockID
    var historicalTailSlot: nat

    /** The whole content as one value. */
    ghost function View(): Store
      reads this, cache, db
    {
      Store(blocks, finalizedBlockRoots, states, finalizedCheckpointStates, latestFinalizedEpoch,
            latestFinalizedBid, historicalTailSlot, Cache(cache.data, cache.latest, cache.tailSlot),
            DB(db.headers, db.currentBranches, db.syncCommittees, db.bestUpdates))
    }

    /** `setup_lc_data_collection_test`. */
    constructor (spec: Spec, anchor: Block, st: State)
      requires IsEpochStart(spec, st.slot)
      ensures this.spec == spec && fresh(cache) && fresh(db)
      ensures Setup(spec, anchor, st).Success? ==> View() == Setup(spec, anchor, st).value
      ensures ValidSpec(spec) && IsGenesis(spec, anchor, st) ==> Valid(spec, StartHistory(anchor, st), View())
      ensures db.bestUpdates == map[] && cache.latest == None
      ensures cache.data == map[BlockID(anchor.slot, anchor.root) := CachedData(anchor.stateRoot, None, 0)]
      ensures blocks == map[anchor.root := anchor] && states == map[anchor.stateRoot := st]
      ensures finalizedBlockRoots == map[anchor.slot := anchor.root] && historicalTailSlot == st.slot
      ensures latestFinalizedEpoch == st.finalizedEpoch
      ensures latestFinalizedBid == BlockID(st.finalizedEpoch * spec.slotsPerEpoch, st.finalizedRoot)
    {
      if ValidSpec(spec) && IsGenesis(spec, anchor, st) {
        SetupIsValid(spec, anchor, st);
      }
      hide Valid, IsGenesis, StartHistory;
      this.spec := spec;
      cache := new LightClientDataCache(Max(st.slot, spec.EpochStart(spec.altairForkEpoch)));
      db := new LightClientDataDB();
      blocks, states := map[anchor.root := anchor], map[anchor.stateRoot := st];
      finalizedBlockRoots, finalizedCheckpointStates := map[anchor.slot := anchor.root], map[anchor.stateRoot := st];
      latestFinalizedEpoch := st.finalizedEpoch;
      latestFinalizedBid := BlockID(spec.EpochStart(st.finalizedEpoch), st.finalizedRoot);
      historicalTailSlot := st.slot;
      new;
      var raised := CacheLcData(anchor.Id(), CachedData(anchor.stateRoot, None, GENESIS_SLOT));
      assert View() == InitialStore(spec, anchor, st);
      raised := CreateLcBootstrap(anchor.Id());
    }

    // -------------------------------------------------------------- lookups

    method GetAncestorOfBlockId(bid: BlockID, slot: nat) returns (r: Option<BlockID>)
      requires WellOrdered(blocks)
      ensures match AncestorAt(blocks, bid.root, slot)
              case Some(a) => r == Some(a.Id())
              case None => r == None
    {
      if bid.root !in blocks {
        return None;
      }
      var block := blocks[bid.root];
      while true
        invariant block.root in blocks && blocks[block.root] == block
        invariant AncestorAt(blocks, block.root, slot) == AncestorAt(blocks, bid.root, slot)
        decreases block.slot
      {
        if block.slot <= slot {
          return Some(block.Id());
        }
        assert OlderParent(blocks, block.root);
        if block.parentRoot !in blocks {
          return None;
        }
        block := blocks[block.parentRoot];
      }
    }

    method SearchFinalizedSlot(from: nat) returns (r: Option<BlockID>)
      ensures r == BlockIdAtFinalizedSlot(View(), from)
    {
      var slot: nat := from;
      while slot >= historicalTailSlot
        invariant BlockIdAtFinalizedSlot(View(), slot) == BlockIdAtFinalizedSlot(View(), from)
        decreases slot
      {
        if slot in finalizedBlockRoots {
          return Some(BlockID(slot, finalizedBlockRoots[slot]));
        }
        if slot == 0 {
          return None;
        }
        slot := slot - 1;
      }
      return None;
    }

    /** `_get_current_sync_committee_for_finalized_period`: the saved state is advanced in place. */
    method GetCurrentSyncCommitteeForFinalizedPeriod(period: nat) returns (r: Result<Option<Committee>, Error>)
      modifies this`finalizedCheckpointStates
      ensures match CommitteeForFinalizedPeriod(spec, old(View()), period)
              case Success((committee, saved)) =>
                r == Success(committee) && View() == old(View()).(finalizedCheckpointStates := saved)
              case Failure(e) => r == Failure(e)
    {
      var lowSlot := Max(historicalTailSlot, spec.EpochStart(spec.altairForkEpoch));
      if period < spec.PeriodAt(lowSlot) {
        return Success(None);
      }
      var slot := Max(spec.PeriodStart(period), lowSlot);
      var bid := SearchFinalizedSlot(slot);
      if bid.None? {
        return Success(None);
      }
      if bid.value.root !in blocks {
        return Failure(KeyMissing);
      }
      var stateRoot := blocks[bid.value.root].stateRoot;
      if stateRoot !in finalizedCheckpointStates {
        return Failure(KeyMissing);
      }
      var st := finalizedCheckpointStates[stateRoot];
      if slot > st.slot {
        st := st.(slot := slot);
        finalizedCheckpointStates := finalizedCheckpointStates[stateRoot := st];
      }
      assert finalizedCheckpointStates == old(finalizedCheckpointStates)[stateRoot := st];
      return Success(Some(Committee(st.header.root, st.slot)));
    }

    // -------------------------------------------------------------- new blocks

    method CacheLcData(bid: BlockID, data: CachedData) returns (raised: Option<Error>)
      modifies cache`data
      ensures match LightClientModel.CacheLcData(old(View()), bid, data)
              case Success(s) => raised == None && View() == s
              case Failure(e) => raised == Some(e)
    {
      if bid in cache.data {
        return Some(RedundantCache);
      }
      cache.data := cache.data[bid := data];
      return None;
    }

    method CreateLcUpdate(b: Block, parent: BlockID) returns (raised: Option<Error>)
      modifies cache`data
      ensures match LightClientModel.CreateLcUpdate(spec, old(View()), b, parent)
              case Success(s) => raised == None && View() == s
              case Failure(e) => raised == Some(e)
    {
      if parent.slot < cache.tailSlot {
        raised := CacheLcData(b.Id(), CachedData(b.stateRoot, None, GENESIS_SLOT));
        return;
      }
      if parent !in cache.data {
        return Some(NotCached);
      }
      var attested := cache.data[parent];
      var samePeriod := spec.PeriodAt(parent.slot) == spec.PeriodAt(b.slot);
      var best := if samePeriod then attested.best else None;
      var latest := if b.participants < spec.minParticipants then attested.latestSignatureSlot else b.slot;
      if b.participants < spec.minParticipants || !samePeriod {
        raised := CacheLcData(b.Id(), CachedData(b.stateRoot, best, latest));
        return;
      }
      var update := Update(parent, b.slot, SyncAggregate(b.root, b.participants));
      if best.None? || spec.isBetter(update, best.value) {
        best := Some(update);
      }
      raised := CacheLcData(b.Id(), CachedData(b.stateRoot, best, latest));
    }

    /** `add_new_block`: never raises on a retained parent, and keeps the invariant. */
    method AddNewBlock(ghost h: History, b: Block, post: State, parent: BlockID) returns (raised: Option<Error>)
      modifies this`blocks, this`states, cache`data
      ensures match AddBlock(spec, old(View()), b, post, parent)
              case Success(s) => raised == None && View() == s
              case Failure(e) => raised == Some(e)
      ensures Valid(spec, h, old(View())) && CanAdd(spec, h, old(View()), b, post, parent) ==>
                raised == None && Valid(spec, Grown(h, b, post), View())
    {
      if Valid(spec, h, View()) && CanAdd(spec, h, View(), b, post, parent) {
        AddBlockSafe(spec, h, View(), b, post, parent);
      }
      hide Valid, CanAdd;
      blocks := blocks[b.root := b];
      states := states[b.stateRoot := post];
      if b.slot < cache.tailSlot {
        return None;
      }
      if !spec.IsPostAltair(b.slot) {
        return Some(TailBeforeAltair);
      }
      raised := CreateLcUpdate(b, parent);
    }

    // -------------------------------------------------------------- bootstraps

    method CreateLcBootstrap(bid: BlockID) returns (raised: Option<Error>)
      modifies this`finalizedCheckpointStates, db`headers, db`currentBranches, db`syncCommittees
      ensures match LightClientModel.CreateLcBootstrap(spec, old(View()), bid)
              case Success(s) => raised == None && View() == s
              case Failure(e) => raised == Some(e)
    {
      if bid.root !in blocks {
        return Some(KeyMissing);
      }
      var block := blocks[bid.root];
      var period := spec.PeriodAt(bid.slot);
      if period !in db.syncCommittees {
        var committee := GetCurrentSyncCommitteeForFinalizedPeriod(period);
        if committee.Failure? {
          return Some(committee.error);
        }
        db.syncCommittees := db.syncCommittees[period := committee.value];
      }
      if bid !in cache.data {
        return Some(NotCached);
      }
      db.headers := db.headers[bid.root := block.Id()];
      db.currentBranches := db.currentBranches[bid.slot := cache.data[bid].currentBranch];
      return None;
    }

    // -------------------------------------------------------------- head changes

    /** The commit of best updates, newest period first, hopping from period end to period end. */
    method CommitBestUpdates(ghost h: History, head: BlockID, lowSlot: nat)
      requires Readable(spec, h, View()) && WellOrdered(blocks) && lowSlot == LowSlot(View())
      modifies db`bestUpdates
      ensures View() == old(View()).(db := old(View()).db.(bestUpdates := BestUpdatesAfter(spec, old(View()), head)))
    {
      hide Readable, EntryAfter, BestUpdatesAfter, LowSlot;
      ghost var s := View();
      var lowPeriod := spec.PeriodAt(lowSlot);
      var period: nat := spec.PeriodAt(head.slot) + 1;
      var bid := head;
      OutsideRange(spec, s, head);
      while period > lowPeriod
        invariant View() == s.(db := s.db.(bestUpdates := db.bestUpdates))
        invariant period <= spec.PeriodAt(head.slot) + 1
        invariant Committed(spec, s, head, db.bestUpdates, period)
        invariant SameWalk(spec, blocks, bid.root, head.root, period)
        decreases period
      {
        period := period - 1;
        var ancestor := GetAncestorOfBlockId(bid, EndSlot(spec, period));
        if ancestor.None? || ancestor.value.slot < lowSlot {
          NoneLeft(spec, s, head, db.bestUpdates, period);
          break;
        }
        EntryOfCommitted(spec, h, s, head, period);
        var best := cache.data[ancestor.value].best;
        ghost var before := db.bestUpdates;
        if best.None? || best.value.aggregate.participants < spec.minParticipants {
          db.bestUpdates := db.bestUpdates - {period};
        } else {
          db.bestUpdates := db.bestUpdates[period := best.value];
        }
        CommitStep(spec, s, head, before, db.bestUpdates, period);
        WalkFromAncestor(spec, blocks, bid.root, head.root, period);
        bid := ancestor.value;
      }
      assert Committed(spec, s, head, db.bestUpdates, 0);
      SameEntries(spec, s, head, db.bestUpdates);
    }

    /** `_process_head_change_for_light_client`, for every head still stored. */
    method ProcessHeadChange(ghost h: History, head: BlockID)
      requires Valid(spec, h, View()) && HeadRetained(h, View(), head) && WellOrdered(blocks)
      modifies cache`latest, db`bestUpdates
      ensures HeadChange(spec, old(View()), head) == Success(View())
    {
      ghost var s := View();
      HeadChangeSafe(spec, h, s, head);
      if head.slot < cache.tailSlot {
        return;
      }
      var lowSlot := Max(cache.tailSlot, latestFinalizedBid.slot);
      hide Valid, BestUpdatesAfter, BestReadsCached, LatestAfter, Readable;
      HeadIsCached(spec, h, s, head);
      CommitBestUpdates(h, head, lowSlot);
      ReadableFrame(spec, h, s, db.bestUpdates);
      LatestFrame(s, db.bestUpdates, head);
      UpdateLatest(h, head, lowSlot);
    }

    /** The latest finality update for a head. */
    method UpdateLatest(ghost h: History, head: BlockID, lowSlot: nat)
      requires Readable(spec, h, View()) && WellOrdered(blocks) && lowSlot == LowSlot(View())
      requires head in cache.data
      modifies cache`latest
      ensures LatestAfter(old(View()), head) == Success(cache.latest)
      ensures View() == old(View()).(cache := old(View()).cache.(latest := cache.latest))
    {
      ghost var s := View();
      hide ValidHistory, ValidCache;
      var signatureSlot := cache.data[head].latestSignatureSlot;
      cache.latest := None;
      if signatureSlot <= lowSlot {
        return;
      }
      var signature := GetAncestorOfBlockId(head, signatureSlot);
      if signature.None? || signature.value.slot <= lowSlot {
        return;
      }
      AncestorIsStored(blocks, head.root, signatureSlot);
      var attested := GetAncestorOfBlockId(signature.value, signature.value.slot - 1);
      if attested.None? || attested.value.slot < lowSlot {
        return;
      }
      AncestorIsStored(blocks, signature.value.root, signature.value.slot - 1);
      CachedAbove(spec, h, s, attested.value.root);
      var signer := blocks[signature.value.root];
      cache.latest := Some(Update(attested.value, signatureSlot, SyncAggregate(signer.root, signer.participants)));
    }

    // -------------------------------------------------------------- finalization

    /** One block of the backward walk: index it, and save its state if it opens a window. */
    method RecordFinalized(block: Block, previousWindow: Option<nat>)
      requires previousWindow != Some(spec.Window(block.slot)) ==> block.stateRoot in states
      modifies this`finalizedBlockRoots, this`finalizedCheckpointStates
      ensures finalizedBlockRoots == old(finalizedBlockRoots)[block.slot := block.root]
      ensures finalizedCheckpointStates ==
                if previousWindow != Some(spec.Window(block.slot))
                then old(finalizedCheckpointStates)[block.stateRoot := states[block.stateRoot]]
                else old(finalizedCheckpointStates)
    {
      finalizedBlockRoots := finalizedBlockRoots[block.slot := block.root];
      var finalizedEpoch := spec.EpochAt(block.slot + spec.slotsPerEpoch - 1);
      if previousWindow != Some(finalizedEpoch) {
        var state := states[block.stateRoot];
        finalizedCheckpointStates := finalizedCheckpointStates[block.stateRoot := state];
      }
    }

    /** The walk of `select_new_head` back from the new finalized block. */
    method WalkBack(f: Block, epoch: nat)
      requires WellOrdered(blocks) && f.root in blocks && blocks[f.root] == f
      requires AncestorAt(blocks, f.root, latestFinalizedBid.slot).Some?
      requires TopsKnown(spec, states, Segment(blocks, f.root, latestFinalizedBid.slot))
      modifies this`finalizedBlockRoots, this`finalizedCheckpointStates, this`latestFinalizedEpoch,
        this`latestFinalizedBid
      ensures View() == Walked(spec, old(View()), epoch, f, Segment(blocks, f.root, old(latestFinalizedBid.slot)))
    {
      hide AncestorAt, Segment, IndexAll, SaveTops, TopsKnown;
      RecordChain(f);
      latestFinalizedEpoch := epoch;
      latestFinalizedBid := f.Id();
    }

    /** The loop of that walk. */
    method RecordChain(f: Block)
      requires WellOrdered(blocks) && f.root in blocks && blocks[f.root] == f
      requires AncestorAt(blocks, f.root, latestFinalizedBid.slot).Some?
      requires TopsKnown(spec, states, Segment(blocks, f.root, latestFinalizedBid.slot))
      modifies this`finalizedBlockRoots, this`finalizedCheckpointStates
      ensures var seg := Segment(blocks, f.root, latestFinalizedBid.slot);
              && finalizedBlockRoots == IndexAll(old(finalizedBlockRoots), seg, |seg|)
              && finalizedCheckpointStates == SaveTops(spec, old(finalizedCheckpointStates), states, seg, |seg|)
    {
      hide AncestorAt, Segment, Spec.Window, IndexAll, SaveTops, IsTop, TopsKnown;
      ghost var n: nat := 0;
      ghost var low := latestFinalizedBid.slot;
      ghost var seg := Segment(blocks, f.root, low);
      NothingRecorded(spec, finalizedBlockRoots, finalizedCheckpointStates, states, seg);
      var block := f;
      var oldFinalizedEpoch: Option<nat> := None;
      while block.slot > latestFinalizedBid.slot
        invariant block.root in blocks && blocks[block.root] == block
        invariant AncestorAt(blocks, block.root, low).Some?
        invariant n <= |seg| && seg[n..] == Segment(blocks, block.root, low)
        invariant oldFinalizedEpoch == if n == 0 then None else Some(spec.Window(seg[n - 1].slot))
        invariant finalizedBlockRoots == IndexAll(old(finalizedBlockRoots), seg, n)
        invariant finalizedCheckpointStates == SaveTops(spec, old(finalizedCheckpointStates), states, seg, n)
        decreases block.slot
      {
        WalkUnrolls(blocks, block.root, low);
        assert seg[n] == block == seg[n..][0];
        RecordStep(spec, old(finalizedBlockRoots), old(finalizedCheckpointStates), states, seg, n);
        RecordFinalized(block, oldFinalizedEpoch);
        oldFinalizedEpoch := Some(spec.Window(block.slot));
        assert seg[n + 1..] == seg[n..][1..];
        block := blocks[block.parentRoot];
        n := n + 1;
      }
      WalkEnds(blocks, block.root, low);
    }

    /** The hops of `_process_finalization_for_light_client` from epoch boundary to epoch
        boundary give a bootstrap to exactly the window tops of the walk. */
    method CreateBootstraps(ghost h: History, ghost s: Store, finalized: BlockID, previous: BlockID)
      requires ValidHistory(spec, h) && Bootstrapping(spec, h, s, View(), finalized.root)
      requires finalized.root in h.blocks && h.blocks[finalized.root].Id() == finalized
      requires finalized.slot > previous.slot == s.latestFinalizedBid.slot && finalized.slot >= cache.tailSlot
      modifies this`finalizedCheckpointStates, db`headers, db`currentBranches, db`syncCommittees
      ensures var seg := Segment(h.blocks, finalized.root, previous.slot);
              BootstrapTops(spec, old(View()), seg, |seg|) == Success(View())
    {
      hide Bootstrapping, LightClientModel.CreateLcBootstrap, NextHop, Unserved, Segment, NextTop, BootstrapTops;
      ghost var seg, w, n: nat := Segment(h.blocks, finalized.root, previous.slot), View(), 0;
      StartOfHops(spec, h, s, w, finalized.root);
      NoBootstrapYet(spec, w, seg);
      var lowSlot := Max(previous.slot + 1, cache.tailSlot);
      var boundarySlot: nat := finalized.slot;
      while boundarySlot >= lowSlot
        invariant n <= |seg| && BootstrapTops(spec, w, seg, n) == Success(View())
        invariant Bootstrapping(spec, h, s, View(), finalized.root) && cache.tailSlot == s.cache.tailSlot
        invariant NextHop(spec, seg, n, boundarySlot) || (boundarySlot < lowSlot && Unserved(seg, n, s.cache.tailSlot))
        decreases boundarySlot
      {
        var bid := SearchFinalizedSlot(boundarySlot);
        HopLands(spec, h, s, View(), finalized.root, seg, n, boundarySlot);
        if bid.None? {
          break;
        }
        HopShrinks(spec, bid.value.slot);
        if bid.value.slot >= lowSlot {
          HopStep(spec, h, s, w, View(), finalized.root, seg, n, boundarySlot);
          var raised := CreateLcBootstrap(bid.value);
          n := NextTop(spec, seg, n);
        }
        boundarySlot := spec.NextEpochBoundarySlot(bid.value.slot);
        if boundarySlot < spec.slotsPerEpoch {
          break;
        }
        boundarySlot := boundarySlot - spec.slotsPerEpoch;
      }
      if !Unserved(seg, n, s.cache.tailSlot) {
        HopsEnd(spec, h, s, finalized.root, seg, n, boundarySlot);
      }
      FinishHops(spec, w, seg, n, |seg|);
    }

    /** `_process_finalization_for_light_client`: bootstraps, then pruning of cached data. */
    method ProcessFinalization(ghost h: History, ghost s: Store, finalized: BlockID, previous: BlockID)
      requires ValidHistory(spec, h) && Bootstrapping(spec, h, s, View(), finalized.root)
      requires finalized.root in h.blocks && h.blocks[finalized.root].Id() == finalized
      requires finalized.slot > previous.slot == s.latestFinalizedBid.slot
      modifies this`finalizedCheckpointStates, db`headers, db`currentBranches, db`syncCommittees, cache`data
      ensures var seg := Segment(h.blocks, finalized.root, previous.slot);
              LightClientModel.ProcessFinalization(spec, old(View()), finalized, seg) == Success(View())
    {
      hide Bootstrapping, BootstrapTops;
      if finalized.slot < cache.tailSlot {
        return;
      }
      CreateBootstraps(h, s, finalized, previous);
      DeleteDataBelow(finalized.slot);
    }

    method DeleteDataBelow(slot: nat)
      modifies cache`data
      ensures cache.data == map bid | bid in old(cache.data) && bid.slot >= slot :: old(cache.data)[bid]
    {
      var bidsToDelete := set bid | bid in cache.data && bid.slot < slot;
      ghost var data := cache.data;
      while bidsToDelete != {}
        invariant forall bid :: bid in bidsToDelete ==> bid in data && bid.slot < slot
        invariant forall bid :: bid in cache.data <==> bid in data && (bid in bidsToDelete || bid.slot >= slot)
        invariant forall bid :: bid in cache.data ==> cache.data[bid] == data[bid]
        decreases bidsToDelete
      {
        var bid :| bid in bidsToDelete;
        cache.data := cache.data - {bid};
        bidsToDelete := bidsToDelete - {bid};
      }
    }

    method DeleteBlocksBelow(slot: nat)
      modifies this`blocks
      ensures blocks == Pruned(old(blocks), slot)
    {
      var blocksToDelete := set r | r in blocks && blocks[r].slot < slot;
      while blocksToDelete != {}
        invariant forall r :: r in blocksToDelete ==> r in old(blocks) && old(blocks)[r].slot < slot
        invariant forall r :: r in blocks <==> r in old(blocks) && (r in blocksToDelete || old(blocks)[r].slot >= slot)
        invariant forall r :: r in blocks ==> blocks[r] == old(blocks)[r]
        decreases blocksToDelete
      {
        var r :| r in blocksToDelete;
        blocks := blocks - {r};
        blocksToDelete := blocksToDelete - {r};
      }
    }

    method DeleteStatesBelow(slot: nat)
      modifies this`states
      ensures states == PrunedStates(old(states), slot)
    {
      var statesToDelete := set r | r in states && states[r].slot < slot;
      while statesToDelete != {}
        invariant forall r :: r in statesToDelete ==> r in old(states) && old(states)[r].slot < slot
        invariant forall r :: r in states <==> r in old(states) && (r in statesToDelete || old(states)[r].slot >= slot)
        invariant forall r :: r in states ==> states[r] == old(states)[r]
        decreases statesToDelete
      {
        var r :| r in statesToDelete;
        states := states - {r};
        statesToDelete := statesToDelete - {r};
      }
    }

    /** `select_new_head`: raises exactly when the head's finalized block has been pruned, and
        otherwise leaves the store that `SelectHead` describes, with the invariant intact. */
    method SelectNewHead(ghost h: History, head: BlockID) returns (raised: Option<Error>)
      requires Valid(spec, h, View()) && CanSelect(h, View(), head) && WellOrdered(blocks)
      requires head.root in h.blocks && h.blocks[head.root].stateRoot in h.states
      modifies this, cache, db
      ensures raised.None? <==> old(FinalityRetained(h, View(), head))
      ensures raised.None? ==> SelectHead(spec, old(View()), head) == Success(View()) && Valid(spec, h, View())
      ensures raised.None? ==>
        var st := h.states[h.blocks[head.root].stateRoot];
        if st.finalizedEpoch != GENESIS_EPOCH && st.finalizedRoot in h.blocks
          && h.blocks[st.finalizedRoot].slot > old(latestFinalizedBid.slot)
        then
          && latestFinalizedEpoch == st.finalizedEpoch
          && latestFinalizedBid == BlockID(h.blocks[st.finalizedRoot].slot, st.finalizedRoot)
        else
          latestFinalizedEpoch == old(latestFinalizedEpoch) && latestFinalizedBid == old(latestFinalizedBid)
    {
      ghost var start := View();
      hide Valid, LightClientModel.ProcessFinalization, HeadChange;
      SelectHeadExact(spec, h, View(), head);
      HeadChangeSafe(spec, h, View(), head);
      ProcessHeadChange(h, head);
      ghost var s := View();
      HeadStateIsKnown(spec, h, s, head);
      FinalizeExact(spec, h, s, head);
      var state := states[blocks[head.root].stateRoot];
      if state.finalizedEpoch == GENESIS_EPOCH {
        SelectRecords(spec, h, start, head);
        return None;
      }
      if state.finalizedRoot !in blocks {
        return Some(KeyMissing);
      }
      var block := blocks[state.finalizedRoot];
      var previous := latestFinalizedBid;
      SelectRecords(spec, h, start, head);
      if block.slot <= previous.slot {
        return None;
      }
      assert Advances(h, s, head);
      ReadyHistory(spec, h, s);
      assert block.root == state.finalizedRoot;
      IndexedTip(spec, h, s);
      Advance(h, state.finalizedEpoch, block, previous);
      return None;
    }

    /** The part of `select_new_head` for an advanced checkpoint. */
    method Advance(ghost h: History, epoch: nat, f: Block, previous: BlockID)
      requires Valid(spec, h, View()) && WellOrdered(blocks) && WellOrdered(h.blocks)
      requires latestFinalizedBid.slot in finalizedBlockRoots && OnChain(h.blocks, Tip(View()), f.root)
      requires f.root in h.blocks && h.blocks[f.root] == f && f.root in blocks && blocks[f.root] == f
      requires previous == latestFinalizedBid && f.slot > previous.slot
      modifies this, cache, db
      ensures var s := old(View());
              var seg := Segment(s.blocks, f.root, previous.slot);
              && AncestorAt(s.blocks, f.root, previous.slot).Some? && TopsKnown(spec, s.states, seg)
              && var r := LightClientModel.ProcessFinalization(spec, Walked(spec, s, epoch, f, seg), f.Id(), seg);
              && r.Success?
              && View()
                == r.value.(blocks := Pruned(r.value.blocks, f.slot), states := PrunedStates(r.value.states, f.slot))
    {
      hide Valid, LightClientModel.ProcessFinalization, Walked, Bootstrapping;
      ghost var s := View();
      WalkIsTrue(spec, h, s, f.root);
      WalkedIsReady(spec, h, s, epoch, f.root);
      ReadyHistory(spec, h, s);
      WalkBack(f, epoch);
      ProcessFinalization(h, s, f.Id(), previous);
      DeleteBlocksBelow(f.slot);
      DeleteStatesBelow(f.slot);
    }
  }
}
