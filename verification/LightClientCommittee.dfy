/** The sync committee recorded for a newly finalized period: exactly when it is the committee
    of that period. The lookup advances the saved checkpoint state in place, so a second lookup
    that starts from the same block sees the already advanced state. */
module LightClientCommittee {
  import opened Wrappers
  import opened Numbers
  import opened BlockTree
  import opened LightClientModel
  import opened LightClientTime
  import opened LightClientInvariant
  import opened LightClientHead
  import opened LightClientSegment
  import opened LightClientFinalize
  import opened LightClientRuns
  import opened LightClientServing
  import opened LightClientStart

  lemma PeriodStartMonotone(spec: Spec, p: nat, q: nat)
    requires p <= q
    ensures spec.PeriodStart(p) <= spec.PeriodStart(q)
    decreases q
  {
    if p < q {
      PeriodStartMonotone(spec, p, q - 1);
      assert q * spec.epochsPerPeriod == (q - 1) * spec.epochsPerPeriod + spec.epochsPerPeriod;
      assert (q * spec.epochsPerPeriod) * spec.slotsPerEpoch
          == ((q - 1) * spec.epochsPerPeriod) * spec.slotsPerEpoch + spec.epochsPerPeriod * spec.slotsPerEpoch;
    }
  }

  lemma CommitteeSlotMonotone(spec: Spec, s: Store, p: nat, q: nat)
    requires p <= q
    ensures CommitteeSlot(spec, s, p) <= CommitteeSlot(spec, s, q)
  {
    PeriodStartMonotone(spec, p, q);
  }

  /** The slot a period's committee is read at lies in that period. */
  lemma CommitteeSlotInPeriod(spec: Spec, s: Store, period: nat)
    requires period >= spec.PeriodAt(CommitteeLowSlot(spec, s))
    ensures spec.PeriodAt(CommitteeSlot(spec, s, period)) == period
  {
    var start, low := spec.PeriodStart(period), CommitteeLowSlot(spec, s);
    BeforePeriodStart(spec, start, period);
    PeriodEnd(spec, start, period);
    PeriodStartMonotone(spec, period, period + 1);
    BeforePeriodStart(spec, low, period);
    BeforePeriodStart(spec, start, period + 1);
    assert (period + 1) * spec.epochsPerPeriod == period * spec.epochsPerPeriod + spec.epochsPerPeriod;
    assert ((period + 1) * spec.epochsPerPeriod) * spec.slotsPerEpoch
        == (period * spec.epochsPerPeriod) * spec.slotsPerEpoch + spec.epochsPerPeriod * spec.slotsPerEpoch;
  }

  /** Where the committee of a period is looked up. */
  function Start(spec: Spec, w: Store, period: nat): Option<BlockID> {
    BlockIdAtFinalizedSlot(w, CommitteeSlot(spec, w, period))
  }

  /** No saved state has been advanced beyond the periods finalized so far. */
  ghost predicate Settled(spec: Spec, h: History, s: Store) {
    forall q :: q in s.finalizedCheckpointStates ==>
      && q in h.states
      && s.finalizedCheckpointStates[q].slot
         <= Max(h.states[q].slot, CommitteeSlot(spec, s, spec.PeriodAt(LowSlot(s))))
  }

  ghost predicate LookedUp(w0: Store, w: Store, period: nat) {
    period in w.db.syncCommittees && period !in w0.db.syncCommittees
  }

  /** The lookup of `period` starts from the block with state root `q`. */
  ghost predicate Reads(spec: Spec, h: History, w0: Store, period: nat, q: Root) {
    var b := Start(spec, w0, period);
    b.Some? && b.value.root in h.blocks && h.blocks[b.value.root].stateRoot == q
  }

  /** The saved state `q` has its original slot or that of a lookup that read it; nothing else about
      it changes. */
  ghost predicate Advanced(spec: Spec, h: History, w0: Store, w: Store, q: Root)
    requires q in w.finalizedCheckpointStates && q in w0.finalizedCheckpointStates
  {
    var was, now := w0.finalizedCheckpointStates[q], w.finalizedCheckpointStates[q];
    && now == was.(slot := now.slot)
    && (now.slot == was.slot
         || exists p :: LookedUp(w0, w, p) && Reads(spec, h, w0, p, q) && now.slot == CommitteeSlot(spec, w0, p))
  }

  /** The committee of a looked-up period is read off the saved state as it is now. */
  ghost predicate CommitteeOnRecord(spec: Spec, h: History, w0: Store, w: Store, period: nat)
    requires LookedUp(w0, w, period)
  {
    match Start(spec, w0, period)
    case None => w.db.syncCommittees[period] == None
    case Some(bid) =>
      && bid.root in h.blocks
      && var q := h.blocks[bid.root].stateRoot;
      && q in w.finalizedCheckpointStates
      && w.db.syncCommittees[period] == Some(Committee(bid.root, w.finalizedCheckpointStates[q].slot))
      && w.finalizedCheckpointStates[q].slot >= CommitteeSlot(spec, w0, period)
  }

  ghost predicate Lookups(spec: Spec, h: History, w0: Store, w: Store) {
    && w.finalizedBlockRoots == w0.finalizedBlockRoots && w.historicalTailSlot == w0.historicalTailSlot
    && w0.db.syncCommittees.Keys <= w.db.syncCommittees.Keys
    && (forall p :: p in w0.db.syncCommittees ==> w.db.syncCommittees[p] == w0.db.syncCommittees[p])
    && w.finalizedCheckpointStates.Keys == w0.finalizedCheckpointStates.Keys
    && (forall q {:trigger Advanced(spec, h, w0, w, q)} ::
         q in w.finalizedCheckpointStates ==> Advanced(spec, h, w0, w, q))
    && (forall p {:trigger CommitteeOnRecord(spec, h, w0, w, p)} ::
         LookedUp(w0, w, p) ==> CommitteeOnRecord(spec, h, w0, w, p))
  }

  lemma {:induction false} SearchFrame(w: Store, w': Store, slot: nat)
    requires w'.finalizedBlockRoots == w.finalizedBlockRoots && w'.historicalTailSlot == w.historicalTailSlot
    ensures BlockIdAtFinalizedSlot(w', slot) == BlockIdAtFinalizedSlot(w, slot)
  {
    if slot > 0 {
      SearchFrame(w, w', slot - 1);
    }
  }

  /** What a lookup of a new period does to the saved states. */
  lemma LookupEffect(spec: Spec, h: History, s: Store, w0: Store, w: Store, f: Root, x: Root)
    requires ValidHistory(spec, h) && Bootstrapping(spec, h, s, w, f) && Newly(h, s, f, x)
    requires w.finalizedBlockRoots == w0.finalizedBlockRoots && w.historicalTailSlot == w0.historicalTailSlot
    requires spec.PeriodAt(h.blocks[x].slot) !in w.db.syncCommittees
    ensures var p := spec.PeriodAt(h.blocks[x].slot);
            var r := CommitteeForFinalizedPeriod(spec, w, p);
            && r.Success?
            && match Start(spec, w0, p)
               case None => r.value == (None, w.finalizedCheckpointStates)
               case Some(bid) =>
                 && bid.root in h.blocks && h.blocks[bid.root].stateRoot in w.finalizedCheckpointStates
                 && var q := h.blocks[bid.root].stateRoot;
                 && var st := Advance(w.finalizedCheckpointStates[q], CommitteeSlot(spec, w0, p));
                 && st.header.root == bid.root
                 && r.value == (Some(Committee(bid.root, st.slot)), w.finalizedCheckpointStates[q := st])
  {
    var p := spec.PeriodAt(h.blocks[x].slot);
    CommitteeLookupFinds(spec, h, s, w, f, x);
    SearchFrame(w0, w, CommitteeSlot(spec, w, p));
    match Start(spec, w0, p)
    case None =>
    case Some(bid) =>
      assert ValidEntry(h, bid.root);
  }

  /** A lookup of a period at or below all looked-up ones disturbs none of them. */
  lemma LookupStep(spec: Spec, h: History, w0: Store, w: Store, w': Store, p: nat)
    requires Lookups(spec, h, w0, w) && p !in w.db.syncCommittees
    requires forall k: nat :: LookedUp(w0, w, k) ==> k >= p
    requires w'.finalizedBlockRoots == w0.finalizedBlockRoots && w'.historicalTailSlot == w0.historicalTailSlot
    requires w'.db.syncCommittees.Keys == w.db.syncCommittees.Keys + {p}
    requires forall k :: k in w.db.syncCommittees ==> w'.db.syncCommittees[k] == w.db.syncCommittees[k]
    requires match Start(spec, w0, p)
             case None => w'.db.syncCommittees[p] == None && w'.finalizedCheckpointStates == w.finalizedCheckpointStates
             case Some(bid) =>
               && bid.root in h.blocks && h.blocks[bid.root].stateRoot in w.finalizedCheckpointStates
               && var q := h.blocks[bid.root].stateRoot;
               && var st := Advance(w.finalizedCheckpointStates[q], CommitteeSlot(spec, w0, p));
               && w'.db.syncCommittees[p] == Some(Committee(bid.root, st.slot))
               && w'.finalizedCheckpointStates == w.finalizedCheckpointStates[q := st]
    ensures Lookups(spec, h, w0, w')
  {
    assert LookedUp(w0, w', p);
    forall k | LookedUp(w0, w, k) ensures LookedUp(w0, w', k) {
    }
    forall q | q in w'.finalizedCheckpointStates ensures Advanced(spec, h, w0, w', q) {
      assert Advanced(spec, h, w0, w, q);
      if w'.finalizedCheckpointStates[q] != w.finalizedCheckpointStates[q] {
        assert Reads(spec, h, w0, p, q);
      }
    }
    forall k | LookedUp(w0, w', k) ensures CommitteeOnRecord(spec, h, w0, w', k) {
      if k != p {
        assert LookedUp(w0, w, k) && CommitteeOnRecord(spec, h, w0, w, k);
        CommitteeSlotMonotone(spec, w0, p, k);
      }
    }
  }

  /** The looked-up periods lie between those of the first and the n-th visited block. */
  ghost predicate InOrder(spec: Spec, w0: Store, w: Store, seg: seq<Block>, n: nat)
    requires n <= |seg|
  {
    forall p: nat :: LookedUp(w0, w, p) ==>
      n > 0 && spec.PeriodAt(seg[n - 1].slot) <= p <= spec.PeriodAt(seg[0].slot)
  }

  lemma InOrderStep(spec: Spec, w0: Store, w: Store, w': Store, seg: seq<Block>, n: nat)
    requires 0 < n <= |seg| && Descending(seg) && InOrder(spec, w0, w, seg, n - 1)
    requires || w' == w
             || w'.db.syncCommittees.Keys == w.db.syncCommittees.Keys + {spec.PeriodAt(seg[n - 1].slot)}
    ensures InOrder(spec, w0, w', seg, n)
    ensures forall p: nat :: LookedUp(w0, w, p) ==> p >= spec.PeriodAt(seg[n - 1].slot)
  {
    PeriodMonotone(spec, seg[n - 1].slot, seg[0].slot);
    if n > 1 {
      PeriodMonotone(spec, seg[n - 1].slot, seg[n - 2].slot);
    }
    forall p: nat | LookedUp(w0, w', p)
      ensures spec.PeriodAt(seg[n - 1].slot) <= p <= spec.PeriodAt(seg[0].slot)
    {
      assert LookedUp(w0, w, p) || p == spec.PeriodAt(seg[n - 1].slot);
    }
  }

  lemma {:induction false} LookupsAll(spec: Spec, h: History, s: Store, w: Store, f: Root, seg: seq<Block>, n: nat)
    requires ValidHistory(spec, h) && Bootstrapping(spec, h, s, w, f)
    requires seg == Segment(h.blocks, f, s.latestFinalizedBid.slot) && n <= |seg|
    ensures BootstrapTops(spec, w, seg, n).Success?
    ensures Lookups(spec, h, w, BootstrapTops(spec, w, seg, n).value)
    ensures InOrder(spec, w, BootstrapTops(spec, w, seg, n).value, seg, n)
  {
    hide CreateLcBootstrap, Lookups, InOrder, Bootstrapping, BootstrapsMade;
    TailUnchanged(spec, h, s, w, f);
    BootstrapsAll(spec, h, s, w, f, seg, n);
    if n == 0 {
      NoLookups(spec, h, w, seg);
    } else {
      LookupsAll(spec, h, s, w, f, seg, n - 1);
      BootstrapsAll(spec, h, s, w, f, seg, n - 1);
      BootstrapTopsStep(spec, h, s, w, f, seg, n);
      SegmentDescends(h.blocks, f, s.latestFinalizedBid.slot);
      assert Visited(h.blocks, seg[n - 1], f, s.latestFinalizedBid.slot);
      var before := BootstrapTops(spec, w, seg, n - 1).value;
      InOrderStep(spec, w, before, BootstrapTops(spec, w, seg, n).value, seg, n);
      if Served(spec, w.cache.tailSlot, seg, n - 1) {
        BootstrapLookups(spec, h, s, w, before, f, seg[n - 1].root);
      }
    }
  }

  lemma TailUnchanged(spec: Spec, h: History, s: Store, w: Store, f: Root)
    requires ValidHistory(spec, h) && Bootstrapping(spec, h, s, w, f)
    ensures w.cache.tailSlot == s.cache.tailSlot
  {
  }

  lemma NoLookups(spec: Spec, h: History, w: Store, seg: seq<Block>)
    ensures Lookups(spec, h, w, w) && InOrder(spec, w, w, seg, 0)
  {
  }

  /** One bootstrap, as far as lookups are concerned. */
  lemma BootstrapLookups(spec: Spec, h: History, s: Store, w0: Store, w: Store, f: Root, x: Root)
    requires ValidHistory(spec, h) && Bootstrapping(spec, h, s, w, f) && Newly(h, s, f, x)
    requires Lookups(spec, h, w0, w)
    requires forall k: nat :: LookedUp(w0, w, k) ==> k >= spec.PeriodAt(h.blocks[x].slot)
    ensures CreateLcBootstrap(spec, w, h.blocks[x].Id()).Success?
    ensures Lookups(spec, h, w0, CreateLcBootstrap(spec, w, h.blocks[x].Id()).value)
  {
    hide CommitteeForFinalizedPeriod, ValidCache, IndexOf, ValidCheckpoints, ValidDB;
    BootstrapStep(spec, h, s, w, f, x);
    var w' := CreateLcBootstrap(spec, w, h.blocks[x].Id()).value;
    var p := spec.PeriodAt(h.blocks[x].slot);
    if p !in w.db.syncCommittees {
      LookupEffect(spec, h, s, w0, w, f, x);
      LookupStep(spec, h, w0, w, w', p);
    } else {
      LookupsFrame(spec, h, w0, w, w');
    }
  }

  lemma LookupsFrame(spec: Spec, h: History, w0: Store, w: Store, w': Store)
    requires Lookups(spec, h, w0, w)
    requires w'.finalizedBlockRoots == w.finalizedBlockRoots && w'.historicalTailSlot == w.historicalTailSlot
    requires w'.finalizedCheckpointStates == w.finalizedCheckpointStates
    requires w'.db.syncCommittees == w.db.syncCommittees
    ensures Lookups(spec, h, w0, w')
  {
    forall k ensures LookedUp(w0, w', k) <==> LookedUp(w0, w, k) {
    }
    forall q | q in w'.finalizedCheckpointStates ensures Advanced(spec, h, w0, w', q) {
      assert Advanced(spec, h, w0, w, q);
    }
    forall k | LookedUp(w0, w', k) ensures CommitteeOnRecord(spec, h, w0, w', k) {
      assert CommitteeOnRecord(spec, h, w0, w, k);
    }
  }

  // ---------------------------------------------------------------- one finalization step

  /** The newly finalized blocks of a step, and the store it starts its lookups from. */
  ghost predicate StepFrom(spec: Spec, h: History, s: Store, w: Store, s': Store, f: Root) {
    && w.db == s.db && w.historicalTailSlot == s.historicalTailSlot
    && Lookups(spec, h, w, s')
    && (forall q :: q in w.finalizedCheckpointStates ==>
         || (q in s.finalizedCheckpointStates && w.finalizedCheckpointStates[q] == s.finalizedCheckpointStates[q])
         || (q in h.states && w.finalizedCheckpointStates[q] == h.states[q]))
    && f in h.blocks
    && (forall p: nat :: LookedUp(w, s', p) ==>
         && spec.PeriodAt(LowSlot(s)) <= p <= spec.PeriodAt(h.blocks[f].slot)
         && h.blocks[f].slot >= s.cache.tailSlot)
  }

  lemma SavedOrOld(spec: Spec, h: History, s: Store, epoch: nat, f: Block, seg: seq<Block>)
    requires Valid(spec, h, s) && TopsKnown(spec, s.states, seg)
    ensures var w := Walked(spec, s, epoch, f, seg);
            forall q :: q in w.finalizedCheckpointStates ==>
              || (q in s.finalizedCheckpointStates && w.finalizedCheckpointStates[q] == s.finalizedCheckpointStates[q])
              || (q in h.states && w.finalizedCheckpointStates[q] == h.states[q])
  {
    SaveTopsEntries(spec, s.finalizedCheckpointStates, s.states, seg, |seg|);
  }

  /** The lookups of the bootstraps, when the new finalized block is at or after the tail. */
  lemma ServedLookups(spec: Spec, h: History, s: Store, w: Store, f: Block, seg: seq<Block>)
    requires ValidHistory(spec, h) && Bootstrapping(spec, h, s, w, f.root)
    requires f.root in h.blocks && h.blocks[f.root] == f && f.slot > s.latestFinalizedBid.slot
    requires seg == Segment(h.blocks, f.root, s.latestFinalizedBid.slot)
    requires ProcessFinalization(spec, w, f.Id(), seg).Success?
    ensures var w' := ProcessFinalization(spec, w, f.Id(), seg).value;
            && Lookups(spec, h, w, w')
            && forall p: nat :: LookedUp(w, w', p) ==>
                 && f.slot >= s.cache.tailSlot
                 && exists i :: 0 <= i < |seg| && seg[i].slot >= s.cache.tailSlot && spec.PeriodAt(seg[i].slot) == p
  {
    hide CreateLcBootstrap, Lookups, Bootstrapping;
    TailUnchanged(spec, h, s, w, f.root);
    if f.slot >= w.cache.tailSlot {
      LookupsAll(spec, h, s, w, f.root, seg, |seg|);
      LookedUpAreServed(spec, h, s, w, f.root, seg, |seg|);
      var before, after := BootstrapTops(spec, w, seg, |seg|).value, ProcessFinalization(spec, w, f.Id(), seg).value;
      LookupsFrame(spec, h, w, before, after);
      assert forall p: nat :: LookedUp(w, after, p) <==> LookedUp(w, before, p);
    } else {
      NoLookups(spec, h, w, seg);
    }
  }

  /** Only served blocks cause lookups. */
  lemma {:induction false} LookedUpAreServed(
    spec: Spec, h: History, s: Store, w: Store, f: Root, seg: seq<Block>, n: nat)
    requires ValidHistory(spec, h) && Bootstrapping(spec, h, s, w, f)
    requires seg == Segment(h.blocks, f, s.latestFinalizedBid.slot) && n <= |seg|
    ensures BootstrapTops(spec, w, seg, n).Success?
    ensures forall p: nat :: LookedUp(w, BootstrapTops(spec, w, seg, n).value, p) ==>
              exists i :: 0 <= i < n && seg[i].slot >= s.cache.tailSlot && spec.PeriodAt(seg[i].slot) == p
  {
    hide CreateLcBootstrap, Bootstrapping, BootstrapsMade;
    TailUnchanged(spec, h, s, w, f);
    BootstrapsAll(spec, h, s, w, f, seg, n);
    if n > 0 {
      BootstrapsAll(spec, h, s, w, f, seg, n - 1);
      LookedUpAreServed(spec, h, s, w, f, seg, n - 1);
      BootstrapTopsStep(spec, h, s, w, f, seg, n);
      var before, after := BootstrapTops(spec, w, seg, n - 1).value, BootstrapTops(spec, w, seg, n).value;
      forall p: nat | LookedUp(w, after, p)
        ensures exists i :: 0 <= i < n && seg[i].slot >= s.cache.tailSlot && spec.PeriodAt(seg[i].slot) == p
      {
        if !LookedUp(w, before, p) {
          assert Served(spec, w.cache.tailSlot, seg, n - 1) && p == spec.PeriodAt(seg[n - 1].slot);
        }
      }
    }
  }

  /** The bounds on the looked-up periods. */
  lemma LookedUpInRange(spec: Spec, h: History, s: Store, w: Store, w': Store, f: Root, seg: seq<Block>)
    requires WellOrdered(h.blocks) && f in h.blocks && seg == Segment(h.blocks, f, s.latestFinalizedBid.slot)
    requires forall p: nat :: LookedUp(w, w', p) ==>
               exists i :: 0 <= i < |seg| && seg[i].slot >= s.cache.tailSlot && spec.PeriodAt(seg[i].slot) == p
    ensures forall p: nat :: LookedUp(w, w', p) ==> spec.PeriodAt(LowSlot(s)) <= p <= spec.PeriodAt(h.blocks[f].slot)
  {
    SegmentDescends(h.blocks, f, s.latestFinalizedBid.slot);
    forall p: nat | LookedUp(w, w', p) ensures spec.PeriodAt(LowSlot(s)) <= p <= spec.PeriodAt(h.blocks[f].slot) {
      var i :| 0 <= i < |seg| && seg[i].slot >= s.cache.tailSlot && spec.PeriodAt(seg[i].slot) == p;
      assert Visited(h.blocks, seg[i], f, s.latestFinalizedBid.slot);
      OnChainSlot(h.blocks, seg[i].root, f);
      PeriodMonotone(spec, LowSlot(s), seg[i].slot);
      PeriodMonotone(spec, seg[i].slot, h.blocks[f].slot);
    }
  }

  /** Pruning does not touch what the lookups left. */
  lemma StepFromFrame(spec: Spec, h: History, s: Store, w: Store, w': Store, s': Store, f: Root)
    requires StepFrom(spec, h, s, w, w', f)
    requires s'.finalizedBlockRoots == w'.finalizedBlockRoots && s'.historicalTailSlot == w'.historicalTailSlot
    requires s'.finalizedCheckpointStates == w'.finalizedCheckpointStates && s'.db == w'.db
    ensures StepFrom(spec, h, s, w, s', f)
  {
    hide Lookups;
    LookupsFrame(spec, h, w, w', s');
    assert forall p: nat :: LookedUp(w, s', p) <==> LookedUp(w, w', p);
  }

  lemma FinalizeLookups(spec: Spec, h: History, s: Store, head: BlockID) returns (w: Store)
    requires Valid(spec, h, s) && CanSelect(h, s, head) && WellOrdered(s.blocks)
    requires head.root in h.blocks && h.blocks[head.root].stateRoot in h.states && Advances(h, s, head)
    ensures Finalize(spec, s, head).Success?
    ensures StepFrom(spec, h, s, w, Finalize(spec, s, head).value,
                     h.states[h.blocks[head.root].stateRoot].finalizedRoot)
  {
    hide ProcessFinalization, Valid, Lookups, Bootstrapping, BootstrapsMade;
    HeadStateIsKnown(spec, h, s, head);
    FinalizeExact(spec, h, s, head);
    var st := h.states[h.blocks[head.root].stateRoot];
    var f, low := st.finalizedRoot, s.latestFinalizedBid.slot;
    WalkIsTrue(spec, h, s, f);
    WalkedIsReady(spec, h, s, st.finalizedEpoch, f);
    var seg := Segment(s.blocks, f, low);
    w := Walked(spec, s, st.finalizedEpoch, h.blocks[f], seg);
    ValidParts(spec, h, s);
    ProcessFinalizationSucceeds(spec, h, s, w, h.blocks[f], seg);
    var w' := ProcessFinalization(spec, w, h.blocks[f].Id(), seg).value;
    ServedLookups(spec, h, s, w, h.blocks[f], seg);
    SavedOrOld(spec, h, s, st.finalizedEpoch, h.blocks[f], seg);
    LookedUpInRange(spec, h, s, w, w', f, seg);
    StepFromFrame(spec, h, s, w, w', Finalize(spec, s, head).value, f);
  }

  /** Another period first recorded in the same step is looked up from the same block. */
  ghost predicate SharesAfter(spec: Spec, s: Store, s': Store, period: nat) {
    exists k: nat ::
      k > period && LookedUp(s, s', k) && Start(spec, s', k).Some? && Start(spec, s', k) == Start(spec, s', period)
  }

  lemma StateOfBlock(spec: Spec, h: History, s: Store, r: Root)
    requires Valid(spec, h, s) && r in h.blocks
    ensures h.blocks[r].root == r
    ensures var q := h.blocks[r].stateRoot;
            q in h.states && h.states[q].header == h.blocks[r].Id()
            && h.states[q].slot <= Max(h.blocks[r].slot, s.historicalTailSlot)
  {
    assert ValidEntry(h, r);
  }

  /** A lookup starts from a block at or below the slot it is read at. */
  lemma StartIsLow(spec: Spec, h: History, s: Store, period: nat)
    requires WellOrdered(h.blocks) && ValidIndex(h, s) && Start(spec, s, period).Some?
    ensures var bid := Start(spec, s, period).value;
            bid.root in h.blocks && h.blocks[bid.root].slot == bid.slot <= CommitteeSlot(spec, s, period)
  {
    SearchFindsHighest(s, CommitteeSlot(spec, s, period));
  }

  /** Before the step's lookups no saved state is past the slot a new period is read at. */
  lemma BaseIsLow(spec: Spec, h: History, s: Store, w: Store, s': Store, f: Root, period: nat)
    requires Valid(spec, h, s) && Settled(spec, h, s) && StepFrom(spec, h, s, w, s', f)
    requires WellOrdered(h.blocks) && ValidIndex(h, s') && LookedUp(s, s', period)
    requires Start(spec, s', period).Some?
    ensures var bid := Start(spec, s', period).value;
            && bid.root in h.blocks && h.blocks[bid.root].slot == bid.slot
            && var q := h.blocks[bid.root].stateRoot;
            && q in w.finalizedCheckpointStates
            && w.finalizedCheckpointStates[q].slot <= CommitteeSlot(spec, s', period)
  {
    hide Lookups, Valid, Start, LowSlot;
    LookupsKeep(spec, h, w, s');
    StartIsLow(spec, h, s', period);
    StateOfBlock(spec, h, s, Start(spec, s', period).value.root);
    assert LookedUp(w, s', period);
    CommitteeSlotMonotone(spec, s, spec.PeriodAt(LowSlot(s)), period);
    OnRecordIsSaved(spec, h, w, s', period);
  }

  lemma LookupsKeep(spec: Spec, h: History, w: Store, s': Store)
    requires Lookups(spec, h, w, s')
    ensures s'.historicalTailSlot == w.historicalTailSlot && s'.finalizedBlockRoots == w.finalizedBlockRoots
    ensures s'.finalizedCheckpointStates.Keys == w.finalizedCheckpointStates.Keys
  {
  }

  lemma OnRecordIsSaved(spec: Spec, h: History, w: Store, s': Store, period: nat)
    requires Lookups(spec, h, w, s') && LookedUp(w, s', period)
    ensures match Start(spec, s', period)
            case None => s'.db.syncCommittees[period] == None
            case Some(bid) =>
              && bid.root in h.blocks
              && var q := h.blocks[bid.root].stateRoot;
              && q in s'.finalizedCheckpointStates
              && s'.db.syncCommittees[period] == Some(Committee(bid.root, s'.finalizedCheckpointStates[q].slot))
              && s'.finalizedCheckpointStates[q].slot >= CommitteeSlot(spec, s', period)
  {
    SearchFrame(w, s', CommitteeSlot(spec, s', period));
    assert CommitteeOnRecord(spec, h, w, s', period);
  }

  /** Two lookups that read one saved state start from one block. */
  lemma SameStateSameStart(spec: Spec, h: History, s: Store, s': Store, p: nat, k: nat)
    requires Valid(spec, h, s) && WellOrdered(h.blocks) && ValidIndex(h, s')
    requires Start(spec, s', p).Some? && Start(spec, s', k).Some?
    requires Start(spec, s', p).value.root in h.blocks && Start(spec, s', k).value.root in h.blocks
    requires h.blocks[Start(spec, s', p).value.root].stateRoot == h.blocks[Start(spec, s', k).value.root].stateRoot
    ensures Start(spec, s', p) == Start(spec, s', k)
  {
    hide Valid, Start;
    StartIsLow(spec, h, s', p);
    StartIsLow(spec, h, s', k);
    StateOfBlock(spec, h, s, Start(spec, s', p).value.root);
    StateOfBlock(spec, h, s, Start(spec, s', k).value.root);
  }

  /** Without a shared start, the saved state stands exactly at the slot of the lookup. */
  lemma UnsharedSlot(spec: Spec, h: History, s: Store, w: Store, s': Store, f: Root, period: nat)
    requires Valid(spec, h, s) && Settled(spec, h, s) && StepFrom(spec, h, s, w, s', f)
    requires WellOrdered(h.blocks) && ValidIndex(h, s') && LookedUp(s, s', period)
    requires Start(spec, s', period).Some? && !SharesAfter(spec, s, s', period)
    ensures s'.db.syncCommittees[period] ==
            Some(Committee(Start(spec, s', period).value.root, CommitteeSlot(spec, s', period)))
  {
    hide Valid, ValidIndex, CommitteeSlot;
    var bid := Start(spec, s', period).value;
    LookupsKeep(spec, h, w, s');
    assert LookedUp(w, s', period);
    OnRecordIsSaved(spec, h, w, s', period);
    BaseIsLow(spec, h, s, w, s', f, period);
    var q := h.blocks[bid.root].stateRoot;
    assert Advanced(spec, h, w, s', q);
    var t := s'.finalizedCheckpointStates[q].slot;
    if t != w.finalizedCheckpointStates[q].slot {
      var p :| LookedUp(w, s', p) && Reads(spec, h, w, p, q) && t == CommitteeSlot(spec, w, p);
      StartFrame(spec, w, s', p);
      SameStateSameStart(spec, h, s, s', p, period);
      assert LookedUp(s, s', p);
      CommitteeSlotMonotone(spec, s', p, period);
    }
  }

  lemma StartFrame(spec: Spec, w: Store, s': Store, period: nat)
    requires s'.historicalTailSlot == w.historicalTailSlot && s'.finalizedBlockRoots == w.finalizedBlockRoots
    ensures CommitteeSlot(spec, s', period) == CommitteeSlot(spec, w, period)
    ensures Start(spec, s', period) == Start(spec, w, period)
  {
    SearchFrame(w, s', CommitteeSlot(spec, s', period));
  }

  /** With a shared start, the saved state stands in the later period. */
  lemma SharedSlot(spec: Spec, h: History, s: Store, w: Store, s': Store, f: Root, period: nat)
    requires Valid(spec, h, s) && StepFrom(spec, h, s, w, s', f)
    requires LookedUp(s, s', period)
    requires Start(spec, s', period).Some? && SharesAfter(spec, s, s', period)
    ensures s'.db.syncCommittees[period].Some?
    ensures s'.db.syncCommittees[period].value.root == Start(spec, s', period).value.root
    ensures spec.PeriodAt(s'.db.syncCommittees[period].value.slot) > period
  {
    hide Valid, Lookups, Start, CommitteeSlot;
    var k: nat :| k > period && LookedUp(s, s', k) && Start(spec, s', k).Some?
      && Start(spec, s', k) == Start(spec, s', period);
    LookupsKeep(spec, h, w, s');
    assert LookedUp(w, s', period) && LookedUp(w, s', k);
    OnRecordIsSaved(spec, h, w, s', period);
    OnRecordIsSaved(spec, h, w, s', k);
    SlotInNewPeriod(spec, h, s, s', k);
    PeriodMonotone(spec, CommitteeSlot(spec, s', k), s'.db.syncCommittees[period].value.slot);
  }

  lemma SlotInNewPeriod(spec: Spec, h: History, s: Store, s': Store, period: nat)
    requires Valid(spec, h, s) && s'.historicalTailSlot == s.historicalTailSlot
    requires period >= spec.PeriodAt(LowSlot(s))
    ensures spec.PeriodAt(CommitteeSlot(spec, s', period)) == period
  {
    hide ValidCache, ValidIndex, ValidCheckpoints, ValidDB, ValidHistory;
    PeriodMonotone(spec, s.cache.tailSlot, LowSlot(s));
    CommitteeSlotInPeriod(spec, s', period);
  }

  // ---------------------------------------------------------------- known before the step

  /** When `f` becomes the newest finalized block, the committee of `period` is first recorded: a newly
      finalized window top at or after the tail lies in it. */
  ghost predicate NewPeriod(spec: Spec, h: History, s: Store, f: Root, period: nat)
    requires WellOrdered(h.blocks)
  {
    && period !in s.db.syncCommittees
    && exists x :: x in NewTops(spec, h, s, f)
         && h.blocks[x].slot >= s.cache.tailSlot && spec.PeriodAt(h.blocks[x].slot) == period
  }

  /** The block of the chain of `f` from which the committee of `period` is read. */
  ghost function ReadFrom(spec: Spec, h: History, s: Store, f: Root, period: nat): Option<BlockID>
    requires WellOrdered(h.blocks)
  {
    match AncestorAt(h.blocks, f, CommitteeSlot(spec, s, period))
    case Some(b) => if b.slot >= s.historicalTailSlot then Some(b.Id()) else None
    case None => None
  }

  /** `k` is recorded together with `period`, from the same block. */
  ghost predicate SameRead(spec: Spec, h: History, s: Store, f: Root, period: nat, k: nat)
    requires WellOrdered(h.blocks)
  {
    NewPeriod(spec, h, s, f, k) && ReadFrom(spec, h, s, f, k) == ReadFrom(spec, h, s, f, period)
  }

  /** A later period is recorded together with `period`, from the same block. */
  ghost predicate SharesStart(spec: Spec, h: History, s: Store, f: Root, period: nat)
    requires WellOrdered(h.blocks)
  {
    exists k: nat :: k > period && SameRead(spec, h, s, f, period, k)
  }

  /** `k` is the last period recorded together with `period` from the same block. */
  ghost predicate LastSharing(spec: Spec, h: History, s: Store, f: Root, period: nat, k: nat)
    requires WellOrdered(h.blocks)
  {
    SameRead(spec, h, s, f, period, k) && forall j: nat :: j > k ==> !SameRead(spec, h, s, f, period, j)
  }

  /** A committee is read at the first slot of its period from the tail and the fork with sync committees on;
      for a period that ends before these there is no such slot, and no committee is read. */
  lemma ReadAtFirstSlot(spec: Spec, s: Store, period: nat, slot: nat)
    ensures
      var start, low := spec.altairForkEpoch * spec.slotsPerEpoch, s.historicalTailSlot;
      spec.PeriodAt(slot) == period && slot >= start && slot >= low ==>
        && CommitteeSlot(spec, s, period) <= slot
        && CommitteeSlot(spec, s, period) >= start && CommitteeSlot(spec, s, period) >= low
        && spec.PeriodAt(CommitteeSlot(spec, s, period)) == period
        && period >= spec.PeriodAt(CommitteeLowSlot(spec, s))
    ensures period < spec.PeriodAt(CommitteeLowSlot(spec, s)) ==>
      CommitteeForFinalizedPeriod(spec, s, period) == Success((None, s.finalizedCheckpointStates))
  {
    var first := CommitteeSlot(spec, s, period);
    if spec.PeriodAt(slot) == period && slot >= CommitteeLowSlot(spec, s) {
      BeforePeriodStart(spec, slot, period);
      BeforePeriodStart(spec, first, period);
      PeriodMonotone(spec, first, slot);
      PeriodMonotone(spec, CommitteeLowSlot(spec, s), slot);
    }
  }

  /** The search of a lookup ends at the ancestor of the newest finalized block. */
  lemma StartIsRead(spec: Spec, h: History, s: Store, s': Store, f: Root, period: nat)
    requires WellOrdered(h.blocks) && IndexOf(h.blocks, s'.finalizedBlockRoots, f)
    requires s'.historicalTailSlot == s.historicalTailSlot
    ensures CommitteeSlot(spec, s', period) == CommitteeSlot(spec, s, period)
    ensures Start(spec, s', period) == ReadFrom(spec, h, s, f, period)
  {
    var slot := CommitteeSlot(spec, s, period);
    assert CommitteeSlot(spec, s', period) == slot;
    hide CommitteeSlot;
    SearchFindsHighest(s', slot);
    var a := AncestorAt(h.blocks, f, slot);
    if a.Some? {
      AncestorOnChain(h.blocks, f, slot);
      AncestorIsStored(h.blocks, f, slot);
      assert a.value.slot in s'.finalizedBlockRoots && s'.finalizedBlockRoots[a.value.slot] == a.value.root;
    }
    match BlockIdAtFinalizedSlot(s', slot)
    case Some(bid) => AncestorIsHighest(h.blocks, f, slot, bid.root);
    case None =>
  }

  /** The periods first recorded are those of the newly finalized window tops at or after the tail. */
  lemma NewPeriodIsLookedUp(spec: Spec, h: History, s: Store, head: BlockID, period: nat)
    requires Valid(spec, h, s) && CanSelect(h, s, head) && WellOrdered(s.blocks)
    requires head.root in h.blocks && h.blocks[head.root].stateRoot in h.states && Advances(h, s, head)
    ensures Finalize(spec, s, head).Success?
    ensures NewPeriod(spec, h, s, h.states[h.blocks[head.root].stateRoot].finalizedRoot, period)
       <==> LookedUp(s, Finalize(spec, s, head).value, period)
  {
    ValidParts(spec, h, s);
    HeadStateIsKnown(spec, h, s, head);
    hide Finalize, Valid, NewPeriod, BootstrapsMade, ValidHistory;
    var f := h.states[h.blocks[head.root].stateRoot].finalizedRoot;
    var w, w' := FinalizeShape(spec, h, s, head);
    if h.blocks[f].slot >= s.cache.tailSlot {
      MadePeriods(spec, h, s, w, w', f, period);
    } else {
      NoNewPeriods(spec, h, s, f, period);
    }
  }

  lemma MadePeriods(spec: Spec, h: History, s: Store, w: Store, w': Store, f: Root, period: nat)
    requires WellOrdered(h.blocks) && w.db == s.db && w.cache.tailSlot == s.cache.tailSlot
    requires var seg := Segment(h.blocks, f, s.latestFinalizedBid.slot); BootstrapsMade(spec, w, w', seg, |seg|)
    ensures NewPeriod(spec, h, s, f, period) <==> period in w'.db.syncCommittees && period !in s.db.syncCommittees
  {
    hide ServedPeriod, NewTops, Segment;
    ServedPeriodIsNew(spec, h, s, f, period);
  }

  lemma NoNewPeriods(spec: Spec, h: History, s: Store, f: Root, period: nat)
    requires WellOrdered(h.blocks) && f in h.blocks && h.blocks[f].slot < s.cache.tailSlot
    ensures !NewPeriod(spec, h, s, f, period)
  {
    forall x | x in NewTops(spec, h, s, f) ensures h.blocks[x].slot < s.cache.tailSlot {
      OnChainSlot(h.blocks, x, f);
    }
  }

  lemma ServedPeriodIsNew(spec: Spec, h: History, s: Store, f: Root, period: nat)
    requires WellOrdered(h.blocks)
    ensures
      var seg := Segment(h.blocks, f, s.latestFinalizedBid.slot);
      ServedPeriod(spec, s.cache.tailSlot, seg, |seg|, period) <==>
        exists x :: x in NewTops(spec, h, s, f)
          && h.blocks[x].slot >= s.cache.tailSlot && spec.PeriodAt(h.blocks[x].slot) == period
  {
    hide Segment, Spec.PeriodAt, IsTop, WindowTop;
    var seg := Segment(h.blocks, f, s.latestFinalizedBid.slot);
    if ServedPeriod(spec, s.cache.tailSlot, seg, |seg|, period) {
      var i :| 0 <= i < |seg| && Served(spec, s.cache.tailSlot, seg, i) && spec.PeriodAt(seg[i].slot) == period;
      SegmentTopIsNew(spec, h, s, f, i);
      assert seg[i].root in NewTops(spec, h, s, f);
    }
    if x :| && x in NewTops(spec, h, s, f)
            && h.blocks[x].slot >= s.cache.tailSlot && spec.PeriodAt(h.blocks[x].slot) == period {
      var i := NewTopInSegment(spec, h, s, f, x);
      assert Served(spec, s.cache.tailSlot, seg, i);
    }
  }

  /** What the store `s'` has on record for a period once `f` is finalized, in terms of the store `s`
      before. A committee first recorded is the period's own exactly when no later period is first
      recorded from the same block; in any case it is that of the last period that is. Committees
      already on record stay. */
  ghost predicate RecordsExactly(spec: Spec, h: History, s: Store, s': Store, f: Root, period: nat)
    requires WellOrdered(h.blocks)
  {
    var before, after := s.db.syncCommittees, s'.db.syncCommittees;
    && (NewPeriod(spec, h, s, f, period) <==> LookedUp(s, s', period))
    && (period in before ==> period in after && after[period] == before[period])
    && (NewPeriod(spec, h, s, f, period) ==>
         match ReadFrom(spec, h, s, f, period)
         case None => after[period] == None
         case Some(bid) =>
           && after[period].Some? && after[period].value.root == bid.root
           && (spec.PeriodAt(after[period].value.slot) == period <==> !SharesStart(spec, h, s, f, period))
           && forall k: nat ::
             LastSharing(spec, h, s, f, period, k) ==> after[period].value.slot == CommitteeSlot(spec, s, k))
  }

  /** A finalization step records exactly that. */
  lemma NewCommitteeExact(spec: Spec, h: History, s: Store, head: BlockID, period: nat)
    requires Valid(spec, h, s) && Settled(spec, h, s) && CanSelect(h, s, head) && WellOrdered(s.blocks)
    requires head.root in h.blocks && h.blocks[head.root].stateRoot in h.states && Advances(h, s, head)
    ensures WellOrdered(h.blocks) && Finalize(spec, s, head).Success?
    ensures
      var f := h.states[h.blocks[head.root].stateRoot].finalizedRoot;
      RecordsExactly(spec, h, s, Finalize(spec, s, head).value, f, period)
  {
    hide Finalize, Valid, SharesAfter, SharesStart, LastSharing, Lookups, Start, ReadFrom, NewPeriod, ValidIndex;
    FinalizeExact(spec, h, s, head);
    HeadStateIsKnown(spec, h, s, head);
    ValidParts(spec, h, s);
    var f := h.states[h.blocks[head.root].stateRoot].finalizedRoot;
    var w := FinalizeLookups(spec, h, s, head);
    var s' := Finalize(spec, s, head).value;
    LookupsKeep(spec, h, w, s');
    if period in w.db.syncCommittees {
      CommitteesStay(spec, h, w, s', period);
    }
    NewPeriodIsLookedUp(spec, h, s, head, period);
    if LookedUp(s, s', period) {
      FinalizeMovesLow(spec, h, s, head);
      StartIsRead(spec, h, s, s', f, period);
      RecordedExact(spec, h, s, w, s', head, f, period);
    }
  }

  lemma CommitteesStay(spec: Spec, h: History, w: Store, s': Store, period: nat)
    requires Lookups(spec, h, w, s') && period in w.db.syncCommittees
    ensures period in s'.db.syncCommittees && s'.db.syncCommittees[period] == w.db.syncCommittees[period]
  {
  }

  lemma RecordedExact(spec: Spec, h: History, s: Store, w: Store, s': Store, head: BlockID, f: Root, period: nat)
    requires Valid(spec, h, s) && Settled(spec, h, s) && CanSelect(h, s, head) && WellOrdered(s.blocks)
    requires head.root in h.blocks && h.blocks[head.root].stateRoot in h.states && Advances(h, s, head)
    requires f == h.states[h.blocks[head.root].stateRoot].finalizedRoot
    requires Finalize(spec, s, head) == Success(s') && StepFrom(spec, h, s, w, s', f) && Valid(spec, h, s')
    requires LookedUp(s, s', period) && WellOrdered(h.blocks) && IndexOf(h.blocks, s'.finalizedBlockRoots, f)
    ensures
      match ReadFrom(spec, h, s, f, period)
      case None => s'.db.syncCommittees[period] == None
      case Some(bid) =>
        && s'.db.syncCommittees[period].Some?
        && s'.db.syncCommittees[period].value.root == bid.root
        && (spec.PeriodAt(s'.db.syncCommittees[period].value.slot) == period <==> !SharesStart(spec, h, s, f, period))
        && forall k: nat :: LastSharing(spec, h, s, f, period, k) ==>
             s'.db.syncCommittees[period].value.slot == CommitteeSlot(spec, s, k)
  {
    hide Finalize, Valid, SharesAfter, SharesStart, LastSharing, Lookups, Start, ReadFrom, NewPeriod, ValidIndex,
      CommitteeSlot;
    LookupsKeep(spec, h, w, s');
    IndexIsValid(spec, h, s');
    assert LookedUp(w, s', period);
    OnRecordIsSaved(spec, h, w, s', period);
    StartIsRead(spec, h, s, s', f, period);
    if Start(spec, s', period).Some? {
      SharingKnown(spec, h, s, s', head, f, period);
      if SharesAfter(spec, s, s', period) {
        SharedSlot(spec, h, s, w, s', f, period);
      } else {
        UnsharedSlot(spec, h, s, w, s', f, period);
        SlotInNewPeriod(spec, h, s, s', period);
      }
      forall k: nat | LastSharing(spec, h, s, f, period, k)
        ensures s'.db.syncCommittees[period].value.slot == CommitteeSlot(spec, s, k)
      {
        LastSharingSlot(spec, h, s, w, s', head, f, period, k);
      }
    }
  }

  /** What is known before the step about shared starts is what can be seen after it. */
  lemma SharingKnown(spec: Spec, h: History, s: Store, s': Store, head: BlockID, f: Root, period: nat)
    requires Valid(spec, h, s) && CanSelect(h, s, head) && WellOrdered(s.blocks) && WellOrdered(h.blocks)
    requires head.root in h.blocks && h.blocks[head.root].stateRoot in h.states && Advances(h, s, head)
    requires f == h.states[h.blocks[head.root].stateRoot].finalizedRoot
    requires Finalize(spec, s, head) == Success(s') && s'.historicalTailSlot == s.historicalTailSlot
    requires IndexOf(h.blocks, s'.finalizedBlockRoots, f) && Start(spec, s', period).Some?
    ensures SharesStart(spec, h, s, f, period) <==> SharesAfter(spec, s, s', period)
  {
    hide Finalize, Valid, Start, ReadFrom, NewPeriod, LookedUp;
    StartIsRead(spec, h, s, s', f, period);
    forall k: nat ensures SameRead(spec, h, s, f, period, k) <==>
      LookedUp(s, s', k) && Start(spec, s', k).Some? && Start(spec, s', k) == Start(spec, s', period)
    {
      NewPeriodIsLookedUp(spec, h, s, head, k);
      StartIsRead(spec, h, s, s', f, k);
    }
  }

  lemma LastSharingSlot(
    spec: Spec, h: History, s: Store, w: Store, s': Store, head: BlockID, f: Root, period: nat, k: nat)
    requires Valid(spec, h, s) && Settled(spec, h, s) && CanSelect(h, s, head) && WellOrdered(s.blocks)
    requires head.root in h.blocks && h.blocks[head.root].stateRoot in h.states && Advances(h, s, head)
    requires f == h.states[h.blocks[head.root].stateRoot].finalizedRoot
    requires Finalize(spec, s, head) == Success(s') && StepFrom(spec, h, s, w, s', f) && ValidIndex(h, s')
    requires LookedUp(s, s', period) && WellOrdered(h.blocks) && IndexOf(h.blocks, s'.finalizedBlockRoots, f)
    requires LastSharing(spec, h, s, f, period, k) && Start(spec, s', period).Some?
    ensures s'.db.syncCommittees[period].Some? && s'.db.syncCommittees[period].value.slot == CommitteeSlot(spec, s, k)
  {
    hide Finalize, Valid, Start, ReadFrom, NewPeriod, CommitteeSlot, SharesAfter, ValidIndex, Lookups;
    LookupsKeep(spec, h, w, s');
    StartIsRead(spec, h, s, s', f, period);
    StartIsRead(spec, h, s, s', f, k);
    NewPeriodIsLookedUp(spec, h, s, head, k);
    SharingKnown(spec, h, s, s', head, f, k);
    forall j: nat | j > k ensures !SameRead(spec, h, s, f, k, j) {
      assert !SameRead(spec, h, s, f, period, j);
    }
    UnsharedSlot(spec, h, s, w, s', f, k);
    assert LookedUp(w, s', period) && LookedUp(w, s', k);
    OnRecordIsSaved(spec, h, w, s', period);
    OnRecordIsSaved(spec, h, w, s', k);
  }

  /** And so does selecting a head whose post-state advances finality. */
  lemma SelectedCommitteeExact(spec: Spec, h: History, s: Store, head: BlockID, period: nat)
    requires Valid(spec, h, s) && Settled(spec, h, s) && CanSelect(h, s, head) && WellOrdered(s.blocks)
    requires head.root in h.blocks && h.blocks[head.root].stateRoot in h.states && Advances(h, s, head)
    requires FinalityRetained(h, s, head)
    ensures WellOrdered(h.blocks) && SelectHead(spec, s, head).Success?
    ensures
      var f := h.states[h.blocks[head.root].stateRoot].finalizedRoot;
      RecordsExactly(spec, h, s, SelectHead(spec, s, head).value, f, period)
  {
    hide Valid, Settled, Finalize, HeadChange, RecordsExactly;
    ValidParts(spec, h, s);
    IndexIsValid(spec, h, s);
    HeadChangeSafe(spec, h, s, head);
    HeadChangeFrame(spec, s, head);
    var s1 := HeadChange(spec, s, head).value;
    SettledFrame(spec, h, h, s, s1);
    NewCommitteeExact(spec, h, s1, head, period);
    RecordsFrame(spec, h, s, s1, SelectHead(spec, s, head).value,
      h.states[h.blocks[head.root].stateRoot].finalizedRoot, period);
  }

  lemma HeadChangeFrame(spec: Spec, s: Store, head: BlockID)
    requires WellOrdered(s.blocks) && HeadChange(spec, s, head).Success?
    ensures
      var s1 := HeadChange(spec, s, head).value;
      s1 == s.(cache := s.cache.(latest := s1.cache.latest), db := s.db.(bestUpdates := s1.db.bestUpdates))
  {
  }

  lemma RecordsFrame(spec: Spec, h: History, s: Store, s1: Store, s': Store, f: Root, period: nat)
    requires WellOrdered(h.blocks) && RecordsExactly(spec, h, s1, s', f, period)
    requires s1 == s.(cache := s.cache.(latest := s1.cache.latest), db := s.db.(bestUpdates := s1.db.bestUpdates))
    ensures RecordsExactly(spec, h, s, s', f, period)
  {
    assert NewTops(spec, h, s1, f) == NewTops(spec, h, s, f);
    forall k: nat ensures NewPeriod(spec, h, s1, f, k) <==> NewPeriod(spec, h, s, f, k) {
    }
    forall k: nat ensures ReadFrom(spec, h, s1, f, k) == ReadFrom(spec, h, s, f, k) {
    }
    hide NewPeriod, ReadFrom;
    forall k: nat ensures SameRead(spec, h, s1, f, period, k) <==> SameRead(spec, h, s, f, period, k) {
    }
    hide SameRead;
    forall k: nat ensures LastSharing(spec, h, s1, f, period, k) <==> LastSharing(spec, h, s, f, period, k) {
    }
  }

  lemma IndexIsValid(spec: Spec, h: History, s: Store)
    requires Valid(spec, h, s)
    ensures WellOrdered(h.blocks) && ValidIndex(h, s)
  {
  }

  // ---------------------------------------------------------------- every reachable store is settled

  lemma AdvanceSettles(spec: Spec, h: History, s: Store, w: Store, s': Store, f: Root)
    requires Settled(spec, h, s) && StepFrom(spec, h, s, w, s', f)
    requires LowSlot(s') >= LowSlot(s) && f in h.blocks && LowSlot(s') >= h.blocks[f].slot
    ensures Settled(spec, h, s')
  {
    LookupsKeep(spec, h, w, s');
    PeriodMonotone(spec, LowSlot(s), LowSlot(s'));
    PeriodMonotone(spec, h.blocks[f].slot, LowSlot(s'));
    CommitteeSlotMonotone(spec, s', spec.PeriodAt(LowSlot(s)), spec.PeriodAt(LowSlot(s')));
    forall q | q in s'.finalizedCheckpointStates
      ensures q in h.states
      ensures s'.finalizedCheckpointStates[q].slot
              <= Max(h.states[q].slot, CommitteeSlot(spec, s', spec.PeriodAt(LowSlot(s'))))
    {
      assert Advanced(spec, h, w, s', q);
      if s'.finalizedCheckpointStates[q].slot != w.finalizedCheckpointStates[q].slot {
        var p :| LookedUp(w, s', p) && Reads(spec, h, w, p, q)
          && s'.finalizedCheckpointStates[q].slot == CommitteeSlot(spec, w, p);
        CommitteeSlotMonotone(spec, s', p, spec.PeriodAt(LowSlot(s')));
      }
    }
  }

  /** Setting up leaves a settled store. */
  lemma SetupSettles(spec: Spec, anchor: Block, st: State)
    requires ValidSpec(spec) && IsGenesis(spec, anchor, st)
    ensures Setup(spec, anchor, st).Success?
    ensures Settled(spec, StartHistory(anchor, st), Setup(spec, anchor, st).value)
  {
    SetupIsValid(spec, anchor, st);
    var s0, s := InitialStore(spec, anchor, st), Setup(spec, anchor, st).value;
    FirstCommittee(spec, s0, anchor, st);
    OnlyAnchorIndexed(s0, anchor.root, CommitteeSlot(spec, s0, spec.PeriodAt(anchor.slot)));
    PeriodMonotone(spec, anchor.slot, LowSlot(s));
    CommitteeSlotMonotone(spec, s, spec.PeriodAt(anchor.slot), spec.PeriodAt(LowSlot(s)));
  }

  lemma StepSettles(spec: Spec, h: History, s: Store, a: Action)
    requires Valid(spec, h, s) && Settled(spec, h, s) && Allowed(spec, h, s, a)
    ensures Step(spec, s, a).Success?
    ensures Settled(spec, Recorded(h, a), Step(spec, s, a).value)
  {
    hide Valid, Settled, Finalize, HeadChange;
    StepIsSafe(spec, h, s, a);
    ValidParts(spec, h, s);
    IndexIsValid(spec, h, s);
    match a
    case Add(b, post, parent) =>
      SettledFrame(spec, h, Recorded(h, a), s, Step(spec, s, a).value);
    case Select(head) =>
      HeadChangeSafe(spec, h, s, head);
      var s1 := HeadChange(spec, s, head).value;
      SettledFrame(spec, h, h, s, s1);
      FinalizeSettles(spec, h, s1, head);
  }

  lemma SettledFrame(spec: Spec, h: History, h': History, s: Store, s': Store)
    requires Settled(spec, h, s)
    requires s'.finalizedCheckpointStates == s.finalizedCheckpointStates
    requires s'.historicalTailSlot == s.historicalTailSlot && LowSlot(s') == LowSlot(s)
    requires forall q ::
      q in h.states && q in s.finalizedCheckpointStates ==> q in h'.states && h'.states[q] == h.states[q]
    ensures Settled(spec, h', s')
  {
  }

  lemma FinalizeSettles(spec: Spec, h: History, s: Store, head: BlockID)
    requires Valid(spec, h, s) && Settled(spec, h, s) && CanSelect(h, s, head) && WellOrdered(s.blocks)
    requires head.root in h.blocks && h.blocks[head.root].stateRoot in h.states && FinalityRetained(h, s, head)
    ensures Finalize(spec, s, head).Success?
    ensures Settled(spec, h, Finalize(spec, s, head).value)
  {
    hide Valid, Settled, ProcessFinalization;
    FinalizeExact(spec, h, s, head);
    HeadStateIsKnown(spec, h, s, head);
    if Advances(h, s, head) {
      var w := FinalizeLookups(spec, h, s, head);
      var s' := Finalize(spec, s, head).value;
      var f := h.states[h.blocks[head.root].stateRoot].finalizedRoot;
      FinalizeMovesLow(spec, h, s, head);
      AdvanceSettles(spec, h, s, w, s', f);
    }
  }

  /** Finalization moves the newest finalized block to the head's checkpoint. */
  lemma FinalizeMovesLow(spec: Spec, h: History, s: Store, head: BlockID)
    requires Valid(spec, h, s) && CanSelect(h, s, head) && WellOrdered(s.blocks)
    requires head.root in h.blocks && h.blocks[head.root].stateRoot in h.states && Advances(h, s, head)
    ensures Finalize(spec, s, head).Success?
    ensures var s' := Finalize(spec, s, head).value;
            var f := h.states[h.blocks[head.root].stateRoot].finalizedRoot;
            && s'.latestFinalizedBid == h.blocks[f].Id()
            && s'.cache.tailSlot == s.cache.tailSlot
            && WellOrdered(h.blocks) && IndexOf(h.blocks, s'.finalizedBlockRoots, f)
  {
    hide ProcessFinalization, Valid, Bootstrapping, BootstrapsMade;
    HeadStateIsKnown(spec, h, s, head);
    FinalizeExact(spec, h, s, head);
    var st := h.states[h.blocks[head.root].stateRoot];
    var f := st.finalizedRoot;
    WalkIsTrue(spec, h, s, f);
    WalkedIsReady(spec, h, s, st.finalizedEpoch, f);
    ValidParts(spec, h, s);
    var seg := Segment(s.blocks, f, s.latestFinalizedBid.slot);
    var w := Walked(spec, s, st.finalizedEpoch, h.blocks[f], seg);
    ProcessFinalizationSucceeds(spec, h, s, w, h.blocks[f], seg);
    IndexWhileBootstrapping(spec, h, s, w, f);
  }

  /** So along whole runs the exact condition above applies to every finalization step. */
  lemma {:induction false} RunSettles(spec: Spec, h: History, s: Store, actions: seq<Action>)
    requires Valid(spec, h, s) && Settled(spec, h, s) && AllowedRun(spec, h, s, actions)
    ensures Run(spec, s, actions).Success?
    ensures Valid(spec, HistoryAfter(h, actions), Run(spec, s, actions).value)
    ensures Settled(spec, HistoryAfter(h, actions), Run(spec, s, actions).value)
    decreases |actions|
  {
    hide Step, Valid, Settled;
    if actions != [] {
      StepIsSafe(spec, h, s, actions[0]);
      StepSettles(spec, h, s, actions[0]);
      RunSettles(spec, Recorded(h, actions[0]), Step(spec, s, actions[0]).value, actions[1..]);
    }
  }
}
