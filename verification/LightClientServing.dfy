/** What the store serves: which blocks get a bootstrap, what a bootstrap contains, what a
    reorganization restores, and the start of every run. */
module LightClientServing {
  import opened Wrappers
  import opened Numbers
  import opened BlockTree
  import opened LightClientModel
  import opened LightClientTime
  import opened LightClientInvariant
  import opened LightClientHead
  import opened LightClientSegment
  import opened LightClientFinalize
  import opened LightClientRuns

  // ---------------------------------------------------------------- cached best updates

  /** In every store a run can reach, the cached best update of a block is the earliest
      maximal update that its own chain signs in its period. */
  lemma CachedBestIsEarliestMaximal(spec: Spec, h: History, s: Store, actions: seq<Action>, r: Root)
    requires Valid(spec, h, s) && AllowedRun(spec, h, s, actions)
    ensures var h' := HistoryAfter(h, actions);
            && Run(spec, s, actions).Success?
            && var s' := Run(spec, s, actions).value;
            && WellOrdered(h'.blocks)
            && (r in h'.blocks && h'.blocks[r].slot >= LowSlot(s') ==>
                 && h'.blocks[r].Id() in s'.cache.data
                 && IsBest(spec, s'.cache.tailSlot, h'.blocks, r, s'.cache.data[h'.blocks[r].Id()].best))
  {
    RunIsSafe(spec, h, s, actions);
    var h', s' := HistoryAfter(h, actions), Run(spec, s, actions).value;
    if r in h'.blocks && h'.blocks[r].slot >= LowSlot(s') {
      CachedAbove(spec, h', s', r);
    }
  }

  // ---------------------------------------------------------------- bootstraps

  /** `x` is newly finalized and the newest finalized block of its epoch window. */
  ghost predicate NewTop(spec: Spec, h: History, s: Store, x: Root, f: Root)
    requires WellOrdered(h.blocks)
  {
    WindowTop(spec, h.blocks, x, f) && h.blocks[x].slot > s.latestFinalizedBid.slot
  }

  ghost function NewTops(spec: Spec, h: History, s: Store, f: Root): set<Root>
    requires WellOrdered(h.blocks)
  {
    set x | x in h.blocks && NewTop(spec, h, s, x, f)
  }

  lemma SegmentTopIsNew(spec: Spec, h: History, s: Store, f: Root, i: nat)
    requires WellOrdered(h.blocks) && i < |Segment(h.blocks, f, s.latestFinalizedBid.slot)|
    ensures var seg := Segment(h.blocks, f, s.latestFinalizedBid.slot);
            && seg[i].root in h.blocks && seg[i] == h.blocks[seg[i].root]
            && (IsTop(spec, seg, i) <==> seg[i].root in NewTops(spec, h, s, f))
  {
    SegmentDescends(h.blocks, f, s.latestFinalizedBid.slot);
    assert Visited(h.blocks, Segment(h.blocks, f, s.latestFinalizedBid.slot)[i], f, s.latestFinalizedBid.slot);
    TopIsWindowTop(spec, h.blocks, f, s.latestFinalizedBid.slot, i);
  }

  lemma NewTopInSegment(spec: Spec, h: History, s: Store, f: Root, x: Root) returns (i: nat)
    requires WellOrdered(h.blocks) && x in NewTops(spec, h, s, f)
    ensures var seg := Segment(h.blocks, f, s.latestFinalizedBid.slot);
            i < |seg| && seg[i] == h.blocks[x] && IsTop(spec, seg, i)
  {
    i := SegmentCovers(h.blocks, f, s.latestFinalizedBid.slot, x);
    SegmentTopIsNew(spec, h, s, f, i);
  }

  /** The backward walk saves the states of exactly the new window tops. */
  lemma WalkSavesTops(spec: Spec, h: History, s: Store, f: Root)
    requires WellOrdered(h.blocks)
    requires TopsKnown(spec, s.states, Segment(h.blocks, f, s.latestFinalizedBid.slot))
    ensures var seg := Segment(h.blocks, f, s.latestFinalizedBid.slot);
            SaveTops(spec, s.finalizedCheckpointStates, s.states, seg, |seg|).Keys ==
            s.finalizedCheckpointStates.Keys + set x | x in NewTops(spec, h, s, f) :: h.blocks[x].stateRoot
  {
    var seg := Segment(h.blocks, f, s.latestFinalizedBid.slot);
    var all := SaveTops(spec, s.finalizedCheckpointStates, s.states, seg, |seg|);
    var saved := set x | x in NewTops(spec, h, s, f) :: h.blocks[x].stateRoot;
    SaveTopsEntries(spec, s.finalizedCheckpointStates, s.states, seg, |seg|);
    forall q | q in all.Keys && q !in s.finalizedCheckpointStates ensures q in saved {
      var i :| 0 <= i < |seg| && IsTop(spec, seg, i) && seg[i].stateRoot == q;
      SegmentTopIsNew(spec, h, s, f, i);
    }
    forall q | q in saved ensures q in all {
      var x :| x in NewTops(spec, h, s, f) && h.blocks[x].stateRoot == q;
      var i := NewTopInSegment(spec, h, s, f, x);
    }
  }

  /** The boundary hops give a bootstrap to exactly the new window tops at or after the tail. */
  lemma HopsServeTops(spec: Spec, h: History, s: Store, w: Store, w': Store, f: Root)
    requires WellOrdered(h.blocks)
    requires w.db == s.db && w.cache.tailSlot == s.cache.tailSlot
    requires var seg := Segment(h.blocks, f, s.latestFinalizedBid.slot); BootstrapsMade(spec, w, w', seg, |seg|)
    ensures w'.db.headers.Keys ==
            s.db.headers.Keys + set x | x in NewTops(spec, h, s, f) && h.blocks[x].slot >= s.cache.tailSlot
  {
    var seg := Segment(h.blocks, f, s.latestFinalizedBid.slot);
    var served := set x | x in NewTops(spec, h, s, f) && h.blocks[x].slot >= s.cache.tailSlot;
    forall x | x in w'.db.headers && x !in s.db.headers ensures x in served {
      var i :| 0 <= i < |seg| && Served(spec, w.cache.tailSlot, seg, i) && seg[i].root == x;
      SegmentTopIsNew(spec, h, s, f, i);
    }
    forall x | x in served ensures x in w'.db.headers {
      var i := NewTopInSegment(spec, h, s, f, x);
      assert Served(spec, w.cache.tailSlot, seg, i);
    }
  }

  /** Below the tail there is nothing to serve. */
  lemma NoTopsBelowTail(spec: Spec, h: History, s: Store, f: Root)
    requires WellOrdered(h.blocks) && f in h.blocks && h.blocks[f].slot < s.cache.tailSlot
    ensures (set x | x in NewTops(spec, h, s, f) && h.blocks[x].slot >= s.cache.tailSlot) == {}
  {
    forall x | x in NewTops(spec, h, s, f) ensures h.blocks[x].slot < s.cache.tailSlot {
      OnChainSlot(h.blocks, x, f);
    }
  }

  /** The two loops agree: a finalization step saves the states of exactly the newly finalized
      window tops, and gives a bootstrap to exactly those of them at or after the tail. */
  lemma FinalizationServesTops(spec: Spec, h: History, s: Store, head: BlockID)
    requires Valid(spec, h, s) && CanSelect(h, s, head) && WellOrdered(s.blocks)
    requires head.root in h.blocks && h.blocks[head.root].stateRoot in h.states && Advances(h, s, head)
    ensures Finalize(spec, s, head).Success?
    ensures var tops := NewTops(spec, h, s, h.states[h.blocks[head.root].stateRoot].finalizedRoot);
            var s' := Finalize(spec, s, head).value;
            && s'.finalizedCheckpointStates.Keys ==
               s.finalizedCheckpointStates.Keys + (set x | x in tops :: h.blocks[x].stateRoot)
            && s'.db.headers.Keys ==
               s.db.headers.Keys + (set x | x in tops && h.blocks[x].slot >= s.cache.tailSlot)
  {
    hide ProcessFinalization;
    var st := h.states[h.blocks[head.root].stateRoot];
    var f := st.finalizedRoot;
    var seg := Segment(h.blocks, f, s.latestFinalizedBid.slot);
    var w, w' := FinalizeShape(spec, h, s, head);
    WalkSavesTops(spec, h, s, f);
    if h.blocks[f].slot >= s.cache.tailSlot {
      HopsServeTops(spec, h, s, w, w', f);
    } else {
      NoTopsBelowTail(spec, h, s, f);
    }
  }

  /** The stores before and after the bootstraps of a finalization step. */
  lemma FinalizeShape(spec: Spec, h: History, s: Store, head: BlockID) returns (w: Store, w': Store)
    requires Valid(spec, h, s) && CanSelect(h, s, head) && WellOrdered(s.blocks)
    requires head.root in h.blocks && h.blocks[head.root].stateRoot in h.states && Advances(h, s, head)
    ensures var f := h.blocks[h.states[h.blocks[head.root].stateRoot].finalizedRoot];
            var seg := Segment(h.blocks, f.root, s.latestFinalizedBid.slot);
            && Finalize(spec, s, head).Success?
            && var s' := Finalize(spec, s, head).value;
            && TopsKnown(spec, s.states, seg)
            && w.db == s.db && w.cache.tailSlot == s.cache.tailSlot
            && s'.db == w'.db
            && s'.finalizedCheckpointStates.Keys ==
               SaveTops(spec, s.finalizedCheckpointStates, s.states, seg, |seg|).Keys
            && (if f.slot >= s.cache.tailSlot then BootstrapsMade(spec, w, w', seg, |seg|) else w'.db == w.db)
            && s'.db.bestUpdates == s.db.bestUpdates && s'.cache.latest == s.cache.latest
  {
    hide ProcessFinalization, Valid;
    HeadStateIsKnown(spec, h, s, head);
    FinalizeExact(spec, h, s, head);
    var st := h.states[h.blocks[head.root].stateRoot];
    var f := st.finalizedRoot;
    WalkIsTrue(spec, h, s, f);
    WalkedIsReady(spec, h, s, st.finalizedEpoch, f);
    var seg := Segment(s.blocks, f, s.latestFinalizedBid.slot);
    w := Walked(spec, s, st.finalizedEpoch, h.blocks[f], seg);
    ValidParts(spec, h, s);
    ProcessFinalizationSucceeds(spec, h, s, w, h.blocks[f], seg);
    w' := ProcessFinalization(spec, w, h.blocks[f].Id(), seg).value;
  }

  lemma ValidParts(spec: Spec, h: History, s: Store)
    requires Valid(spec, h, s)
    ensures ValidHistory(spec, h)
  {
  }

  /** Serving a bootstrap never raises, and what it serves belongs to the block asked for. */
  lemma ServedBootstrapIsWhole(spec: Spec, h: History, s: Store, root: Root)
    requires Valid(spec, h, s)
    ensures GetBootstrap(spec, s, root).Success?
    ensures match GetBootstrap(spec, s, root).value
            case None => root !in s.db.headers
            case Some(b) =>
              && root in h.blocks && OnChain(h.blocks, root, Tip(s))
              && b.header == h.blocks[root].Id()
              && b.branch == h.blocks[root].stateRoot
              && spec.PeriodAt(b.header.slot) in s.db.syncCommittees
              && b.committee == s.db.syncCommittees[spec.PeriodAt(b.header.slot)]
  {
    if root in s.db.headers {
      assert ValidHeader(spec, h, s, root, Tip(s));
    }
  }

  // ---------------------------------------------------------------- updates

  /** Finalization leaves the served updates as the head change made them. */
  lemma FinalizeKeepsUpdates(spec: Spec, h: History, s: Store, head: BlockID)
    requires Valid(spec, h, s) && CanSelect(h, s, head) && WellOrdered(s.blocks)
    requires head.root in h.blocks && h.blocks[head.root].stateRoot in h.states && FinalityRetained(h, s, head)
    ensures Finalize(spec, s, head).Success?
    ensures Finalize(spec, s, head).value.db.bestUpdates == s.db.bestUpdates
    ensures Finalize(spec, s, head).value.cache.latest == s.cache.latest
  {
    hide ProcessFinalization, Valid;
    FinalizeExact(spec, h, s, head);
    HeadStateIsKnown(spec, h, s, head);
    if Advances(h, s, head) {
      var _, _ := FinalizeShape(spec, h, s, head);
    }
  }

  /** What `select_new_head` serves: for each committed period the best update of the head's
      own chain, other periods unchanged, and as latest update the newest one the chain signs. */
  lemma SelectHeadServesChain(spec: Spec, h: History, s: Store, head: BlockID, period: nat)
    requires Valid(spec, h, s) && CanSelect(h, s, head) && WellOrdered(s.blocks)
    requires head.root in h.blocks && h.blocks[head.root].stateRoot in h.states && FinalityRetained(h, s, head)
    requires head.slot >= LowSlot(s)
    ensures SelectHead(spec, s, head).Success?
    ensures var s' := SelectHead(spec, s, head).value;
            && EntryOf(s'.db.bestUpdates, period) == EntryAfter(spec, s, head, period)
            && (if CommitsOnChain(spec, h, s, head, period) then
                  var a := PeriodEndAncestor(spec, h.blocks, head.root, period).value;
                  a.root in h.blocks
                    && IsBest(spec, s.cache.tailSlot, h.blocks, a.root, EntryOf(s'.db.bestUpdates, period))
                else
                  EntryOf(s'.db.bestUpdates, period) == EntryOf(s.db.bestUpdates, period))
            && match s'.cache.latest
               case None => forall x :: !NewestServed(spec, s, h.blocks, x, head.root)
               case Some(u) => exists x :: NewestServed(spec, s, h.blocks, x, head.root)
                                 && h.blocks[x].slot > LowSlot(s) && u == UpdateSignedBy(h.blocks, x)
  {
    hide Finalize, Valid, LatestAfter, EntryAfter, BestUpdatesAfter;
    SelectHeadExact(spec, h, s, head);
    HeadChangeSafe(spec, h, s, head);
    var s1 := HeadChange(spec, s, head).value;
    FinalizeKeepsUpdates(spec, h, s1, head);
    ValidIsReadable(spec, h, s);
    BestReadsAreCached(spec, h, s, head);
    LatestIsNewest(spec, h, s, head);
    EntryIsChainBest(spec, h, s, head, period);
    BestUpdatesEntry(spec, s, head, period);
  }

  /** `a` is the newest block of the chain of `r` in or before `period`. */
  ghost predicate NewestThrough(spec: Spec, m: Blocks, a: Root, r: Root, period: nat)
    requires WellOrdered(m)
  {
    && OnChain(m, a, r) && spec.PeriodAt(m[a].slot) <= period
    && forall x :: OnChain(m, x, r) && spec.PeriodAt(m[x].slot) <= period ==> m[x].slot <= m[a].slot
  }

  lemma PeriodEndIsNewest(spec: Spec, m: Blocks, r: Root, period: nat)
    requires WellOrdered(m)
    ensures
      match PeriodEndAncestor(spec, m, r, period)
      case None => forall a :: !NewestThrough(spec, m, a, r, period)
      case Some(end) =>
        && end.root in m && m[end.root] == end
        && forall a :: NewestThrough(spec, m, a, r, period) <==> a == end.root
  {
    PeriodEnd(spec, 0, period);
    var slot := spec.PeriodStart(period + 1) - 1;
    forall x | OnChain(m, x, r) && spec.PeriodAt(m[x].slot) <= period
      ensures AncestorAt(m, r, slot).Some? && m[x].slot <= AncestorAt(m, r, slot).value.slot
    {
      PeriodEnd(spec, m[x].slot, period);
      AncestorIsHighest(m, r, slot, x);
    }
    if AncestorAt(m, r, slot).Some? {
      var end := AncestorAt(m, r, slot).value;
      AncestorIsStored(m, r, slot);
      AncestorOnChain(m, r, slot);
      PeriodEnd(spec, end.slot, period);
      hide Spec.PeriodAt, Spec.PeriodStart;
      forall a | NewestThrough(spec, m, a, r, period) ensures a == end.root {
        SameSlotSameBlock(m, end.root, a, r);
      }
    }
  }

  /** Block `a` decides what is served for `period`: it is the newest of the head's chain in or before it, at
      or after the tail, and no older than the newest finalized block. */
  ghost predicate Decides(spec: Spec, h: History, s: Store, head: BlockID, period: nat, a: Root)
    requires WellOrdered(h.blocks)
  {
    && NewestThrough(spec, h.blocks, a, head.root, period) && period <= spec.PeriodAt(head.slot)
    && h.blocks[a].slot >= s.cache.tailSlot && h.blocks[a].slot >= s.latestFinalizedBid.slot
  }

  lemma CommitsIffDecided(spec: Spec, h: History, s: Store, head: BlockID, period: nat)
    requires WellOrdered(h.blocks)
    ensures CommitsOnChain(spec, h, s, head, period) <==> exists a :: Decides(spec, h, s, head, period, a)
    ensures CommitsOnChain(spec, h, s, head, period) ==>
      forall a :: Decides(spec, h, s, head, period, a) <==>
        a == PeriodEndAncestor(spec, h.blocks, head.root, period).value.root
  {
    hide PeriodEndAncestor;
    PeriodEndIsNewest(spec, h.blocks, head.root, period);
    var end := PeriodEndAncestor(spec, h.blocks, head.root, period);
    if end.Some? {
      var low := LowSlot(s);
      assert NewestThrough(spec, h.blocks, end.value.root, head.root, period);
      if low <= end.value.slot {
        PeriodMonotone(spec, low, end.value.slot);
      }
      hide Spec.PeriodAt, NewestThrough;
      assert Decides(spec, h, s, head, period, end.value.root) <==> CommitsOnChain(spec, h, s, head, period);
    }
  }

  /** What `select_new_head` serves, told in blocks of the head's chain: for every period the best update of
      the block that decides it, and as before if there is none; and as latest update the one signed by the
      newest signing block, if its parent is no older than the newest finalized block. */
  lemma SelectHeadServesBlocks(spec: Spec, h: History, s: Store, head: BlockID, period: nat)
    requires Valid(spec, h, s) && CanSelect(h, s, head) && WellOrdered(s.blocks)
    requires head.root in h.blocks && h.blocks[head.root].stateRoot in h.states && FinalityRetained(h, s, head)
    requires head.slot >= s.cache.tailSlot
    ensures SelectHead(spec, s, head).Success?
    ensures WellOrdered(h.blocks)
    ensures
      var s' := SelectHead(spec, s, head).value;
      && (forall a :: Decides(spec, h, s, head, period, a) ==>
           IsBest(spec, s.cache.tailSlot, h.blocks, a, EntryOf(s'.db.bestUpdates, period)))
      && ((forall a :: !Decides(spec, h, s, head, period, a)) ==>
           EntryOf(s'.db.bestUpdates, period) == EntryOf(s.db.bestUpdates, period))
    ensures
      var m, s' := h.blocks, SelectHead(spec, s, head).value;
      match s'.cache.latest
      case None => forall x :: !SignsLast(spec, h, s, head, x)
      case Some(u) => exists x :: SignsLast(spec, h, s, head, x) && IsSignedBy(u, m, x)
  {
    hide SelectHead, EntryAfter, Commits, IsBest, Decides, PeriodEndAncestor;
    AboveLow(spec, h, s, head);
    SelectHeadServesChain(spec, h, s, head, period);
    CommitsIffDecided(spec, h, s, head, period);
    hide Valid, CommitsOnChain;
    SignsLastIff(spec, h, s, head);
    hide SignsLast, NewestServed, UpdateSignedBy, IsSignedBy;
    var latest := SelectHead(spec, s, head).value.cache.latest;
    if latest.Some? {
      var x :| NewestServed(spec, s, h.blocks, x, head.root) && latest.value == UpdateSignedBy(h.blocks, x);
      assert SignsLast(spec, h, s, head, x) && IsSignedBy(latest.value, h.blocks, x);
    }
  }

  lemma SignsLastIff(spec: Spec, h: History, s: Store, head: BlockID)
    requires WellOrdered(h.blocks)
    ensures forall x :: SignsLast(spec, h, s, head, x) <==> NewestServed(spec, s, h.blocks, x, head.root)
    ensures forall x :: SignsLast(spec, h, s, head, x) ==> IsSignedBy(UpdateSignedBy(h.blocks, x), h.blocks, x)
  {
  }

  /** The update attests the parent of `x`, and is signed in `x`. */
  ghost predicate IsSignedBy(u: Update, m: Blocks, x: Root) {
    && x in m && m[x].parentRoot in m
    && u.attested == BlockID(m[m[x].parentRoot].slot, m[x].parentRoot)
    && u.signatureSlot == m[x].slot && u.aggregate == SyncAggregate(x, m[x].participants)
  }

  /** `x` is the newest signing block of the head's chain, and its parent no older than the newest finalized
      block. */
  ghost predicate SignsLast(spec: Spec, h: History, s: Store, head: BlockID, x: Root)
    requires WellOrdered(h.blocks)
  {
    && Signs(spec, s.cache.tailSlot, h.blocks, x, head.root)
    && h.blocks[h.blocks[x].parentRoot].slot >= s.latestFinalizedBid.slot
    && forall y :: Signs(spec, s.cache.tailSlot, h.blocks, y, head.root) ==> h.blocks[y].slot <= h.blocks[x].slot
  }

  /** A stored head at or after the tail is at or after the low slot. */
  lemma AboveLow(spec: Spec, h: History, s: Store, head: BlockID)
    requires Valid(spec, h, s) && CanSelect(h, s, head) && head.slot >= s.cache.tailSlot
    ensures WellOrdered(h.blocks) && head.slot >= LowSlot(s)
    ensures forall r :: r in h.blocks ==> h.blocks[r].root == r
  {
  }

  /** A head before the first slot with light client data changes no update served. */
  lemma SelectHeadBeforeTail(spec: Spec, h: History, s: Store, head: BlockID)
    requires Valid(spec, h, s) && CanSelect(h, s, head) && WellOrdered(s.blocks)
    requires head.root in h.blocks && h.blocks[head.root].stateRoot in h.states && FinalityRetained(h, s, head)
    requires head.slot < s.cache.tailSlot
    ensures SelectHead(spec, s, head).Success?
    ensures SelectHead(spec, s, head).value.db.bestUpdates == s.db.bestUpdates
    ensures SelectHead(spec, s, head).value.cache.latest == s.cache.latest
  {
    hide Finalize, Valid;
    FinalizeKeepsUpdates(spec, h, s, head);
  }

  lemma ValidIsReadable(spec: Spec, h: History, s: Store)
    requires Valid(spec, h, s)
    ensures Readable(spec, h, s)
  {
  }

  // ---------------------------------------------------------------- reorganizations

  /** Runs only add history, and never move the tail. */
  lemma {:induction false} RunExtends(spec: Spec, h: History, s: Store, actions: seq<Action>)
    requires Valid(spec, h, s) && AllowedRun(spec, h, s, actions)
    ensures Run(spec, s, actions).Success?
    ensures Valid(spec, HistoryAfter(h, actions), Run(spec, s, actions).value)
    ensures Extends(h.blocks, HistoryAfter(h, actions).blocks, ZERO_ROOT)
    ensures Run(spec, s, actions).value.cache.tailSlot == s.cache.tailSlot
    decreases |actions|
  {
    hide Step, Valid;
    ValidParts(spec, h, s);
    if actions != [] {
      StepIsSafe(spec, h, s, actions[0]);
      StepExtends(spec, h, s, actions[0]);
      RunExtends(spec, Recorded(h, actions[0]), Step(spec, s, actions[0]).value, actions[1..]);
    }
  }

  lemma TailOfStart(spec: Spec, h: History, s: Store)
    requires Valid(spec, h, s)
    ensures ValidHistory(spec, h)
    ensures s.cache.tailSlot == Max(StartState(h).slot, spec.EpochStart(spec.altairForkEpoch))
  {
  }

  lemma StepExtends(spec: Spec, h: History, s: Store, a: Action)
    requires Valid(spec, h, s) && Allowed(spec, h, s, a) && Step(spec, s, a).Success?
    requires Valid(spec, Recorded(h, a), Step(spec, s, a).value)
    ensures Extends(h.blocks, Recorded(h, a).blocks, ZERO_ROOT)
    ensures Step(spec, s, a).value.cache.tailSlot == s.cache.tailSlot
  {
    hide Step, Valid;
    TailOfStart(spec, h, s);
    TailOfStart(spec, Recorded(h, a), Step(spec, s, a).value);
  }

  /** Switching away from a head and back to it, with finality unchanged, restores the best
      update of every period that the head commits, whatever happened in between. */
  lemma ReorgRestores(spec: Spec, h: History, s: Store, head: BlockID, between: seq<Action>, period: nat)
    requires Valid(spec, h, s) && Allowed(spec, h, s, Select(head))
    requires Step(spec, s, Select(head)).Success?
    requires var s1 := Step(spec, s, Select(head)).value;
             AllowedRun(spec, h, s1, between) && Run(spec, s1, between).Success?
    requires var h2, s2 := HistoryAfter(h, between), Run(spec, Step(spec, s, Select(head)).value, between).value;
             && Allowed(spec, h2, s2, Select(head))
             && s2.latestFinalizedBid.slot == s.latestFinalizedBid.slot
    requires head.slot >= LowSlot(s) && WellOrdered(h.blocks) && CommitsOnChain(spec, h, s, head, period)
    ensures var s1 := Step(spec, s, Select(head)).value;
            var s2 := Run(spec, s1, between).value;
            && Step(spec, s2, Select(head)).Success?
            && EntryOf(Step(spec, s2, Select(head)).value.db.bestUpdates, period) == EntryOf(s1.db.bestUpdates, period)
  {
    hide Valid, SelectHead, EntryAfter, IsBest, NewestServed;
    var h2 := HistoryAfter(h, between);
    var s1 := Step(spec, s, Select(head)).value;
    StepIsSafe(spec, h, s, Select(head));
    StepExtends(spec, h, s, Select(head));
    RunExtends(spec, h, s1, between);
    var s2 := Run(spec, s1, between).value;
    StepIsSafe(spec, h2, s2, Select(head));
    ValidIsReadable(spec, h, s);
    ValidIsReadable(spec, h2, s2);
    AncestorInExtension(h.blocks, h2.blocks, ZERO_ROOT, head.root, EndSlot(spec, period));
    SelectHeadServesChain(spec, h, s, head, period);
    SelectHeadServesChain(spec, h2, s2, head, period);
    EntriesDependOnChainOnly(spec, h, s, h2, s2, head, period);
  }
}
