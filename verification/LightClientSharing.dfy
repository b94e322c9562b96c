/** A checkpoint state saved by the backward walk is the same object as the stored post-state, and
    committee lookups advance it in place. Runs in which an advance shows in the stored states too are
    the same as runs with separate values, because no state that is still stored is ever advanced. */
module LightClientSharing {
  import opened Wrappers
  import opened BlockTree
  import opened LightClientModel
  import opened LightClientTime
  import opened LightClientInvariant
  import opened LightClientHead
  import opened LightClientFinalize
  import opened LightClientRuns
  import opened LightClientServing
  import opened LightClientStart
  import opened LightClientCommittee

  /** A shared state is as it was stored, or it and its original lie below the newest finalized block,
      where both are pruned. The anchor's state is saved as an object of its own. */
  ghost predicate Harmless(h: History, s: Store, q: Root)
    requires q in s.finalizedCheckpointStates
  {
    && q in h.states
    && var low := s.latestFinalizedBid.slot;
    && (s.finalizedCheckpointStates[q] == h.states[q]
         || (s.finalizedCheckpointStates[q].slot < low && h.states[q].slot < low))
  }

  ghost predicate SharingHarmless(h: History, s: Store) {
    && h.anchor in h.blocks
    && forall q {:trigger Harmless(h, s, q)} ::
         q in s.finalizedCheckpointStates && q != h.blocks[h.anchor].stateRoot ==> Harmless(h, s, q)
  }

  /** An advanced state was read at a slot below the new finalized block. */
  lemma AdvancedIsLow(spec: Spec, h: History, s: Store, w: Store, s': Store, f: Root, p: nat, q: Root)
    requires Valid(spec, h, s) && StepFrom(spec, h, s, w, s', f) && ValidHistory(spec, h) && ValidIndex(h, s')
    requires s'.latestFinalizedBid == h.blocks[f].Id()
    requires LookedUp(w, s', p) && Reads(spec, h, w, p, q) && q != h.blocks[h.anchor].stateRoot
    ensures q in h.states
    ensures CommitteeSlot(spec, w, p) == h.states[q].slot
      || (CommitteeSlot(spec, w, p) < h.blocks[f].slot && h.states[q].slot < h.blocks[f].slot)
  {
    hide Valid, Lookups, Start, CommitteeSlot;
    LookupsKeep(spec, h, w, s');
    StartFrame(spec, w, s', p);
    StartIsLow(spec, h, s', p);
    var bid := Start(spec, s', p).value;
    StateSlotOf(spec, h, bid.root);
    SlotAtMost(spec, h, s, w, f, p);
    if CommitteeSlot(spec, w, p) == h.blocks[f].slot {
      StartAtTip(spec, h, s', p);
    }
  }

  lemma StateSlotOf(spec: Spec, h: History, r: Root)
    requires ValidHistory(spec, h) && r in h.blocks && r != h.anchor
    ensures h.blocks[r].stateRoot in h.states && h.states[h.blocks[r].stateRoot].slot == h.blocks[r].slot
  {
    assert ValidEntry(h, r);
  }

  lemma SlotAtMost(spec: Spec, h: History, s: Store, w: Store, f: Root, p: nat)
    requires Valid(spec, h, s) && f in h.blocks && w.historicalTailSlot == s.historicalTailSlot
    requires p <= spec.PeriodAt(h.blocks[f].slot) && h.blocks[f].slot >= s.cache.tailSlot
    ensures CommitteeSlot(spec, w, p) <= h.blocks[f].slot
  {
    BeforePeriodStart(spec, h.blocks[f].slot, p);
  }

  /** A lookup at the slot of the newest finalized block starts from that block. */
  lemma StartAtTip(spec: Spec, h: History, s: Store, p: nat)
    requires WellOrdered(h.blocks) && ValidIndex(h, s) && Tip(s) in h.blocks
    requires CommitteeSlot(spec, s, p) == s.latestFinalizedBid.slot && Start(spec, s, p).Some?
    ensures Start(spec, s, p).value == BlockID(s.latestFinalizedBid.slot, Tip(s))
  {
    SearchFindsHighest(s, CommitteeSlot(spec, s, p));
  }

  lemma StepKeepsSharing(spec: Spec, h: History, s: Store, w: Store, s': Store, f: Root)
    requires Valid(spec, h, s) && StepFrom(spec, h, s, w, s', f) && ValidHistory(spec, h) && ValidIndex(h, s')
    requires s'.latestFinalizedBid == h.blocks[f].Id()
    requires h.blocks[f].slot > s.latestFinalizedBid.slot && SharingHarmless(h, s)
    ensures SharingHarmless(h, s')
  {
    hide Valid, ValidHistory, ValidIndex, Reads, CommitteeSlot;
    forall q | q in s'.finalizedCheckpointStates && q != h.blocks[h.anchor].stateRoot ensures Harmless(h, s', q) {
      assert Advanced(spec, h, w, s', q);
      assert q in s.finalizedCheckpointStates ==> Harmless(h, s, q);
      if s'.finalizedCheckpointStates[q].slot != w.finalizedCheckpointStates[q].slot {
        var p :| LookedUp(w, s', p) && Reads(spec, h, w, p, q)
          && s'.finalizedCheckpointStates[q].slot == CommitteeSlot(spec, w, p);
        AdvancedIsLow(spec, h, s, w, s', f, p, q);
      }
    }
  }

  lemma FinalizeKeepsSharing(spec: Spec, h: History, s: Store, head: BlockID)
    requires Valid(spec, h, s) && SharingHarmless(h, s) && CanSelect(h, s, head) && WellOrdered(s.blocks)
    requires head.root in h.blocks && h.blocks[head.root].stateRoot in h.states && FinalityRetained(h, s, head)
    ensures Finalize(spec, s, head).Success?
    ensures SharingHarmless(h, Finalize(spec, s, head).value)
  {
    hide Valid, SharingHarmless, ProcessFinalization, ValidIndex, StepFrom;
    FinalizeExact(spec, h, s, head);
    HeadStateIsKnown(spec, h, s, head);
    if Advances(h, s, head) {
      var w := FinalizeLookups(spec, h, s, head);
      var s' := Finalize(spec, s, head).value;
      var f := h.states[h.blocks[head.root].stateRoot].finalizedRoot;
      FinalizeMovesLow(spec, h, s, head);
      ValidParts(spec, h, s);
      IndexIsValid(spec, h, s');
      StepKeepsSharing(spec, h, s, w, s', f);
    }
  }

  lemma SharingFrame(h: History, h': History, s: Store, s': Store)
    requires SharingHarmless(h, s)
    requires h'.anchor == h.anchor && h.anchor in h'.blocks && h'.blocks[h.anchor] == h.blocks[h.anchor]
    requires s'.finalizedCheckpointStates == s.finalizedCheckpointStates
    requires s'.latestFinalizedBid == s.latestFinalizedBid
    requires forall q ::
      q in h.states && q in s.finalizedCheckpointStates ==> q in h'.states && h'.states[q] == h.states[q]
    ensures SharingHarmless(h', s')
  {
    forall q | q in s'.finalizedCheckpointStates && q != h'.blocks[h'.anchor].stateRoot ensures Harmless(h', s', q) {
      assert Harmless(h, s, q);
    }
  }

  lemma ActionKeepsSharing(spec: Spec, h: History, s: Store, a: Action)
    requires Valid(spec, h, s) && SharingHarmless(h, s) && Allowed(spec, h, s, a)
    ensures Step(spec, s, a).Success?
    ensures SharingHarmless(Recorded(h, a), Step(spec, s, a).value)
  {
    hide Valid, SharingHarmless, Finalize, HeadChange;
    StepIsSafe(spec, h, s, a);
    ValidParts(spec, h, s);
    IndexIsValid(spec, h, s);
    assert h.anchor in h.blocks;
    match a
    case Add(b, post, parent) =>
      SharingFrame(h, Recorded(h, a), s, Step(spec, s, a).value);
    case Select(head) =>
      HeadChangeSafe(spec, h, s, head);
      var s1 := HeadChange(spec, s, head).value;
      SharingFrame(h, h, s, s1);
      FinalizeKeepsSharing(spec, h, s1, head);
  }

  lemma {:induction false} RunKeepsSharing(spec: Spec, h: History, s: Store, actions: seq<Action>)
    requires Valid(spec, h, s) && SharingHarmless(h, s) && AllowedRun(spec, h, s, actions)
    ensures Run(spec, s, actions).Success?
    ensures SharingHarmless(HistoryAfter(h, actions), Run(spec, s, actions).value)
    decreases |actions|
  {
    hide Step, Valid, SharingHarmless;
    if actions != [] {
      StepIsSafe(spec, h, s, actions[0]);
      ActionKeepsSharing(spec, h, s, actions[0]);
      RunKeepsSharing(spec, Recorded(h, actions[0]), Step(spec, s, actions[0]).value, actions[1..]);
    }
  }

  lemma SetupShares(spec: Spec, anchor: Block, st: State)
    requires ValidSpec(spec) && IsGenesis(spec, anchor, st)
    ensures Setup(spec, anchor, st).Success?
    ensures SharingHarmless(StartHistory(anchor, st), Setup(spec, anchor, st).value)
  {
    SetupIsValid(spec, anchor, st);
    FirstCommittee(spec, InitialStore(spec, anchor, st), anchor, st);
  }

  /** What is stored of a shared state is what was saved of it; and pruning by the slot of the shared
      object deletes exactly the states that pruning by the original slot deletes. */
  lemma SharedStateIsUnchanged(spec: Spec, h: History, s: Store, q: Root)
    requires Valid(spec, h, s) && SharingHarmless(h, s)
    requires q in s.finalizedCheckpointStates && q != h.blocks[h.anchor].stateRoot
    ensures q in s.states ==> s.finalizedCheckpointStates[q] == s.states[q]
    ensures q in s.states <==> s.finalizedCheckpointStates[q].slot >= s.latestFinalizedBid.slot
  {
    assert Harmless(h, s, q);
  }

  // ---------------------------------------------------------------- shared objects

  /** The stored states as shared objects show them: a saved state shows as it is now. The state `own`
      was saved as an object of its own. */
  ghost function Shown(own: Root, states: map<Root, State>, saved: map<Root, State>): map<Root, State> {
    map q | q in states :: if q in saved && q != own then saved[q] else states[q]
  }

  /** The finalization half of a head change with shared objects: what the lookups advanced shows in the
      stored states, and these are pruned by the slots that they show. */
  ghost function SharedFinalize(spec: Spec, own: Root, s: Store, head: BlockID): Result<Store, Error>
    requires WellOrdered(s.blocks)
  {
    var s' :- Finalize(spec, s, head);
    var low := s'.latestFinalizedBid.slot;
    if low == s.latestFinalizedBid.slot then Success(s')
    else Success(s'.(states := PrunedStates(Shown(own, s.states, s'.finalizedCheckpointStates), low)))
  }

  ghost function SharedStep(spec: Spec, own: Root, s: Store, a: Action): Result<Store, Error> {
    if !WellOrdered(s.blocks) then Failure(KeyMissing) else
    match a
    case Add(b, post, parent) => AddBlock(spec, s, b, post, parent)
    case Select(head) =>
      var s1 :- HeadChange(spec, s, head);
      SharedFinalize(spec, own, s1, head)
  }

  ghost function SharedRun(spec: Spec, own: Root, s: Store, actions: seq<Action>): Result<Store, Error>
    decreases |actions|
  {
    if actions == [] then Success(s)
    else
      var s1 :- SharedStep(spec, own, s, actions[0]);
      SharedRun(spec, own, s1, actions[1..])
  }

  lemma ShownAsStored(spec: Spec, h: History, s: Store, s': Store)
    requires Valid(spec, h, s) && Valid(spec, h, s') && SharingHarmless(h, s')
    requires s.latestFinalizedBid.slot <= s'.latestFinalizedBid.slot
    ensures h.anchor in h.blocks
    ensures PrunedStates(Shown(h.blocks[h.anchor].stateRoot, s.states, s'.finalizedCheckpointStates),
      s'.latestFinalizedBid.slot)
      == s'.states
  {
    assert h.anchor in h.blocks;
    hide Valid, SharingHarmless;
    var own, low := h.blocks[h.anchor].stateRoot, s'.latestFinalizedBid.slot;
    var shown := Shown(own, s.states, s'.finalizedCheckpointStates);
    StoredStates(spec, h, s);
    StoredStates(spec, h, s');
    hide PrunedStates, Shown;
    assert shown.Keys == s.states.Keys by {
      ShownKeys(own, s.states, s'.finalizedCheckpointStates);
    }
    forall q | q in s.states
      ensures q in h.states
      ensures (shown[q].slot >= low <==> h.states[q].slot >= low) && (shown[q].slot >= low ==> shown[q] == h.states[q])
    {
      StoredState(h.states, s.latestFinalizedBid.slot, q);
      ShownState(spec, h, s, s', q);
    }
    PrunedShown(shown, h.states, s.latestFinalizedBid.slot, low);
  }

  lemma ShownKeys(own: Root, states: map<Root, State>, saved: map<Root, State>)
    ensures Shown(own, states, saved).Keys == states.Keys
  {
  }

  lemma StoredState(states: map<Root, State>, low: nat, q: Root)
    requires q in PrunedStates(states, low)
    ensures q in states && PrunedStates(states, low)[q] == states[q]
  {
  }

  lemma PrunedShown(shown: map<Root, State>, states: map<Root, State>, low: nat, low': nat)
    requires low <= low' && shown.Keys == PrunedStates(states, low).Keys
    requires forall q :: q in shown ==> q in states
    requires forall q :: q in shown ==>
      (shown[q].slot >= low' <==> states[q].slot >= low') && (shown[q].slot >= low' ==> shown[q] == states[q])
    ensures PrunedStates(shown, low') == PrunedStates(states, low')
  {
    forall q | q in states && states[q].slot >= low' ensures q in shown {
      assert q in PrunedStates(states, low);
    }
  }

  lemma StoredStates(spec: Spec, h: History, s: Store)
    requires Valid(spec, h, s)
    ensures s.states == PrunedStates(h.states, s.latestFinalizedBid.slot)
  {
  }

  lemma ShownState(spec: Spec, h: History, s: Store, s': Store, q: Root)
    requires SharingHarmless(h, s') && q in s.states && q in h.states && s.states[q] == h.states[q]
    ensures
      var low := s'.latestFinalizedBid.slot;
      var state := Shown(h.blocks[h.anchor].stateRoot, s.states, s'.finalizedCheckpointStates)[q];
      (state.slot >= low <==> h.states[q].slot >= low) && (state.slot >= low ==> state == h.states[q])
  {
    assert q in s'.finalizedCheckpointStates && q != h.blocks[h.anchor].stateRoot ==> Harmless(h, s', q);
  }

  lemma SharedActionIsAction(spec: Spec, h: History, s: Store, a: Action)
    requires Valid(spec, h, s) && SharingHarmless(h, s) && Allowed(spec, h, s, a)
    ensures h.anchor in h.blocks
    ensures SharedStep(spec, h.blocks[h.anchor].stateRoot, s, a) == Step(spec, s, a)
  {
    hide Valid, SharingHarmless, Finalize, HeadChange, Shown, PrunedStates;
    StepIsSafe(spec, h, s, a);
    ActionKeepsSharing(spec, h, s, a);
    ValidParts(spec, h, s);
    IndexIsValid(spec, h, s);
    if a.Select? {
      HeadChangeSafe(spec, h, s, a.head);
      var s1, s' := HeadChange(spec, s, a.head).value, Step(spec, s, a).value;
      FinalizeOnlyAdvances(spec, h, s1, a.head);
      ShownAsStored(spec, h, s1, s');
    }
  }

  /** Finalization never moves the newest finalized slot back. */
  lemma FinalizeOnlyAdvances(spec: Spec, h: History, s: Store, head: BlockID)
    requires Valid(spec, h, s) && CanSelect(h, s, head) && WellOrdered(s.blocks)
    requires head.root in h.blocks && h.blocks[head.root].stateRoot in h.states && FinalityRetained(h, s, head)
    ensures Finalize(spec, s, head).Success?
    ensures Finalize(spec, s, head).value.latestFinalizedBid.slot >= s.latestFinalizedBid.slot
  {
    hide Valid, ProcessFinalization;
    FinalizeExact(spec, h, s, head);
    HeadStateIsKnown(spec, h, s, head);
    if Advances(h, s, head) {
      FinalizeMovesLow(spec, h, s, head);
    }
  }

  /** With the saved states shared, every run does the same as with separate values. */
  lemma {:induction false} SharedRunIsRun(spec: Spec, h: History, s: Store, actions: seq<Action>)
    requires Valid(spec, h, s) && SharingHarmless(h, s) && AllowedRun(spec, h, s, actions)
    ensures h.anchor in h.blocks
    ensures SharedRun(spec, h.blocks[h.anchor].stateRoot, s, actions) == Run(spec, s, actions)
    decreases |actions|
  {
    ValidParts(spec, h, s);
    assert h.anchor in h.blocks;
    hide Step, SharedStep, Valid, SharingHarmless;
    if actions != [] {
      var a := actions[0];
      StepIsSafe(spec, h, s, a);
      ActionKeepsSharing(spec, h, s, a);
      SharedActionIsAction(spec, h, s, a);
      AnchorStays(spec, h, s, a);
      SharedRunIsRun(spec, Recorded(h, a), Step(spec, s, a).value, actions[1..]);
    }
  }

  lemma AnchorStays(spec: Spec, h: History, s: Store, a: Action)
    requires Valid(spec, h, s) && Allowed(spec, h, s, a)
    ensures h.anchor in h.blocks && Recorded(h, a).anchor == h.anchor
    ensures h.anchor in Recorded(h, a).blocks && Recorded(h, a).blocks[h.anchor] == h.blocks[h.anchor]
  {
    ValidParts(spec, h, s);
  }
}
