/** Changing the head: the committed best updates and the latest finality update are what a
    scan of the head's own chain gives. */
module LightClientHead {
  import opened Wrappers
  import opened BlockTree
  import opened LightClientModel
  import opened LightClientTime
  import opened LightClientInvariant

  /** The part of the invariant that reading cached data needs. */
  ghost predicate Readable(spec: Spec, h: History, s: Store) {
    && ValidHistory(spec, h)
    && s.blocks == Pruned(h.blocks, s.latestFinalizedBid.slot)
    && ValidCache(spec, h, s)
  }

  ghost predicate Retained(h: History, s: Store) {
    WellOrdered(h.blocks) && s.blocks == Pruned(h.blocks, s.latestFinalizedBid.slot)
  }

  /** A walk over the retained blocks finds the true ancestor unless it has been pruned. */
  lemma RetainedWalk(h: History, s: Store, r: Root, slot: nat)
    requires Retained(h, s)
    ensures WellOrdered(s.blocks)
    ensures AncestorAt(s.blocks, r, slot) ==
            match AncestorAt(h.blocks, r, slot)
            case Some(a) => if a.slot >= s.latestFinalizedBid.slot then Some(a) else None
            case None => None
    ensures AncestorAt(h.blocks, r, slot).Some? ==>
              var a := AncestorAt(h.blocks, r, slot).value;
              a.root in h.blocks && h.blocks[a.root] == a && a.slot <= slot
  {
    AncestorAfterPruning(h.blocks, s.latestFinalizedBid.slot, r, slot);
    if AncestorAt(h.blocks, r, slot).Some? {
      AncestorIsStored(h.blocks, r, slot);
    }
  }

  /** Every block at or above the low slot has valid cached data. */
  lemma CachedAbove(spec: Spec, h: History, s: Store, r: Root)
    requires Readable(spec, h, s)
    requires r in h.blocks && h.blocks[r].slot >= LowSlot(s)
    ensures h.blocks[r].Id() in s.cache.data
    ensures ValidCacheEntry(spec, h, s, h.blocks[r].Id())
  {
    assert Cached(s, h, r);
  }

  lemma BestReadsAreCached(spec: Spec, h: History, s: Store, head: BlockID)
    requires Readable(spec, h, s) && WellOrdered(s.blocks)
    ensures BestReadsCached(spec, s, head)
  {
    forall p: nat | Commits(spec, s, head, p)
      ensures PeriodEndAncestor(spec, s.blocks, head.root, p).value.Id() in s.cache.data
    {
      PeriodEnd(spec, 0, p);
      RetainedWalk(h, s, head.root, spec.PeriodStart(p + 1) - 1);
      CachedAbove(spec, h, s, PeriodEndAncestor(spec, s.blocks, head.root, p).value.root);
    }
  }

  /** The newest signing block of a chain, if the update it signs may be served. */
  ghost predicate NewestServed(spec: Spec, s: Store, m: Blocks, x: Root, r: Root)
    requires WellOrdered(m)
  {
    && Signs(spec, s.cache.tailSlot, m, x, r)
    && m[m[x].parentRoot].slot >= LowSlot(s)
    && forall y :: Signs(spec, s.cache.tailSlot, m, y, r) ==> m[y].slot <= m[x].slot
  }

  /** The case where some block of the head's chain has signed above the low slot. */
  lemma LatestOfSigner(spec: Spec, h: History, s: Store, head: BlockID, x: Root)
    requires Readable(spec, h, s) && WellOrdered(s.blocks)
    requires head in s.cache.data
    requires Signs(spec, s.cache.tailSlot, h.blocks, x, head.root)
    requires h.blocks[x].slot == s.cache.data[head].latestSignatureSlot > LowSlot(s)
    ensures LatestAfter(s, head) ==
            Success(if h.blocks[h.blocks[x].parentRoot].slot >= LowSlot(s)
              then Some(UpdateSignedBy(h.blocks, x)) else None)
  {
    var m := h.blocks;
    RetainedWalk(h, s, head.root, m[x].slot);
    assert AncestorAt(s.blocks, head.root, m[x].slot) == Some(m[x]);
    ParentIsAncestor(m, x);
    RetainedWalk(h, s, x, m[x].slot - 1);
    if m[m[x].parentRoot].slot >= LowSlot(s) {
      CachedAbove(spec, h, s, m[x].parentRoot);
    }
  }

  /** `latest` is the update signed by the newest signing block of the head's chain whose
      attested block is at or after the low slot, and is empty exactly when there is none. */
  lemma LatestIsNewest(spec: Spec, h: History, s: Store, head: BlockID)
    requires Readable(spec, h, s) && WellOrdered(s.blocks)
    requires head.root in h.blocks && head == h.blocks[head.root].Id() && head.slot >= LowSlot(s)
    ensures LatestAfter(s, head).Success?
    ensures match LatestAfter(s, head).value
            case None => forall x :: !NewestServed(spec, s, h.blocks, x, head.root)
            case Some(u) => exists x :: NewestServed(spec, s, h.blocks, x, head.root)
                              && h.blocks[x].slot > LowSlot(s) && u == UpdateSignedBy(h.blocks, x)
  {
    var m, low, r := h.blocks, LowSlot(s), head.root;
    CachedAbove(spec, h, s, r);
    var signatureSlot := s.cache.data[head].latestSignatureSlot;
    forall y: Root | Signs(spec, s.cache.tailSlot, m, y, r) && m[m[y].parentRoot].slot >= low
      ensures low < m[y].slot <= signatureSlot
    {
      assert OlderParent(m, y);
    }
    if signatureSlot > low {
      var x :| Signs(spec, s.cache.tailSlot, m, x, r) && m[x].slot == signatureSlot;
      LatestOfSigner(spec, h, s, head, x);
      if m[m[x].parentRoot].slot >= low {
        assert NewestServed(spec, s, m, x, r);
      } else {
        forall y | Signs(spec, s.cache.tailSlot, m, y, r) && m[y].slot == m[x].slot ensures y == x {
          SameSlotSameBlock(m, x, y, r);
        }
      }
    }
  }

  lemma ParentIsAncestor(m: Blocks, x: Root)
    requires WellOrdered(m) && x in m && m[x].parentRoot in m
    ensures m[x].slot > 0
    ensures AncestorAt(m, x, m[x].slot - 1) == Some(m[m[x].parentRoot])
  {
    assert OlderParent(m, x);
  }

  lemma SameSlotSameBlock(m: Blocks, x: Root, y: Root, r: Root)
    requires WellOrdered(m) && OnChain(m, x, r) && OnChain(m, y, r) && m[x].slot == m[y].slot
    ensures x == y
  {
    OnChainLinear(m, x, y, r);
    OnChainSlot(m, x, y);
  }

  /** The part of the store a head change leaves alone carries the whole invariant. */
  lemma ServedDataIsFree(spec: Spec, h: History, s: Store, latest: Option<Update>, best: map<nat, Update>)
    requires Valid(spec, h, s)
    ensures Valid(spec, h, s.(cache := s.cache.(latest := latest), db := s.db.(bestUpdates := best)))
  {
    var s' := s.(cache := s.cache.(latest := latest), db := s.db.(bestUpdates := best));
    forall r | r in h.blocks ensures h.blocks[r].Id() in s'.cache.data <==> Cached(s', h, r) {
      assert Cached(s', h, r) == Cached(s, h, r);
    }
    forall bid | bid in s'.cache.data ensures ValidCacheEntry(spec, h, s', bid) {
      assert ValidCacheEntry(spec, h, s, bid);
    }
    forall r | r in s'.db.headers ensures ValidHeader(spec, h, s', r, Tip(s')) {
      assert ValidHeader(spec, h, s, r, Tip(s));
    }
  }

  /** A head change never raises and keeps the invariant. */
  lemma HeadChangeSafe(spec: Spec, h: History, s: Store, head: BlockID)
    requires Valid(spec, h, s) && HeadRetained(h, s, head) && WellOrdered(s.blocks)
    ensures HeadChange(spec, s, head).Success?
    ensures Valid(spec, h, HeadChange(spec, s, head).value)
    ensures var s' := HeadChange(spec, s, head).value;
            s' == s.(cache := s.cache.(latest := s'.cache.latest), db := s.db.(bestUpdates := s'.db.bestUpdates))
  {
    if head.slot >= s.cache.tailSlot {
      BestReadsAreCached(spec, h, s, head);
      LatestIsNewest(spec, h, s, head);
      ServedDataIsFree(spec, h, s, LatestAfter(s, head).value, BestUpdatesAfter(spec, s, head));
    }
  }

  // ---------------------------------------------------------------- best updates

  /** The period-end ancestor of the head on the full history, when it is recent enough. */
  ghost predicate CommitsOnChain(spec: Spec, h: History, s: Store, head: BlockID, period: nat)
    requires WellOrdered(h.blocks)
  {
    && spec.PeriodAt(LowSlot(s)) <= period <= spec.PeriodAt(head.slot)
    && var a := PeriodEndAncestor(spec, h.blocks, head.root, period);
       a.Some? && a.value.slot >= LowSlot(s)
  }

  lemma CommitsIsOnChain(spec: Spec, h: History, s: Store, head: BlockID, period: nat)
    requires Retained(h, s) && WellOrdered(s.blocks)
    ensures CommitsOnChain(spec, h, s, head, period) <==> Commits(spec, s, head, period)
    ensures Commits(spec, s, head, period) ==>
              var a := PeriodEndAncestor(spec, s.blocks, head.root, period);
              a == PeriodEndAncestor(spec, h.blocks, head.root, period)
              && a.value.root in h.blocks && h.blocks[a.value.root] == a.value
  {
    PeriodEnd(spec, 0, period);
    RetainedWalk(h, s, head.root, spec.PeriodStart(period + 1) - 1);
  }

  /** A committed period's entry is the brute-force best update of the head's period-end
      ancestor; other periods keep their entry. */
  lemma EntryIsChainBest(spec: Spec, h: History, s: Store, head: BlockID, period: nat)
    requires Readable(spec, h, s) && WellOrdered(s.blocks)
    ensures if CommitsOnChain(spec, h, s, head, period) then
              var a := PeriodEndAncestor(spec, h.blocks, head.root, period).value;
              a.root in h.blocks && IsBest(spec, s.cache.tailSlot, h.blocks, a.root, EntryAfter(spec, s, head, period))
            else
              EntryAfter(spec, s, head, period) ==
              if period in s.db.bestUpdates then Some(s.db.bestUpdates[period]) else None
  {
    CommitsIsOnChain(spec, h, s, head, period);
    if CommitsOnChain(spec, h, s, head, period) {
      var a := PeriodEndAncestor(spec, h.blocks, head.root, period).value;
      CachedAbove(spec, h, s, a.root);
      BestHasEnough(spec, s.cache.tailSlot, h.blocks, a.root, s.cache.data[a.Id()].best);
    }
  }

  /** The dictionary after a head change, entry by entry. */
  lemma BestUpdatesEntry(spec: Spec, s: Store, head: BlockID, period: nat)
    requires WellOrdered(s.blocks)
    ensures var after := BestUpdatesAfter(spec, s, head);
            EntryAfter(spec, s, head, period) == if period in after then Some(after[period]) else None
  {
  }

  lemma BestHasEnough(spec: Spec, tail: nat, m: Blocks, r: Root, best: Option<Update>)
    requires WellOrdered(m) && r in m && IsBest(spec, tail, m, r, best)
    ensures Enough(spec, best) == best
  {
    if best.Some? {
      var x :| EarliestMaximal(spec, tail, m, x, r) && best.value == UpdateSignedBy(m, x);
    }
  }

  /** Two stores of one growing history, with the same tail: a period that a head commits in
      both gets the same entry in both. What other heads were selected in between, and what
      blocks were added, does not matter. */
  lemma EntriesDependOnChainOnly(spec: Spec, h: History, s: Store, h': History, s': Store, head: BlockID, period: nat)
    requires Readable(spec, h, s) && WellOrdered(s.blocks)
    requires Readable(spec, h', s') && WellOrdered(s'.blocks)
    requires head.root in h.blocks
    requires Extends(h.blocks, h'.blocks, ZERO_ROOT) && s'.cache.tailSlot == s.cache.tailSlot
    requires CommitsOnChain(spec, h, s, head, period) && CommitsOnChain(spec, h', s', head, period)
    ensures EntryAfter(spec, s, head, period) == EntryAfter(spec, s', head, period)
  {
    var tail := s.cache.tailSlot;
    EntryIsChainBest(spec, h, s, head, period);
    EntryIsChainBest(spec, h', s', head, period);
    PeriodEnd(spec, 0, period);
    AncestorInExtension(h.blocks, h'.blocks, ZERO_ROOT, head.root, spec.PeriodStart(period + 1) - 1);
    var a := PeriodEndAncestor(spec, h.blocks, head.root, period).value;
    BestInExtension(spec, tail, h.blocks, h'.blocks, a.root, EntryAfter(spec, s, head, period));
    BestIsUnique(spec, tail, h'.blocks, a.root, EntryAfter(spec, s, head, period), EntryAfter(spec, s', head, period));
  }
}
