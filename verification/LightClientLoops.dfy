/** Facts that the loops of the light client data store rest on. */
module LightClientLoops {
  import opened Wrappers
  import opened Numbers
  import opened BlockTree
  import opened LightClientModel
  import opened LightClientTime
  import opened LightClientInvariant
  import opened LightClientHead
  import opened LightClientSegment
  import opened LightClientFinalize

  // ---------------------------------------------------------------- committing best updates

  /** The entries from `period` on are those after the head change, the others as before. */
  ghost predicate Committed(spec: Spec, s: Store, head: BlockID, entries: map<nat, Update>, period: nat)
    requires WellOrdered(s.blocks)
  {
    forall p: nat :: EntryOf(entries, p) ==
      if p >= period then EntryAfter(spec, s, head, p) else EntryOf(s.db.bestUpdates, p)
  }

  /** Below `period`, walking on from `bid` is walking from the head. */
  ghost predicate SameWalk(spec: Spec, m: Blocks, bid: Root, head: Root, period: nat)
    requires WellOrdered(m)
  {
    forall p: nat :: p < period ==> AncestorAt(m, bid, EndSlot(spec, p)) == AncestorAt(m, head, EndSlot(spec, p))
  }

  lemma OutsideRange(spec: Spec, s: Store, head: BlockID)
    requires WellOrdered(s.blocks)
    ensures Committed(spec, s, head, s.db.bestUpdates, spec.PeriodAt(head.slot) + 1)
    ensures forall p: nat :: p < spec.PeriodAt(LowSlot(s)) ==>
              EntryAfter(spec, s, head, p) == EntryOf(s.db.bestUpdates, p)
  {
  }

  lemma CommitStep(spec: Spec, s: Store, head: BlockID, before: map<nat, Update>, after: map<nat, Update>, period: nat)
    requires WellOrdered(s.blocks) && Committed(spec, s, head, before, period + 1)
    requires EntryAfter(spec, s, head, period).None? ==> after == before - {period}
    requires EntryAfter(spec, s, head, period).Some? ==>
      after == before[period := EntryAfter(spec, s, head, period).value]
    ensures Committed(spec, s, head, after, period)
  {
    hide EntryAfter;
    forall p: nat
      ensures EntryOf(after, p) == if p >= period then EntryAfter(spec, s, head, p) else EntryOf(s.db.bestUpdates, p)
    {
      if p != period {
        assert EntryOf(after, p) == EntryOf(before, p);
      }
    }
  }

  lemma WalkFromAncestor(spec: Spec, m: Blocks, bid: Root, head: Root, period: nat)
    requires WellOrdered(m) && SameWalk(spec, m, bid, head, period + 1)
    requires AncestorAt(m, bid, EndSlot(spec, period)).Some?
    ensures SameWalk(spec, m, AncestorAt(m, bid, EndSlot(spec, period)).value.root, head, period)
  {
    var a := AncestorAt(m, bid, EndSlot(spec, period)).value;
    forall p: nat | p < period
      ensures AncestorAt(m, a.root, EndSlot(spec, p)) == AncestorAt(m, head, EndSlot(spec, p))
    {
      EndSlotMonotone(spec, p, period);
      AncestorCompose(m, head, EndSlot(spec, period), EndSlot(spec, p));
    }
  }

  lemma EntryOfCommitted(spec: Spec, h: History, s: Store, head: BlockID, period: nat)
    requires Readable(spec, h, s) && WellOrdered(s.blocks)
    requires spec.PeriodAt(LowSlot(s)) <= period <= spec.PeriodAt(head.slot)
    requires var a := AncestorAt(s.blocks, head.root, EndSlot(spec, period));
             a.Some? && a.value.slot >= LowSlot(s)
    ensures var bid := AncestorAt(s.blocks, head.root, EndSlot(spec, period)).value.Id();
            bid in s.cache.data && EntryAfter(spec, s, head, period) == Enough(spec, s.cache.data[bid].best)
  {
    RetainedWalk(h, s, head.root, EndSlot(spec, period));
    CachedAbove(spec, h, s, AncestorAt(s.blocks, head.root, EndSlot(spec, period)).value.root);
  }

  lemma EndSlotMonotone(spec: Spec, p: nat, q: nat)
    requires p <= q
    ensures EndSlot(spec, p) <= EndSlot(spec, q)
  {
    PeriodEnd(spec, EndSlot(spec, p), p);
    PeriodEnd(spec, EndSlot(spec, p), q);
  }

  /** Once an ancestor is missing or too old, those of earlier periods are too. */
  lemma NoCommitBelow(spec: Spec, s: Store, head: BlockID, period: nat, p: nat)
    requires WellOrdered(s.blocks) && p <= period
    requires var a := AncestorAt(s.blocks, head.root, EndSlot(spec, period));
             a.None? || a.value.slot < LowSlot(s)
    ensures !Commits(spec, s, head, p)
  {
    EndSlotMonotone(spec, p, period);
    AncestorCompose(s.blocks, head.root, EndSlot(spec, period), EndSlot(spec, p));
    var a := AncestorAt(s.blocks, head.root, EndSlot(spec, period));
    if a.Some? && AncestorAt(s.blocks, a.value.root, EndSlot(spec, p)).Some? {
      AncestorIsStored(s.blocks, head.root, EndSlot(spec, period));
      AncestorIsStored(s.blocks, a.value.root, EndSlot(spec, p));
    }
  }

  lemma NoneLeft(spec: Spec, s: Store, head: BlockID, entries: map<nat, Update>, period: nat)
    requires WellOrdered(s.blocks) && Committed(spec, s, head, entries, period + 1)
    requires var a := AncestorAt(s.blocks, head.root, EndSlot(spec, period));
             a.None? || a.value.slot < LowSlot(s)
    ensures Committed(spec, s, head, entries, 0)
  {
    forall p: nat ensures EntryOf(entries, p) == EntryAfter(spec, s, head, p) {
      if p <= period {
        NoCommitBelow(spec, s, head, period, p);
      }
    }
  }

  lemma SameEntries(spec: Spec, s: Store, head: BlockID, entries: map<nat, Update>)
    requires WellOrdered(s.blocks)
    requires forall p: nat :: EntryOf(entries, p) == EntryAfter(spec, s, head, p)
    ensures entries == BestUpdatesAfter(spec, s, head)
  {
    var after := BestUpdatesAfter(spec, s, head);
    forall p: nat ensures EntryOf(after, p) == EntryOf(entries, p) {
      BestUpdatesEntry(spec, s, head, p);
    }
    forall p: nat ensures p in entries <==> p in after ensures p in entries ==> entries[p] == after[p] {
      assert EntryOf(after, p) == EntryOf(entries, p);
    }
  }

  lemma HeadIsCached(spec: Spec, h: History, s: Store, head: BlockID)
    requires Valid(spec, h, s) && HeadRetained(h, s, head) && head.slot >= s.cache.tailSlot
    ensures head in s.cache.data
    ensures Readable(spec, h, s)
  {
    CachedAbove(spec, h, s, head.root);
  }

  /** Reading cached data does not depend on the served updates. */
  lemma ReadableFrame(spec: Spec, h: History, s: Store, best: map<nat, Update>)
    requires Readable(spec, h, s)
    ensures Readable(spec, h, s.(db := s.db.(bestUpdates := best)))
  {
    var s' := s.(db := s.db.(bestUpdates := best));
    forall r | r in h.blocks ensures h.blocks[r].Id() in s'.cache.data <==> Cached(s', h, r) {
      assert Cached(s', h, r) == Cached(s, h, r);
    }
    forall bid | bid in s'.cache.data ensures ValidCacheEntry(spec, h, s', bid) {
      assert ValidCacheEntry(spec, h, s, bid);
    }
  }

  lemma LatestFrame(s: Store, best: map<nat, Update>, head: BlockID)
    requires WellOrdered(s.blocks)
    ensures LatestAfter(s.(db := s.db.(bestUpdates := best)), head) == LatestAfter(s, head)
    ensures LowSlot(s.(db := s.db.(bestUpdates := best))) == LowSlot(s)
  {
  }

  // ---------------------------------------------------------------- hopping over epoch boundaries

  /** The next hop down from `boundary` lands on position `n` of the walk. */
  ghost predicate NextHop(spec: Spec, seg: seq<Block>, n: nat, boundary: nat) {
    && n <= |seg| && Descending(seg)
    && (n < |seg| ==> IsTop(spec, seg, n) && seg[n].slot <= boundary)
    && forall i :: 0 <= i < n ==> seg[i].slot > boundary
  }

  /** From position `n` on, no block of the walk is served. */
  ghost predicate Unserved(seg: seq<Block>, n: nat, tail: nat) {
    forall i :: n <= i < |seg| ==> seg[i].slot < tail
  }

  /** The first window top after position `n`. */
  function NextTop(spec: Spec, seg: seq<Block>, n: nat): (next: nat)
    requires n < |seg|
    ensures n < next <= |seg|
    ensures forall i :: n < i < next ==> !IsTop(spec, seg, i)
    ensures next < |seg| ==> IsTop(spec, seg, next)
    decreases |seg| - n
  {
    if n + 1 == |seg| || IsTop(spec, seg, n + 1) then n + 1 else NextTop(spec, seg, n + 1)
  }

  lemma StartOfHops(spec: Spec, h: History, s: Store, w: Store, f: Root)
    requires ValidHistory(spec, h) && Bootstrapping(spec, h, s, w, f)
    requires f in h.blocks && h.blocks[f].slot > s.latestFinalizedBid.slot
    ensures var seg := Segment(h.blocks, f, s.latestFinalizedBid.slot);
            NextHop(spec, seg, 0, h.blocks[f].slot)
    ensures w.cache.tailSlot == s.cache.tailSlot
  {
    SegmentDescends(h.blocks, f, s.latestFinalizedBid.slot);
  }

  /** The search for the newest finalized block lands where the walk says. */
  lemma HopFinds(spec: Spec, h: History, s: Store, w: Store, f: Root, seg: seq<Block>, n: nat, boundary: nat)
    requires ValidHistory(spec, h) && Bootstrapping(spec, h, s, w, f)
    requires seg == Segment(h.blocks, f, s.latestFinalizedBid.slot) && NextHop(spec, seg, n, boundary)
    ensures match BlockIdAtFinalizedSlot(w, boundary)
            case Some(bid) => if n < |seg| then bid == seg[n].Id() else bid.slot <= s.latestFinalizedBid.slot
            case None => Unserved(seg, n, s.cache.tailSlot)
    ensures n < |seg| ==> seg[n].slot > s.latestFinalizedBid.slot
    ensures n < |seg| && seg[n].slot < s.cache.tailSlot ==> Unserved(seg, n, s.cache.tailSlot)
  {
    hide Bootstrapping, ValidHistory, IndexOf, Segment, BlockIdAtFinalizedSlot;
    IndexWhileBootstrapping(spec, h, s, w, f);
    SegmentIndexed(h.blocks, w.finalizedBlockRoots, f, s.latestFinalizedBid.slot);
    SearchFindsHighest(w, boundary);
    SearchLands(spec, w, s.latestFinalizedBid.slot, s.cache.tailSlot, seg, n, boundary);
  }

  /** The highest indexed slot in range is that of the next top. */
  lemma SearchLands(spec: Spec, w: Store, low: nat, tail: nat, seg: seq<Block>, n: nat, boundary: nat)
    requires NextHop(spec, seg, n, boundary) && w.historicalTailSlot <= tail
    requires forall i :: 0 <= i < |seg| ==>
      seg[i].slot > low && seg[i].slot in w.finalizedBlockRoots && w.finalizedBlockRoots[seg[i].slot] == seg[i].root
    requires forall k :: k in w.finalizedBlockRoots && k > low ==> exists i :: 0 <= i < |seg| && seg[i].slot == k
    ensures match BlockIdAtFinalizedSlot(w, boundary)
            case Some(bid) => if n < |seg| then bid == seg[n].Id() else bid.slot <= low
            case None => Unserved(seg, n, tail)
    ensures n < |seg| && seg[n].slot < tail ==> Unserved(seg, n, tail)
  {
    SearchFindsHighest(w, boundary);
    hide BlockIdAtFinalizedSlot, IsTop;
    match BlockIdAtFinalizedSlot(w, boundary)
    case Some(bid) =>
      if n < |seg| {
        assert bid.slot >= seg[n].slot;
        var i :| 0 <= i < |seg| && seg[i].slot == bid.slot;
        assert i == n;
      }
    case None =>
  }

  /** The index above slot `low` is that of the walk. */
  lemma SegmentIndexed(m: Blocks, roots: map<nat, Root>, f: Root, low: nat)
    requires WellOrdered(m) && IndexOf(m, roots, f)
    ensures
      var seg := Segment(m, f, low);
      && (forall i :: 0 <= i < |seg| ==> seg[i].slot > low && seg[i].slot in roots && roots[seg[i].slot] == seg[i].root)
      && (forall k :: k in roots && k > low ==> exists i :: 0 <= i < |seg| && seg[i].slot == k)
  {
    var seg := Segment(m, f, low);
    SegmentDescends(m, f, low);
    forall i | 0 <= i < |seg| ensures seg[i].slot > low && seg[i].slot in roots && roots[seg[i].slot] == seg[i].root {
      assert Visited(m, seg[i], f, low);
    }
    forall k | k in roots && k > low ensures exists i :: 0 <= i < |seg| && seg[i].slot == k {
      var i := SegmentCovers(m, f, low, roots[k]);
    }
  }

  /** The same, as the loop sees it: either it lands on a block to serve, or there is none left. */
  lemma HopLands(spec: Spec, h: History, s: Store, w: Store, f: Root, seg: seq<Block>, n: nat, boundary: nat)
    requires ValidHistory(spec, h) && Bootstrapping(spec, h, s, w, f)
    requires seg == Segment(h.blocks, f, s.latestFinalizedBid.slot) && NextHop(spec, seg, n, boundary)
    ensures var bid := BlockIdAtFinalizedSlot(w, boundary);
            if bid.None? || bid.value.slot < Max(s.latestFinalizedBid.slot + 1, s.cache.tailSlot)
            then Unserved(seg, n, s.cache.tailSlot)
            else n < |seg| && bid.value == seg[n].Id() && seg[n].slot >= s.cache.tailSlot
    ensures BlockIdAtFinalizedSlot(w, boundary).Some? ==> BlockIdAtFinalizedSlot(w, boundary).value.slot <= boundary
  {
    SearchFindsHighest(w, boundary);
    HopFinds(spec, h, s, w, f, seg, n, boundary);
  }

  /** Between two tops nothing is served. */
  lemma {:induction false} SkipToTop(spec: Spec, w: Store, seg: seq<Block>, n: nat, next: nat)
    requires n < next <= |seg|
    requires forall i :: n < i < next ==> !IsTop(spec, seg, i)
    ensures BootstrapTops(spec, w, seg, next) == BootstrapTops(spec, w, seg, n + 1)
    decreases next
  {
    hide CreateLcBootstrap;
    if next > n + 1 {
      SkipToTop(spec, w, seg, n, next - 1);
    }
  }

  lemma NoBootstrapYet(spec: Spec, w: Store, seg: seq<Block>)
    ensures BootstrapTops(spec, w, seg, 0) == Success(w)
  {
  }

  /** Nothing is served below the tail. */
  lemma {:induction false} FinishHops(spec: Spec, w: Store, seg: seq<Block>, n: nat, last: nat)
    requires n <= last <= |seg| && Unserved(seg, n, w.cache.tailSlot)
    ensures BootstrapTops(spec, w, seg, last) == BootstrapTops(spec, w, seg, n)
    decreases last
  {
    hide CreateLcBootstrap;
    if last > n {
      FinishHops(spec, w, seg, n, last - 1);
    }
  }

  /** From a block to the boundary an epoch before its own: strictly down, unless at genesis. */
  lemma HopShrinks(spec: Spec, slot: nat)
    ensures spec.NextEpochBoundarySlot(slot) >= spec.slotsPerEpoch ==>
              && spec.Window(slot) > 0
              && spec.NextEpochBoundarySlot(slot) - spec.slotsPerEpoch == spec.EpochStart(spec.Window(slot) - 1)
              && spec.NextEpochBoundarySlot(slot) - spec.slotsPerEpoch < slot
    ensures spec.NextEpochBoundarySlot(slot) < spec.slotsPerEpoch ==> slot == 0
  {
    var w := spec.Window(slot);
    WindowEnd(spec, slot, w);
    assert w == 0 ==> spec.EpochStart(w) == 0;
    if w > 0 {
      WindowEnd(spec, slot, w - 1);
      assert w * spec.slotsPerEpoch == (w - 1) * spec.slotsPerEpoch + spec.slotsPerEpoch;
    }
  }

  /** After serving position `n`, the next hop lands on the next top. */
  lemma HopGoesOn(spec: Spec, seg: seq<Block>, n: nat, boundary: nat)
    requires n < |seg| && NextHop(spec, seg, n, boundary) && spec.Window(seg[n].slot) > 0
    ensures NextHop(spec, seg, NextTop(spec, seg, n), spec.EpochStart(spec.Window(seg[n].slot) - 1))
  {
    var next, epoch := NextTop(spec, seg, n), spec.Window(seg[n].slot) - 1;
    SameWindow(spec, seg, n, next - 1);
    forall i | 0 <= i < next ensures seg[i].slot > spec.EpochStart(epoch) {
      WindowMonotone(spec, seg[next - 1].slot, seg[i].slot);
      WindowEnd(spec, seg[i].slot, epoch);
    }
    if next < |seg| {
      WindowMonotone(spec, seg[next].slot, seg[next - 1].slot);
      WindowEnd(spec, seg[next].slot, epoch);
    }
  }

  lemma {:induction false} SameWindow(spec: Spec, seg: seq<Block>, n: nat, last: nat)
    requires n <= last < |seg|
    requires forall i :: n < i <= last ==> !IsTop(spec, seg, i)
    ensures spec.Window(seg[last].slot) == spec.Window(seg[n].slot)
    decreases last
  {
    if last > n {
      assert !IsTop(spec, seg, last);
      SameWindow(spec, seg, n, last - 1);
    }
  }

  /** Serving position `n` and going on to the next top. */
  lemma HopStep(spec: Spec, h: History, s: Store, w: Store, v: Store, f: Root, seg: seq<Block>, n: nat, boundary: nat)
    requires ValidHistory(spec, h) && Bootstrapping(spec, h, s, v, f)
    requires seg == Segment(h.blocks, f, s.latestFinalizedBid.slot)
    requires NextHop(spec, seg, n, boundary) && n < |seg| && w.cache.tailSlot == s.cache.tailSlot
    requires BootstrapTops(spec, w, seg, n) == Success(v)
    requires seg[n].slot >= s.cache.tailSlot && spec.Window(seg[n].slot) > 0
    ensures var r := CreateLcBootstrap(spec, v, seg[n].Id());
            && r.Success? && Bootstrapping(spec, h, s, r.value, f)
            && BootstrapTops(spec, w, seg, NextTop(spec, seg, n)) == r
    ensures NextHop(spec, seg, NextTop(spec, seg, n), spec.EpochStart(spec.Window(seg[n].slot) - 1))
  {
    hide CreateLcBootstrap, Bootstrapping;
    BootstrapTopsStep(spec, h, s, w, f, seg, n + 1);
    SkipToTop(spec, w, seg, n, NextTop(spec, seg, n));
    HopGoesOn(spec, seg, n, boundary);
  }

  /** The hops end with nothing left to serve. */
  lemma HopsEnd(spec: Spec, h: History, s: Store, f: Root, seg: seq<Block>, n: nat, boundary: nat)
    requires WellOrdered(h.blocks) && seg == Segment(h.blocks, f, s.latestFinalizedBid.slot)
    requires NextHop(spec, seg, n, boundary)
    requires boundary < Max(s.latestFinalizedBid.slot + 1, s.cache.tailSlot)
    ensures Unserved(seg, n, s.cache.tailSlot)
  {
    SegmentDescends(h.blocks, f, s.latestFinalizedBid.slot);
    if n < |seg| {
      assert Visited(h.blocks, seg[n], f, s.latestFinalizedBid.slot);
    }
  }

  // ---------------------------------------------------------------- walking back

  /** One step of the backward walk. */
  lemma WalkUnrolls(m: Blocks, r: Root, low: nat)
    requires WellOrdered(m) && r in m && m[r].slot > low && AncestorAt(m, r, low).Some?
    ensures m[r].parentRoot in m && m[m[r].parentRoot].slot < m[r].slot
    ensures m[m[r].parentRoot].root == m[r].parentRoot
    ensures AncestorAt(m, m[r].parentRoot, low).Some?
    ensures Segment(m, r, low) == [m[r]] + Segment(m, m[r].parentRoot, low)
  {
    assert OlderParent(m, r);
  }

  /** One more block recorded. */
  lemma RecordStep(
    spec: Spec, roots: map<nat, Root>, saved: map<Root, State>, states: map<Root, State>, seg: seq<Block>,
    n: nat)
    requires n < |seg| && TopsKnown(spec, states, seg)
    ensures IndexAll(roots, seg, n + 1) == IndexAll(roots, seg, n)[seg[n].slot := seg[n].root]
    ensures IsTop(spec, seg, n) ==> seg[n].stateRoot in states
    ensures SaveTops(spec, saved, states, seg, n + 1)
         == if IsTop(spec, seg, n)
           then SaveTops(spec, saved, states, seg, n)[seg[n].stateRoot := states[seg[n].stateRoot]]
            else SaveTops(spec, saved, states, seg, n)
    ensures IsTop(spec, seg, n)
      <==> (if n == 0 then None else Some(spec.Window(seg[n - 1].slot))) != Some(spec.Window(seg[n].slot))
  {
  }

  lemma NothingRecorded(
    spec: Spec, roots: map<nat, Root>, saved: map<Root, State>, states: map<Root, State>, seg: seq<Block>)
    requires TopsKnown(spec, states, seg)
    ensures IndexAll(roots, seg, 0) == roots && SaveTops(spec, saved, states, seg, 0) == saved
  {
  }

  lemma WalkEnds(m: Blocks, r: Root, low: nat)
    requires WellOrdered(m) && r in m && m[r].slot <= low
    ensures Segment(m, r, low) == []
  {
  }

  lemma IndexedTip(spec: Spec, h: History, s: Store)
    requires Valid(spec, h, s)
    ensures s.latestFinalizedBid.slot in s.finalizedBlockRoots
  {
  }

  lemma ReadyHistory(spec: Spec, h: History, s: Store)
    requires Valid(spec, h, s)
    ensures ValidHistory(spec, h)
  {
  }
}
