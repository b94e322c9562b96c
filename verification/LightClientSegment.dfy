/** The backward walk from a new finalized block: what it visits, indexes and saves. */
module LightClientSegment {
  import opened BlockTree
  import opened LightClientModel
  import opened LightClientTime
  import opened LightClientInvariant

  ghost predicate Visited(m: Blocks, b: Block, r: Root, low: nat)
    requires WellOrdered(m)
  {
    b.root in m && m[b.root] == b && OnChain(m, b.root, r) && b.slot > low
  }

  ghost predicate Descending(seg: seq<Block>) {
    forall i, j :: 0 <= i < j < |seg| ==> seg[i].slot > seg[j].slot
  }

  /** The visited blocks lie on the chain, above the low slot, in descending slot order. */
  lemma {:induction false} SegmentDescends(m: Blocks, r: Root, low: nat)
    requires WellOrdered(m)
    ensures forall i :: 0 <= i < |Segment(m, r, low)| ==> Visited(m, Segment(m, r, low)[i], r, low)
    ensures Descending(Segment(m, r, low))
    decreases if r in m then m[r].slot + 1 else 0
  {
    if r in m && m[r].slot > low {
      assert OlderParent(m, r);
      var p := m[r].parentRoot;
      var rest := Segment(m, p, low);
      SegmentDescends(m, p, low);
      OnChainSelf(m, r);
      forall i | 0 <= i < |rest| ensures Visited(m, rest[i], r, low) && rest[i].slot < m[r].slot {
        assert Visited(m, rest[i], p, low);
        OnChainStep(m, rest[i].root, r);
        OnChainSlot(m, rest[i].root, p);
      }
    }
  }

  /** No block of the chain above the low slot is missed. */
  lemma {:induction false} SegmentCovers(m: Blocks, r: Root, low: nat, x: Root) returns (i: nat)
    requires WellOrdered(m) && OnChain(m, x, r) && m[x].slot > low
    ensures i < |Segment(m, r, low)| && Segment(m, r, low)[i] == m[x]
    decreases if r in m then m[r].slot + 1 else 0
  {
    OnChainSlot(m, x, r);
    OnChainStep(m, x, r);
    if x == r {
      i := 0;
    } else {
      assert OlderParent(m, r);
      i := SegmentCovers(m, m[r].parentRoot, low, x);
      i := i + 1;
    }
  }

  /** Pruning at or below the low slot hides nothing from the walk. */
  lemma {:induction false} SegmentAfterPruning(m: Blocks, cut: nat, r: Root, low: nat)
    requires WellOrdered(m) && WellOrdered(Pruned(m, cut)) && cut <= low
    ensures Segment(Pruned(m, cut), r, low) == Segment(m, r, low)
    decreases if r in m then m[r].slot + 1 else 0
  {
    if r in m && m[r].slot > low {
      assert OlderParent(m, r);
      SegmentAfterPruning(m, cut, m[r].parentRoot, low);
    }
  }

  /** What the walk adds to the index of finalized blocks. */
  lemma IndexAllEntries(roots: map<nat, Root>, seg: seq<Block>, n: nat)
    requires n <= |seg| && Descending(seg)
    ensures var all := IndexAll(roots, seg, n);
            && (forall k :: k in all <==> k in roots || exists i :: 0 <= i < n && seg[i].slot == k)
            && (forall i :: 0 <= i < n ==> all[seg[i].slot] == seg[i].root)
            && (forall k :: k in roots && (forall i :: 0 <= i < n ==> seg[i].slot != k) ==> all[k] == roots[k])
  {
    forall k ensures IndexEntry(roots, seg, n, k) {
      IndexAllEntry(roots, seg, n, k);
    }
    var all := IndexAll(roots, seg, n);
    forall i | 0 <= i < n ensures seg[i].slot in all && all[seg[i].slot] == seg[i].root {
      assert IndexEntry(roots, seg, n, seg[i].slot);
    }
    hide IndexAll;
  }

  /** The entry for one slot. */
  ghost predicate IndexEntry(roots: map<nat, Root>, seg: seq<Block>, n: nat, k: nat)
    requires n <= |seg|
  {
    var all := IndexAll(roots, seg, n);
    && (forall i :: 0 <= i < n && seg[i].slot == k ==> k in all && all[k] == seg[i].root)
    && ((forall i :: 0 <= i < n ==> seg[i].slot != k) ==>
      (k in all <==> k in roots) && (k in roots ==> all[k] == roots[k]))
  }

  lemma {:induction false} IndexAllEntry(roots: map<nat, Root>, seg: seq<Block>, n: nat, k: nat)
    requires n <= |seg| && Descending(seg)
    ensures IndexEntry(roots, seg, n, k)
  {
    if n > 0 {
      IndexAllEntry(roots, seg, n - 1, k);
    }
  }

  /** What the walk saves: one state per window top. */
  lemma {:induction false} SaveTopsEntries(
    spec: Spec, saved: map<Root, State>, states: map<Root, State>, seg: seq<Block>, n: nat)
    requires n <= |seg| && TopsKnown(spec, states, seg)
    ensures var all := SaveTops(spec, saved, states, seg, n);
            && (forall q :: q in all <==>
                 q in saved || exists i :: 0 <= i < n && IsTop(spec, seg, i) && seg[i].stateRoot == q)
            && (forall q :: q in all ==> (q in saved && all[q] == saved[q]) || (q in states && all[q] == states[q]))
  {
    if n > 0 {
      SaveTopsEntries(spec, saved, states, seg, n - 1);
    }
  }

  /** The index after the walk is the chain of the new finalized block. */
  lemma IndexMoves(m: Blocks, roots: map<nat, Root>, tip: Root, f: Root)
    requires WellOrdered(m) && IndexOf(m, roots, tip) && OnChain(m, tip, f)
    ensures var seg := Segment(m, f, m[tip].slot);
            IndexOf(m, IndexAll(roots, seg, |seg|), f)
  {
    var seg := Segment(m, f, m[tip].slot);
    var all := IndexAll(roots, seg, |seg|);
    SegmentDescends(m, f, m[tip].slot);
    IndexAllEntries(roots, seg, |seg|);
    OnChainSlot(m, tip, f);
    forall k | k in all ensures OnChain(m, all[k], f) && m[all[k]].slot == k {
      if i :| 0 <= i < |seg| && seg[i].slot == k {
        assert Visited(m, seg[i], f, m[tip].slot);
      } else {
        OnChainTransitive(m, roots[k], tip, f);
      }
    }
    forall x | OnChain(m, x, f) ensures m[x].slot in all && all[m[x].slot] == x {
      if m[x].slot > m[tip].slot {
        var i := SegmentCovers(m, f, m[tip].slot, x);
        assert seg[i].slot == m[x].slot;
      } else {
        OnChainLinear(m, x, tip, f);
        forall i | 0 <= i < |seg| ensures seg[i].slot != m[x].slot {
          assert Visited(m, seg[i], f, m[tip].slot);
        }
      }
    }
  }

  /** A block is a window top of the segment exactly when it is the newest block of its epoch
      window on the finalized chain. */
  lemma TopIsWindowTop(spec: Spec, m: Blocks, f: Root, low: nat, i: nat)
    requires WellOrdered(m) && i < |Segment(m, f, low)|
    ensures var seg := Segment(m, f, low);
            IsTop(spec, seg, i) <==> WindowTop(spec, m, seg[i].root, f)
  {
    var seg := Segment(m, f, low);
    SegmentDescends(m, f, low);
    var x := seg[i];
    assert Visited(m, x, f, low);
    if i > 0 {
      assert Visited(m, seg[i - 1], f, low);
    }
    if IsTop(spec, seg, i) {
      forall y | OnChain(m, y, f) && m[y].slot > x.slot ensures spec.Window(m[y].slot) != spec.Window(x.slot) {
        var j := SegmentCovers(m, f, low, y);
        assert j < i;
        WindowMonotone(spec, seg[i - 1].slot, seg[j].slot);
        WindowMonotone(spec, x.slot, seg[i - 1].slot);
      }
    }
  }

  /** The checkpoint states after the walk cover every window top of the new chain. */
  lemma CheckpointsMove(spec: Spec, h: History, saved: map<Root, State>, states: map<Root, State>, tip: Root, f: Root)
    requires ValidHistory(spec, h) && ValidCheckpoints(spec, h, saved, tip)
    requires OnChain(h.blocks, tip, f)
    requires forall q :: q in states ==> q in h.states && states[q] == h.states[q]
    requires TopsKnown(spec, states, Segment(h.blocks, f, h.blocks[tip].slot))
    ensures var seg := Segment(h.blocks, f, h.blocks[tip].slot);
            ValidCheckpoints(spec, h, SaveTops(spec, saved, states, seg, |seg|), f)
  {
    var m, low := h.blocks, h.blocks[tip].slot;
    var seg := Segment(m, f, low);
    var all := SaveTops(spec, saved, states, seg, |seg|);
    SaveTopsEntries(spec, saved, states, seg, |seg|);
    forall x | WindowTop(spec, m, x, f) ensures m[x].stateRoot in all {
      if m[x].slot > low {
        var i := SegmentCovers(m, f, low, x);
        SegmentDescends(m, f, low);
        TopIsWindowTop(spec, m, f, low, i);
      } else {
        OnChainLinear(m, x, tip, f);
        forall y | OnChain(m, y, tip) && m[y].slot > m[x].slot ensures OnChain(m, y, f) {
          OnChainTransitive(m, y, tip, f);
        }
        assert WindowTop(spec, m, x, tip);
      }
    }
  }
}
