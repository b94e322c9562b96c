/** A tree of beacon blocks held in a dictionary from block root to block, and the
    ancestor walk along parent roots. */
module BlockTree {
  import opened Wrappers

  type Root = nat

  /** A block identifier: slot and root. */
  datatype BlockID = BlockID(slot: nat, root: Root)

  /** A signed block. `participants` is the number of bits set in its sync aggregate. */
  datatype Block = Block(slot: nat, root: Root, parentRoot: Root, stateRoot: Root, participants: nat) {
    function Id(): BlockID {
      BlockID(slot, root)
    }
  }

  type Blocks = map<Root, Block>

  ghost predicate OlderParent(m: Blocks, r: Root)
    requires r in m
  {
    m[r].parentRoot in m ==> m[m[r].parentRoot].slot < m[r].slot
  }

  /** Blocks are filed under their own root, and a parent that is present is older. */
  // Named triggers keep the verifier from following parents of parents on its own.
  ghost predicate WellOrdered(m: Blocks) {
    && (forall r :: r in m ==> m[r].root == r)
    && (forall r {:trigger OlderParent(m, r)} :: r in m ==> OlderParent(m, r))
  }

  /** The block reached from `r` by following parent roots until the slot is at most
      `slot`, or `None` when the walk leaves the dictionary first. */
  ghost function AncestorAt(m: Blocks, r: Root, slot: nat): Option<Block>
    requires WellOrdered(m)
    decreases if r in m then m[r].slot + 1 else 0
  {
    if r !in m then None
    else if m[r].slot <= slot then Some(m[r])
    else assert OlderParent(m, r); AncestorAt(m, m[r].parentRoot, slot)
  }

  /** Block `x` lies on the chain that ends in `r` (`r` itself included). */
  ghost predicate OnChain(m: Blocks, x: Root, r: Root)
    requires WellOrdered(m)
  {
    x in m && AncestorAt(m, r, m[x].slot) == Some(m[x])
  }

  /** The blocks that remain when everything below slot `low` is deleted. */
  ghost function Pruned(m: Blocks, low: nat): Blocks {
    map r | r in m && m[r].slot >= low :: m[r]
  }

  lemma {:induction false} AncestorIsStored(m: Blocks, r: Root, slot: nat)
    requires WellOrdered(m) && AncestorAt(m, r, slot).Some?
    ensures r in m
    ensures var a := AncestorAt(m, r, slot).value;
            a.root in m && m[a.root] == a && a.slot <= slot && a.slot <= m[r].slot
    decreases if r in m then m[r].slot + 1 else 0
  {
    if m[r].slot > slot {
      assert OlderParent(m, r);
      AncestorIsStored(m, m[r].parentRoot, slot);
    }
  }

  /** The walk composes: going on from an ancestor is the same as going there at once. */
  lemma {:induction false} AncestorCompose(m: Blocks, r: Root, high: nat, low: nat)
    requires WellOrdered(m) && low <= high
    ensures match AncestorAt(m, r, high)
            case Some(a) => AncestorAt(m, a.root, low) == AncestorAt(m, r, low)
            case None => AncestorAt(m, r, low) == None
    decreases if r in m then m[r].slot + 1 else 0
  {
    if r in m && m[r].slot > high {
      assert OlderParent(m, r);
      AncestorCompose(m, m[r].parentRoot, high, low);
    }
  }

  /** What an ancestor walk finds in the pruned dictionary. */
  lemma {:induction false} AncestorAfterPruning(m: Blocks, cut: nat, r: Root, slot: nat)
    requires WellOrdered(m)
    ensures WellOrdered(Pruned(m, cut))
    ensures AncestorAt(Pruned(m, cut), r, slot) ==
            match AncestorAt(m, r, slot)
            case Some(a) => if a.slot >= cut then Some(a) else None
            case None => None
    decreases if r in m then m[r].slot + 1 else 0
  {
    forall q | q in Pruned(m, cut) ensures OlderParent(Pruned(m, cut), q) {
      assert OlderParent(m, q);
    }
    if r in m {
      assert OlderParent(m, r);
      if m[r].slot > slot {
        AncestorAfterPruning(m, cut, m[r].parentRoot, slot);
        if m[r].slot < cut && AncestorAt(m, m[r].parentRoot, slot).Some? {
          AncestorIsStored(m, m[r].parentRoot, slot);
        }
      }
    }
  }

  ghost predicate ParentKnown(m: Blocks, absent: Root, r: Root)
    requires r in m
  {
    m[r].parentRoot in m || m[r].parentRoot == absent
  }

  /** Every parent that is named is present, except for blocks whose parent root is `absent`. */
  ghost predicate ClosedUpTo(m: Blocks, absent: Root) {
    && absent !in m
    && forall r {:trigger ParentKnown(m, absent, r)} :: r in m ==> ParentKnown(m, absent, r)
  }

  /** `m'` holds everything in `m`, which already holds every parent but `absent`. */
  ghost predicate Extends(m: Blocks, m': Blocks, absent: Root) {
    && WellOrdered(m) && WellOrdered(m')
    && ClosedUpTo(m, absent) && absent !in m'
    && forall r :: r in m ==> r in m' && m'[r] == m[r]
  }

  /** Later blocks change no walk from an older one. */
  lemma {:induction false} AncestorInExtension(m: Blocks, m': Blocks, absent: Root, r: Root, slot: nat)
    requires Extends(m, m', absent) && r in m
    ensures AncestorAt(m', r, slot) == AncestorAt(m, r, slot)
    decreases m[r].slot
  {
    if m[r].slot > slot {
      assert OlderParent(m, r) && ParentKnown(m, absent, r);
      if m[r].parentRoot in m {
        AncestorInExtension(m, m', absent, m[r].parentRoot, slot);
      }
    }
  }

  /** Nor do they change any chain. */
  lemma ChainInExtension(m: Blocks, m': Blocks, absent: Root, x: Root, r: Root)
    requires Extends(m, m', absent) && r in m
    ensures OnChain(m', x, r) <==> OnChain(m, x, r)
  {
    if x in m' {
      AncestorInExtension(m, m', absent, r, m'[x].slot);
      if AncestorAt(m, r, m'[x].slot).Some? {
        AncestorIsStored(m, r, m'[x].slot);
      }
    }
  }

  lemma OnChainSelf(m: Blocks, r: Root)
    requires WellOrdered(m) && r in m
    ensures OnChain(m, r, r)
  {
  }

  lemma OnChainSlot(m: Blocks, x: Root, r: Root)
    requires WellOrdered(m) && OnChain(m, x, r)
    ensures r in m && x in m && m[x].slot <= m[r].slot
    ensures m[x].slot == m[r].slot ==> x == r
  {
    AncestorIsStored(m, r, m[x].slot);
  }

  /** Chains are transitive. */
  lemma OnChainTransitive(m: Blocks, x: Root, y: Root, r: Root)
    requires WellOrdered(m) && OnChain(m, x, y) && OnChain(m, y, r)
    ensures OnChain(m, x, r)
  {
    OnChainSlot(m, x, y);
    AncestorCompose(m, r, m[y].slot, m[x].slot);
  }

  /** Two blocks on one chain are on each other's chain, in slot order. */
  lemma OnChainLinear(m: Blocks, x: Root, y: Root, r: Root)
    requires WellOrdered(m) && OnChain(m, x, r) && OnChain(m, y, r)
    requires m[x].slot <= m[y].slot
    ensures OnChain(m, x, y)
  {
    AncestorCompose(m, r, m[y].slot, m[x].slot);
  }

  /** One step: the chain of `r` is `r` followed by the chain of its parent. */
  lemma OnChainStep(m: Blocks, x: Root, r: Root)
    requires WellOrdered(m) && r in m
    ensures OnChain(m, x, r) <==> x == r || (m[r].parentRoot in m && OnChain(m, x, m[r].parentRoot))
  {
    assert OlderParent(m, r);
    if x in m && x != r {
      if m[x].slot < m[r].slot {
        assert AncestorAt(m, r, m[x].slot) == AncestorAt(m, m[r].parentRoot, m[x].slot);
      } else {
        if m[r].parentRoot in m && OnChain(m, x, m[r].parentRoot) {
          OnChainSlot(m, x, m[r].parentRoot);
        }
      }
    }
  }

  /** A walk that succeeds ends on the chain it started from. */
  lemma AncestorOnChain(m: Blocks, r: Root, slot: nat)
    requires WellOrdered(m) && AncestorAt(m, r, slot).Some?
    ensures OnChain(m, AncestorAt(m, r, slot).value.root, r)
    decreases if r in m then m[r].slot + 1 else 0
  {
    AncestorIsStored(m, r, slot);
    if m[r].slot > slot {
      assert OlderParent(m, r);
      AncestorOnChain(m, m[r].parentRoot, slot);
      OnChainStep(m, AncestorAt(m, r, slot).value.root, r);
    }
  }

  /** The ancestor at a slot is the highest block of the chain at or below that slot. */
  lemma AncestorIsHighest(m: Blocks, r: Root, slot: nat, x: Root)
    requires WellOrdered(m) && OnChain(m, x, r) && m[x].slot <= slot
    ensures AncestorAt(m, r, slot).Some?
    ensures OnChain(m, x, AncestorAt(m, r, slot).value.root)
    ensures m[x].slot <= AncestorAt(m, r, slot).value.slot
  {
    AncestorCompose(m, r, slot, m[x].slot);
    AncestorIsStored(m, r, slot);
    OnChainSlot(m, x, AncestorAt(m, r, slot).value.root);
  }
}
