/** Generalized indices of the leaves of a perfect tree: the proof collected on the way down to a leaf is
    the one read off the layers of the tree. */
module MerkleIndices {
  import opened Wrappers
  import opened Numbers
  import opened Merkle
  import opened MerkleTrees
  import opened GeneralizedIndices

  /** The backing tree over exactly `2^d` leaves. */
  function PerfectTree<T>(leaves: seq<T>, d: nat): Tree<T>
    requires |leaves| == Pow2(d)
  {
    if d == 0 then Tree.Leaf(leaves[0])
    else Pair(PerfectTree(leaves[..Pow2(d - 1)], d - 1), PerfectTree(leaves[Pow2(d - 1)..], d - 1))
  }

  lemma {:induction false} TreeRoot<T>(h: Hasher<T>, leaves: seq<T>, d: nat)
    requires |leaves| == Pow2(d)
    ensures MerkleRoot(h.hash, PerfectTree(leaves, d)) == PerfectRoot(h, leaves, d)
    decreases d
  {
    if d > 0 {
      TreeRoot(h, leaves[..Pow2(d - 1)], d - 1);
      TreeRoot(h, leaves[Pow2(d - 1)..], d - 1);
    }
  }

  lemma PathBit(index: nat)
    requires index >= 2
    ensures Path(index) == Path(index / 2) + [index % 2 == 1]
  {
  }

  lemma Halving(quarter: nat, i: nat)
    requires i < 4 * quarter
    ensures i < 2 * quarter <==> i / 2 < quarter
    ensures (4 * quarter + i) / 2 == 2 * quarter + i / 2 && (4 * quarter + i) % 2 == i % 2
    ensures (2 * quarter + i) / 2 == quarter + i / 2 && (2 * quarter + i) % 2 == i % 2
    ensures i >= 2 * quarter ==> i / 2 == quarter + (i - 2 * quarter) / 2 && (i - 2 * quarter) % 2 == i % 2
  {
  }

  /** The path to leaf `i` first goes to its half. */
  lemma {:induction false} PathToLeaf(d: nat, i: nat)
    requires d > 0 && i < Pow2(d)
    ensures
      var half := Pow2(d - 1);
      Path(Pow2(d) + i) == if i < half then [false] + Path(half + i) else [true] + Path(half + (i - half))
    decreases d
  {
    if d == 1 {
      assert Path(1) == [];
      PathBit(2 + i);
    } else {
      var half, quarter := Pow2(d - 1), Pow2(d - 2);
      PathToLeaf(d - 1, i / 2);
      hide Path;
      Halving(quarter, i);
      PathBit(4 * quarter + i);
      if i < half {
        PathBit(half + i);
        var rest := Path(quarter + i / 2);
        assert [false] + rest + [i % 2 == 1] == [false] + (rest + [i % 2 == 1]);
      } else {
        Halving(quarter, i - half);
        PathBit(half + (i - half));
        var rest := Path(quarter + (i - half) / 2);
        assert [true] + rest + [i % 2 == 1] == [true] + (rest + [i % 2 == 1]);
      }
    }
  }

  /** The node at index `2^d + i` is leaf `i`. */
  lemma {:induction false} LeafAtIndex<T>(leaves: seq<T>, d: nat, i: nat)
    requires |leaves| == Pow2(d) && i < Pow2(d)
    ensures Navigate(PerfectTree(leaves, d), Path(Pow2(d) + i)) == Some(Tree.Leaf(leaves[i]))
    decreases d
  {
    if d > 0 {
      var half := Pow2(d - 1);
      var path := Path(Pow2(d) + i);
      PathToLeaf(d, i);
      if i < half {
        assert path[1..] == Path(half + i);
        LeafAtIndex(leaves[..half], d - 1, i);
      } else {
        assert path[1..] == Path(half + (i - half));
        LeafAtIndex(leaves[half..], d - 1, i - half);
      }
    }
  }

  /** The block of node `k` at height `d` starts at leaf `base`. */
  ghost predicate Aligned(base: nat, k: nat, d: nat) {
    base == k * Pow2(d)
  }

  lemma AlignedHalves(base: nat, k: nat, d: nat)
    requires d > 0 && Aligned(base, k, d)
    ensures Aligned(base, 2 * k, d - 1) && Aligned(base + Pow2(d - 1), 2 * k + 1, d - 1)
  {
    Doubled(k, Pow2(d - 1));
  }

  lemma {:induction false} AlignedShift(base: nat, k: nat, d: nat, i: nat)
    requires Aligned(base, k, d) && i < Pow2(d)
    ensures Shift(base + i, d) == k
    decreases d
  {
    if d > 0 {
      hide Aligned, Shift;
      var half := Pow2(d - 1);
      AlignedHalves(base, k, d);
      var own := if i < half then 2 * k else 2 * k + 1;
      if i < half {
        AlignedShift(base, 2 * k, d - 1, i);
      } else {
        AlignedShift(base + half, 2 * k + 1, d - 1, i - half);
      }
      ShiftStep(base + i, d);
    } else {
      ShiftStep(base + i, d);
    }
  }

  lemma ShiftStep(n: nat, j: nat)
    ensures Shift(n, j) == if j == 0 then n else Shift(n, j - 1) / 2
  {
  }

  /** The leaves of node `k` at height `d`. */
  ghost predicate IsBlock<T>(h: Hasher<T>, chunks: seq<T>, block: seq<T>, d: nat, base: nat) {
    |block| == Pow2(d) && forall r :: 0 <= r < |block| ==> block[r] == Merkle.Leaf(h, chunks, base + r)
  }

  lemma HalfBlocks<T>(h: Hasher<T>, chunks: seq<T>, block: seq<T>, d: nat, base: nat)
    requires d > 0 && IsBlock(h, chunks, block, d, base)
    ensures IsBlock(h, chunks, block[..Pow2(d - 1)], d - 1, base)
    ensures IsBlock(h, chunks, block[Pow2(d - 1)..], d - 1, base + Pow2(d - 1))
  {
  }

  lemma BlockRoot<T>(h: Hasher<T>, chunks: seq<T>, block: seq<T>, d: nat, base: nat, k: nat)
    requires IsBlock(h, chunks, block, d, base) && Aligned(base, k, d)
    ensures MerkleRoot(h.hash, PerfectTree(block, d)) == Node(h, chunks, d, k)
  {
    TreeRoot(h, block, d);
    NodeIsPerfect(h, chunks, block, d, k, base);
  }

  lemma BranchSnoc<T>(h: Hasher<T>, chunks: seq<T>, branch: seq<T>, index: nat, x: T)
    requires IsBranch(h, chunks, branch, index, |branch|)
    requires x == Node(h, chunks, |branch|, Sibling(Shift(index, |branch|)))
    ensures IsBranch(h, chunks, branch + [x], index, |branch| + 1)
  {
  }

  /** What lies beside the path to leaf `i` of a tree: the half it is not in last. */
  lemma BesideHalf<T>(h: Hasher<T>, block: seq<T>, d: nat, i: nat)
    requires d > 0 && |block| == Pow2(d) && i < Pow2(d)
    ensures
      var half := Pow2(d - 1);
      var left, right := PerfectTree(block[..half], d - 1), PerfectTree(block[half..], d - 1);
      var own, rest, other := if i < half then left else right, if i < half then i else i - half,
        if i < half then right else left;
      && Navigate(PerfectTree(block, d), Path(Pow2(d) + i)).Some? && Navigate(own, Path(half + rest)).Some?
      && Beside(h.hash, PerfectTree(block, d), Path(Pow2(d) + i))
        == Beside(h.hash, own, Path(half + rest)) + [MerkleRoot(h.hash, other)]
  {
    var half := Pow2(d - 1);
    LeafAtIndex(block, d, i);
    PathToLeaf(d, i);
    var path := Path(Pow2(d) + i);
    if i < half {
      LeafAtIndex(block[..half], d - 1, i);
      assert path[1..] == Path(half + i);
    } else {
      LeafAtIndex(block[half..], d - 1, i - half);
      assert path[1..] == Path(half + (i - half));
    }
    hide Path, MerkleRoot;
  }

  /** What lies beside the path to leaf `i` of the block is a branch for the leaf `index` of the chunks. */
  ghost predicate BranchBeside<T>(h: Hasher<T>, chunks: seq<T>, block: seq<T>, d: nat, i: nat, index: nat)
    requires |block| == Pow2(d) && i < Pow2(d)
  {
    && Navigate(PerfectTree(block, d), Path(Pow2(d) + i)).Some?
    && |Beside(h.hash, PerfectTree(block, d), Path(Pow2(d) + i))| == d
    && IsBranch(h, chunks, Beside(h.hash, PerfectTree(block, d), Path(Pow2(d) + i)), index, d)
  }

  lemma BesideStep<T>(h: Hasher<T>, chunks: seq<T>, block: seq<T>, d: nat, i: nat, index: nat)
    requires d > 0 && |block| == Pow2(d) && i < Pow2(d)
    requires
      var half := Pow2(d - 1);
      var left, right := block[..half], block[half..];
      && BranchBeside(h, chunks, if i < half then left else right, d - 1, if i < half then i else i - half, index)
      && MerkleRoot(h.hash, PerfectTree(if i < half then right else left, d - 1))
        == Node(h, chunks, d - 1, Sibling(Shift(index, d - 1)))
    ensures BranchBeside(h, chunks, block, d, i, index)
  {
    hide Node, MerkleRoot, Shift, Sibling, IsBranch, Beside, Path, PerfectTree, Navigate;
    var half := Pow2(d - 1);
    BesideHalf(h, block, d, i);
    var own := Beside(h.hash, PerfectTree(if i < half then block[..half] else block[half..], d - 1),
      Path(half + if i < half then i else i - half));
    BranchSnoc(h, chunks, own, index, Node(h, chunks, d - 1, Sibling(Shift(index, d - 1))));
  }

  lemma SiblingHalves(k: nat)
    ensures Sibling(2 * k) == 2 * k + 1 && Sibling(2 * k + 1) == 2 * k
  {
  }

  lemma NothingBeside<T>(h: Hasher<T>, chunks: seq<T>, block: seq<T>, index: nat)
    requires |block| == 1
    ensures BranchBeside(h, chunks, block, 0, 0, index)
  {
    assert Path(1) == [];
  }

  /** Beside the path to a leaf of an aligned block lie the siblings of the nodes above that leaf. */
  lemma {:induction false} BesideLeaf<T>(
    h: Hasher<T>, chunks: seq<T>, block: seq<T>, d: nat, base: nat, k: nat, i: nat)
    requires IsBlock(h, chunks, block, d, base) && Aligned(base, k, d) && i < Pow2(d)
    ensures BranchBeside(h, chunks, block, d, i, base + i)
    decreases d
  {
    if d > 0 {
      var half := Pow2(d - 1);
      assert |block| == 2 * half;
      HalfBlocks(h, chunks, block, d, base);
      AlignedHalves(base, k, d);
      SiblingHalves(k);
      hide Node, MerkleRoot, Shift, Sibling, Aligned, BranchBeside, PerfectTree, IsBlock;
      BlockRoot(h, chunks, block[..half], d - 1, base, 2 * k);
      BlockRoot(h, chunks, block[half..], d - 1, base + half, 2 * k + 1);
      if i < half {
        BesideLeaf(h, chunks, block[..half], d - 1, base, 2 * k, i);
        AlignedShift(base, 2 * k, d - 1, i);
      } else {
        BesideLeaf(h, chunks, block[half..], d - 1, base + half, 2 * k + 1, i - half);
        AlignedShift(base + half, 2 * k + 1, d - 1, i - half);
      }
      BesideStep(h, chunks, block, d, i, base + i);
    } else {
      NothingBeside(h, chunks, block, base);
    }
  }

  /** In the perfect tree over padded leaves, generalized index `2^d + i` is leaf `i`, the root is the
      Merkle root, and the proof that `build_proof` collects is the branch that `get_merkle_proof` reads
      off the layers. */
  lemma ProofsAgree<T>(h: Hasher<T>, leaves: seq<T>, d: nat, i: nat)
    requires |leaves| <= Pow2(d) && i < Pow2(d)
    ensures
      var all := Padded(h, leaves, Pow2(d));
      var tree, path := PerfectTree(all, d), Path(Pow2(d) + i);
      && MerkleRoot(h.hash, tree) == PerfectRoot(h, all, d)
      && Navigate(tree, path) == Some(Tree.Leaf(all[i]))
      && |Beside(h.hash, tree, path)| == d && IsBranch(h, leaves, Beside(h.hash, tree, path), i, d)
  {
    var all := Padded(h, leaves, Pow2(d));
    assert Aligned(0, 0, d) && IsBlock(h, leaves, all, d, 0);
    hide Node, Beside, Path, MerkleRoot, PerfectTree, PerfectRoot, Navigate, Padded, IsBranch, IsBlock, Aligned;
    TreeRoot(h, all, d);
    LeafAtIndex(all, d, i);
    BesideLeaf(h, leaves, all, d, 0, 0, i);
  }
}
