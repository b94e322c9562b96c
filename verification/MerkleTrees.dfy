/** Layered Merkle trees, branches into them, and deposit proofs. */
module MerkleTrees {
  import opened Wrappers
  import opened Numbers
  import opened Merkle

  /** The number of nodes stored at height `j` over `n` leaves. */
  function LayerLength(n: nat, j: nat): nat {
    if j == 0 then n else (LayerLength(n, j - 1) + 1) / 2
  }

  /** `layer` holds the first nodes at height `j`, up to the last one with a leaf under it. */
  ghost predicate IsLayer<T>(h: Hasher<T>, leaves: seq<T>, layer: seq<T>, j: nat) {
    && |layer| == LayerLength(|leaves|, j)
    && forall i :: 0 <= i < |layer| ==> layer[i] == Node(h, leaves, j, i)
  }

  ghost predicate IsTree<T>(h: Hasher<T>, leaves: seq<T>, tree: seq<seq<T>>) {
    forall j :: 0 <= j < |tree| ==> IsLayer(h, leaves, tree[j], j)
  }

  lemma {:induction false} LayerEnds(n: nat, j: nat)
    requires n > 0
    ensures LayerLength(n, j) == Shift(n - 1, j) + 1
  {
    if j > 0 {
      LayerEnds(n, j - 1);
    }
  }

  lemma {:induction false} EmptyLayer(j: nat)
    ensures LayerLength(0, j) == 0
  {
    if j > 0 {
      EmptyLayer(j - 1);
    }
  }

  /** Past the end of a layer every node is a zero hash. */
  lemma PastLayer<T>(h: Hasher<T>, leaves: seq<T>, j: nat, i: nat)
    requires i >= LayerLength(|leaves|, j)
    ensures Node(h, leaves, j, i) == ZeroHash(h, j)
  {
    if leaves != [] {
      LayerEnds(|leaves|, j);
    }
    EmptyNode(h, leaves, j, i);
  }

  /** `calc_merkle_tree_from_leaves`. */
  method CalcMerkleTreeFromLeaves<T>(h: Hasher<T>, zerohashes: seq<T>, leaves: seq<T>, layerCount: nat)
    returns (tree: seq<seq<T>>)
    requires IsZeroTable(h, zerohashes) && layerCount <= ZERO_HASHES
    ensures |tree| == layerCount + 1 && IsTree(h, leaves, tree)
  {
    hide LayerLength, Paired, IsLayer;
    var values := leaves;
    LeafLayer(h, leaves);
    tree := [values];
    for j := 0 to layerCount
      invariant |tree| == j + 1 && IsTree(h, leaves, tree) && IsLayer(h, leaves, values, j)
    {
      ghost var layer := values;
      if |values| % 2 == 1 {
        PastEnd(h, leaves, values, j);
        values := values + [zerohashes[j]];
      }
      NextLayer(h, leaves, layer, values, j);
      values := Paired(h, values);
      tree := tree + [values];
    }
  }

  lemma PastEnd<T>(h: Hasher<T>, leaves: seq<T>, layer: seq<T>, j: nat)
    requires IsLayer(h, leaves, layer, j)
    ensures Node(h, leaves, j, |layer|) == ZeroHash(h, j)
  {
    PastLayer(h, leaves, j, |layer|);
  }

  lemma LeafLayer<T>(h: Hasher<T>, leaves: seq<T>)
    ensures IsLayer(h, leaves, leaves, 0)
  {
  }

  /** Each two neighbours hashed. */
  function Paired<T>(h: Hasher<T>, values: seq<T>): seq<T> {
    seq(|values| / 2, i requires 0 <= i < |values| / 2 => h.hash(values[2 * i], values[2 * i + 1]))
  }

  lemma NextLayer<T>(h: Hasher<T>, leaves: seq<T>, layer: seq<T>, even: seq<T>, j: nat)
    requires IsLayer(h, leaves, layer, j)
    requires even == layer + if |layer| % 2 == 1 then [Node(h, leaves, j, |layer|)] else []
    ensures IsLayer(h, leaves, Paired(h, even), j + 1)
  {
    assert |even| / 2 == LayerLength(|leaves|, j + 1);
    assert forall p :: 0 <= p < |even| ==> even[p] == Node(h, leaves, j, p);
    hide LayerLength;
    PairedNodes(h, leaves, even, j);
  }

  lemma PairedNodes<T>(h: Hasher<T>, leaves: seq<T>, even: seq<T>, j: nat)
    requires forall p :: 0 <= p < |even| ==> even[p] == Node(h, leaves, j, p)
    ensures |Paired(h, even)| == |even| / 2
    ensures forall i :: 0 <= i < |even| / 2 ==> Paired(h, even)[i] == Node(h, leaves, j + 1, i)
  {
    forall i | 0 <= i < |even| / 2 ensures Paired(h, even)[i] == Node(h, leaves, j + 1, i) {
      assert even[2 * i] == Node(h, leaves, j, 2 * i);
      assert even[2 * i + 1] == Node(h, leaves, j, 2 * i + 1);
    }
  }

  function FloorLog2(n: nat): nat
    requires n > 0
  {
    BitLength(n) - 1
  }

  /** The first `n` of the values followed by zero chunks without end. */
  function Fitted<T>(h: Hasher<T>, values: seq<T>, n: nat): (s: seq<T>)
    ensures |s| == n
    ensures forall i :: 0 <= i < n ==> s[i] == if i < |values| then values[i] else h.zero
  {
    seq(n, (i: nat) requires i < n => if i < |values| then values[i] else h.zero)
  }

  /** `get_merkle_root`: the root of the perfect tree of the greatest depth that `padTo` has room for, over
      as many values as it holds, zero chunks in place of missing ones. */
  method GetMerkleRoot<T>(h: Hasher<T>, zerohashes: seq<T>, values: seq<T>, padTo: nat) returns (root: T)
    requires IsZeroTable(h, zerohashes) && BitLength(padTo) <= ZERO_HASHES
    ensures padTo == 0 ==> root == h.zero
    ensures forall d: nat :: Pow2(d) <= padTo < Pow2(d + 1) ==> root == PerfectRoot(h, Fitted(h, values, Pow2(d)), d)
  {
    forall d: nat | Pow2(d) <= padTo < Pow2(d + 1)
      ensures d == FloorLog2(padTo) && Node(h, values, d, 0) == PerfectRoot(h, Fitted(h, values, Pow2(d)), d)
    {
      FloorDepth(padTo, d);
      NodeIsPerfect(h, values, Fitted(h, values, Pow2(d)), d, 0, 0);
    }
    if padTo == 0 {
      return zerohashes[0];
    }
    var layerCount := FloorLog2(padTo);
    if |values| == 0 {
      EmptyNode(h, values, layerCount, 0);
      return zerohashes[layerCount];
    }
    var tree := CalcMerkleTreeFromLeaves(h, zerohashes, values, layerCount);
    LayerEnds(|values|, layerCount);
    assert IsLayer(h, values, tree[layerCount], layerCount);
    return tree[layerCount][0];
  }

  lemma {:induction false} BitLengthOfPow2(d: nat)
    ensures BitLength(Pow2(d)) == d + 1
    ensures BitLength(Pow2(d) - 1) == d
  {
    if d > 0 {
      BitLengthOfPow2(d - 1);
      BitLengthDoubles(Pow2(d - 1));
    }
  }

  lemma BitLengthDoubles(n: nat)
    requires n > 0
    ensures BitLength(2 * n) == BitLength(n) + 1 && BitLength(2 * n - 1) == BitLength(n - 1) + 1
  {
  }

  /** The two depths, rounded down and rounded up, agree exactly at the powers of two. */
  lemma DepthsAgree(n: nat)
    requires n > 0
    ensures BitLength(n - 1) == FloorLog2(n) <==> exists d: nat :: n == Pow2(d)
  {
    if d: nat :| n == Pow2(d) {
      BitLengthOfPow2(d);
    }
    if BitLength(n - 1) == FloorLog2(n) {
      var d := FloorLog2(n);
      NextPowerOfTwo(n);
      ShiftOut(n, d);
      ShiftZero(n, d);
    }
  }

  lemma FloorDepth(n: nat, d: nat)
    requires Pow2(d) <= n < Pow2(d + 1)
    ensures d == FloorLog2(n)
  {
    ShiftOut(n, d);
    ShiftZero(n, d);
    ShiftOut(n, d + 1);
    ShiftZero(n, d + 1);
  }

  /** For limit zero and for every power of two with room for the chunks, `merkleize_chunks` and
      `get_merkle_root` give the same root. */
  method MerkleizeChunksAndGetMerkleRoot<T>(h: Hasher<T>, zerohashes: seq<T>, chunks: seq<T>, limit: nat, ghost d: nat)
    returns (streamed: Result<T, string>, layered: T)
    requires IsZeroTable(h, zerohashes) && d < ZERO_HASHES
    requires |chunks| <= limit && (limit == 0 || limit == Pow2(d))
    ensures streamed == Success(layered)
  {
    BitLengthOfPow2(d);
    if limit > 0 {
      PowerHasDepth(h, chunks, d);
    }
    hide Pow2, BitLength, PerfectRoot, Padded, Fitted, IsLeastDepth;
    streamed := MerkleizeChunks(h, zerohashes, chunks, Some(limit));
    layered := GetMerkleRoot(h, zerohashes, chunks, limit);
  }

  lemma PowerHasDepth<T>(h: Hasher<T>, chunks: seq<T>, d: nat)
    requires |chunks| <= Pow2(d)
    ensures Pow2(d) < Pow2(d + 1)
    ensures forall c: nat :: IsLeastDepth(Pow2(d), c) ==> c == d
    ensures Fitted(h, chunks, Pow2(d)) == Padded(h, chunks, Pow2(d))
  {
    BitLengthOfPow2(d);
    forall c: nat | IsLeastDepth(Pow2(d), c) ensures c == d {
      BitLengthIsLeastDepth(Pow2(d), c);
    }
  }

  // ---------------------------------------------------------------- branches

  /** The other child of a node's parent: `k ^ 1`. */
  function Sibling(k: nat): nat {
    if k % 2 == 0 then k + 1 else k - 1
  }

  /** The nodes beside the path from leaf `index` up `d` levels. */
  ghost predicate IsBranch<T>(h: Hasher<T>, leaves: seq<T>, branch: seq<T>, index: nat, d: nat) {
    && |branch| >= d
    && forall i :: 0 <= i < d ==> branch[i] == Node(h, leaves, i, Sibling(Shift(index, i)))
  }

  /** `get_merkle_proof`. */
  method GetMerkleProof<T>(h: Hasher<T>, zerohashes: seq<T>, ghost leaves: seq<T>, tree: seq<seq<T>>,
                           itemIndex: nat, treeLen: Option<nat>) returns (proof: seq<T>)
    requires IsZeroTable(h, zerohashes) && IsTree(h, leaves, tree)
    requires |tree| <= ZERO_HASHES && (treeLen.Some? ==> treeLen.value <= |tree|)
    ensures |proof| == (if treeLen.Some? then treeLen.value else |tree|)
    ensures IsBranch(h, leaves, proof, itemIndex, |proof|)
  {
    proof := [];
    var n := if treeLen.Some? then treeLen.value else |tree|;
    for i := 0 to n
      invariant |proof| == i && IsBranch(h, leaves, proof, itemIndex, i)
    {
      var subindex := Sibling(Shift(itemIndex, i));
      assert IsLayer(h, leaves, tree[i], i);
      if subindex >= |tree[i]| {
        PastLayer(h, leaves, i, subindex);
      }
      proof := proof + [if subindex < |tree[i]| then tree[i][subindex] else zerohashes[i]];
    }
  }

  /** The node that a leaf and a branch hash to after `n` levels. */
  function Folded<T>(h: Hasher<T>, leaf: T, branch: seq<T>, index: nat, n: nat): T
    requires n <= |branch|
  {
    if n == 0 then leaf
    else if Shift(index, n - 1) % 2 == 1 then h.hash(branch[n - 1], Folded(h, leaf, branch, index, n - 1))
    else h.hash(Folded(h, leaf, branch, index, n - 1), branch[n - 1])
  }

  /** `is_valid_merkle_branch` of the Phase 0 beacon chain specification. */
  method IsValidMerkleBranch<T(==)>(h: Hasher<T>, leaf: T, branch: seq<T>, depth: nat, index: nat, root: T)
    returns (ok: bool)
    requires depth <= |branch|
    ensures ok <==> Folded(h, leaf, branch, index, depth) == root
  {
    var value := leaf;
    for i := 0 to depth
      invariant value == Folded(h, leaf, branch, index, i)
    {
      if Shift(index, i) % 2 != 0 {
        value := h.hash(branch[i], value);
      } else {
        value := h.hash(value, branch[i]);
      }
    }
    return value == root;
  }

  /** A leaf of the tree and its branch hash to the node above it at every height. */
  lemma {:induction false} BranchFolds<T>(h: Hasher<T>, leaves: seq<T>, branch: seq<T>, index: nat, n: nat)
    requires IsBranch(h, leaves, branch, index, n)
    ensures Folded(h, Node(h, leaves, 0, index), branch, index, n) == Node(h, leaves, n, Shift(index, n))
  {
    if n > 0 {
      BranchFolds(h, leaves, branch, index, n - 1);
    }
  }

  ghost predicate CollisionFree<T(!new)>(h: Hasher<T>) {
    forall a, b, c, d :: h.hash(a, b) == h.hash(c, d) ==> a == c && b == d
  }

  /** With a collision-free hash, only the true leaf and the true branch hash to the node. */
  lemma {:induction false} BranchBinds<T(!new)>(
    h: Hasher<T>, leaves: seq<T>, leaf: T, branch: seq<T>, index: nat, n: nat)
    requires CollisionFree(h) && n <= |branch|
    requires Folded(h, leaf, branch, index, n) == Node(h, leaves, n, Shift(index, n))
    ensures leaf == Node(h, leaves, 0, index) && IsBranch(h, leaves, branch, index, n)
  {
    if n > 0 {
      BranchBinds(h, leaves, leaf, branch, index, n - 1);
    }
  }

  // ---------------------------------------------------------------- deposits

  // The presets fix DEPOSIT_CONTRACT_TREE_DEPTH to 32, the layer count that the tree and the proof
  // are built with; here both are the parameter `depth`.

  /** The root of a list of at most `2^depth` element roots, with its length mixed in. */
  function ListRoot<T>(h: Hasher<T>, lengthChunk: nat -> T, roots: seq<T>, depth: nat): T {
    h.hash(Node(h, roots, depth, 0), lengthChunk(|roots|))
  }

  /** `deposit_from_context`: the branch it builds, with the length as its last element, always
      passes the check one level above the tree against the list root. */
  method DepositFromContext<T(==)>(h: Hasher<T>, zerohashes: seq<T>, lengthChunk: nat -> T,
                                   leaves: seq<T>, index: nat, depth: nat)
    returns (proof: seq<T>, root: T, verified: bool)
    requires IsZeroTable(h, zerohashes) && depth < ZERO_HASHES
    requires index < |leaves| <= Pow2(depth)
    ensures |proof| == depth + 1
    ensures root == ListRoot(h, lengthChunk, leaves, depth)
    ensures IsBranch(h, leaves, proof, index, depth)
    ensures proof[depth] == lengthChunk(|leaves|)
    ensures verified
  {
    BitLengthOfPow2(depth);
    var list := MerkleizeChunks(h, zerohashes, leaves, Some(Pow2(depth)));
    PowerHasDepth(h, leaves, depth);
    RootIsPerfect(h, leaves, depth);
    root := h.hash(list.value, lengthChunk(|leaves|));
    var tree := CalcMerkleTreeFromLeaves(h, zerohashes, leaves, depth);
    var path := GetMerkleProof(h, zerohashes, leaves, tree, index, Some(depth));
    proof := path + [lengthChunk(|leaves|)];
    DepositFolds(h, lengthChunk, leaves, proof, index, depth);
    verified := IsValidMerkleBranch(h, leaves[index], proof, depth + 1, index, root);
  }

  lemma DepositFolds<T>(h: Hasher<T>, lengthChunk: nat -> T, leaves: seq<T>, proof: seq<T>, index: nat, depth: nat)
    requires index < |leaves| <= Pow2(depth) && |proof| == depth + 1
    requires IsBranch(h, leaves, proof, index, depth)
    requires proof[depth] == lengthChunk(|leaves|)
    ensures Folded(h, leaves[index], proof, index, depth + 1) == ListRoot(h, lengthChunk, leaves, depth)
  {
    BranchFolds(h, leaves, proof, index, depth);
    ShiftZero(index, depth);
    assert Node(h, leaves, 0, index) == leaves[index];
  }

  /** With a collision-free hash, a deposit proof that verifies at an index names that deposit
      and the number of deposits. */
  lemma DepositBinds<T(!new)>(h: Hasher<T>, lengthChunk: nat -> T, leaves: seq<T>, leaf: T, proof: seq<T>,
                              index: nat, depth: nat)
    requires CollisionFree(h)
    requires index < |leaves| <= Pow2(depth) && |proof| == depth + 1
    requires Folded(h, leaf, proof, index, depth + 1) == ListRoot(h, lengthChunk, leaves, depth)
    ensures leaf == leaves[index] && proof[depth] == lengthChunk(|leaves|)
  {
    ShiftZero(index, depth);
    assert Folded(h, leaf, proof, index, depth + 1) == h.hash(Folded(h, leaf, proof, index, depth), proof[depth]);
    BranchBinds(h, leaves, leaf, proof, index, depth);
    assert Node(h, leaves, 0, index) == leaves[index];
  }
}
