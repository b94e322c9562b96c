/** Merkleization: the zero-padded perfect tree as the reference, and the streaming, layered and
    branch algorithms measured against it. The hash is any function of two chunks. */
module Merkle {
  import opened Wrappers
  import opened Numbers

  /** The hash of two concatenated chunks, and the all-zero chunk. */
  datatype Hasher<!T> = Hasher(hash: (T, T) -> T, zero: T)

  /** `i >> j`. */
  function Shift(i: nat, j: nat): nat {
    if j == 0 then i else Shift(i, j - 1) / 2
  }

  function BitLength(n: nat): nat {
    if n == 0 then 0 else 1 + BitLength(n / 2)
  }

  /** `zerohashes[d]`. */
  function ZeroHash<T>(h: Hasher<T>, d: nat): T {
    if d == 0 then h.zero else h.hash(ZeroHash(h, d - 1), ZeroHash(h, d - 1))
  }

  // ---------------------------------------------------------------- the reference

  /** The root of a perfect binary tree over exactly `2^d` leaves. */
  function PerfectRoot<T>(h: Hasher<T>, leaves: seq<T>, d: nat): T
    requires |leaves| == Pow2(d)
    decreases d
  {
    if d == 0 then leaves[0]
    else h.hash(PerfectRoot(h, leaves[..Pow2(d - 1)], d - 1), PerfectRoot(h, leaves[Pow2(d - 1)..], d - 1))
  }

  /** The chunks followed by zero chunks up to `n` chunks. */
  function Padded<T>(h: Hasher<T>, chunks: seq<T>, n: nat): (s: seq<T>)
    requires |chunks| <= n
    ensures |s| == n
  {
    chunks + seq(n - |chunks|, _ => h.zero)
  }

  /** Node `k` at height `j` of the tree over the chunks followed by zero chunks without end. */
  function Node<T>(h: Hasher<T>, chunks: seq<T>, j: nat, k: nat): T
    decreases j
  {
    if j == 0 then Leaf(h, chunks, k)
    else h.hash(Node(h, chunks, j - 1, 2 * k), Node(h, chunks, j - 1, 2 * k + 1))
  }

  function Leaf<T>(h: Hasher<T>, chunks: seq<T>, i: nat): T {
    if i < |chunks| then chunks[i] else h.zero
  }

  /** A node is the perfect root of the aligned block of leaves under it. */
  lemma {:induction false} NodeIsPerfect<T>(h: Hasher<T>, chunks: seq<T>, block: seq<T>, j: nat, k: nat, base: nat)
    requires |block| == Pow2(j) && base == k * Pow2(j)
    requires forall i :: 0 <= i < |block| ==> block[i] == Leaf(h, chunks, base + i)
    ensures PerfectRoot(h, block, j) == Node(h, chunks, j, k)
    decreases j
  {
    if j > 0 {
      var half := Pow2(j - 1);
      Doubled(k, half);
      NodeIsPerfect(h, chunks, block[..half], j - 1, 2 * k, base);
      NodeIsPerfect(h, chunks, block[half..], j - 1, 2 * k + 1, base + half);
    } else {
      assert block[0] == Leaf(h, chunks, base + 0);
    }
  }

  lemma Doubled(k: nat, half: nat)
    ensures k * (2 * half) == (2 * k) * half
    ensures (2 * k + 1) * half == (2 * k) * half + half
  {
  }

  /** The root node is the root of the padded perfect tree. */
  lemma RootIsPerfect<T>(h: Hasher<T>, chunks: seq<T>, d: nat)
    requires |chunks| <= Pow2(d)
    ensures Node(h, chunks, d, 0) == PerfectRoot(h, Padded(h, chunks, Pow2(d)), d)
  {
    NodeIsPerfect(h, chunks, Padded(h, chunks, Pow2(d)), d, 0, 0);
  }

  // ---------------------------------------------------------------- shifts

  lemma {:induction false} ShiftMonotone(i: nat, k: nat, j: nat)
    requires i <= k
    ensures Shift(i, j) <= Shift(k, j)
  {
    if j > 0 {
      ShiftMonotone(i, k, j - 1);
    }
  }

  /** Shifting by the bit length gives zero, and by less gives at least one. */
  lemma {:induction false} ShiftOut(n: nat, j: nat)
    ensures Shift(n, j) == 0 <==> j >= BitLength(n)
    decreases j
  {
    if j > 0 {
      ShiftFirst(n, j);
      ShiftOut(n / 2, j - 1);
    }
  }

  lemma {:induction false} ShiftFirst(n: nat, j: nat)
    requires j > 0
    ensures Shift(n, j) == Shift(n / 2, j - 1)
  {
    if j > 1 {
      ShiftFirst(n, j - 1);
    }
  }

  /** Shifting gives zero exactly below the power of two. */
  lemma {:induction false} ShiftZero(n: nat, j: nat)
    ensures Shift(n, j) == 0 <==> n < Pow2(j)
    decreases j
  {
    if j > 0 {
      ShiftFirst(n, j);
      ShiftZero(n / 2, j - 1);
    }
  }

  /** The zero half of the tree: a node with no chunk under it is a zero hash. */
  lemma {:induction false} EmptyNode<T>(h: Hasher<T>, chunks: seq<T>, j: nat, k: nat)
    requires chunks == [] || Shift(|chunks| - 1, j) < k
    ensures Node(h, chunks, j, k) == ZeroHash(h, j)
    decreases j
  {
    if j > 0 {
      EmptyNode(h, chunks, j - 1, 2 * k);
      EmptyNode(h, chunks, j - 1, 2 * k + 1);
    }
  }

  // ---------------------------------------------------------------- zerohashes

  /** The module's table of zero hashes has this many entries. */
  const ZERO_HASHES: nat := 100

  method BuildZeroHashes<T>(h: Hasher<T>) returns (zerohashes: seq<T>)
    ensures |zerohashes| == 100 && zerohashes[0] == h.zero
    ensures forall d :: 1 <= d < 100 ==> zerohashes[d] == h.hash(zerohashes[d - 1], zerohashes[d - 1])
    ensures IsZeroTable(h, zerohashes)
  {
    zerohashes := [h.zero];
    for layer := 1 to ZERO_HASHES
      invariant |zerohashes| == layer
      invariant forall d :: 0 <= d < layer ==> zerohashes[d] == ZeroHash(h, d)
    {
      zerohashes := zerohashes + [h.hash(zerohashes[layer - 1], zerohashes[layer - 1])];
    }
  }

  ghost predicate IsZeroTable<T>(h: Hasher<T>, zerohashes: seq<T>) {
    |zerohashes| == ZERO_HASHES && forall d :: 0 <= d < ZERO_HASHES ==> zerohashes[d] == ZeroHash(h, d)
  }

  // ---------------------------------------------------------------- streaming merkleization

  /** The binary counter: before leaf `i` is merged, cell `j` holds the left sibling at height
      `j` for every bit `j` set in `i`. */
  ghost predicate Counter<T>(h: Hasher<T>, chunks: seq<T>, tmp: seq<Option<T>>, i: nat) {
    forall j :: 0 <= j < |tmp| && Shift(i, j) % 2 == 1 ==>
      tmp[j] == Some(Node(h, chunks, j, Shift(i, j) - 1))
  }

  /** The inner function `merge(h, i)`. */
  method Merge<T>(h: Hasher<T>, zerohashes: seq<T>, chunks: seq<T>, tmp: array<Option<T>>, depth: nat, leaf: T, i: nat)
    requires IsZeroTable(h, zerohashes) && depth < tmp.Length <= ZERO_HASHES + 1
    requires depth == BitLength(LastIndex(|chunks|))
    requires i <= |chunks| && leaf == Node(h, chunks, 0, i)
    requires i == |chunks| ==> Shift(i, depth) == 0
    requires Counter(h, chunks, tmp[..], i)
    modifies tmp
    ensures i < |chunks| ==> Counter(h, chunks, tmp[..], i + 1)
    ensures i == |chunks| ==> tmp[depth] == Some(Node(h, chunks, depth, 0))
  {
    var node := leaf;
    var j := 0;
    if i < |chunks| {
      ShiftMonotone(i, |chunks| - 1, depth);
    }
    ShiftOut(LastIndex(|chunks|), depth);
    while true
      invariant j <= depth
      invariant node == Node(h, chunks, j, Shift(i, j))
      invariant i < |chunks| ==> forall k :: 0 <= k < j ==> Shift(i, k) % 2 == 1
      invariant tmp[..] == old(tmp[..])
      decreases depth - j
    {
      if Shift(i, j) % 2 == 0 {
        if i == |chunks| && j < depth {
          SiblingIsEmpty(h, chunks, j);
          node := h.hash(node, zerohashes[j]);
        } else {
          break;
        }
      } else {
        assert tmp[..][j] == Some(Node(h, chunks, j, Shift(i, j) - 1));
        assert j < depth;
        node := h.hash(tmp[j].value, node);
      }
      j := j + 1;
    }
    tmp[j] := Some(node);
    if i < |chunks| {
      CounterStep(h, chunks, old(tmp[..]), i, j);
      assert tmp[..] == old(tmp[..])[j := Some(node)];
    }
  }

  /** Past the last chunk, the right neighbour at every height is empty. */
  lemma SiblingIsEmpty<T>(h: Hasher<T>, chunks: seq<T>, j: nat)
    ensures Node(h, chunks, j, Shift(|chunks|, j) + 1) == ZeroHash(h, j)
  {
    if chunks != [] {
      ShiftMonotone(|chunks| - 1, |chunks|, j);
    }
    EmptyNode(h, chunks, j, Shift(|chunks|, j) + 1);
  }

  /** Adding one: low set bits clear, the first clear bit sets, higher bits stay. */
  lemma {:induction false} ShiftSuccessor(i: nat, j: nat, k: nat)
    requires Shift(i, j) % 2 == 0
    requires forall l :: 0 <= l < j ==> Shift(i, l) % 2 == 1
    ensures Shift(i + 1, k) == if k <= j then Shift(i, k) + 1 else Shift(i, k)
    ensures k < j ==> Shift(i + 1, k) % 2 == 0
    decreases k
  {
    if k > 0 {
      ShiftSuccessor(i, j, k - 1);
    }
  }

  lemma CounterStep<T>(h: Hasher<T>, chunks: seq<T>, tmp: seq<Option<T>>, i: nat, j: nat)
    requires j < |tmp| && Counter(h, chunks, tmp, i)
    requires Shift(i, j) % 2 == 0
    requires forall l :: 0 <= l < j ==> Shift(i, l) % 2 == 1
    ensures Counter(h, chunks, tmp[j := Some(Node(h, chunks, j, Shift(i, j)))], i + 1)
  {
    var after := tmp[j := Some(Node(h, chunks, j, Shift(i, j)))];
    forall k | 0 <= k < |after| && Shift(i + 1, k) % 2 == 1
      ensures after[k] == Some(Node(h, chunks, k, Shift(i + 1, k) - 1))
    {
      ShiftSuccessor(i, j, k);
    }
  }

  function LastIndex(count: nat): nat {
    if count == 0 then 0 else count - 1
  }

  /** Merging leaf by leaf, and completing to the next power of two. */
  method MergeLeaves<T>(h: Hasher<T>, zerohashes: seq<T>, chunks: seq<T>, tmp: array<Option<T>>, depth: nat)
    requires IsZeroTable(h, zerohashes) && depth < tmp.Length <= ZERO_HASHES + 1
    requires depth == BitLength(LastIndex(|chunks|))
    modifies tmp
    ensures tmp[depth] == Some(Node(h, chunks, depth, 0))
  {
    var count := |chunks|;
    assert Counter(h, chunks, tmp[..], 0) by {
      forall j ensures Shift(0, j) == 0 { ShiftOfZero(j); }
    }
    for i := 0 to count
      invariant Counter(h, chunks, tmp[..], i)
    {
      Merge(h, zerohashes, chunks, tmp, depth, chunks[i], i);
    }
    TopBit(count, depth);
    if Pow2(depth) != count {
      Merge(h, zerohashes, chunks, tmp, depth, zerohashes[0], count);
    } else {
      assert tmp[..][depth] == Some(Node(h, chunks, depth, Shift(count, depth) - 1));
    }
  }

  /** The least depth of a tree with room for `n` chunks. */
  ghost predicate IsLeastDepth(n: nat, d: nat) {
    n <= Pow2(d) && (d > 0 ==> Pow2(d - 1) < n)
  }

  /** `merkleize_chunks`: it fails exactly if there are more chunks than the limit, which is their number
      when none is given. Otherwise the result is the root of the perfect tree of least depth with room
      for the limit, over the chunks followed by zero chunks; for limit zero that is the zero chunk. The
      scratch cells read are always filled. */
  method MerkleizeChunks<T>(h: Hasher<T>, zerohashes: seq<T>, chunks: seq<T>, limit: Option<nat>)
    returns (r: Result<T, string>)
    requires IsZeroTable(h, zerohashes)
    requires BitLength(LastIndex(if limit.None? then |chunks| else limit.value)) <= ZERO_HASHES
    ensures r.Failure? <==> limit.Some? && |chunks| > limit.value
    ensures r.Success? ==> exists d: nat ::
      && IsLeastDepth(if limit.None? then |chunks| else limit.value, d)
      && |chunks| <= Pow2(d) && r.value == PerfectRoot(h, Padded(h, chunks, Pow2(d)), d)
    ensures r.Success? && (if limit.None? then |chunks| else limit.value) == 0 ==> r.value == h.zero
  {
    var bound := if limit.None? then |chunks| else limit.value;
    var count := |chunks|;
    if count > bound {
      return Failure("chunks exceed limit");
    }
    if bound == 0 {
      RootIsPerfect(h, chunks, 0);
      assert IsLeastDepth(bound, 0);
      return Success(zerohashes[0]);
    }
    var depth := BitLength(LastIndex(count));
    var maxDepth := BitLength(bound - 1);
    BitLengthMonotone(LastIndex(count), bound - 1);
    var tmp := new Option<T>[maxDepth + 1](_ => None);
    MergeLeaves(h, zerohashes, chunks, tmp, depth);
    for j := depth to maxDepth
      invariant tmp[j] == Some(Node(h, chunks, j, 0))
    {
      ShiftOut(LastIndex(count), j);
      EmptyNode(h, chunks, j, 1);
      tmp[j + 1] := Some(h.hash(tmp[j].value, zerohashes[j]));
    }
    NextPowerOfTwo(bound);
    RootIsPerfect(h, chunks, maxDepth);
    assert IsLeastDepth(bound, maxDepth);
    return Success(tmp[maxDepth].value);
  }

  lemma {:induction false} ShiftOfZero(j: nat)
    ensures Shift(0, j) == 0
  {
    if j > 0 {
      ShiftOfZero(j - 1);
    }
  }

  lemma {:induction false} BitLengthMonotone(a: nat, b: nat)
    requires a <= b
    ensures BitLength(a) <= BitLength(b)
  {
    if a > 0 {
      BitLengthMonotone(a / 2, b / 2);
    }
  }

  /** The number of chunks at the height of the last index: one if it is a power of two, else zero. */
  lemma TopBit(count: nat, depth: nat)
    requires depth == BitLength(LastIndex(count))
    ensures Shift(count, depth) == if Pow2(depth) == count then 1 else 0
  {
    ShiftZero(count, depth);
    if count > 0 {
      ShiftOut(count - 1, depth);
      ShiftZero(count - 1, depth);
      ShiftOfPow2(depth);
    }
  }

  lemma {:induction false} ShiftOfPow2(d: nat)
    ensures Shift(Pow2(d), d) == 1
  {
    if d > 0 {
      ShiftFirst(Pow2(d), d);
      ShiftOfPow2(d - 1);
    }
  }

  /** The bit length of `n - 1` is the depth of the next power of two. */
  lemma NextPowerOfTwo(n: nat)
    requires n > 0
    ensures n <= Pow2(BitLength(n - 1))
    ensures BitLength(n - 1) > 0 ==> Pow2(BitLength(n - 1) - 1) < n
  {
    var d := BitLength(n - 1);
    ShiftOut(n - 1, d);
    ShiftZero(n - 1, d);
    if d > 0 {
      ShiftOut(n - 1, d - 1);
      ShiftZero(n - 1, d - 1);
    }
  }

  lemma {:induction false} Pow2Monotone(a: nat, b: nat)
    requires a < b
    ensures 2 * Pow2(a) <= Pow2(b)
    decreases b
  {
    if a < b - 1 {
      Pow2Monotone(a, b - 1);
    }
  }

  /** There is one least depth. */
  lemma LeastDepthIsUnique(n: nat, c: nat, d: nat)
    requires IsLeastDepth(n, c) && IsLeastDepth(n, d)
    ensures c == d
  {
    if c < d {
      if c < d - 1 {
        Pow2Monotone(c, d - 1);
      }
    } else if d < c {
      if d < c - 1 {
        Pow2Monotone(d, c - 1);
      }
    }
  }

  /** The bit length of `n - 1` is the least depth with room for `n` chunks. */
  lemma BitLengthIsLeastDepth(n: nat, d: nat)
    requires n > 0
    ensures IsLeastDepth(n, d) <==> d == BitLength(n - 1)
  {
    NextPowerOfTwo(n);
    if IsLeastDepth(n, d) {
      LeastDepthIsUnique(n, d, BitLength(n - 1));
    }
  }
}
