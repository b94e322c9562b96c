/** Generalized indices into binary trees: paths, proofs along them, and concatenation. */
module GeneralizedIndices {
  import opened Wrappers

  /** A backing tree: `Pair` nodes hash their children, leaves carry their root. */
  datatype Tree<T> = Leaf(root: T) | Pair(left: Tree<T>, right: Tree<T>)

  function MerkleRoot<T>(hash: (T, T) -> T, t: Tree<T>): T {
    match t
    case Leaf(root) => root
    case Pair(l, r) => hash(MerkleRoot(hash, l), MerkleRoot(hash, r))
  }

  /** The path of a generalized index from the root down; `true` is right. */
  function Path(index: nat): seq<bool> {
    if index <= 1 then [] else Path(index / 2) + [index % 2 == 1]
  }

  /** The generalized index of a path. */
  function IndexOf(path: seq<bool>): (index: nat)
    ensures index >= 1
  {
    if path == [] then 1
    else 2 * IndexOf(path[..|path| - 1]) + if path[|path| - 1] then 1 else 0
  }

  lemma {:induction false} IndexOfPath(index: nat)
    requires index >= 1
    ensures IndexOf(Path(index)) == index
  {
    if index > 1 {
      IndexOfPath(index / 2);
      assert Path(index)[..|Path(index)| - 1] == Path(index / 2);
    }
  }

  lemma {:induction false} PathOfIndex(path: seq<bool>)
    ensures Path(IndexOf(path)) == path
  {
    if path != [] {
      PathOfIndex(path[..|path| - 1]);
      assert path == path[..|path| - 1] + [path[|path| - 1]];
    }
  }

  // ---------------------------------------------------------------- concatenation

  /** `bit_floor`: the largest power of two that is at most `n`. */
  function BitFloor(n: nat): nat {
    if n <= 1 then n else 2 * BitFloor(n / 2)
  }

  function Concat(a: nat, b: nat): int {
    a * BitFloor(b) + (b - BitFloor(b))
  }

  lemma ConcatDoubles(a: nat, b: nat)
    requires b > 1
    ensures Concat(a, b) == 2 * Concat(a, b / 2) + b % 2
  {
    var f := BitFloor(b / 2);
    assert BitFloor(b) == 2 * f;
    assert a * (2 * f) == 2 * (a * f);
  }

  /** Concatenating indices concatenates their paths. */
  lemma {:induction false} ConcatPaths(a: nat, b: nat)
    requires a >= 1 && b >= 1
    ensures Concat(a, b) >= 1 && Path(Concat(a, b)) == Path(a) + Path(b)
  {
    if b > 1 {
      ConcatPaths(a, b / 2);
      var c := Concat(a, b / 2);
      ConcatDoubles(a, b);
      hide Concat, BitFloor;
      assert Path(b) == Path(b / 2) + [b % 2 == 1];
      assert Path(2 * c + b % 2) == Path(c) + [b % 2 == 1];
      assert Path(a) + Path(b / 2) + [b % 2 == 1] == Path(a) + (Path(b / 2) + [b % 2 == 1]);
    } else {
      assert Path(a) + [] == Path(a);
    }
  }

  function AllPaths(indices: seq<nat>): seq<bool> {
    if indices == [] then [] else AllPaths(indices[..|indices| - 1]) + Path(indices[|indices| - 1])
  }

  /** `concat_generalized_indices`: the index whose path runs through all given paths in turn. */
  method ConcatGeneralizedIndices(indices: seq<nat>) returns (o: nat)
    requires forall k :: 0 <= k < |indices| ==> indices[k] >= 1
    ensures o >= 1 && Path(o) == AllPaths(indices)
  {
    o := 1;
    for k := 0 to |indices|
      invariant o >= 1 && Path(o) == AllPaths(indices[..k])
    {
      var i := indices[k];
      ConcatPaths(o, i);
      assert indices[..k + 1][..k] == indices[..k];
      o := o * BitFloor(i) + (i - BitFloor(i));
    }
    assert indices[..|indices|] == indices;
  }

  lemma SamePath(a: nat, b: nat)
    requires a >= 1 && b >= 1 && Path(a) == Path(b)
    ensures a == b
  {
    IndexOfPath(a);
    IndexOfPath(b);
  }

  /** Concatenation is associative, has the root index as identity, and adds depths. */
  lemma ConcatIsMonoid(a: nat, b: nat, c: nat)
    requires a >= 1 && b >= 1 && c >= 1
    ensures Concat(a, b) >= 1 && Concat(b, c) >= 1
    ensures Concat(Concat(a, b), c) == Concat(a, Concat(b, c))
    ensures Concat(1, a) == a == Concat(a, 1)
    ensures |Path(Concat(a, b))| == |Path(a)| + |Path(b)|
  {
    ConcatPaths(a, b);
    ConcatPaths(b, c);
    ConcatUnit(a);
    hide Concat, Path;
    ConcatPaths(Concat(a, b), c);
    ConcatPaths(a, Concat(b, c));
    assert (Path(a) + Path(b)) + Path(c) == Path(a) + (Path(b) + Path(c));
    SamePath(Concat(Concat(a, b), c), Concat(a, Concat(b, c)));
  }

  lemma ConcatUnit(a: nat)
    ensures Concat(1, a) == a == Concat(a, 1)
  {
  }

  // ---------------------------------------------------------------- navigation and proofs

  /** The node a path leads to, if it exists. */
  function Navigate<T>(t: Tree<T>, path: seq<bool>): Option<Tree<T>> {
    if path == [] then Some(t)
    else if t.Leaf? then None
    else Navigate(if path[0] then t.right else t.left, path[1..])
  }

  /** The roots beside a path, from the bottom up. */
  function Beside<T>(hash: (T, T) -> T, t: Tree<T>, path: seq<bool>): seq<T>
    requires Navigate(t, path).Some?
  {
    if path == [] then []
    else
      Beside(hash, if path[0] then t.right else t.left, path[1..])
      + [MerkleRoot(hash, if path[0] then t.left else t.right)]
  }

  function Reversed<T>(s: seq<T>): (r: seq<T>)
    ensures |r| == |s|
    ensures forall i :: 0 <= i < |s| ==> r[i] == s[|s| - 1 - i]
  {
    seq(|s|, i requires 0 <= i < |s| => s[|s| - 1 - i])
  }

  /** `build_proof`: walks down, collecting the roots of the other hands, and reverses them. It
      raises when the path leaves the tree. */
  method BuildProof<T>(hash: (T, T) -> T, anchor: Tree<T>, leafIndex: nat) returns (r: Option<seq<T>>)
    ensures r.Some? <==> Navigate(anchor, Path(leafIndex)).Some?
    ensures r.Some? ==> r.value == Beside(hash, anchor, Path(leafIndex))
  {
    if leafIndex <= 1 {
      return Some([]);
    }
    var node, proof := anchor, [];
    var bits := Path(leafIndex);
    for k := 0 to |bits|
      invariant Navigate(anchor, bits) == Navigate(node, bits[k..])
      invariant Navigate(node, bits[k..]).Some? ==>
                  Beside(hash, anchor, bits) == Beside(hash, node, bits[k..]) + Reversed(proof)
    {
      if node.Leaf? {
        return None;
      }
      assert bits[k..][1..] == bits[k + 1..];
      if bits[k] {
        proof := proof + [MerkleRoot(hash, node.left)];
        node := node.right;
      } else {
        proof := proof + [MerkleRoot(hash, node.right)];
        node := node.left;
      }
    }
    return Some(Reversed(proof));
  }

  /** `calculate_merkle_root`: the root that a node and a proof hash to, along a path. */
  function RootFrom<T>(hash: (T, T) -> T, node: T, proof: seq<T>, path: seq<bool>): T
    requires |proof| == |path|
    decreases |path|
  {
    if path == [] then node
    else
      var n := |proof| - 1;
      var below := RootFrom(hash, node, proof[..n], path[1..]);
      if path[0] then hash(proof[n], below) else hash(below, proof[n])
  }

  lemma {:induction false} BesideLength<T>(hash: (T, T) -> T, t: Tree<T>, path: seq<bool>)
    requires Navigate(t, path).Some?
    ensures |Beside(hash, t, path)| == |path|
    decreases |path|
  {
    if path != [] {
      BesideLength(hash, if path[0] then t.right else t.left, path[1..]);
    }
  }

  /** The node at an index and its proof hash to the anchor root. */
  lemma {:induction false} ProofRecoversRoot<T>(hash: (T, T) -> T, t: Tree<T>, path: seq<bool>)
    requires Navigate(t, path).Some?
    ensures |Beside(hash, t, path)| == |path|
    ensures RootFrom(hash, MerkleRoot(hash, Navigate(t, path).value), Beside(hash, t, path), path)
      == MerkleRoot(hash, t)
    decreases |path|
  {
    BesideLength(hash, t, path);
    if path != [] {
      var child := if path[0] then t.right else t.left;
      ProofRecoversRoot(hash, child, path[1..]);
      assert Beside(hash, t, path)[..|path| - 1] == Beside(hash, child, path[1..]);
    }
  }

  /** With a collision-free hash nothing else does. */
  lemma {:induction false} ProofBinds<T(!new)>(hash: (T, T) -> T, t: Tree<T>, path: seq<bool>, node: T, proof: seq<T>)
    requires forall a, b, c, d :: hash(a, b) == hash(c, d) ==> a == c && b == d
    requires Navigate(t, path).Some? && |proof| == |path|
    requires RootFrom(hash, node, proof, path) == MerkleRoot(hash, t)
    ensures node == MerkleRoot(hash, Navigate(t, path).value)
    ensures proof == Beside(hash, t, path)
    decreases |path|
  {
    if path != [] {
      ProofBinds(hash, if path[0] then t.right else t.left, path[1..], node, proof[..|proof| - 1]);
    }
  }

  lemma {:induction false} NavigateConcat<T>(t: Tree<T>, p: seq<bool>, q: seq<bool>)
    ensures Navigate(t, p + q) == match Navigate(t, p) case Some(n) => Navigate(n, q) case None => None
    decreases |p|
  {
    if p == [] {
      assert p + q == q;
    } else if t.Pair? {
      assert (p + q)[1..] == p[1..] + q;
      NavigateConcat(if p[0] then t.right else t.left, p[1..], q);
    }
  }

  /** The proof at a concatenated index is the proof inside the first node, then the proof of
      that node. */
  lemma {:induction false} BesideConcat<T>(hash: (T, T) -> T, t: Tree<T>, p: seq<bool>, q: seq<bool>)
    requires Navigate(t, p + q).Some?
    ensures Navigate(t, p).Some? && Navigate(Navigate(t, p).value, q).Some?
    ensures Beside(hash, t, p + q) == Beside(hash, Navigate(t, p).value, q) + Beside(hash, t, p)
    decreases |p|
  {
    NavigateConcat(t, p, q);
    if p == [] {
      assert p + q == q;
    } else {
      var child := if p[0] then t.right else t.left;
      assert (p + q)[1..] == p[1..] + q;
      BesideConcat(hash, child, p[1..], q);
    }
  }

  /** Navigation and proofs at `concat(a, b)`. */
  lemma ConcatComposes<T>(hash: (T, T) -> T, t: Tree<T>, a: nat, b: nat)
    requires a >= 1 && b >= 1 && Concat(a, b) >= 0
    requires Navigate(t, Path(Concat(a, b))).Some?
    ensures Navigate(t, Path(a)).Some?
    ensures var inner := Navigate(t, Path(a)).value;
            && Navigate(inner, Path(b)) == Navigate(t, Path(Concat(a, b)))
            && Beside(hash, t, Path(Concat(a, b))) == Beside(hash, inner, Path(b)) + Beside(hash, t, Path(a))
  {
    ConcatPaths(a, b);
    NavigateConcat(t, Path(a), Path(b));
    BesideConcat(hash, t, Path(a), Path(b));
  }
}
