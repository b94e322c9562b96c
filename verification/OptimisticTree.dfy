/** Chains of blocks with execution payloads, and the optimistic choice of the head among those not
    invalidated. */
module OptimisticTree {
  import opened Wrappers

  type Root = nat
  type Hash = nat

  /** The block hash of a payload that is not there yet. */
  const ZERO_HASH: Hash := 0

  datatype Block = Block(root: Root, parentRoot: Root, slot: nat, blockHash: Hash)

  type Blocks = map<Root, Block>

  ghost predicate ParentOlder(blocks: Blocks, b: Block) {
    b.parentRoot in blocks ==> blocks[b.parentRoot].slot < b.slot
  }

  ghost predicate Ordered(blocks: Blocks) {
    forall r {:trigger r in blocks} :: r in blocks ==> blocks[r].root == r && ParentOlder(blocks, blocks[r])
  }

  // ---------------------------------------------------------------- chains

  /** The block `k` steps up from `b`. */
  function BlockAt(blocks: Blocks, b: Block, k: nat): Option<Block>
    decreases k
  {
    if k == 0 then Some(b)
    else if b.parentRoot in blocks then BlockAt(blocks, blocks[b.parentRoot], k - 1)
    else None
  }

  /** The root `k` steps up from root `r`; the last one need not be stored. */
  function RootAt(blocks: Blocks, r: Root, k: nat): Option<Root>
    decreases k
  {
    if k == 0 then Some(r)
    else if r in blocks then RootAt(blocks, blocks[r].parentRoot, k - 1)
    else None
  }

  /** `x` is `y` or a descendant of it. */
  ghost predicate Under(blocks: Blocks, x: Root, y: Root) {
    exists k: nat :: RootAt(blocks, x, k) == Some(y)
  }

  lemma {:induction false} RootAtSum(blocks: Blocks, r: Root, k: nat, m: nat)
    requires RootAt(blocks, r, k).Some?
    ensures RootAt(blocks, r, k + m) == RootAt(blocks, RootAt(blocks, r, k).value, m)
    decreases k
  {
    if k > 0 {
      RootAtSum(blocks, blocks[r].parentRoot, k - 1, m);
    }
  }

  lemma {:induction false} AncestorIsOlder(blocks: Blocks, r: Root, k: nat)
    requires Ordered(blocks) && k > 0 && RootAt(blocks, r, k).Some?
    ensures r in blocks
    ensures var a := RootAt(blocks, r, k).value; a in blocks ==> blocks[a].slot < blocks[r].slot
    decreases k
  {
    assert ParentOlder(blocks, blocks[r]);
    if k > 1 {
      AncestorIsOlder(blocks, blocks[r].parentRoot, k - 1);
    }
  }

  /** Two blocks under each other are the same. */
  lemma UnderBothWays(blocks: Blocks, x: Root, y: Root)
    requires Ordered(blocks) && Under(blocks, x, y) && Under(blocks, y, x)
    ensures x == y
  {
    var k: nat :| RootAt(blocks, x, k) == Some(y);
    var m: nat :| RootAt(blocks, y, m) == Some(x);
    if k > 0 && m > 0 {
      AncestorIsOlder(blocks, x, k);
      AncestorIsOlder(blocks, y, m);
      assert false;
    }
  }

  // ---------------------------------------------------------------- the invalidated segment

  /** The walk stops at the latest valid block or before the first execution block. */
  predicate Stop(b: Block, latestValid: Hash) {
    b.blockHash == latestValid || b.blockHash == ZERO_HASH
  }

  /** The roots from `b` upwards, as far as the walk goes. */
  ghost function Segment(blocks: Blocks, b: Block, latestValid: Hash): seq<Root>
    requires Ordered(blocks) && ParentOlder(blocks, b)
    decreases b.slot
  {
    if Stop(b, latestValid) then []
    else if b.parentRoot !in blocks then [b.root]
    else [b.root] + Segment(blocks, blocks[b.parentRoot], latestValid)
  }

  /** The walk reaches a block to stop at. */
  ghost predicate Stops(blocks: Blocks, b: Block, latestValid: Hash)
    requires Ordered(blocks) && ParentOlder(blocks, b)
    decreases b.slot
  {
    Stop(b, latestValid) || (b.parentRoot in blocks && Stops(blocks, blocks[b.parentRoot], latestValid))
  }

  /** The segment is the chain up to, and excluding, the first block to stop at. */
  lemma {:induction false} SegmentIsChain(blocks: Blocks, b: Block, latestValid: Hash, k: nat)
    requires Ordered(blocks) && ParentOlder(blocks, b)
    ensures k < |Segment(blocks, b, latestValid)| ==>
      var a := BlockAt(blocks, b, k);
      && a.Some? && a.value.root == Segment(blocks, b, latestValid)[k]
      && a.value.blockHash != latestValid && a.value.blockHash != 0
    ensures k == |Segment(blocks, b, latestValid)| ==>
      var a := BlockAt(blocks, b, k);
      if Stops(blocks, b, latestValid)
      then a.Some? && (a.value.blockHash == latestValid || a.value.blockHash == 0)
      else a == None
    decreases k
  {
    if k > 0 && !Stop(b, latestValid) && b.parentRoot in blocks {
      SegmentIsChain(blocks, blocks[b.parentRoot], latestValid, k - 1);
    }
  }

  // ---------------------------------------------------------------- the head

  /** The blocks that the walk to the head may step to. */
  function Children(blocks: Blocks, invalid: set<Root>, head: Root): set<Root> {
    set r | r in blocks && blocks[r].parentRoot == head && r !in invalid
  }

  /** The heaviest child, and of equally heavy ones that of the largest root. */
  ghost predicate IsBest(children: set<Root>, weight: Root -> nat, best: Root) {
    && best in children
    && forall r :: r in children ==> weight(r) <= weight(best) && (weight(r) == weight(best) ==> r <= best)
  }

  lemma BestIsUnique(children: set<Root>, weight: Root -> nat, a: Root, b: Root)
    requires IsBest(children, weight, a) && IsBest(children, weight, b)
    ensures a == b
  {
  }

  /** A walk from the justified root that always takes the best child. */
  ghost predicate Greedy(blocks: Blocks, invalid: set<Root>, weight: Root -> nat, path: seq<Root>) {
    && path != []
    && forall i :: 0 <= i < |path| - 1 ==> IsBest(Children(blocks, invalid, path[i]), weight, path[i + 1])
  }

  /** The walk that goes on until there is no child left. */
  ghost predicate ToHead(blocks: Blocks, invalid: set<Root>, weight: Root -> nat, path: seq<Root>) {
    Greedy(blocks, invalid, weight, path) && Children(blocks, invalid, path[|path| - 1]) == {}
  }

  ghost predicate Leads(
    blocks: Blocks, invalid: set<Root>, weight: Root -> nat, start: Root, head: Root, path: seq<Root>)
  {
    ToHead(blocks, invalid, weight, path) && path[0] == start && path[|path| - 1] == head
  }

  /** `head` is where the complete walk from `start` ends. */
  ghost predicate IsHead(blocks: Blocks, invalid: set<Root>, weight: Root -> nat, start: Root, head: Root) {
    exists path :: Leads(blocks, invalid, weight, start, head, path)
  }

  /** The head is determined by the tree, the weights and the invalidated blocks. */
  lemma HeadIsUnique(blocks: Blocks, invalid: set<Root>, weight: Root -> nat, start: Root, a: Root, b: Root)
    requires IsHead(blocks, invalid, weight, start, a) && IsHead(blocks, invalid, weight, start, b)
    ensures a == b
  {
    var p :| Leads(blocks, invalid, weight, start, a, p);
    var q :| Leads(blocks, invalid, weight, start, b, q);
    WalkIsUnique(blocks, invalid, weight, p, q);
  }

  /** Any two complete walks are the same. */
  lemma {:induction false} WalkIsUnique(
    blocks: Blocks, invalid: set<Root>, weight: Root -> nat, p: seq<Root>, q: seq<Root>)
    requires ToHead(blocks, invalid, weight, p) && ToHead(blocks, invalid, weight, q) && p[0] == q[0]
    ensures p == q
  {
    GoesOn(blocks, invalid, weight, p);
    GoesOn(blocks, invalid, weight, q);
    if |p| > 1 {
      BestIsUnique(Children(blocks, invalid, p[0]), weight, p[1], q[1]);
      TailToHead(blocks, invalid, weight, p);
      TailToHead(blocks, invalid, weight, q);
      WalkIsUnique(blocks, invalid, weight, p[1..], q[1..]);
      assert p == [p[0]] + p[1..] && q == [q[0]] + q[1..];
    }
  }

  lemma GoesOn(blocks: Blocks, invalid: set<Root>, weight: Root -> nat, p: seq<Root>)
    requires ToHead(blocks, invalid, weight, p)
    ensures |p| > 1 <==> Children(blocks, invalid, p[0]) != {}
  {
    if |p| > 1 {
      assert IsBest(Children(blocks, invalid, p[0]), weight, p[1]);
    }
  }

  lemma TailToHead(blocks: Blocks, invalid: set<Root>, weight: Root -> nat, p: seq<Root>)
    requires ToHead(blocks, invalid, weight, p) && |p| > 1
    ensures ToHead(blocks, invalid, weight, p[1..])
  {
    var q := p[1..];
    forall i | 0 <= i < |q| - 1 ensures IsBest(Children(blocks, invalid, q[i]), weight, q[i + 1]) {
      assert IsBest(Children(blocks, invalid, p[i + 1]), weight, p[i + 2]);
    }
  }

  /** The filtered tree holds blocks of the store. */
  ghost predicate Part(filtered: Blocks, blocks: Blocks) {
    forall r :: r in filtered ==> r in blocks && blocks[r] == filtered[r]
  }

  /** Walking back up from the end of a greedy path retraces it. */
  lemma {:induction false} PathIsChain(
    blocks: Blocks, filtered: Blocks, invalid: set<Root>, weight: Root -> nat, path: seq<Root>, k: nat)
    requires Part(filtered, blocks) && Greedy(filtered, invalid, weight, path) && k < |path|
    ensures RootAt(blocks, path[|path| - 1], k) == Some(path[|path| - 1 - k])
  {
    if k > 0 {
      var n := |path|;
      PathIsChain(blocks, filtered, invalid, weight, path, k - 1);
      RootAtSum(blocks, path[n - 1], k - 1, 1);
      assert path[n - k] in Children(filtered, invalid, path[n - k - 1]);
      assert RootAt(blocks, path[n - k], 1) == Some(path[n - 1 - k]) by {
        assert RootAt(blocks, path[n - 1 - k], 0) == Some(path[n - 1 - k]);
      }
    }
  }

  /** What lies above the end of a greedy path is on the path, or above its start. */
  lemma AboveHead(
    blocks: Blocks, filtered: Blocks, invalid: set<Root>, weight: Root -> nat, path: seq<Root>, y: Root, k: nat)
    requires Part(filtered, blocks) && Greedy(filtered, invalid, weight, path)
    requires RootAt(blocks, path[|path| - 1], k) == Some(y)
    ensures y !in invalid || Under(blocks, path[0], y)
  {
    var n := |path|;
    if k < n - 1 {
      PathIsChain(blocks, filtered, invalid, weight, path, k);
      var i := n - 2 - k;
      assert path[i + 1] in Children(filtered, invalid, path[i]);
    } else {
      PathIsChain(blocks, filtered, invalid, weight, path, n - 1);
      RootAtSum(blocks, path[n - 1], n - 1, k - (n - 1));
      assert RootAt(blocks, path[0], k - (n - 1)) == Some(y);
    }
  }

  /** The head is an invalidated block, or below one, exactly where that block is the justified root or
      above it. */
  lemma HeadAvoidsInvalidated(
    blocks: Blocks, filtered: Blocks, invalid: set<Root>, weight: Root -> nat, start: Root, head: Root, y: Root)
    requires Part(filtered, blocks) && IsHead(filtered, invalid, weight, start, head)
    requires y in invalid
    ensures Under(blocks, head, y) <==> Under(blocks, start, y)
  {
    var path :| Leads(filtered, invalid, weight, start, head, path);
    if m: nat :| RootAt(blocks, start, m) == Some(y) {
      PathIsChain(blocks, filtered, invalid, weight, path, |path| - 1);
      RootAtSum(blocks, head, |path| - 1, m);
      assert RootAt(blocks, head, |path| - 1 + m) == Some(y);
    }
    if k: nat :| RootAt(blocks, head, k) == Some(y) {
      AboveHead(blocks, filtered, invalid, weight, path, y, k);
    }
  }

  /** In particular, for blocks strictly below the justified root. */
  lemma HeadAvoidsBelow(
    blocks: Blocks, filtered: Blocks, invalid: set<Root>, weight: Root -> nat, start: Root, head: Root, y: Root)
    requires Ordered(blocks) && Part(filtered, blocks) && IsHead(filtered, invalid, weight, start, head)
    requires y in invalid && y != start && Under(blocks, y, start)
    ensures !Under(blocks, head, y)
  {
    if Under(blocks, start, y) {
      UnderBothWays(blocks, y, start);
    }
    HeadAvoidsInvalidated(blocks, filtered, invalid, weight, start, head, y);
  }

  // ---------------------------------------------------------------- the pruned tree

  /** `r` is not invalidated, and not below an invalidated block (other than the start and what is
      above it). */
  ghost predicate Healthy(blocks: Blocks, invalid: set<Root>, start: Root, r: Root) {
    forall y :: y in invalid && Under(blocks, r, y) ==> Under(blocks, start, y)
  }

  /** The tree without the invalidated blocks and all their descendants. */
  ghost function WithoutInvalidated(blocks: Blocks, invalid: set<Root>, start: Root): Blocks {
    map r | r in blocks && Healthy(blocks, invalid, start, r) :: blocks[r]
  }

  /** At the end of a greedy path, the children not invalidated are those of the pruned tree. */
  lemma SameChildren(blocks: Blocks, invalid: set<Root>, weight: Root -> nat, path: seq<Root>)
    requires Ordered(blocks) && Greedy(blocks, invalid, weight, path)
    ensures Children(blocks, invalid, path[|path| - 1])
         == Children(WithoutInvalidated(blocks, invalid, path[0]), {}, path[|path| - 1])
  {
    var head := path[|path| - 1];
    PathIsChain(blocks, blocks, invalid, weight, path, |path| - 1);
    assert Under(blocks, head, path[0]);
    forall r | r in blocks && blocks[r].parentRoot == head
      ensures r !in invalid <==> Healthy(blocks, invalid, path[0], r)
    {
      ChildIsHealthy(blocks, invalid, weight, path, r);
    }
  }

  lemma ChildIsHealthy(blocks: Blocks, invalid: set<Root>, weight: Root -> nat, path: seq<Root>, r: Root)
    requires Ordered(blocks) && Greedy(blocks, invalid, weight, path)
    requires r in blocks && blocks[r].parentRoot == path[|path| - 1] && Under(blocks, path[|path| - 1], path[0])
    ensures r !in invalid <==> Healthy(blocks, invalid, path[0], r)
  {
    var head := path[|path| - 1];
    assert RootAt(blocks, r, 0) == Some(r);
    NotAboveParent(blocks, r, path[0]);
    if r !in invalid {
      forall y | y in invalid && Under(blocks, r, y) ensures Under(blocks, path[0], y) {
        var k: nat :| RootAt(blocks, r, k) == Some(y);
        AboveHead(blocks, blocks, invalid, weight, path, y, k - 1);
      }
    }
  }

  lemma NotAboveParent(blocks: Blocks, r: Root, start: Root)
    requires Ordered(blocks) && r in blocks && Under(blocks, blocks[r].parentRoot, start)
    ensures !Under(blocks, start, r)
  {
    var k: nat :| RootAt(blocks, blocks[r].parentRoot, k) == Some(start);
    assert RootAt(blocks, r, k + 1) == Some(start);
    forall m: nat ensures RootAt(blocks, start, m) != Some(r) {
      if RootAt(blocks, start, m) == Some(r) {
        RootAtSum(blocks, r, k + 1, m);
        AncestorIsOlder(blocks, r, k + 1 + m);
      }
    }
  }

  /** The optimistic head is the head of the plain fork choice on the tree from which the invalidated
      blocks and all their descendants are removed. */
  lemma HeadOfPrunedTree(blocks: Blocks, invalid: set<Root>, weight: Root -> nat, start: Root, head: Root)
    requires Ordered(blocks)
    ensures IsHead(blocks, invalid, weight, start, head)
       <==> IsHead(WithoutInvalidated(blocks, invalid, start), {}, weight, start, head)
  {
    var kept := WithoutInvalidated(blocks, invalid, start);
    forall path: seq<Root> | path != [] && path[0] == start
      ensures Leads(blocks, invalid, weight, start, head, path) <==> Leads(kept, {}, weight, start, head, path)
    {
      WalkInPruned(blocks, invalid, weight, path);
    }
  }

  lemma WalkInPruned(blocks: Blocks, invalid: set<Root>, weight: Root -> nat, path: seq<Root>)
    requires Ordered(blocks) && path != []
    ensures ToHead(blocks, invalid, weight, path)
       <==> ToHead(WithoutInvalidated(blocks, invalid, path[0]), {}, weight, path)
  {
    GreedyInPruned(blocks, invalid, weight, path);
    if Greedy(blocks, invalid, weight, path) {
      SameChildren(blocks, invalid, weight, path);
    }
  }

  lemma {:induction false} GreedyInPruned(blocks: Blocks, invalid: set<Root>, weight: Root -> nat, path: seq<Root>)
    requires Ordered(blocks) && path != []
    ensures Greedy(blocks, invalid, weight, path)
       <==> Greedy(WithoutInvalidated(blocks, invalid, path[0]), {}, weight, path)
  {
    if |path| > 1 {
      var front := path[..|path| - 1];
      GreedyInPruned(blocks, invalid, weight, front);
      LastStep(blocks, invalid, weight, path);
      LastStep(WithoutInvalidated(blocks, invalid, path[0]), {}, weight, path);
      if Greedy(blocks, invalid, weight, front) {
        SameChildren(blocks, invalid, weight, front);
      }
    }
  }

  lemma LastStep(blocks: Blocks, invalid: set<Root>, weight: Root -> nat, path: seq<Root>)
    requires |path| > 1
    ensures
      var n := |path|;
      Greedy(blocks, invalid, weight, path) <==>
        && Greedy(blocks, invalid, weight, path[..n - 1])
        && IsBest(Children(blocks, invalid, path[n - 2]), weight, path[n - 1])
  {
    var n := |path|;
    var front := path[..n - 1];
    if Greedy(blocks, invalid, weight, front) && IsBest(Children(blocks, invalid, path[n - 2]), weight, path[n - 1]) {
      forall i | 0 <= i < n - 1 ensures IsBest(Children(blocks, invalid, path[i]), weight, path[i + 1]) {
        if i < n - 2 {
          assert IsBest(Children(blocks, invalid, front[i]), weight, front[i + 1]);
        }
      }
    }
  }

  /** A complete walk, in weights and roots: each step goes to a child not invalidated, none of its
      siblings left is heavier, none equally heavy has a larger root, and the last block has no child
      left. */
  lemma WalkIsHeaviest(blocks: Blocks, invalid: set<Root>, weight: Root -> nat, path: seq<Root>)
    requires ToHead(blocks, invalid, weight, path)
    ensures forall i :: 0 < i < |path| ==>
      path[i] in blocks && blocks[path[i]].parentRoot == path[i - 1] && path[i] !in invalid
    ensures forall i, r :: 0 < i < |path| && r in blocks && blocks[r].parentRoot == path[i - 1] && r !in invalid ==>
      weight(r) <= weight(path[i]) && (weight(r) == weight(path[i]) ==> r <= path[i])
    ensures forall r :: r in blocks && blocks[r].parentRoot == path[|path| - 1] ==> r in invalid
  {
    forall i | 0 < i < |path|
      ensures path[i] in blocks && blocks[path[i]].parentRoot == path[i - 1] && path[i] !in invalid
      ensures forall r :: r in blocks && blocks[r].parentRoot == path[i - 1] && r !in invalid ==>
        weight(r) <= weight(path[i]) && (weight(r) == weight(path[i]) ==> r <= path[i])
    {
      var j := i - 1;
      assert IsBest(Children(blocks, invalid, path[j]), weight, path[j + 1]);
      assert forall r :: r in blocks && blocks[r].parentRoot == path[j] && r !in invalid ==>
        r in Children(blocks, invalid, path[j]);
    }
    forall r | r in blocks && blocks[r].parentRoot == path[|path| - 1] ensures r in invalid {
      assert r !in invalid <==> r in Children(blocks, invalid, path[|path| - 1]);
    }
  }

  // ---------------------------------------------------------------- the loop

  /** Blocks that can still lie ahead of the walk. */
  ghost function Ahead(blocks: Blocks, head: Root): set<Root> {
    set r | r in blocks && (head in blocks ==> blocks[head].slot < blocks[r].slot)
  }

  lemma FewerAhead(blocks: Blocks, head: Root, child: Root)
    requires Ordered(blocks) && child in blocks && blocks[child].parentRoot == head
    ensures |Ahead(blocks, child)| < |Ahead(blocks, head)|
  {
    assert ParentOlder(blocks, blocks[child]);
    assert child in Ahead(blocks, head) && child !in Ahead(blocks, child);
    SubsetIsSmaller(Ahead(blocks, child), Ahead(blocks, head), child);
  }

  lemma SubsetIsSmaller(a: set<Root>, b: set<Root>, x: Root)
    requires a <= b && x in b && x !in a
    ensures |a| < |b|
  {
    assert b == a + (b - a) && x in b - a;
  }

  /** `max(children, key=...)`. */
  method MaxChild(children: set<Root>, weight: Root -> nat) returns (best: Root)
    requires children != {}
    ensures best in children
    ensures forall r :: r in children ==> weight(r) <= weight(best)
    ensures forall r :: r in children && weight(r) == weight(best) ==> r <= best
  {
    best :| best in children;
    var rest := children - {best};
    while rest != {}
      invariant rest < children && best in children && best !in rest
      invariant forall r :: r in children && r !in rest ==>
        weight(r) <= weight(best) && (weight(r) == weight(best) ==> r <= best)
      decreases |rest|
    {
      var r :| r in rest;
      if weight(best) < weight(r) || (weight(best) == weight(r) && best < r) {
        best := r;
      }
      rest := rest - {r};
    }
  }

  /** `get_opt_head_block_root`, on the filtered tree. It ends for every tree. */
  method GetOptHeadBlockRoot(filtered: Blocks, justified: Root, weight: Root -> nat, invalid: set<Root>)
    returns (head: Root)
    requires Ordered(filtered)
    ensures IsHead(filtered, invalid, weight, justified, head)
    ensures exists path ::
      && Leads(filtered, invalid, weight, justified, head, path)
      && |path| > 0 && path[0] == justified && path[|path| - 1] == head
      && (forall i :: 0 < i < |path| ==>
           path[i] in filtered && filtered[path[i]].parentRoot == path[i - 1] && path[i] !in invalid)
      && (forall i, r :: 0 < i < |path| && r in filtered && filtered[r].parentRoot == path[i - 1] && r !in invalid ==>
           weight(r) <= weight(path[i]) && (weight(r) == weight(path[i]) ==> r <= path[i]))
      && (forall r :: r in filtered && filtered[r].parentRoot == head ==> r in invalid)
  {
    head := justified;
    ghost var path := [head];
    var children := Children(filtered, invalid, head);
    while children != {}
      invariant Greedy(filtered, invalid, weight, path)
      invariant path[0] == justified && path[|path| - 1] == head
      invariant children == Children(filtered, invalid, head)
      decreases |Ahead(filtered, head)|
    {
      var best := MaxChild(children, weight);
      FewerAhead(filtered, head, best);
      head := best;
      path := path + [head];
      children := Children(filtered, invalid, head);
    }
    assert Leads(filtered, invalid, weight, justified, head, path);
    WalkIsHeaviest(filtered, invalid, weight, path);
  }
}
