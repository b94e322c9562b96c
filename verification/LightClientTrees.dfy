/** Runs that there are: from every genesis, any tree of blocks can be added, and any of its blocks
    selected as head. */
module LightClientTrees {
  import opened Wrappers
  import opened BlockTree
  import opened LightClientModel
  import opened LightClientInvariant
  import opened LightClientAdd
  import opened LightClientHead
  import opened LightClientRuns
  import opened LightClientServing
  import opened LightClientStart
  import opened LightClientCommittee

  /** Blocks with their post-states, in the order in which they are added. */
  type Growth = seq<(Block, State)>

  ghost predicate Rooted(h: History) {
    WellOrdered(h.blocks) && h.anchor in h.blocks && h.blocks[h.anchor].stateRoot in h.states
  }

  /** The block extends the tree: its roots are new, it is later than its parent, and its finality names
      a block of its own chain. */
  ghost predicate CanExtend(h: History, b: Block, post: State)
    requires Rooted(h)
  {
    && b.root !in h.blocks && b.root != ZERO_ROOT && b.stateRoot !in h.states
    && b.parentRoot in h.blocks && h.blocks[b.parentRoot].stateRoot in h.states
    && b.slot > h.blocks[b.parentRoot].slot
    && b.slot > h.states[h.blocks[b.parentRoot].stateRoot].slot
    && b.slot > StartState(h).slot
    && post.slot == b.slot && post.header == b.Id()
    && (post.finalizedEpoch != GENESIS_EPOCH ==> OnChain(h.blocks, post.finalizedRoot, b.parentRoot))
  }

  ghost predicate IsTree(h: History, growth: Growth)
    decreases |growth|
  {
    growth == []
    || (Rooted(h) && CanExtend(h, growth[0].0, growth[0].1) && IsTree(Grown(h, growth[0].0, growth[0].1), growth[1..]))
  }

  ghost function Adding(h: History, b: Block, post: State): Action
    requires b.parentRoot in h.blocks
  {
    Add(b, post, h.blocks[b.parentRoot].Id())
  }

  ghost function Adds(h: History, growth: Growth): seq<Action>
    requires IsTree(h, growth)
    decreases |growth|
  {
    if growth == [] then []
    else [Adding(h, growth[0].0, growth[0].1)] + Adds(Grown(h, growth[0].0, growth[0].1), growth[1..])
  }

  function GrownBy(h: History, growth: Growth): History
    decreases |growth|
  {
    if growth == [] then h else GrownBy(Grown(h, growth[0].0, growth[0].1), growth[1..])
  }

  lemma TreeCons(h: History, b: Block, post: State, rest: Growth)
    requires Rooted(h) && CanExtend(h, b, post) && IsTree(Grown(h, b, post), rest)
    ensures IsTree(h, [(b, post)] + rest) && GrownBy(h, [(b, post)] + rest) == GrownBy(Grown(h, b, post), rest)
  {
    assert ([(b, post)] + rest)[1..] == rest;
  }

  // ---------------------------------------------------------------- runs

  /** One run after another. */
  lemma {:induction false} RunConcat(spec: Spec, h: History, s: Store, first: seq<Action>, second: seq<Action>)
    requires AllowedRun(spec, h, s, first) && Run(spec, s, first).Success?
    requires AllowedRun(spec, HistoryAfter(h, first), Run(spec, s, first).value, second)
    ensures AllowedRun(spec, h, s, first + second)
    ensures Run(spec, s, first + second) == Run(spec, Run(spec, s, first).value, second)
    ensures HistoryAfter(h, first + second) == HistoryAfter(HistoryAfter(h, first), second)
    decreases |first|
  {
    hide Allowed, Step;
    if first == [] {
      assert first + second == second;
    } else {
      var a := first[0];
      assert (first + second)[1..] == first[1..] + second;
      RunConcat(spec, Recorded(h, a), Step(spec, s, a).value, first[1..], second);
    }
  }

  lemma OneAction(spec: Spec, h: History, s: Store, a: Action)
    requires Allowed(spec, h, s, a) && Step(spec, s, a).Success?
    ensures AllowedRun(spec, h, s, [a]) && Run(spec, s, [a]) == Step(spec, s, a)
    ensures HistoryAfter(h, [a]) == Recorded(h, a)
  {
    hide Allowed, Step;
    assert [a][1..] == [];
    var s' := Step(spec, s, a).value;
    assert AllowedRun(spec, Recorded(h, a), s', []) && Run(spec, s', []) == Success(s');
    assert HistoryAfter(Recorded(h, a), []) == Recorded(h, a);
  }

  /** A run continued by selecting a head. */
  lemma SelectAfter(spec: Spec, h: History, s: Store, run: seq<Action>, h': History, s': Store, head: BlockID)
    requires AllowedRun(spec, h, s, run) && Run(spec, s, run) == Success(s') && HistoryAfter(h, run) == h'
    requires Valid(spec, h', s') && Allowed(spec, h', s', Select(head))
    ensures AllowedRun(spec, h, s, run + [Select(head)])
    ensures WellOrdered(s'.blocks) && SelectHead(spec, s', head).Success?
    ensures Run(spec, s, run + [Select(head)]) == SelectHead(spec, s', head)
    ensures Valid(spec, h', SelectHead(spec, s', head).value)
  {
    hide Valid, Allowed, AllowedRun, Run, SelectHead;
    StepIsSafe(spec, h', s', Select(head));
    OneAction(spec, h', s', Select(head));
    RunConcat(spec, h, s, run, [Select(head)]);
  }

  /** As long as nothing is finalized, every extension of the tree may be added. */
  lemma AddingIsAllowed(spec: Spec, h: History, s: Store, b: Block, post: State)
    requires Valid(spec, h, s) && s.latestFinalizedBid.slot == GENESIS_SLOT
    requires Rooted(h) && CanExtend(h, b, post)
    ensures Allowed(spec, h, s, Adding(h, b, post)) && Step(spec, s, Adding(h, b, post)).Success?
    ensures
      var s' := Step(spec, s, Adding(h, b, post)).value;
      && Valid(spec, Grown(h, b, post), s')
      && s'.latestFinalizedBid == s.latestFinalizedBid && s'.db == s.db && s'.cache.tailSlot == s.cache.tailSlot
  {
    hide ValidCache, ValidIndex, ValidCheckpoints, ValidDB, AddBlock;
    assert ValidEntry(h, b.parentRoot);
    StepIsSafe(spec, h, s, Adding(h, b, post));
    AddFrame(spec, s, b, post, h.blocks[b.parentRoot].Id());
  }

  /** Any tree can be added, block by block. */
  lemma {:induction false} TreeRuns(spec: Spec, h: History, s: Store, growth: Growth)
    requires Valid(spec, h, s) && s.latestFinalizedBid.slot == GENESIS_SLOT && IsTree(h, growth)
    ensures AllowedRun(spec, h, s, Adds(h, growth)) && Run(spec, s, Adds(h, growth)).Success?
    ensures HistoryAfter(h, Adds(h, growth)) == GrownBy(h, growth)
    ensures
      var s' := Run(spec, s, Adds(h, growth)).value;
      && Valid(spec, GrownBy(h, growth), s')
      && s'.latestFinalizedBid == s.latestFinalizedBid && s'.db == s.db && s'.cache.tailSlot == s.cache.tailSlot
    decreases |growth|
  {
    hide Valid, Allowed, Step;
    if growth != [] {
      var b, post := growth[0].0, growth[0].1;
      var a := Adding(h, b, post);
      AddingIsAllowed(spec, h, s, b, post);
      TreeRuns(spec, Grown(h, b, post), Step(spec, s, a).value, growth[1..]);
      assert Adds(h, growth)[1..] == Adds(Grown(h, b, post), growth[1..]);
    }
  }

  /** Every block descends from the genesis block. */
  lemma {:induction false} DescendsFromAnchor(spec: Spec, h: History, r: Root)
    requires ValidHistory(spec, h) && r in h.blocks
    ensures AncestorAt(h.blocks, r, GENESIS_SLOT) == Some(h.blocks[h.anchor]) && OnChain(h.blocks, h.anchor, r)
    decreases h.blocks[r].slot
  {
    assert ValidEntry(h, r) && OlderParent(h.blocks, r);
    if r != h.anchor {
      DescendsFromAnchor(spec, h, h.blocks[r].parentRoot);
    }
  }

  /** The blocks and states from the newest finalized slot on are the ones ever added. */
  lemma StoredFrom(spec: Spec, h: History, s: Store, r: Root)
    requires Valid(spec, h, s) && r in h.blocks && r != h.anchor && h.blocks[r].slot >= s.latestFinalizedBid.slot
    ensures WellOrdered(h.blocks) && WellOrdered(s.blocks) && HeadRetained(h, s, h.blocks[r].Id())
    ensures
      var q := h.blocks[r].stateRoot;
      s.blocks[r] == h.blocks[r] && q in s.states && q in h.states && s.states[q] == h.states[q]
  {
    hide ValidCache, ValidIndex, ValidCheckpoints, ValidDB;
    RetainedWalk(h, s, r, 0);
    assert ValidEntry(h, r);
  }

  /** The newest finalized block, and what has been pruned below it. */
  lemma FinalizedTip(spec: Spec, h: History, s: Store)
    requires Valid(spec, h, s)
    ensures WellOrdered(h.blocks) && s.historicalTailSlot == StartStateSlot(h)
    ensures s.latestFinalizedBid.slot in s.finalizedBlockRoots && Tip(s) in h.blocks
    ensures h.blocks[Tip(s)].slot == s.latestFinalizedBid.slot
    ensures forall r :: r in h.blocks && h.blocks[r].slot < s.latestFinalizedBid.slot ==> r !in s.blocks
  {
    hide ValidCache, ValidCheckpoints, ValidDB;
  }

  ghost function StartStateSlot(h: History): nat {
    if h.anchor in h.blocks && h.blocks[h.anchor].stateRoot in h.states then StartState(h).slot else 0
  }

  /** As long as nothing is finalized, every block may become head. */
  lemma SelectingIsAllowed(spec: Spec, h: History, s: Store, r: Root)
    requires Valid(spec, h, s) && s.latestFinalizedBid.slot == GENESIS_SLOT && r in h.blocks
    ensures Allowed(spec, h, s, Select(h.blocks[r].Id()))
  {
    hide ValidCache, ValidCheckpoints, ValidDB;
    assert ValidEntry(h, r) && ValidEntry(h, Tip(s));
    DescendsFromAnchor(spec, h, r);
    assert Tip(s) == h.anchor;
  }

  /** From every genesis, any tree of blocks can be added and any block of it selected, whatever its
      post-state finalizes. */
  lemma AnyTreeCanBeRun(spec: Spec, anchor: Block, st: State, growth: Growth, r: Root)
    requires ValidSpec(spec) && IsGenesis(spec, anchor, st)
    requires IsTree(StartHistory(anchor, st), growth) && r in GrownBy(StartHistory(anchor, st), growth).blocks
    ensures Setup(spec, anchor, st).Success?
    ensures
      var h, s := StartHistory(anchor, st), Setup(spec, anchor, st).value;
      AllowedRun(spec, h, s, Adds(h, growth) + [Select(GrownBy(h, growth).blocks[r].Id())])
  {
    hide Valid, Allowed, Step, IsTree;
    SetupIsValid(spec, anchor, st);
    SetupBounds(spec, anchor, st);
    hide Setup, IsGenesis;
    var h, s := StartHistory(anchor, st), Setup(spec, anchor, st).value;
    TreeRuns(spec, h, s, growth);
    var h', s' := GrownBy(h, growth), Run(spec, s, Adds(h, growth)).value;
    SelectingIsAllowed(spec, h', s', r);
    SelectAfter(spec, h, s, Adds(h, growth), h', s', h'.blocks[r].Id());
  }
}
