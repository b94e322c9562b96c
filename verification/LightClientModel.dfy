/** Data model of the light client data store, and each of its operations as a function
    from one store to the next. */
module LightClientModel {
  import opened Wrappers
  import opened Numbers
  import opened BlockTree

  const GENESIS_SLOT: nat := 0
  const GENESIS_EPOCH: nat := 0

  /** The zero root: parent of the genesis block. */
  const ZERO_ROOT: Root := 0

  /** A sync aggregate, named by the block that carries it. */
  datatype SyncAggregate = SyncAggregate(block: Root, participants: nat)

  /** A light client update. The headers, committees and branches of the original are
      functions of the attested block and of the signing block, which name them here. */
  datatype Update = Update(attested: BlockID, signatureSlot: nat, aggregate: SyncAggregate)

  /** A beacon state: its slot, its latest block header and its finalized checkpoint. */
  datatype State = State(slot: nat, header: BlockID, finalizedEpoch: nat, finalizedRoot: Root)

  /** `current_sync_committee` of the chain that ends in block `root`, at slot `slot`. */
  datatype Committee = Committee(root: Root, slot: nat)

  ghost predicate StrictWeakOrder(better: (Update, Update) -> bool) {
    && (forall a :: !better(a, a))
    && (forall a, b, c :: better(a, b) && better(b, c) ==> better(a, c))
    && (forall a, b, c :: better(a, c) ==> better(a, b) || better(b, c))
  }

  /** Preset and configuration values, and the ranking of updates. */
  datatype Spec = Spec(slotsPerEpoch: pos, epochsPerPeriod: pos, altairForkEpoch: nat,
                       minParticipants: nat, isBetter: (Update, Update) -> bool) {
    function EpochAt(slot: nat): nat {
      slot / slotsPerEpoch
    }

    function EpochStart(epoch: nat): nat {
      epoch * slotsPerEpoch
    }

    function PeriodAt(slot: nat): nat {
      EpochAt(slot) / epochsPerPeriod
    }

    function PeriodStart(period: nat): nat {
      EpochStart(period * epochsPerPeriod)
    }

    /** The epoch whose checkpoint a block at `slot` can be: slots (e-1)*S+1 .. e*S. */
    function Window(slot: nat): nat {
      EpochAt(slot + slotsPerEpoch - 1)
    }

    function NextEpochBoundarySlot(slot: nat): nat {
      EpochStart(Window(slot))
    }

    predicate IsPostAltair(slot: nat) {
      EpochAt(slot) >= altairForkEpoch
    }
  }

  /** Cached data about a block's post-state. */
  datatype CachedData = CachedData(currentBranch: Root, best: Option<Update>, latestSignatureSlot: nat)

  datatype Cache = Cache(data: map<BlockID, CachedData>, latest: Option<Update>, tailSlot: nat)

  datatype DB = DB(headers: map<Root, BlockID>, currentBranches: map<nat, Root>,
                   syncCommittees: map<nat, Option<Committee>>, bestUpdates: map<nat, Update>)

  datatype Store = Store(blocks: Blocks, finalizedBlockRoots: map<nat, Root>,
                         states: map<Root, State>, finalizedCheckpointStates: map<Root, State>,
                         latestFinalizedEpoch: nat, latestFinalizedBid: BlockID,
                         historicalTailSlot: nat, cache: Cache, db: DB)

  /** What an operation can raise. */
  datatype Error = NotCached | RedundantCache | KeyMissing | TailBeforeAltair

  // ---------------------------------------------------------------- new blocks

  function CacheLcData(s: Store, bid: BlockID, data: CachedData): Result<Store, Error> {
    if bid in s.cache.data then Failure(RedundantCache)
    else Success(s.(cache := s.cache.(data := s.cache.data[bid := data])))
  }

  /** What `b` contributes to the best update, given the cached data of its parent. */
  function NewBest(spec: Spec, parent: BlockID, attested: CachedData, b: Block): Option<Update> {
    if spec.PeriodAt(parent.slot) != spec.PeriodAt(b.slot) then None
    else if b.participants < spec.minParticipants then attested.best
    else
      var update := Update(parent, b.slot, SyncAggregate(b.root, b.participants));
      if attested.best.None? || spec.isBetter(update, attested.best.value) then Some(update) else attested.best
  }

  function CreateLcUpdate(spec: Spec, s: Store, b: Block, parent: BlockID): Result<Store, Error> {
    if parent.slot < s.cache.tailSlot then
      CacheLcData(s, b.Id(), CachedData(b.stateRoot, None, GENESIS_SLOT))
    else if parent !in s.cache.data then
      Failure(NotCached)
    else
      var attested := s.cache.data[parent];
      var latest := if b.participants < spec.minParticipants then attested.latestSignatureSlot else b.slot;
      CacheLcData(s, b.Id(), CachedData(b.stateRoot, NewBest(spec, parent, attested, b), latest))
  }

  /** `add_new_block`, once the state transition has produced the block and its post-state. */
  function AddBlock(spec: Spec, s: Store, b: Block, post: State, parent: BlockID): Result<Store, Error> {
    var s1 := s.(blocks := s.blocks[b.root := b], states := s.states[b.stateRoot := post]);
    if b.slot < s.cache.tailSlot then Success(s1)
    else if spec.IsPostAltair(b.slot) then CreateLcUpdate(spec, s1, b, parent)
    else Failure(TailBeforeAltair)
  }

  // ---------------------------------------------------------------- head changes

  function LowSlot(s: Store): nat {
    Max(s.cache.tailSlot, s.latestFinalizedBid.slot)
  }

  /** The newest block of the head's chain in or before `period`. */
  ghost function PeriodEndAncestor(spec: Spec, m: Blocks, head: Root, period: nat): Option<Block>
    requires WellOrdered(m)
  {
    AncestorAt(m, head, spec.PeriodStart(period + 1) - 1)
  }

  /** The periods whose entry a change to `head` commits. */
  ghost predicate Commits(spec: Spec, s: Store, head: BlockID, period: nat)
    requires WellOrdered(s.blocks)
  {
    && spec.PeriodAt(LowSlot(s)) <= period <= spec.PeriodAt(head.slot)
    && var a := PeriodEndAncestor(spec, s.blocks, head.root, period);
       a.Some? && a.value.slot >= LowSlot(s)
  }

  /** A cached best update counts only with enough participants. */
  function Enough(spec: Spec, best: Option<Update>): Option<Update> {
    if best.Some? && best.value.aggregate.participants < spec.minParticipants then None else best
  }

  /** The entry a change to `head` leaves for `period`. */
  ghost function EntryAfter(spec: Spec, s: Store, head: BlockID, period: nat): Option<Update>
    requires WellOrdered(s.blocks)
  {
    if Commits(spec, s, head, period) then
      var bid := PeriodEndAncestor(spec, s.blocks, head.root, period).value.Id();
      if bid in s.cache.data then Enough(spec, s.cache.data[bid].best) else None
    else EntryOf(s.db.bestUpdates, period)
  }

  function EntryOf(entries: map<nat, Update>, period: nat): Option<Update> {
    if period in entries then Some(entries[period]) else None
  }

  /** Every cached block a change to `head` reads for `best_updates` is cached. */
  ghost predicate BestReadsCached(spec: Spec, s: Store, head: BlockID)
    requires WellOrdered(s.blocks)
  {
    forall p :: Commits(spec, s, head, p) ==>
      PeriodEndAncestor(spec, s.blocks, head.root, p).value.Id() in s.cache.data
  }

  function PeriodsThrough(last: nat): (periods: set<nat>)
    ensures forall p: nat :: p in periods <==> p <= last
  {
    if last == 0 then {0} else PeriodsThrough(last - 1) + {last}
  }

  ghost function BestUpdatesAfter(spec: Spec, s: Store, head: BlockID): map<nat, Update>
    requires WellOrdered(s.blocks)
  {
    var touched := s.db.bestUpdates.Keys + PeriodsThrough(spec.PeriodAt(head.slot));
    map p | p in touched && EntryAfter(spec, s, head, p).Some? :: EntryAfter(spec, s, head, p).value
  }

  ghost function LatestAfter(s: Store, head: BlockID): Result<Option<Update>, Error>
    requires WellOrdered(s.blocks)
  {
    if head !in s.cache.data then Failure(NotCached)
    else
      var low := LowSlot(s);
      var signatureSlot := s.cache.data[head].latestSignatureSlot;
      if signatureSlot <= low then Success(None) else
      var x := AncestorAt(s.blocks, head.root, signatureSlot);
      if x.None? || x.value.slot <= low then Success(None) else
      var a := AncestorAt(s.blocks, x.value.root, x.value.slot - 1);
      if a.None? || a.value.slot < low then Success(None)
      else if a.value.Id() !in s.cache.data then Failure(NotCached)
      else Success(Some(Update(a.value.Id(), signatureSlot, SyncAggregate(x.value.root, x.value.participants))))
  }

  ghost function HeadChange(spec: Spec, s: Store, head: BlockID): Result<Store, Error>
    requires WellOrdered(s.blocks)
  {
    if head.slot < s.cache.tailSlot then Success(s)
    else if !BestReadsCached(spec, s, head) then Failure(NotCached)
    else
      var latest :- LatestAfter(s, head);
      Success(s.(cache := s.cache.(latest := latest),
                 db := s.db.(bestUpdates := BestUpdatesAfter(spec, s, head))))
  }

  // ---------------------------------------------------------------- finalization

  /** The newest finalized block at or below `slot`, down to the historical tail. */
  function BlockIdAtFinalizedSlot(s: Store, slot: nat): Option<BlockID> {
    if slot < s.historicalTailSlot then None
    else if slot in s.finalizedBlockRoots then Some(BlockID(slot, s.finalizedBlockRoots[slot]))
    else if slot == 0 then None
    else BlockIdAtFinalizedSlot(s, slot - 1)
  }

  function CommitteeLowSlot(spec: Spec, s: Store): nat {
    Max(s.historicalTailSlot, spec.EpochStart(spec.altairForkEpoch))
  }

  function CommitteeSlot(spec: Spec, s: Store, period: nat): nat {
    Max(spec.PeriodStart(period), CommitteeLowSlot(spec, s))
  }

  /** Advancing a state without blocks moves its slot and keeps its latest header. */
  function Advance(st: State, slot: nat): State {
    if slot > st.slot then st.(slot := slot) else st
  }

  /** The committee of a finalized period. The saved checkpoint state it is read from is
      advanced in place. */
  function CommitteeForFinalizedPeriod(spec: Spec, s: Store, period: nat)
    : Result<(Option<Committee>, map<Root, State>), Error>
  {
    var saved := s.finalizedCheckpointStates;
    if period < spec.PeriodAt(CommitteeLowSlot(spec, s)) then Success((None, saved))
    else
      var slot := CommitteeSlot(spec, s, period);
      match BlockIdAtFinalizedSlot(s, slot)
      case None => Success((None, saved))
      case Some(bid) =>
        if bid.root !in s.blocks then Failure(KeyMissing)
        else
          var stateRoot := s.blocks[bid.root].stateRoot;
          if stateRoot !in saved then Failure(KeyMissing)
          else
            var st := Advance(saved[stateRoot], slot);
            Success((Some(Committee(st.header.root, st.slot)), saved[stateRoot := st]))
  }

  function CreateLcBootstrap(spec: Spec, s: Store, bid: BlockID): Result<Store, Error> {
    if bid.root !in s.blocks then Failure(KeyMissing)
    else
      var period := spec.PeriodAt(bid.slot);
      var s1 :- if period in s.db.syncCommittees then Success(s) else
        var (committee, saved) :- CommitteeForFinalizedPeriod(spec, s, period);
        Success(s.(finalizedCheckpointStates := saved,
                   db := s.db.(syncCommittees := s.db.syncCommittees[period := committee])));
      if bid !in s1.cache.data then Failure(NotCached)
      else Success(s1.(db := s1.db.(
        headers := s1.db.headers[bid.root := s.blocks[bid.root].Id()],
        currentBranches := s1.db.currentBranches[bid.slot := s1.cache.data[bid].currentBranch])))
  }

  /** The blocks from `r` back along parent roots, newest first, above slot `low`. */
  ghost function Segment(m: Blocks, r: Root, low: nat): seq<Block>
    requires WellOrdered(m)
    decreases if r in m then m[r].slot + 1 else 0
  {
    if r in m && m[r].slot > low then
      assert OlderParent(m, r); [m[r]] + Segment(m, m[r].parentRoot, low)
    else []
  }

  /** Position `i` is the newest of its epoch window within the segment. */
  predicate IsTop(spec: Spec, seg: seq<Block>, i: nat)
    requires i < |seg|
  {
    i == 0 || spec.Window(seg[i].slot) != spec.Window(seg[i - 1].slot)
  }

  function IndexAll(roots: map<nat, Root>, seg: seq<Block>, n: nat): map<nat, Root>
    requires n <= |seg|
  {
    if n == 0 then roots else IndexAll(roots, seg, n - 1)[seg[n - 1].slot := seg[n - 1].root]
  }

  /** The window tops among the first `n` blocks of the segment have a known state. */
  ghost predicate TopsKnown(spec: Spec, states: map<Root, State>, seg: seq<Block>) {
    forall i :: 0 <= i < |seg| && IsTop(spec, seg, i) ==> seg[i].stateRoot in states
  }

  ghost function SaveTops(spec: Spec, saved: map<Root, State>, states: map<Root, State>,
                          seg: seq<Block>, n: nat): map<Root, State>
    requires n <= |seg| && TopsKnown(spec, states, seg)
  {
    if n == 0 then saved
    else
      var before := SaveTops(spec, saved, states, seg, n - 1);
      if IsTop(spec, seg, n - 1) then before[seg[n - 1].stateRoot := states[seg[n - 1].stateRoot]] else before
  }

  /** A bootstrap for every window top at or after the tail among the first `n`, newest first. */
  function BootstrapTops(spec: Spec, s: Store, seg: seq<Block>, n: nat): Result<Store, Error>
    requires n <= |seg|
  {
    if n == 0 then Success(s)
    else
      var before :- BootstrapTops(spec, s, seg, n - 1);
      if IsTop(spec, seg, n - 1) && seg[n - 1].slot >= s.cache.tailSlot
      then CreateLcBootstrap(spec, before, seg[n - 1].Id())
      else Success(before)
  }

  /** `_process_finalization_for_light_client`. */
  function ProcessFinalization(spec: Spec, s: Store, finalized: BlockID, seg: seq<Block>): Result<Store, Error> {
    if finalized.slot < s.cache.tailSlot then Success(s)
    else
      var s1 :- BootstrapTops(spec, s, seg, |seg|);
      Success(s1.(cache := s1.cache.(data :=
        map bid | bid in s1.cache.data && bid.slot >= finalized.slot :: s1.cache.data[bid])))
  }

  function PrunedStates(states: map<Root, State>, low: nat): map<Root, State> {
    map r | r in states && states[r].slot >= low :: states[r]
  }

  /** The store right after the backward walk from the new finalized block. */
  ghost function Walked(spec: Spec, s: Store, epoch: nat, f: Block, seg: seq<Block>): Store
    requires TopsKnown(spec, s.states, seg)
  {
    s.(finalizedBlockRoots := IndexAll(s.finalizedBlockRoots, seg, |seg|),
       finalizedCheckpointStates := SaveTops(spec, s.finalizedCheckpointStates, s.states, seg, |seg|),
       latestFinalizedEpoch := epoch, latestFinalizedBid := f.Id())
  }

  /** The finalization half of `select_new_head`. */
  ghost function Finalize(spec: Spec, s: Store, head: BlockID): Result<Store, Error>
    requires WellOrdered(s.blocks)
  {
    if head.root !in s.blocks then Failure(KeyMissing) else
    var stateRoot := s.blocks[head.root].stateRoot;
    if stateRoot !in s.states then Failure(KeyMissing) else
    var st := s.states[stateRoot];
    if st.finalizedEpoch == GENESIS_EPOCH then Success(s) else
    if st.finalizedRoot !in s.blocks then Failure(KeyMissing) else
    var f := s.blocks[st.finalizedRoot];
    var previous := s.latestFinalizedBid;
    if f.slot <= previous.slot then Success(s) else
    if AncestorAt(s.blocks, f.root, previous.slot).None? then Failure(KeyMissing) else
    var seg := Segment(s.blocks, f.root, previous.slot);
    if !TopsKnown(spec, s.states, seg) then Failure(KeyMissing) else
    var s1 :- ProcessFinalization(spec, Walked(spec, s, st.finalizedEpoch, f, seg), f.Id(), seg);
    Success(s1.(blocks := Pruned(s1.blocks, f.slot), states := PrunedStates(s1.states, f.slot)))
  }

  /** `select_new_head`. */
  ghost function SelectHead(spec: Spec, s: Store, head: BlockID): Result<Store, Error>
    requires WellOrdered(s.blocks)
  {
    var s1 :- HeadChange(spec, s, head);
    Finalize(spec, s1, head)
  }

  // ---------------------------------------------------------------- start

  /** The store that `setup_lc_data_collection_test` builds before the first bootstrap. */
  function InitialStore(spec: Spec, anchor: Block, st: State): Store {
    Store(map[anchor.root := anchor], map[anchor.slot := anchor.root],
          map[anchor.stateRoot := st], map[anchor.stateRoot := st],
          st.finalizedEpoch, BlockID(spec.EpochStart(st.finalizedEpoch), st.finalizedRoot), st.slot,
          Cache(map[anchor.Id() := CachedData(anchor.stateRoot, None, GENESIS_SLOT)], None,
                Max(st.slot, spec.EpochStart(spec.altairForkEpoch))),
          DB(map[], map[], map[], map[]))
  }

  /** `setup_lc_data_collection_test` on a genesis state. */
  function Setup(spec: Spec, anchor: Block, st: State): Result<Store, Error> {
    CreateLcBootstrap(spec, InitialStore(spec, anchor, st), anchor.Id())
  }

  // ---------------------------------------------------------------- serving

  datatype Bootstrap = Bootstrap(header: BlockID, committee: Option<Committee>, branch: Root)

  /** `get_light_client_bootstrap`; the outer result is the possible key error. */
  function GetBootstrap(spec: Spec, s: Store, root: Root): Result<Option<Bootstrap>, Error> {
    if root !in s.db.headers then Success(None)
    else
      var header := s.db.headers[root];
      var period := spec.PeriodAt(header.slot);
      if period !in s.db.syncCommittees then Failure(KeyMissing)
      else if header.slot !in s.db.currentBranches then Failure(KeyMissing)
      else Success(Some(Bootstrap(header, s.db.syncCommittees[period], s.db.currentBranches[header.slot])))
  }
}
