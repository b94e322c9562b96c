/** Optimistic import of blocks: payload statuses, the invalidation of a chain segment, and the head
    that follows from them. */
module OptimisticSync {
  import opened Wrappers
  import opened OptimisticTree

  datatype StatusAlias = NotValidated | Invalidated

  datatype Status = Valid | Invalid | Syncing | Accepted | InvalidBlockHash {
    /** A valid payload has no alias. */
    function Alias(): Option<StatusAlias> {
      match this
      case Syncing | Accepted => Some(NotValidated)
      case Invalid | InvalidBlockHash => Some(Invalidated)
      case Valid => None
    }
  }

  function GetValidFlagValue(status: Status): (flag: bool)
    ensures flag <==> status != Invalid && status != InvalidBlockHash
  {
    if status == Valid then true else status.Alias() == Some(NotValidated)
  }

  /** The engine's answer about one payload; its status is updated in place. */
  class PayloadStatusV1 {
    var status: Status
    var latestValidHash: Option<Hash>

    constructor (status: Status, latestValidHash: Option<Hash>)
      ensures this.status == status && this.latestValidHash == latestValidHash
    {
      this.status, this.latestValidHash := status, latestValidHash;
    }
  }

  type PayloadStatuses = map<Root, PayloadStatusV1>

  /** The status objects filed under some of the given roots. */
  ghost function Filed(statuses: PayloadStatuses, roots: seq<Root>): set<PayloadStatusV1> {
    set r | r in roots && r in statuses :: statuses[r]
  }

  /** No status object is filed under two roots. */
  ghost predicate Distinct(statuses: PayloadStatuses) {
    forall r, s :: r in statuses && s in statuses && statuses[r] == statuses[s] ==> r == s
  }

  /** With distinct objects, marking the objects of a segment marks exactly the segment. */
  lemma FiledExactly(statuses: PayloadStatuses, roots: seq<Root>, r: Root)
    requires Distinct(statuses) && r in statuses
    ensures statuses[r] in Filed(statuses, roots) <==> r in roots
  {
  }

  lemma {:induction false} StopsUp(blocks: Blocks, b: Block, latestValid: Hash)
    requires Ordered(blocks) && ParentOlder(blocks, b) && !Stop(b, latestValid)
    ensures b.parentRoot in blocks ==>
      && Stops(blocks, b, latestValid) == Stops(blocks, blocks[b.parentRoot], latestValid)
      && Segment(blocks, b, latestValid) == [b.root] + Segment(blocks, blocks[b.parentRoot], latestValid)
    ensures b.parentRoot !in blocks ==> !Stops(blocks, b, latestValid) && Segment(blocks, b, latestValid) == [b.root]
  {
  }

  /** The walk of an invalid payload reaches a block to stop at, past blocks that all have a status. */
  ghost predicate WalkEnds(blocks: Blocks, filed: set<Root>, b: Block, latestValid: Option<Hash>)
    requires Ordered(blocks) && ParentOlder(blocks, b)
  {
    && latestValid.Some?
    && Stops(blocks, b, latestValid.value)
    && forall r :: r in Segment(blocks, b, latestValid.value) ==> r in filed
  }

  /** What the store looks like after the block went through fork choice, which is not part of this
      model: the known blocks, the viable ones, the justified root, the weights, and whether the
      block may be imported optimistically. */
  datatype Imported = Imported(blocks: Blocks, filtered: Blocks, justified: Root, weight: Root -> nat, candidate: bool)

  class MegaStore {
    var blocks: Blocks
    var payloadStatuses: PayloadStatuses
    var optimisticRoots: set<Root>
    var headBlockRoot: Root

    constructor (anchor: Block)
      ensures blocks == map[anchor.root := anchor] && payloadStatuses == map[]
      ensures optimisticRoots == {} && headBlockRoot == anchor.root
    {
      blocks := map[anchor.root := anchor];
      payloadStatuses := map[];
      optimisticRoots := {};
      headBlockRoot := anchor.root;
    }

    /** A block without a payload status is not invalidated. */
    predicate IsInvalidated(root: Root): (invalidated: bool)
      reads this, payloadStatuses.Values
      ensures invalidated <==>
        && root in payloadStatuses
        && (payloadStatuses[root].status == Invalid || payloadStatuses[root].status == InvalidBlockHash)
    {
      root in payloadStatuses && payloadStatuses[root].status.Alias() == Some(Invalidated)
    }

    function InvalidatedRoots(): set<Root>
      reads this, payloadStatuses.Values
    {
      set r | r in payloadStatuses && IsInvalidated(r)
    }

    /** The walk that an invalid payload starts: the block and its ancestors become invalid, up to but
        excluding the latest valid block or the last one before execution began. It raises when it
        meets a block without a status, or leaves the known blocks. */
    method InvalidateSegment(block: Block, latestValid: Hash) returns (outcome: Result<(), string>)
      requires Ordered(blocks) && ParentOlder(blocks, block)
      modifies payloadStatuses.Values
      ensures outcome.Success? <==>
        && Stops(blocks, block, latestValid)
        && forall r :: r in Segment(blocks, block, latestValid) ==> r in payloadStatuses
      ensures outcome.Success? ==> forall o :: o in payloadStatuses.Values ==>
        o.status == if o in Filed(payloadStatuses, Segment(blocks, block, latestValid)) then Invalid else old(o.status)
      ensures forall o :: o in payloadStatuses.Values ==>
        (o.status == Invalid || o.status == old(o.status)) && o.latestValidHash == old(o.latestValidHash)
    {
      var current := block;
      ghost var marked: seq<Root> := [];
      ghost var segment := Segment(blocks, block, latestValid);
      while !Stop(current, latestValid)
        invariant ParentOlder(blocks, current)
        invariant segment == marked + Segment(blocks, current, latestValid)
        invariant Stops(blocks, block, latestValid) == Stops(blocks, current, latestValid)
        invariant forall r :: r in marked ==> r in payloadStatuses
        invariant forall o :: o in payloadStatuses.Values ==>
          o.status == if o in Filed(payloadStatuses, marked) then Invalid else old(o.status)
        invariant forall o :: o in payloadStatuses.Values ==> o.latestValidHash == old(o.latestValidHash)
        decreases current.slot
      {
        StopsUp(blocks, current, latestValid);
        if current.root !in payloadStatuses {
          assert current.root in segment;
          return Failure("block has no payload status");
        }
        payloadStatuses[current.root].status := Invalid;
        marked := marked + [current.root];
        if current.parentRoot !in blocks {
          return Failure("parent block is missing");
        }
        current := blocks[current.parentRoot];
      }
      return Success(());
    }

    /** The status reported for the block is filed, and an invalid one spreads to the ancestors. */
    method ReportPayload(block: Block, payloadStatus: PayloadStatusV1) returns (outcome: Result<(), string>)
      requires Ordered(blocks) && ParentOlder(blocks, block)
      modifies this`payloadStatuses, payloadStatuses.Values, payloadStatus
      ensures payloadStatuses == old(payloadStatuses)[block.root := payloadStatus]
      ensures payloadStatus.status == old(payloadStatus.status)
      ensures outcome.Success? <==> (payloadStatus.status == Invalid ==>
        WalkEnds(blocks, payloadStatuses.Keys, block, old(payloadStatus.latestValidHash)))
      ensures outcome.Success? && payloadStatus.status == Invalid ==>
        forall r :: r in Segment(blocks, block, old(payloadStatus.latestValidHash).value) ==> IsInvalidated(r)
      ensures outcome.Success? ==> forall o :: o in payloadStatuses.Values ==>
        o.status == if payloadStatus.status == Invalid
          && o in Filed(payloadStatuses, Segment(blocks, block, old(payloadStatus.latestValidHash).value))
            then Invalid else old(o.status)
    {
      payloadStatuses := payloadStatuses[block.root := payloadStatus];
      if payloadStatus.status == Invalid {
        if payloadStatus.latestValidHash == None {
          return Failure("no latest valid hash");
        }
        outcome := InvalidateSegment(block, payloadStatus.latestValidHash.value);
      } else {
        outcome := Success(());
      }
    }

    /** The new head, and why it stays away from everything invalidated. */
    method UpdateHead(imported: Imported)
      requires Ordered(imported.filtered) && Part(imported.filtered, imported.blocks)
      modifies this`headBlockRoot
      ensures IsHead(imported.filtered, InvalidatedRoots(), imported.weight, imported.justified, headBlockRoot)
      ensures forall y :: IsInvalidated(y) ==>
        (Under(imported.blocks, headBlockRoot, y) <==> Under(imported.blocks, imported.justified, y))
    {
      var invalid := InvalidatedRoots();
      headBlockRoot := GetOptHeadBlockRoot(imported.filtered, imported.justified, imported.weight, invalid);
      assert InvalidatedRoots() == invalid;
      forall y | y in invalid
        ensures Under(imported.blocks, headBlockRoot, y) <==> Under(imported.blocks, imported.justified, y)
      {
        HeadAvoidsInvalidated(
          imported.blocks, imported.filtered, invalid, imported.weight, imported.justified, headBlockRoot, y);
      }
    }

    /** `add_optimistic_block`, for the payload status that was reported: after an invalid one, the
        segment of ancestors down to the latest valid hash is invalidated, and the head is neither in
        nor under anything invalidated, except what the justified root itself is under. */
    method AddOptimisticBlock(block: Block, payloadStatus: PayloadStatusV1, imported: Imported)
      returns (outcome: Result<Root, string>)
      requires Ordered(blocks) && ParentOlder(blocks, block)
      requires Ordered(imported.filtered) && Part(imported.filtered, imported.blocks)
      modifies this, payloadStatuses.Values, payloadStatus
      ensures payloadStatuses == old(payloadStatuses)[block.root := payloadStatus]
      ensures payloadStatus.status == old(payloadStatus.status)
      ensures outcome.Success? <==> (payloadStatus.status == Invalid ==>
        WalkEnds(old(blocks), payloadStatuses.Keys, block, old(payloadStatus.latestValidHash)))
      ensures outcome.Success? && payloadStatus.status == Invalid ==>
        forall r :: r in Segment(old(blocks), block, old(payloadStatus.latestValidHash).value) ==> IsInvalidated(r)
      ensures outcome.Success? ==> forall o :: o in payloadStatuses.Values ==>
        o.status == if payloadStatus.status == Invalid
          && o in Filed(payloadStatuses, Segment(old(blocks), block, old(payloadStatus.latestValidHash).value))
            then Invalid else old(o.status)
      ensures outcome.Success? ==> blocks == imported.blocks && headBlockRoot == outcome.value
      ensures outcome.Success? ==>
        optimisticRoots == old(optimisticRoots) + (if imported.candidate then {block.root} else {})
      ensures outcome.Success? ==>
        IsHead(imported.filtered, InvalidatedRoots(), imported.weight, imported.justified, headBlockRoot)
      ensures outcome.Success? ==> forall y :: IsInvalidated(y) ==>
        (Under(blocks, headBlockRoot, y) <==> Under(blocks, imported.justified, y))
    {
      var reported := ReportPayload(block, payloadStatus);
      if reported.Failure? {
        return Failure(reported.error);
      }
      blocks := imported.blocks;
      if imported.candidate {
        optimisticRoots := optimisticRoots + {block.root};
      }
      UpdateHead(imported);
      return Success(headBlockRoot);
    }

    /** `add_optimistic_block` when the caller only gives a status: no latest valid hash is known then,
        except for a valid payload, so that an invalid status always raises and no other one does. */
    method AddOptimisticBlockByStatus(block: Block, status: Status, imported: Imported)
      returns (outcome: Result<Root, string>)
      requires Ordered(blocks) && ParentOlder(blocks, block)
      requires Ordered(imported.filtered) && Part(imported.filtered, imported.blocks)
      modifies this, payloadStatuses.Values
      ensures outcome.Success? <==> status != Invalid
      ensures payloadStatuses.Keys == old(payloadStatuses.Keys) + {block.root}
      ensures block.root in payloadStatuses && fresh(payloadStatuses[block.root])
      ensures payloadStatuses[block.root].status == status
      ensures outcome.Success? ==> forall r :: r in old(payloadStatuses) && r != block.root ==>
        payloadStatuses[r] == old(payloadStatuses[r]) && payloadStatuses[r].status == old(payloadStatuses[r].status)
      ensures outcome.Success? ==>
        IsHead(imported.filtered, InvalidatedRoots(), imported.weight, imported.justified, headBlockRoot)
      ensures outcome.Success? && status == InvalidBlockHash ==>
        (Under(blocks, headBlockRoot, block.root) <==> Under(blocks, imported.justified, block.root))
    {
      var payloadStatus := new PayloadStatusV1(status, None);
      if payloadStatus.status == Valid {
        payloadStatus.latestValidHash := Some(block.blockHash);
      }
      outcome := AddOptimisticBlock(block, payloadStatus, imported);
    }
  }
}
