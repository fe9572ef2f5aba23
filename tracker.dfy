/** The block tracker: a bounded history it updates in place, the reconciliation of one
    observed block as the source's restarting loop, and the dispatch decision of Start. */
module Tracker {
  import opened Chain
  import opened History
  import opened Reconciler
  import opened ReconcileLoop

  /** What the Start callback does with one new head. */
  datatype Action =
    | Send(event: Event)         // hand the event to the event channel
    | LogFailure(error: Error)   // report "Failed to reconcile"
    | Skip                       // nothing new: no event is sent

  /** The dispatch decision of reconcile mode: log an error, send a present event, drop an
      absent one. */
  function Dispatched(r: Result<Option<Event>>): (a: Action)
    ensures a == Skip <==> r == Ok(None)
    ensures a.LogFailure? <==> r.Err?
    ensures a.LogFailure? ==> a.error == r.error
    ensures a.Send? ==> r == Ok(Some(a.event))
  {
    match r
    case Err(e) => LogFailure(e)
    case Ok(None) => Skip
    case Ok(Some(e)) => Send(e)
  }

  /** How one pass of handleReconcile ends: with the reconciliation's result, with the
      fetched parent to reconcile next, or with the block placed on the history. */
  datatype Pass = Done(result: Result<Option<Event>>) | Backfill(parent: Block) | Placed

  class BlockTracker {
    /** The history: at most MAX_RECONCILE_BLOCKS blocks, oldest first. */
    var blocks: seq<Block>
    /** Whether Start reconciles heads or forwards them as they come. */
    const reconcile: bool

    ghost predicate Valid()
      reads this
    {
      |blocks| <= MAX_RECONCILE_BLOCKS
    }

    /** NewBlockTracker: an empty history. */
    constructor (reconcile: bool)
      ensures Valid() && blocks == [] && this.reconcile == reconcile
    {
      blocks := [];
      this.reconcile := reconcile;
    }

    /** addBlock: evict the oldest block when the history is full, then append. */
    method AddBlock(block: Block)
      requires Valid()
      modifies this
      ensures Valid() && blocks == Add(old(blocks), block)
    {
      if |blocks| == MAX_RECONCILE_BLOCKS {
        blocks := blocks[1..];
      }
      blocks := blocks + [block];
    }

    /** exists: some block of the history has the same hash as block. */
    method Exists(block: Block) returns (found: bool)
      ensures found <==> HasHash(blocks, block.hash)
    {
      for i := 0 to |blocks|
        invariant forall k :: 0 <= k < i ==> blocks[k].hash != block.hash
      {
        if blocks[i].hash == block.hash {
          return true;
        }
      }
      return false;
    }

    /** parentHashInHistory: the first index whose hash is h, or -1 when there is none. */
    method ParentHashInHistory(h: Hash) returns (indx: int)
      ensures -1 <= indx < |blocks|
      ensures indx == -1 <==> !HasHash(blocks, h)
      ensures indx != -1 ==> blocks[indx].hash == h && forall k :: 0 <= k < indx ==> blocks[k].hash != h
      ensures indx == IndexOf(blocks, h)
    {
      for i := 0 to |blocks|
        invariant forall k :: 0 <= k < i ==> blocks[k].hash != h
      {
        if blocks[i].hash == h {
          return i;
        }
      }
      return -1;
    }

    /** The removeBlock closure of handleReconcile: collect the blocks after indx, oldest
        first, and cut the history back to indx. */
    method RemoveAfter(indx: int) returns (removed: seq<Block>)
      requires Valid() && 0 <= indx < |blocks|
      modifies this
      ensures Valid()
      ensures removed == old(blocks)[indx + 1..] && blocks == old(blocks)[..indx + 1]
    {
      removed := [];
      for i := indx + 1 to |blocks|
        invariant removed == blocks[indx + 1..i]
      {
        removed := removed + [blocks[i]];
      }
      blocks := blocks[..indx + 1];
    }

    /** One pass of handleReconcile's body, from the RECONCILE label to the end of its
        if-chain, on the block at position j of the lineage chain of the original block b:
        the pass ends the reconciliation, fetches the block's parent, or places the block,
        recording it in added and any cut blocks in removed. */
    method ReconcilePass(block: Block, client: Client, added: seq<Block>, removed: seq<Block>,
                         ghost h0: seq<Block>, ghost b: Block, ghost depth: nat, ghost chain: seq<Block>,
                         ghost placed: nat, ghost j: nat)
      returns (pass: Pass, added': seq<Block>, removed': seq<Block>)
      requires Valid() && LoopInv(client, h0, b, depth, chain, placed, j, blocks, added, removed)
      requires block == chain[j]
      modifies this
      ensures Valid()
      ensures pass.Done? ==> Reconcile(h0, client, b, depth) == Reconciled(pass.result, blocks)
      ensures pass.Backfill? ==>
        && j > placed && pass.parent == chain[j - 1] && blocks == old(blocks)
        && LoopInv(client, h0, b, depth, chain, placed, j - 1, blocks, added', removed')
      ensures pass.Placed? ==> j == placed && Progress(h0, b, chain, placed + 1, blocks, added', removed')
    {
      added', removed' := added, removed;
      if |blocks| == 0 {
        // only one block in history
        EmptyBranch(client, h0, b, depth, chain, placed, j, blocks, added, removed);
        added' := added' + [block];
        AddBlock(block);
      } else {
        var known := Exists(block);
        if known {
          // block already in history
          KnownBranch(client, h0, b, depth, chain, placed, j, blocks, added, removed);
          return Done(Ok(None)), added', removed';
        }
        if blocks[|blocks| - 1].hash == block.parent {
          // normal sequence
          LastBranch(client, h0, b, depth, chain, placed, j, blocks, added, removed);
          added' := added' + [block];
          AddBlock(block);
        } else {
          var indx := ParentHashInHistory(block.parent);
          if indx != -1 {
            // parent in history
            ForkBranch(client, h0, b, depth, chain, placed, j, blocks, added, removed, indx);
            var dropped := RemoveAfter(indx);
            removed' := removed' + dropped;
            added' := added' + [block];
            AddBlock(block);
          } else {
            // backfill
            FetchBranch(client, h0, b, depth, chain, placed, j, blocks, added, removed);
            var parent := FetchByHash(client, block.parent);
            if parent.Err? {
              return Done(Err(ParentNotFound(block.parent))), added', removed';
            }
            return Backfill(parent.value), added', removed';
          }
        }
      }
      pass := Placed;
    }

    /** handleReconcile: one loop in place of the source's goto. A block whose parent is
        neither the last block nor in the history is replaced by its fetched parent; once a
        block has been placed, the walk starts again from the original block, until the
        original block itself is placed. */
    method HandleReconcile(b: Block, client: Client, ghost depth: nat) returns (r: Result<Option<Event>>)
      requires Valid() && WellKeyed(client) && Terminates(client, blocks, b, depth)
      modifies this
      ensures Valid()
      ensures r == Reconcile(old(blocks), client, b, depth).result
      ensures blocks == Reconcile(old(blocks), client, b, depth).history
    {
      ghost var h0 := blocks;
      LoopStart(client, h0, b, depth);
      var added: seq<Block> := [];
      var removed: seq<Block> := [];
      var originalBlock := b;
      var block := b;
      ghost var chain := Lineage(client, h0, b, depth);
      ghost var j: nat := |chain| - 1;
      ghost var placed: nat := 0;
      while true
        invariant Valid()
        invariant LoopInv(client, h0, b, depth, chain, placed, j, blocks, added, removed)
        invariant block == chain[j]
        decreases |chain| - placed, j - placed
      {
        var pass;
        pass, added, removed := ReconcilePass(block, client, added, removed, h0, b, depth, chain, placed, j);
        match pass
        case Done(result) =>
          return result;
        case Backfill(parent) =>
          block := parent;
          j := j - 1;
        case Placed =>
          placed := placed + 1;
          // when backfilling, the original block has to be reconciled again
          if originalBlock.hash != block.hash {
            RestartBranch(client, h0, b, depth, chain, placed, blocks, added, removed);
            block := originalBlock;
            j := |chain| - 1;
          } else {
            FinishBranch(client, h0, b, depth, chain, placed, blocks, added, removed);
            return Ok(Some(Event(added, removed)));
          }
      }
    }

    /** The callback of Start: in reconcile mode reconcile the block and dispatch the
        outcome; otherwise forward the block alone as an added event. */
    method OnBlock(block: Block, client: Client, ghost depth: nat) returns (action: Action)
      requires Valid()
      requires reconcile ==> WellKeyed(client) && Terminates(client, blocks, block, depth)
      modifies this
      ensures Valid()
      ensures reconcile ==>
        var spec := Reconcile(old(blocks), client, block, depth);
        action == Dispatched(spec.result) && blocks == spec.history
      ensures !reconcile ==> action == Send(Event([block], [])) && blocks == old(blocks)
    {
      if reconcile {
        var r := HandleReconcile(block, client, depth);
        action := Dispatched(r);
      } else {
        action := Send(Event([block], []));
      }
    }
  }

  /** In reconcile mode the callback neither sends nor logs exactly for a block already in
      the history, a failure leaves the history as it was, and every event sent ends with
      the observed block. */
  lemma DispatchOutcomes(hist: seq<Block>, c: Client, b: Block, depth: nat)
    requires |hist| <= MAX_RECONCILE_BLOCKS
    requires WellKeyed(c) && Terminates(c, hist, b, depth)
    ensures var r := Reconcile(hist, c, b, depth);
      var action := Dispatched(r.result);
      && (action == Skip <==> HasHash(hist, b.hash))
      && (action.LogFailure? ==> r.history == hist && action.error.ParentNotFound?)
      && (action.Send? ==> |action.event.added| > 0 && action.event.added[|action.event.added| - 1] == b
                           && r.history[|r.history| - 1] == b)
  {
    ReconcileKnown(hist, c, b, depth);
    ReconcileFails(hist, c, b, depth);
    ReconcileAddsChain(hist, c, b, depth);
    ReconcileCutsAtFork(hist, c, b, depth);
  }
}
