/** The state of handleReconcile's restarting loop between two passes, and one lemma per
    branch of the loop body saying where that branch leads. */
module ReconcileLoop {
  import opened Chain
  import opened History
  import opened Reconciler

  /** Everything walked from b after placing the first `placed` blocks of its lineage is
      still absent from the history. */
  lemma UnplacedAbsent(c: Client, h0: seq<Block>, b: Block, depth: nat, placed: nat)
    requires WellKeyed(c) && !Known(h0, b)
    requires var chain := Lineage(c, h0, b, depth);
      Placeable(h0, chain[0]) && DistinctHashes(chain) && placed <= |chain|
    ensures var chain := Lineage(c, h0, b, depth);
      var blocks := Newest(h0[..ForkIndex(h0, chain[0]) + 1] + chain[..placed]);
      forall m :: placed <= m < |chain| ==> !HasHash(blocks, chain[m].hash)
  {
    var chain := Lineage(c, h0, b, depth);
    var base := h0[..ForkIndex(h0, chain[0]) + 1];
    var t := base + chain[..placed];
    LineageFacts(c, h0, b, depth);
    assert !HasHash(h0, b.hash);
    forall m | placed <= m < |chain| ensures !HasHash(Newest(t), chain[m].hash) {
      var h := chain[m].hash;
      NewestKeeps(t, h);
      assert !HasHash(t, h) by {
        forall k | 0 <= k < |t| ensures t[k].hash != h {
          if k < |base| {
            assert t[k] == h0[k];
          } else {
            assert t[k] == chain[k - |base|];
          }
        }
      }
    }
  }

  /** The first walk from the original block, before anything is placed: every block past
      the root fits nowhere on the history and its parent is fetched from the client; no
      block below the original one is in the history. */
  lemma WalkStep(c: Client, h0: seq<Block>, b: Block, depth: nat, j: nat)
    requires WellKeyed(c) && j < |Lineage(c, h0, b, depth)|
    ensures var chain := Lineage(c, h0, b, depth);
      && (j < |chain| - 1 ==> !HasHash(h0, chain[j].hash))
      && (j > 0 ==>
            && |h0| > 0
            && h0[|h0| - 1].hash != chain[j].parent
            && IndexOf(h0, chain[j].parent) == -1
            && FetchByHash(c, chain[j].parent) == Ok(chain[j - 1]))
  {
    LineageFacts(c, h0, b, depth);
  }

  /** What the loop has done after placing the first `placed` blocks of the lineage chain
      of b: nothing yet, or the history cut after the fork point and extended with those
      blocks, which are also the event's added blocks, while the cut blocks are its removed
      ones. */
  ghost predicate Progress(h0: seq<Block>, b: Block, chain: seq<Block>, placed: nat,
                           blocks: seq<Block>, added: seq<Block>, removed: seq<Block>)
  {
    && 0 < |chain| && placed <= |chain|
    && (placed == 0 ==> blocks == h0 && added == [] && removed == [])
    && (placed > 0 ==>
          && !Known(h0, b) && Placeable(h0, chain[0]) && DistinctHashes(chain)
          && var fork := ForkIndex(h0, chain[0]);
          && added == chain[..placed]
          && removed == h0[fork + 1..]
          && blocks == Newest(h0[..fork + 1] + chain[..placed]))
  }

  /** The loop invariant: chain is the lineage of b, the walk ends, the placed blocks are
      recorded as Progress says, and the block under consideration, at position j, lies at
      or above the next block to place; once the first check is behind, the original block
      is known not to be in the history. */
  ghost predicate LoopInv(c: Client, h0: seq<Block>, b: Block, depth: nat, chain: seq<Block>,
                          placed: nat, j: nat, blocks: seq<Block>, added: seq<Block>, removed: seq<Block>)
  {
    && chain == Lineage(c, h0, b, depth) && |h0| <= MAX_RECONCILE_BLOCKS
    && WellKeyed(c) && Terminates(c, h0, b, depth)
    && Progress(h0, b, chain, placed, blocks, added, removed)
    && placed <= j < |chain|
    && (j < |chain| - 1 || placed > 0 ==> !Known(h0, b))
  }

  /** The loop starts at the original block with nothing done. */
  lemma LoopStart(c: Client, h0: seq<Block>, b: Block, depth: nat)
    requires |h0| <= MAX_RECONCILE_BLOCKS && WellKeyed(c) && Terminates(c, h0, b, depth)
    ensures var chain := Lineage(c, h0, b, depth);
      LoopInv(c, h0, b, depth, chain, 0, |chain| - 1, h0, [], []) && chain[|chain| - 1] == b
  {
  }

  /** A pass before anything is placed looks at the history as it was: every block below the
      original one is absent from it and, past the root of the chain, fits nowhere on it
      and has its parent served by the client. */
  lemma FirstPass(c: Client, h0: seq<Block>, b: Block, depth: nat, chain: seq<Block>, j: nat,
                  blocks: seq<Block>, added: seq<Block>, removed: seq<Block>)
    requires LoopInv(c, h0, b, depth, chain, 0, j, blocks, added, removed)
    ensures blocks == h0 && added == [] && removed == []
    ensures j < |chain| - 1 ==> !HasHash(blocks, chain[j].hash)
    ensures j > 0 ==>
      && |blocks| > 0
      && blocks[|blocks| - 1].hash != chain[j].parent
      && IndexOf(blocks, chain[j].parent) == -1
      && FetchByHash(c, chain[j].parent) == Ok(chain[j - 1])
  {
    WalkStep(c, h0, b, depth, j);
  }

  /** A pass after some blocks are placed: the history ends with the newest placed block,
      the block under consideration is not in it, fits on the last block exactly when it is
      the next to place, and otherwise has its parent served by the client. */
  lemma LaterPass(c: Client, h0: seq<Block>, b: Block, depth: nat, chain: seq<Block>, placed: nat, j: nat,
                  blocks: seq<Block>, added: seq<Block>, removed: seq<Block>)
    requires LoopInv(c, h0, b, depth, chain, placed, j, blocks, added, removed) && placed > 0
    ensures |blocks| > 0 && blocks[|blocks| - 1] == chain[placed - 1]
    ensures !HasHash(blocks, chain[j].hash)
    ensures blocks[|blocks| - 1].hash == chain[j].parent <==> j == placed
    ensures j > placed ==>
      && IndexOf(blocks, chain[j].parent) == -1
      && FetchByHash(c, chain[j].parent) == Ok(chain[j - 1])
  {
    var t := h0[..ForkIndex(h0, chain[0]) + 1] + chain[..placed];
    UnplacedAbsent(c, h0, b, depth, placed);
    LineageFacts(c, h0, b, depth);
    NewestKeeps(t, b.hash);
    assert t[|t| - 1] == chain[placed - 1];
    assert chain[j].parent == chain[j - 1].hash;
  }

  /** "block already in history" is taken only on the very first check, and then for the
      original block: no event, history unchanged. */
  lemma KnownBranch(c: Client, h0: seq<Block>, b: Block, depth: nat, chain: seq<Block>, placed: nat, j: nat,
                    blocks: seq<Block>, added: seq<Block>, removed: seq<Block>)
    requires LoopInv(c, h0, b, depth, chain, placed, j, blocks, added, removed)
    requires HasHash(blocks, chain[j].hash)
    ensures blocks == h0 && Reconcile(h0, c, b, depth) == Reconciled(Ok(None), h0)
  {
    if placed > 0 {
      LaterPass(c, h0, b, depth, chain, placed, j, blocks, added, removed);
      assert false;
    } else {
      FirstPass(c, h0, b, depth, chain, j, blocks, added, removed);
    }
  }

  /** Placing the next block of the chain: the next Progress state. */
  lemma Placing(h0: seq<Block>, b: Block, chain: seq<Block>, placed: nat,
                base: seq<Block>, added: seq<Block>, removed: seq<Block>)
    requires placed < |chain| && !Known(h0, b) && Placeable(h0, chain[0]) && DistinctHashes(chain)
    requires var fork := ForkIndex(h0, chain[0]);
      && added == chain[..placed] && removed == h0[fork + 1..]
      && base == Newest(h0[..fork + 1] + chain[..placed])
    ensures Progress(h0, b, chain, placed + 1, Add(base, chain[placed]), added + [chain[placed]], removed)
  {
    var t := h0[..ForkIndex(h0, chain[0]) + 1] + chain[..placed];
    NewestKeeps(t, b.hash);
    AddIsNewest(base, chain[placed]);
    NewestOfNewest(t, chain[placed]);
    assert chain[..placed + 1] == chain[..placed] + [chain[placed]];
    assert t + [chain[placed]] == h0[..ForkIndex(h0, chain[0]) + 1] + chain[..placed + 1];
  }

  /** "only one block in history": the history is empty only before anything is placed, and
      then the lineage is the original block alone. */
  lemma EmptyBranch(c: Client, h0: seq<Block>, b: Block, depth: nat, chain: seq<Block>, placed: nat, j: nat,
                    blocks: seq<Block>, added: seq<Block>, removed: seq<Block>)
    requires LoopInv(c, h0, b, depth, chain, placed, j, blocks, added, removed)
    requires |blocks| == 0
    ensures j == placed
    ensures Progress(h0, b, chain, placed + 1, Add(blocks, chain[j]), added + [chain[j]], removed)
  {
    if placed > 0 {
      LaterPass(c, h0, b, depth, chain, placed, j, blocks, added, removed);
      assert false;
    } else {
      FirstPass(c, h0, b, depth, chain, j, blocks, added, removed);
      assert h0[..0] == [] && h0[0..] == [];
      Placing(h0, b, chain, 0, blocks, added, removed);
    }
  }

  /** "normal sequence": the last block is the parent exactly for the next block to place;
      on the first pass that means the root of the lineage fits on the last block and
      nothing is cut. */
  lemma LastBranch(c: Client, h0: seq<Block>, b: Block, depth: nat, chain: seq<Block>, placed: nat, j: nat,
                   blocks: seq<Block>, added: seq<Block>, removed: seq<Block>)
    requires LoopInv(c, h0, b, depth, chain, placed, j, blocks, added, removed)
    requires |blocks| > 0 && !HasHash(blocks, chain[j].hash)
    requires blocks[|blocks| - 1].hash == chain[j].parent
    ensures j == placed
    ensures Progress(h0, b, chain, placed + 1, Add(blocks, chain[j]), added + [chain[j]], removed)
  {
    if placed > 0 {
      LaterPass(c, h0, b, depth, chain, placed, j, blocks, added, removed);
      Placing(h0, b, chain, placed, blocks, added, removed);
    } else {
      FirstPass(c, h0, b, depth, chain, j, blocks, added, removed);
      assert HasHash(h0, chain[0].parent);
      assert h0[..|h0|] == h0 && h0[|h0|..] == [];
      Placing(h0, b, chain, 0, blocks, added, removed);
    }
  }

  /** "parent in history": only the root of the lineage, on the first pass, meets its parent
      inside the history; the history is cut after the parent's first occurrence. */
  lemma ForkBranch(c: Client, h0: seq<Block>, b: Block, depth: nat, chain: seq<Block>, placed: nat, j: nat,
                   blocks: seq<Block>, added: seq<Block>, removed: seq<Block>, indx: int)
    requires LoopInv(c, h0, b, depth, chain, placed, j, blocks, added, removed)
    requires |blocks| > 0 && !HasHash(blocks, chain[j].hash)
    requires blocks[|blocks| - 1].hash != chain[j].parent
    requires indx == IndexOf(blocks, chain[j].parent) && indx != -1
    ensures j == placed && 0 <= indx < |blocks|
    ensures Progress(h0, b, chain, placed + 1, Add(blocks[..indx + 1], chain[j]),
                     added + [chain[j]], removed + blocks[indx + 1..])
  {
    if placed > 0 {
      LaterPass(c, h0, b, depth, chain, placed, j, blocks, added, removed);
      assert false;
    } else {
      FirstPass(c, h0, b, depth, chain, j, blocks, added, removed);
      assert [] + h0[indx + 1..] == h0[indx + 1..];
      Placing(h0, b, chain, 0, h0[..indx + 1], added, h0[indx + 1..]);
    }
  }

  /** "backfill": the fetch succeeds and yields the next block down the lineage, except at
      the root on the first pass, where it can only fail because the client lacks the
      parent, which is then the reconciliation's error. */
  lemma FetchBranch(c: Client, h0: seq<Block>, b: Block, depth: nat, chain: seq<Block>, placed: nat, j: nat,
                    blocks: seq<Block>, added: seq<Block>, removed: seq<Block>)
    requires LoopInv(c, h0, b, depth, chain, placed, j, blocks, added, removed)
    requires |blocks| > 0 && !HasHash(blocks, chain[j].hash)
    requires blocks[|blocks| - 1].hash != chain[j].parent
    requires IndexOf(blocks, chain[j].parent) == -1
    ensures var fetched := FetchByHash(c, chain[j].parent);
      && (fetched.Ok? ==>
            j > placed && fetched.value == chain[j - 1]
            && LoopInv(c, h0, b, depth, chain, placed, j - 1, blocks, added, removed))
      && (fetched.Err? ==>
            blocks == h0
            && Reconcile(h0, c, b, depth) == Reconciled(Err(ParentNotFound(chain[j].parent)), h0))
  {
    if placed > 0 {
      LaterPass(c, h0, b, depth, chain, placed, j, blocks, added, removed);
    } else {
      FirstPass(c, h0, b, depth, chain, j, blocks, added, removed);
    }
  }

  /** After placing a block other than the original, the walk restarts from the original. */
  lemma RestartBranch(c: Client, h0: seq<Block>, b: Block, depth: nat, chain: seq<Block>, placed: nat,
                      blocks: seq<Block>, added: seq<Block>, removed: seq<Block>)
    requires chain == Lineage(c, h0, b, depth) && |h0| <= MAX_RECONCILE_BLOCKS
    requires WellKeyed(c) && Terminates(c, h0, b, depth)
    requires Progress(h0, b, chain, placed, blocks, added, removed) && placed > 0
    requires chain[placed - 1].hash != b.hash
    ensures LoopInv(c, h0, b, depth, chain, placed, |chain| - 1, blocks, added, removed)
  {
  }

  /** Once the original block is placed, the loop has computed Reconcile. */
  lemma FinishBranch(c: Client, h0: seq<Block>, b: Block, depth: nat, chain: seq<Block>, placed: nat,
                     blocks: seq<Block>, added: seq<Block>, removed: seq<Block>)
    requires chain == Lineage(c, h0, b, depth) && |h0| <= MAX_RECONCILE_BLOCKS
    requires Progress(h0, b, chain, placed, blocks, added, removed) && placed > 0
    requires chain[placed - 1].hash == b.hash
    ensures Reconcile(h0, c, b, depth) == Reconciled(Ok(Some(Event(added, removed))), blocks)
  {
    assert placed == |chain|;
    assert chain[..placed] == chain;
    ReconcileSucceeds(h0, c, b, depth);
    AddAllIsNewest(h0[..ForkIndex(h0, chain[0]) + 1], chain);
  }
}
