/** What reconciling one observed block does to the history, stated parent-first: walk back
    through the client from the observed block to the first block that fits on the history,
    cut the history back to that block's parent and add the walked blocks oldest first. */
module Reconciler {
  import opened Chain
  import opened History

  /** b's hash is already in the history: reconciling b changes nothing. */
  predicate Known(hist: seq<Block>, b: Block)
  {
    HasHash(hist, b.hash)
  }

  /** b fits on the history without fetching: the history is empty or holds b's parent. */
  predicate Placeable(hist: seq<Block>, b: Block)
  {
    |hist| == 0 || HasHash(hist, b.parent)
  }

  /** The index after which the history is cut before b is added: the last block when it is
      b's parent, otherwise the first block with b's parent hash; -1 for an empty history. */
  function ForkIndex(hist: seq<Block>, b: Block): (i: int)
    requires Placeable(hist, b)
    ensures -1 <= i < |hist|
    ensures i == -1 <==> |hist| == 0
    ensures i != -1 ==> hist[i].hash == b.parent
  {
    if |hist| == 0 then -1
    else if hist[|hist| - 1].hash == b.parent then |hist| - 1
    else IndexOf(hist, b.parent)
  }

  /** The backfill walk from b, oldest first: b's ancestors fetched from the client one parent
      hash at a time, stopping at the first block that fits on the history, at a parent the
      client does not hold, or after depth hops. The last element is b itself. */
  function Lineage(c: Client, hist: seq<Block>, b: Block, depth: nat): (chain: seq<Block>)
    ensures |chain| > 0 && chain[|chain| - 1] == b
    decreases depth
  {
    if depth == 0 || Placeable(hist, b) || b.parent !in c then [b]
    else Lineage(c, hist, c[b.parent], depth - 1) + [b]
  }

  /** No two blocks of s share a hash. */
  predicate DistinctHashes(s: seq<Block>)
  {
    forall i, j :: 0 <= i < j < |s| ==> s[i].hash != s[j].hash
  }

  /** The reconciliation of b ends: b is known, or the walk from b stops within depth hops,
      either at a parent the client lacks or at a block that fits on the history along an
      acyclic chain of distinct hashes. */
  predicate Terminates(c: Client, hist: seq<Block>, b: Block, depth: nat)
  {
    Known(hist, b) ||
    var chain := Lineage(c, hist, b, depth);
    if Placeable(hist, chain[0]) then DistinctHashes(chain) else chain[0].parent !in c
  }

  /** The outcome of reconciling one block and the history after it. */
  datatype Reconciled = Reconciled(result: Result<Option<Event>>, history: seq<Block>)

  /** handleReconcile, stated parent-first: no event for a known block; an error carrying the
      missing parent hash when the walk reaches a block the client cannot supply; otherwise
      the history is cut after the fork point, the cut blocks are reported removed, and the
      walked blocks are added oldest first. */
  function Reconcile(hist: seq<Block>, c: Client, b: Block, depth: nat): Reconciled
  {
    if Known(hist, b) then Reconciled(Ok(None), hist)
    else
      var chain := Lineage(c, hist, b, depth);
      if !Placeable(hist, chain[0]) then Reconciled(Err(ParentNotFound(chain[0].parent)), hist)
      else
        var i := ForkIndex(hist, chain[0]);
        Reconciled(Ok(Some(Event(chain, hist[i + 1..]))), AddAll(hist[..i + 1], chain))
  }

  /** Each step of the walk: a block that did not fit, whose parent the client served. */
  lemma {:induction false} LineageStep(c: Client, hist: seq<Block>, b: Block, depth: nat, j: nat)
    requires 0 < j < |Lineage(c, hist, b, depth)|
    ensures var chain := Lineage(c, hist, b, depth);
      && !Placeable(hist, chain[j])
      && chain[j].parent in c
      && chain[j - 1] == c[chain[j].parent]
    decreases depth
  {
    var chain := Lineage(c, hist, b, depth);
    assert depth > 0 && !Placeable(hist, b) && b.parent in c;
    var inner := Lineage(c, hist, c[b.parent], depth - 1);
    assert chain == inner + [b];
    if j < |chain| - 1 {
      LineageStep(c, hist, c[b.parent], depth - 1, j);
      assert chain[j] == inner[j] && chain[j - 1] == inner[j - 1];
    }
  }

  /** The walk over a well-keyed client is a chain: every block but the first failed to fit,
      and every block but b was served by the client under its own hash and is absent from
      the history. */
  lemma LineageFacts(c: Client, hist: seq<Block>, b: Block, depth: nat)
    requires WellKeyed(c)
    ensures var chain := Lineage(c, hist, b, depth);
      && Linked(chain)
      && (forall j :: 0 < j < |chain| ==>
            !Placeable(hist, chain[j]) && chain[j].parent in c && chain[j - 1] == c[chain[j].parent])
      && (forall j :: 0 <= j < |chain| - 1 ==>
            chain[j].hash in c && c[chain[j].hash] == chain[j] && !HasHash(hist, chain[j].hash))
  {
    var chain := Lineage(c, hist, b, depth);
    forall j | 0 < j < |chain|
      ensures !Placeable(hist, chain[j]) && chain[j].parent in c && chain[j - 1] == c[chain[j].parent]
    {
      LineageStep(c, hist, b, depth, j);
    }
    forall j | 0 <= j < |chain| - 1
      ensures chain[j].hash in c && c[chain[j].hash] == chain[j] && !HasHash(hist, chain[j].hash)
    {
      assert chain[j].hash == chain[j + 1].parent;
    }
  }

  /** The success case of Reconcile spelled out. */
  lemma ReconcileSucceeds(hist: seq<Block>, c: Client, b: Block, depth: nat)
    requires !Known(hist, b) && Placeable(hist, Lineage(c, hist, b, depth)[0])
    ensures var chain := Lineage(c, hist, b, depth);
      var i := ForkIndex(hist, chain[0]);
      Reconcile(hist, c, b, depth) == Reconciled(Ok(Some(Event(chain, hist[i + 1..]))), AddAll(hist[..i + 1], chain))
  {
  }

  /** An empty history takes the observed block as it is. */
  lemma ReconcileEmpty(c: Client, b: Block, depth: nat)
    ensures Reconcile([], c, b, depth) == Reconciled(Ok(Some(Event([b], []))), [b])
  {
    assert Lineage(c, [], b, depth) == [b];
    assert AddAll([], [b]) == Add(AddAll([], []), b);
  }

  /** A block whose hash is already in the history yields neither an event nor an error,
      and only such a block does; the history is unchanged. */
  lemma ReconcileKnown(hist: seq<Block>, c: Client, b: Block, depth: nat)
    ensures var r := Reconcile(hist, c, b, depth);
      (r.result == Ok(None) <==> HasHash(hist, b.hash)) && (HasHash(hist, b.hash) ==> r.history == hist)
  {
    var r := Reconcile(hist, c, b, depth);
    if !HasHash(hist, b.hash) {
      var chain := Lineage(c, hist, b, depth);
      assert r.result.Err? || r.result == Ok(Some(Event(chain, r.result.value.value.removed)));
    }
  }

  /** A new block whose parent is in the history is added alone after the fork point. */
  lemma ReconcileSingle(hist: seq<Block>, c: Client, b: Block, depth: nat)
    requires !HasHash(hist, b.hash) && HasHash(hist, b.parent)
    ensures var i := ForkIndex(hist, b);
      Reconcile(hist, c, b, depth) == Reconciled(Ok(Some(Event([b], hist[i + 1..]))), Add(hist[..i + 1], b))
  {
    assert Lineage(c, hist, b, depth) == [b];
    var i := ForkIndex(hist, b);
    assert AddAll(hist[..i + 1], [b]) == Add(AddAll(hist[..i + 1], []), b);
  }

  /** A new block whose parent is in the history: when the parent is the last block it is
      plain extension; otherwise everything after the first block with that hash is reported
      removed, oldest first, and the block is added after it. */
  lemma ReconcileOnHistory(hist: seq<Block>, c: Client, b: Block, depth: nat)
    requires !HasHash(hist, b.hash) && HasHash(hist, b.parent)
    ensures var r := Reconcile(hist, c, b, depth);
      if hist[|hist| - 1].hash == b.parent then
        r == Reconciled(Ok(Some(Event([b], []))), Add(hist, b))
      else
        var i := IndexOf(hist, b.parent);
        r == Reconciled(Ok(Some(Event([b], hist[i + 1..]))), Add(hist[..i + 1], b))
  {
    ReconcileSingle(hist, c, b, depth);
    var i := ForkIndex(hist, b);
    if hist[|hist| - 1].hash == b.parent {
      assert i == |hist| - 1;
      assert hist[..i + 1] == hist && hist[i + 1..] == [];
    } else {
      assert i == IndexOf(hist, b.parent);
    }
  }

  /** A failed reconciliation leaves the history as it was and names a parent hash that is
      in neither the history nor the client; a block whose own parent is missing from both
      fails with that parent's hash. */
  lemma ReconcileFails(hist: seq<Block>, c: Client, b: Block, depth: nat)
    requires WellKeyed(c) && Terminates(c, hist, b, depth)
    ensures var r := Reconcile(hist, c, b, depth);
      && (r.result.Err? ==>
            && r.history == hist && |hist| > 0
            && r.result.error.ParentNotFound?
            && r.result.error.hash !in c && !HasHash(hist, r.result.error.hash))
      && (!HasHash(hist, b.hash) && |hist| > 0 && !HasHash(hist, b.parent) && b.parent !in c ==>
            r.result == Err(ParentNotFound(b.parent)))
  {
    if !Known(hist, b) {
      LineageFacts(c, hist, b, depth);
    }
  }

  /** A successful reconciliation adds a chain of blocks that ends with the observed block;
      every block before it came from the client, and none of them was in the history. */
  lemma ReconcileAddsChain(hist: seq<Block>, c: Client, b: Block, depth: nat)
    requires WellKeyed(c)
    ensures var r := Reconcile(hist, c, b, depth);
      r.result.Ok? && r.result.value.Some? ==>
        var added := r.result.value.value.added;
        && |added| > 0 && added[|added| - 1] == b
        && Linked(added)
        && (forall k :: 0 <= k < |added| ==> !HasHash(hist, added[k].hash))
        && (forall k :: 0 <= k < |added| - 1 ==> added[k].hash in c && c[added[k].hash] == added[k])
  {
    var r := Reconcile(hist, c, b, depth);
    if r.result.Ok? && r.result.value.Some? {
      LineageFacts(c, hist, b, depth);
      assert r.result.value.value.added == Lineage(c, hist, b, depth);
    }
  }

  /** A successful reconciliation removes exactly the tail of the old history after the fork
      point, oldest first; the first added block's parent is the last kept block, and the new
      history is the newest blocks of the kept prefix followed by the added blocks, so it
      stays within MAX_RECONCILE_BLOCKS and ends with the observed block. */
  lemma ReconcileCutsAtFork(hist: seq<Block>, c: Client, b: Block, depth: nat)
    requires |hist| <= MAX_RECONCILE_BLOCKS
    ensures var r := Reconcile(hist, c, b, depth);
      r.result.Ok? && r.result.value.Some? ==>
        var e := r.result.value.value;
        var kept := |hist| - |e.removed|;
        && 0 <= kept && hist == hist[..kept] + e.removed
        && (kept == 0 <==> hist == [])
        && (kept > 0 ==> hist[kept - 1].hash == e.added[0].parent)
        && r.history == Newest(hist[..kept] + e.added)
        && |r.history| <= MAX_RECONCILE_BLOCKS
        && r.history[|r.history| - 1] == b
  {
    var r := Reconcile(hist, c, b, depth);
    if r.result.Ok? && r.result.value.Some? {
      var chain := Lineage(c, hist, b, depth);
      var i := ForkIndex(hist, chain[0]);
      assert r.result.value.value == Event(chain, hist[i + 1..]);
      assert r.history == AddAll(hist[..i + 1], chain);
      assert hist == hist[..i + 1] + hist[i + 1..];
      AddAllIsNewest(hist[..i + 1], chain);
      AddAllLast(hist[..i + 1], chain);
    }
  }

  /** Reconciling keeps a linked history linked. */
  lemma ReconcileKeepsLinked(hist: seq<Block>, c: Client, b: Block, depth: nat)
    requires |hist| <= MAX_RECONCILE_BLOCKS && Linked(hist)
    requires WellKeyed(c)
    ensures Linked(Reconcile(hist, c, b, depth).history)
  {
    if !Known(hist, b) {
      var chain := Lineage(c, hist, b, depth);
      if Placeable(hist, chain[0]) {
        LineageFacts(c, hist, b, depth);
        var i := ForkIndex(hist, chain[0]);
        var t := hist[..i + 1] + chain;
        forall k | 0 < k < |t| ensures t[k].parent == t[k - 1].hash {
          if k <= i {
            assert t[k] == hist[k] && t[k - 1] == hist[k - 1];
          } else if k > i + 1 {
            assert t[k] == chain[k - i - 1] && t[k - 1] == chain[k - i - 2];
          } else {
            assert t[k] == chain[0] && t[k - 1] == hist[i];
          }
        }
        AddAllIsNewest(hist[..i + 1], chain);
        NewestLinked(t);
      }
    }
  }

  /** Reconciling never lets the history grow past MAX_RECONCILE_BLOCKS. */
  lemma ReconcileBounded(hist: seq<Block>, c: Client, b: Block, depth: nat)
    requires |hist| <= MAX_RECONCILE_BLOCKS
    ensures |Reconcile(hist, c, b, depth).history| <= MAX_RECONCILE_BLOCKS
  {
    if !Known(hist, b) {
      var chain := Lineage(c, hist, b, depth);
      if Placeable(hist, chain[0]) {
        AddAllIsNewest(hist[..ForkIndex(hist, chain[0]) + 1], chain);
      }
    }
  }

  /** Reconciling the same block twice in a row yields an event only the first time, and the
      second call leaves the history as the first one left it. */
  lemma ReconcileTwice(hist: seq<Block>, c: Client, b: Block, depth: nat, depth': nat)
    requires Reconcile(hist, c, b, depth).result.Ok?
    ensures var first := Reconcile(hist, c, b, depth);
      Reconcile(first.history, c, b, depth') == Reconciled(Ok(None), first.history)
  {
    var first := Reconcile(hist, c, b, depth);
    if !Known(hist, b) {
      var chain := Lineage(c, hist, b, depth);
      var i := ForkIndex(hist, chain[0]);
      AddAllLast(hist[..i + 1], chain);
      var h := first.history;
      assert h[|h| - 1].hash == b.hash;
      assert HasHash(h, b.hash);
    }
  }
}
