/** The in-memory client of the tracker's tests, the block builders they use, and their
    reconciliation scenarios. */
module DummyClient {
  import opened Chain
  import opened History
  import opened Reconciler
  import opened Tracker

  /** A Go byte. */
  newtype byte = x: int | 0 <= x < 256

  /** mock: the block whose hash is the one-byte hash of n and whose parent hash is that of
      n - 1 in byte arithmetic, so the parent of block 0 is block 0xff. */
  function Mock(n: byte): (b: Block)
    ensures b.hash == n as int
    ensures n > 0 ==> b.parent == b.hash - 1
    ensures n == 0 ==> b.parent == 0xff
  {
    Block(n as int, ((n as int) + 255) % 256)
  }

  /** Parent: the same block with its parent hash set to the one-byte hash of p. */
  function WithParent(b: Block, p: byte): (r: Block)
    ensures r.hash == b.hash && r.parent == p as int
  {
    Block(b.hash, p as int)
  }

  /** The client's map after registering each block of bs in turn under its hash. */
  function Registered(m: Client, bs: seq<Block>): Client
    decreases |bs|
  {
    if |bs| == 0 then m
    else
      var last := bs[|bs| - 1];
      Registered(m, bs[..|bs| - 1])[last.hash := last]
  }

  /** Registering blocks keeps every block stored under its own hash. */
  lemma {:induction false} RegisteredWellKeyed(m: Client, bs: seq<Block>)
    requires WellKeyed(m)
    ensures WellKeyed(Registered(m, bs))
    decreases |bs|
  {
    if |bs| > 0 {
      RegisteredWellKeyed(m, bs[..|bs| - 1]);
    }
  }

  /** After registering bs, the hashes served are those of m and of bs; a hash of bs serves
      the last block of bs registered under it, any other hash what m served. */
  lemma {:induction false} RegisteredLookup(m: Client, bs: seq<Block>, h: Hash)
    ensures h in Registered(m, bs) <==> h in m || HasHash(bs, h)
    ensures !HasHash(bs, h) && h in m ==> Registered(m, bs)[h] == m[h]
    ensures forall k :: 0 <= k < |bs| && bs[k].hash == h && (forall k' :: k < k' < |bs| ==> bs[k'].hash != h) ==>
              Registered(m, bs)[h] == bs[k]
    decreases |bs|
  {
    if |bs| > 0 {
      var init := bs[..|bs| - 1];
      RegisteredLookup(m, init, h);
      if HasHash(init, h) {
        var k :| 0 <= k < |init| && init[k].hash == h;
        assert bs[k].hash == h;
      }
      if HasHash(bs, h) && bs[|bs| - 1].hash != h {
        var k :| 0 <= k < |bs| && bs[k].hash == h;
        assert init[k].hash == h;
      }
      forall k | 0 <= k < |bs| && bs[k].hash == h && (forall k' :: k < k' < |bs| ==> bs[k'].hash != h)
        ensures Registered(m, bs)[h] == bs[k]
      {
        if k < |bs| - 1 {
          assert init[k] == bs[k];
          assert forall k' :: k < k' < |init| ==> init[k'].hash != h by {
            forall k' | k < k' < |init| ensures init[k'].hash != h {
              assert init[k'] == bs[k'];
            }
          }
        }
      }
    }
  }

  /** The fake client: blocks stored under their hashes. */
  class DummyEthClient {
    var blocks: map<Hash, Block>

    /** newDummyEthClient: no blocks. */
    constructor ()
      ensures blocks == map[]
    {
      blocks := map[];
    }

    /** addBlock: store b under its hash, replacing any block stored there. */
    method AddBlock(b: Block)
      modifies this
      ensures blocks == old(blocks)[b.hash := b]
    {
      blocks := blocks[b.hash := b];
    }

    /** addBlocks: store each block of bb in turn. */
    method AddBlocks(bb: seq<Block>)
      modifies this
      ensures blocks == Registered(old(blocks), bb)
    {
      for i := 0 to |bb|
        invariant blocks == Registered(old(blocks), bb[..i])
      {
        assert bb[..i + 1][..i] == bb[..i];
        AddBlock(bb[i]);
      }
      assert bb[..|bb|] == bb;
    }

    /** BlockByHash, through getBlock: the block stored under h, or an error naming h. */
    method BlockByHash(h: Hash) returns (r: Result<Block>)
      ensures r.Ok? <==> h in blocks
      ensures r.Ok? ==> r.value == blocks[h]
      ensures r.Err? ==> r == Err(BlockNotFound(h))
      ensures r == FetchByHash(blocks, h)
    {
      if h in blocks {
        r := Ok(blocks[h]);
      } else {
        r := Err(BlockNotFound(h));
      }
    }

    /** BlockByNumber with no number, as polling asks for the head: the fake looks up the
        number's text, which is never a block hash's text, so the head is never available. */
    method BlockByNumber() returns (r: Result<Block>)
      ensures r == Err(HeadUnavailable)
    {
      r := Err(HeadUnavailable);
    }
  }

  /** One row of the scenario table: register the scenario blocks with a fresh fake client,
      bootstrap a fresh tracker's history with addBlock, reconcile one block, and return the
      history the tracker ends with. */
  method RunCase(scenario: seq<Block>, history: seq<Block>, b: Block, ghost depth: nat)
    returns (final: seq<Block>)
    requires Terminates(Registered(map[], scenario), AddAll([], history), b, depth)
    ensures final == Reconcile(AddAll([], history), Registered(map[], scenario), b, depth).history
  {
    var client := new DummyEthClient();
    client.AddBlocks(scenario);
    RegisteredWellKeyed(map[], scenario);
    var tracker := new BlockTracker(false);
    for i := 0 to |history|
      invariant tracker.Valid() && tracker.blocks == AddAll([], history[..i])
      invariant client.blocks == Registered(map[], scenario)
    {
      assert history[..i + 1][..i] == history[..i];
      tracker.AddBlock(history[i]);
    }
    assert history[..|history|] == history;
    var _ := tracker.HandleReconcile(b, client.blocks, depth);
    final := tracker.blocks;
  }

  /** How each scenario with a fork point ends: the history is kept up to the first block
      holding the parent of the walk's oldest block, the rest is reported removed, and the
      walk is appended below capacity. */
  lemma CutAndAppend(h: seq<Block>, c: Client, b: Block, depth: nat,
                     chain: seq<Block>, kept: seq<Block>, cut: seq<Block>)
    requires !HasHash(h, b.hash) && Lineage(c, h, b, depth) == chain
    requires h == kept + cut && |kept| > 0 && |kept| + |chain| <= MAX_RECONCILE_BLOCKS
    requires kept[|kept| - 1].hash == chain[0].parent
    requires forall k :: 0 <= k < |kept| - 1 ==> kept[k].hash != chain[0].parent
    requires cut == [] || h[|h| - 1].hash != chain[0].parent
    ensures Reconcile(h, c, b, depth) == Reconciled(Ok(Some(Event(chain, cut))), kept + chain)
  {
    var p, n := chain[0].parent, |kept|;
    assert h[n - 1] == kept[n - 1];
    assert Placeable(h, chain[0]);
    var i := ForkIndex(h, chain[0]);
    if cut != [] {
      var r := IndexOf(h, p);
      assert r == i;
      assert r == n - 1;
    }
    assert h[..i + 1] == kept && h[i + 1..] == cut;
    ReconcileSucceeds(h, c, b, depth);
    AddAllBelowCap(kept, chain);
  }

  /** "Empty history": reconciling mock(1) on an empty history gives [1]. */
  lemma ScenarioEmptyHistory()
    ensures Reconcile(AddAll([], []), Registered(map[], []), Mock(1), 0)
         == Reconciled(Ok(Some(Event([Mock(1)], []))), [Mock(1)])
  {
    ReconcileEmpty(map[], Mock(1), 0);
  }

  /** "Repeated header": [1] plus 1 stays [1], with no event. */
  lemma ScenarioRepeatedHeader()
    ensures Reconcile(AddAll([], [Mock(1)]), Registered(map[], []), Mock(1), 0)
         == Reconciled(Ok(None), [Mock(1)])
  {
    var h := [Mock(1)];
    AddAllBelowCap([], h);
    assert [] + h == h;
    assert h[0].hash == Mock(1).hash;
    assert HasHash(h, Mock(1).hash);
  }

  /** "New head": [1] plus 2 gives [1, 2]. */
  lemma ScenarioNewHead()
    ensures Reconcile(AddAll([], [Mock(1)]), Registered(map[], []), Mock(2), 0)
         == Reconciled(Ok(Some(Event([Mock(2)], []))), [Mock(1), Mock(2)])
  {
    var h := [Mock(1)];
    AddAllBelowCap([], h);
    assert [] + h == h;
    assert h[0].hash == Mock(2).parent;
    ReconcileOnHistory(h, map[], Mock(2), 0);
  }

  /** "Ignore block already on history": [1, 2, 3] plus 2 stays [1, 2, 3], with no event. */
  lemma ScenarioAlreadyOnHistory()
    ensures Reconcile(AddAll([], [Mock(1), Mock(2), Mock(3)]), Registered(map[], []), Mock(2), 0)
         == Reconciled(Ok(None), [Mock(1), Mock(2), Mock(3)])
  {
    var h := [Mock(1), Mock(2), Mock(3)];
    AddAllBelowCap([], h);
    assert [] + h == h;
    assert h[1].hash == Mock(2).hash;
    assert HasHash(h, Mock(2).hash);
  }

  /** The outcome of "Multi Roll back" on the history itself. */
  lemma MultiRollBackOutcome()
    ensures var b := WithParent(Mock(0x30), 2);
      Reconcile([Mock(1), Mock(2), Mock(3), Mock(4)], map[], b, 0)
      == Reconciled(Ok(Some(Event([b], [Mock(3), Mock(4)]))), [Mock(1), Mock(2), b])
  {
    var b := WithParent(Mock(0x30), 2);
    var h := [Mock(1), Mock(2), Mock(3), Mock(4)];
    assert !HasHash(h, b.hash);
    assert Lineage(map[], h, b, 0) == [b];
    CutAndAppend(h, map[], b, 0, [b], [Mock(1), Mock(2)], [Mock(3), Mock(4)]);
  }

  /** "Multi Roll back": [1, 2, 3, 4] plus 0x30 with parent 2 gives [1, 2, 0x30], and
      3 and 4 are reported removed. */
  lemma ScenarioMultiRollBack()
    ensures var b := WithParent(Mock(0x30), 2);
      Reconcile(AddAll([], [Mock(1), Mock(2), Mock(3), Mock(4)]), Registered(map[], []), b, 0)
      == Reconciled(Ok(Some(Event([b], [Mock(3), Mock(4)]))), [Mock(1), Mock(2), b])
  {
    var h := [Mock(1), Mock(2), Mock(3), Mock(4)];
    AddAllBelowCap([], h);
    assert [] + h == h;
    MultiRollBackOutcome();
  }

  /** The client of "Backfills missing blocks": blocks 3 and 4. */
  lemma BackfillClient()
    ensures Registered(map[], [Mock(3), Mock(4)]) == map[3 := Mock(3), 4 := Mock(4)]
  {
    assert [Mock(3), Mock(4)][..1] == [Mock(3)];
    assert [Mock(3)][..0] == [];
  }

  /** The walk of "Backfills missing blocks": from 5 back through 4 to 3, whose parent 2
      is in the history. */
  lemma BackfillWalk()
    ensures Lineage(map[3 := Mock(3), 4 := Mock(4)], [Mock(1), Mock(2)], Mock(5), 2)
         == [Mock(3), Mock(4), Mock(5)]
  {
    var c, h := map[3 := Mock(3), 4 := Mock(4)], [Mock(1), Mock(2)];
    assert !HasHash(h, 4) && !HasHash(h, 3);
    assert h[1].hash == Mock(3).parent;
    assert Lineage(c, h, Mock(3), 0) == [Mock(3)];
    assert Lineage(c, h, Mock(4), 1) == [Mock(3), Mock(4)];
  }

  /** The walk of "Backfills missing blocks" ends at a block that fits, along distinct
      hashes. */
  lemma BackfillTerminates()
    ensures Terminates(map[3 := Mock(3), 4 := Mock(4)], [Mock(1), Mock(2)], Mock(5), 2)
  {
    BackfillWalk();
    assert [Mock(1), Mock(2)][1].hash == Mock(3).parent;
  }

  /** The outcome of "Backfills missing blocks" on the client's map and the history. */
  lemma BackfillOutcome()
    ensures Reconcile([Mock(1), Mock(2)], map[3 := Mock(3), 4 := Mock(4)], Mock(5), 2)
         == Reconciled(Ok(Some(Event([Mock(3), Mock(4), Mock(5)], []))),
                       [Mock(1), Mock(2), Mock(3), Mock(4), Mock(5)])
  {
    var h := [Mock(1), Mock(2)];
    BackfillWalk();
    assert !HasHash(h, 5);
    CutAndAppend(h, map[3 := Mock(3), 4 := Mock(4)], Mock(5), 2, [Mock(3), Mock(4), Mock(5)], h, []);
    assert h + [] == h;
  }

  /** "Backfills missing blocks": history [1, 2], the client holds 3 and 4, reconciling 5
      fetches 4 and then 3 and gives [1, 2, 3, 4, 5]. */
  lemma ScenarioBackfill()
    ensures var c := Registered(map[], [Mock(3), Mock(4)]);
      var h := AddAll([], [Mock(1), Mock(2)]);
      && Terminates(c, h, Mock(5), 2)
      && Reconcile(h, c, Mock(5), 2)
         == Reconciled(Ok(Some(Event([Mock(3), Mock(4), Mock(5)], []))),
                       [Mock(1), Mock(2), Mock(3), Mock(4), Mock(5)])
  {
    var h := [Mock(1), Mock(2)];
    BackfillClient();
    AddAllBelowCap([], h);
    assert [] + h == h;
    BackfillTerminates();
    BackfillOutcome();
  }

  /** The client of "Rolls back and backfills": blocks 0x30 (parent 2) and 0x40 (parent
      0x30). */
  lemma RollBackClient()
    ensures Registered(map[], [WithParent(Mock(0x30), 2), WithParent(Mock(0x40), 0x30)])
         == map[0x30 := WithParent(Mock(0x30), 2), 0x40 := WithParent(Mock(0x40), 0x30)]
  {
    var b30, b40 := WithParent(Mock(0x30), 2), WithParent(Mock(0x40), 0x30);
    assert [b30, b40][..1] == [b30];
    assert [b30][..0] == [];
    assert Registered(map[], [b30]) == map[0x30 := b30];
  }

  /** The walk of "Rolls back and backfills": from 0x50 back through 0x40 to 0x30, whose
      parent 2 is in the history. */
  lemma RollBackWalk()
    ensures var b30, b40, b50 := WithParent(Mock(0x30), 2), WithParent(Mock(0x40), 0x30), WithParent(Mock(0x50), 0x40);
      Lineage(map[0x30 := b30, 0x40 := b40], [Mock(1), Mock(2), Mock(3), Mock(4)], b50, 2) == [b30, b40, b50]
  {
    var b30, b40, b50 := WithParent(Mock(0x30), 2), WithParent(Mock(0x40), 0x30), WithParent(Mock(0x50), 0x40);
    var c, h := map[0x30 := b30, 0x40 := b40], [Mock(1), Mock(2), Mock(3), Mock(4)];
    assert !HasHash(h, 0x30) && !HasHash(h, 0x40);
    assert h[1].hash == b30.parent;
    assert Lineage(c, h, b30, 0) == [b30];
    assert Lineage(c, h, b40, 1) == [b30, b40];
  }

  /** The walk of "Rolls back and backfills" ends at a block that fits, along distinct
      hashes. */
  lemma RollBackTerminates()
    ensures var b30, b40, b50 := WithParent(Mock(0x30), 2), WithParent(Mock(0x40), 0x30), WithParent(Mock(0x50), 0x40);
      Terminates(map[0x30 := b30, 0x40 := b40], [Mock(1), Mock(2), Mock(3), Mock(4)], b50, 2)
  {
    var b30 := WithParent(Mock(0x30), 2);
    RollBackWalk();
    assert [Mock(1), Mock(2), Mock(3), Mock(4)][1].hash == b30.parent;
  }

  /** The outcome of "Rolls back and backfills" on the client's map and the history. */
  lemma RollBackOutcome()
    ensures var b30, b40, b50 := WithParent(Mock(0x30), 2), WithParent(Mock(0x40), 0x30), WithParent(Mock(0x50), 0x40);
      Reconcile([Mock(1), Mock(2), Mock(3), Mock(4)], map[0x30 := b30, 0x40 := b40], b50, 2)
      == Reconciled(Ok(Some(Event([b30, b40, b50], [Mock(3), Mock(4)]))), [Mock(1), Mock(2), b30, b40, b50])
  {
    var b30, b40, b50 := WithParent(Mock(0x30), 2), WithParent(Mock(0x40), 0x30), WithParent(Mock(0x50), 0x40);
    var h := [Mock(1), Mock(2), Mock(3), Mock(4)];
    RollBackWalk();
    assert !HasHash(h, 0x50);
    CutAndAppend(h, map[0x30 := b30, 0x40 := b40], b50, 2, [b30, b40, b50], [Mock(1), Mock(2)], [Mock(3), Mock(4)]);
  }

  /** "Rolls back and backfills": history [1, 2, 3, 4], the client holds 0x30 (parent 2) and
      0x40 (parent 0x30); reconciling 0x50 (parent 0x40) removes 3 and 4 and gives
      [1, 2, 0x30, 0x40, 0x50]. */
  lemma ScenarioRollBackAndBackfill()
    ensures var b30, b40, b50 := WithParent(Mock(0x30), 2), WithParent(Mock(0x40), 0x30), WithParent(Mock(0x50), 0x40);
      var c := Registered(map[], [b30, b40]);
      var h := AddAll([], [Mock(1), Mock(2), Mock(3), Mock(4)]);
      && Terminates(c, h, b50, 2)
      && Reconcile(h, c, b50, 2)
         == Reconciled(Ok(Some(Event([b30, b40, b50], [Mock(3), Mock(4)]))),
                       [Mock(1), Mock(2), b30, b40, b50])
  {
    var h := [Mock(1), Mock(2), Mock(3), Mock(4)];
    RollBackClient();
    AddAllBelowCap([], h);
    assert [] + h == h;
    RollBackTerminates();
    RollBackOutcome();
  }

  /** The "Empty history" row run through the fake client and the tracker. */
  method RunEmptyHistory() returns (final: seq<Block>)
    ensures final == [Mock(1)]
  {
    ScenarioEmptyHistory();
    final := RunCase([], [], Mock(1), 0);
  }

  /** The "Repeated header" row run through the fake client and the tracker. */
  method RunRepeatedHeader() returns (final: seq<Block>)
    ensures final == [Mock(1)]
  {
    ScenarioRepeatedHeader();
    final := RunCase([], [Mock(1)], Mock(1), 0);
  }

  /** The "New head" row run through the fake client and the tracker. */
  method RunNewHead() returns (final: seq<Block>)
    ensures final == [Mock(1), Mock(2)]
  {
    ScenarioNewHead();
    final := RunCase([], [Mock(1)], Mock(2), 0);
  }

  /** The "Ignore block already on history" row run through the fake client and the tracker. */
  method RunAlreadyOnHistory() returns (final: seq<Block>)
    ensures final == [Mock(1), Mock(2), Mock(3)]
  {
    ScenarioAlreadyOnHistory();
    final := RunCase([], [Mock(1), Mock(2), Mock(3)], Mock(2), 0);
  }

  /** The "Multi Roll back" row run through the fake client and the tracker. */
  method RunMultiRollBack() returns (final: seq<Block>)
    ensures final == [Mock(1), Mock(2), WithParent(Mock(0x30), 2)]
  {
    ScenarioMultiRollBack();
    final := RunCase([], [Mock(1), Mock(2), Mock(3), Mock(4)], WithParent(Mock(0x30), 2), 0);
  }

  /** The "Backfills missing blocks" row run through the fake client and the tracker. */
  method RunBackfill() returns (final: seq<Block>)
    ensures final == [Mock(1), Mock(2), Mock(3), Mock(4), Mock(5)]
  {
    ScenarioBackfill();
    final := RunCase([Mock(3), Mock(4)], [Mock(1), Mock(2)], Mock(5), 2);
  }

  /** The "Rolls back and backfills" row run through the fake client and the tracker. */
  method RunRollBackAndBackfill() returns (final: seq<Block>)
    ensures final == [Mock(1), Mock(2), WithParent(Mock(0x30), 2), WithParent(Mock(0x40), 0x30), WithParent(Mock(0x50), 0x40)]
  {
    var b30, b40, b50 := WithParent(Mock(0x30), 2), WithParent(Mock(0x40), 0x30), WithParent(Mock(0x50), 0x40);
    ScenarioRollBackAndBackfill();
    final := RunCase([b30, b40], [Mock(1), Mock(2), Mock(3), Mock(4)], b50, 2);
  }
}
