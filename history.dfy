/** The bounded block history as values: at most MAX_RECONCILE_BLOCKS blocks, oldest first. */
module History {
  import opened Chain

  /** maxReconcileBlocks: how many blocks the tracker remembers. */
  const MAX_RECONCILE_BLOCKS: nat := 10

  /** addBlock on a history value: when full, drop the oldest block, then append. */
  function Add(s: seq<Block>, b: Block): seq<Block>
  {
    if |s| == MAX_RECONCILE_BLOCKS then s[1..] + [b] else s + [b]
  }

  /** Add each block of xs in turn, oldest first. */
  function AddAll(s: seq<Block>, xs: seq<Block>): seq<Block>
    decreases |xs|
  {
    if |xs| == 0 then s else Add(AddAll(s, xs[..|xs| - 1]), xs[|xs| - 1])
  }

  /** The newest MAX_RECONCILE_BLOCKS entries of t: what a bounded history retains. */
  function Newest(t: seq<Block>): seq<Block>
  {
    if |t| <= MAX_RECONCILE_BLOCKS then t else t[|t| - MAX_RECONCILE_BLOCKS..]
  }

  /** Some block of s has hash h. */
  predicate HasHash(s: seq<Block>, h: Hash)
  {
    exists i :: 0 <= i < |s| && s[i].hash == h
  }

  /** parentHashInHistory on a value: the first index whose hash is h, or -1. */
  function IndexOf(s: seq<Block>, h: Hash): (r: int)
    ensures -1 <= r < |s|
    ensures r == -1 <==> !HasHash(s, h)
    ensures r != -1 ==> s[r].hash == h && forall k :: 0 <= k < r ==> s[k].hash != h
  {
    if |s| == 0 then -1
    else if s[0].hash == h then 0
    else
      var r := IndexOf(s[1..], h);
      if r == -1 then -1 else r + 1
  }

  /** Every block's parent is its predecessor: s is a piece of one chain. */
  predicate Linked(s: seq<Block>)
  {
    forall k :: 0 < k < |s| ==> s[k].parent == s[k - 1].hash
  }

  /** Below capacity Add appends and keeps every entry; at capacity it drops exactly the
      oldest. Either way the new block is last and the bound holds. */
  lemma AddShape(s: seq<Block>, b: Block)
    requires |s| <= MAX_RECONCILE_BLOCKS
    ensures var r := Add(s, b);
      && |r| <= MAX_RECONCILE_BLOCKS
      && |r| > 0 && r[|r| - 1] == b
      && (|s| < MAX_RECONCILE_BLOCKS ==> |r| == |s| + 1 && r[..|s|] == s)
      && (|s| == MAX_RECONCILE_BLOCKS ==> |r| == |s| && r[..|s| - 1] == s[1..])
  {
  }

  /** Add keeps the newest blocks of the history followed by b. */
  lemma AddIsNewest(s: seq<Block>, b: Block)
    requires |s| <= MAX_RECONCILE_BLOCKS
    ensures Add(s, b) == Newest(s + [b])
  {
  }

  lemma NewestOfNewest(t: seq<Block>, b: Block)
    ensures Newest(Newest(t) + [b]) == Newest(t + [b])
  {
    if |t| > MAX_RECONCILE_BLOCKS {
      var n := MAX_RECONCILE_BLOCKS;
      assert (t + [b])[|t| + 1 - n..] == t[|t| - n..][1..] + [b];
    }
  }

  /** Adding blocks one at a time to a bounded history leaves the newest
      MAX_RECONCILE_BLOCKS blocks of the history followed by the new ones. */
  lemma {:induction false} AddAllIsNewest(s: seq<Block>, xs: seq<Block>)
    requires |s| <= MAX_RECONCILE_BLOCKS
    ensures AddAll(s, xs) == Newest(s + xs)
    ensures |AddAll(s, xs)| <= MAX_RECONCILE_BLOCKS
    decreases |xs|
  {
    if |xs| > 0 {
      var init, x := xs[..|xs| - 1], xs[|xs| - 1];
      AddAllIsNewest(s, init);
      AddIsNewest(AddAll(s, init), x);
      NewestOfNewest(s + init, x);
      assert s + init + [x] == s + xs;
    }
  }

  /** Below capacity, adding blocks one at a time appends them all. */
  lemma AddAllBelowCap(s: seq<Block>, xs: seq<Block>)
    requires |s| + |xs| <= MAX_RECONCILE_BLOCKS
    ensures AddAll(s, xs) == s + xs
  {
    AddAllIsNewest(s, xs);
  }

  /** A history that has had blocks added ends with the last of them. */
  lemma AddAllLast(s: seq<Block>, xs: seq<Block>)
    requires |xs| > 0
    ensures |AddAll(s, xs)| > 0 && AddAll(s, xs)[|AddAll(s, xs)| - 1] == xs[|xs| - 1]
  {
  }

  /** Adding blocks brings in no hash other than theirs. */
  lemma {:induction false} AddAllHashes(s: seq<Block>, xs: seq<Block>, h: Hash)
    ensures HasHash(AddAll(s, xs), h) ==> HasHash(s, h) || HasHash(xs, h)
    decreases |xs|
  {
    if |xs| > 0 && HasHash(AddAll(s, xs), h) {
      var init, x := xs[..|xs| - 1], xs[|xs| - 1];
      var t := AddAll(s, init);
      var i :| 0 <= i < |Add(t, x)| && Add(t, x)[i].hash == h;
      if h != x.hash {
        if |t| == MAX_RECONCILE_BLOCKS {
          assert t[i + 1].hash == h;
        } else {
          assert t[i].hash == h;
        }
        AddAllHashes(s, init, h);
        if HasHash(init, h) {
          var k :| 0 <= k < |init| && init[k].hash == h;
          assert xs[k].hash == h;
        }
      } else {
        assert xs[|xs| - 1].hash == h;
      }
    }
  }

  /** Cutting a history down to its newest blocks keeps its last block and brings in no
      hash it did not have. */
  lemma NewestKeeps(t: seq<Block>, h: Hash)
    ensures |Newest(t)| <= MAX_RECONCILE_BLOCKS && (|t| > 0 <==> |Newest(t)| > 0)
    ensures |t| > 0 ==> Newest(t)[|Newest(t)| - 1] == t[|t| - 1]
    ensures HasHash(Newest(t), h) ==> HasHash(t, h)
  {
    if HasHash(Newest(t), h) && |t| > MAX_RECONCILE_BLOCKS {
      var i :| 0 <= i < |Newest(t)| && Newest(t)[i].hash == h;
      assert t[|t| - MAX_RECONCILE_BLOCKS + i].hash == h;
    }
  }

  /** A piece of a chain stays a chain when cut down to its newest blocks. */
  lemma NewestLinked(t: seq<Block>)
    requires Linked(t)
    ensures Linked(Newest(t))
  {
    if |t| > MAX_RECONCILE_BLOCKS {
      var n := |t| - MAX_RECONCILE_BLOCKS;
      forall k | 0 < k < |Newest(t)| ensures Newest(t)[k].parent == Newest(t)[k - 1].hash {
        assert Newest(t)[k] == t[n + k] && Newest(t)[k - 1] == t[n + k - 1];
      }
    }
  }
}
