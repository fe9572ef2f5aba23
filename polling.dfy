/** The head-polling loop of the tracker, without its goroutine, timer and cancellation: each
    tick fetches the current head, and the callback sees a head only when the fetch succeeded
    and its hash differs from the last head handed on. */
module Polling {
  import opened Chain

  /** What one tick leaves behind: the last head handed on, and the head handed to the
      callback on this tick, if any. */
  datatype Tick = Tick(last: Option<Block>, handed: Option<Block>)

  /** One tick of polling on the result of fetching the head. */
  function PollStep(last: Option<Block>, head: Result<Block>): (t: Tick)
    ensures head.Err? ==> t == Tick(last, None)
    ensures head.Ok? && last.Some? && last.value.hash == head.value.hash ==> t == Tick(last, None)
    ensures t.handed.Some? <==> head.Ok? && (last.None? || last.value.hash != head.value.hash)
    ensures t.handed.Some? ==> t.handed == Some(head.value) && t.last == t.handed
  {
    match head
    case Err(_) => Tick(last, None)
    case Ok(block) =>
      if last.Some? && last.value.hash == block.hash then Tick(last, None)
      else Tick(Some(block), Some(block))
  }

  /** The heads that were fetched successfully, in order. */
  function Successes(heads: seq<Result<Block>>): seq<Block>
    decreases |heads|
  {
    if |heads| == 0 then []
    else
      var rest := Successes(heads[..|heads| - 1]);
      match heads[|heads| - 1]
      case Ok(block) => rest + [block]
      case Err(_) => rest
  }

  /** s with every run of consecutive blocks of equal hash reduced to its first block. */
  function Dedupe(s: seq<Block>): seq<Block>
    decreases |s|
  {
    if |s| == 0 then []
    else
      var d := Dedupe(s[..|s| - 1]);
      var x := s[|s| - 1];
      if |d| > 0 && d[|d| - 1].hash == x.hash then d else d + [x]
  }

  /** The last block of s, if any. */
  function LastOf(s: seq<Block>): Option<Block>
  {
    if |s| == 0 then None else Some(s[|s| - 1])
  }

  /** polling: run the ticks in order, collecting what the callback is handed. */
  method Poll(heads: seq<Result<Block>>) returns (handed: seq<Block>, last: Option<Block>)
    ensures handed == Dedupe(Successes(heads))
    ensures last == LastOf(handed)
  {
    handed, last := [], None;
    for i := 0 to |heads|
      invariant handed == Dedupe(Successes(heads[..i]))
      invariant last == LastOf(handed)
    {
      assert heads[..i + 1][..i] == heads[..i];
      var t := PollStep(last, heads[i]);
      last := t.last;
      if t.handed.Some? {
        handed := handed + [t.handed.value];
      }
    }
    assert heads[..|heads|] == heads;
  }

  /** The callback is never handed the same hash twice in a row. */
  lemma {:induction false} DedupeNoRepeats(s: seq<Block>)
    ensures forall k :: 0 < k < |Dedupe(s)| ==> Dedupe(s)[k].hash != Dedupe(s)[k - 1].hash
    decreases |s|
  {
    if |s| > 0 {
      DedupeNoRepeats(s[..|s| - 1]);
    }
  }

  /** Every head handed on was fetched, and the first fetched head is always handed on. */
  lemma {:induction false} DedupeFromInput(s: seq<Block>)
    ensures forall k :: 0 <= k < |Dedupe(s)| ==> Dedupe(s)[k] in s
    ensures |s| > 0 ==> |Dedupe(s)| > 0 && Dedupe(s)[0] == s[0]
    decreases |s|
  {
    if |s| > 0 {
      var init := s[..|s| - 1];
      DedupeFromInput(init);
      var d := Dedupe(init);
      forall k | 0 <= k < |Dedupe(s)| ensures Dedupe(s)[k] in s {
        if k < |d| {
          assert d[k] in init;
        } else {
          assert Dedupe(s)[k] == s[|s| - 1];
        }
      }
      if |init| > 0 {
        assert init[0] == s[0];
        assert Dedupe(s)[0] == d[0];
      }
    }
  }

  /** Every fetched hash is handed on at least once: only repeats are dropped. */
  lemma {:induction false} DedupeCoversHashes(s: seq<Block>)
    ensures forall k :: 0 <= k < |s| ==> exists m :: 0 <= m < |Dedupe(s)| && Dedupe(s)[m].hash == s[k].hash
    decreases |s|
  {
    if |s| > 0 {
      var init := s[..|s| - 1];
      DedupeCoversHashes(init);
      var d := Dedupe(init);
      assert |Dedupe(s)| >= |d| && Dedupe(s)[..|d|] == d;
      forall k | 0 <= k < |s|
        ensures exists m :: 0 <= m < |Dedupe(s)| && Dedupe(s)[m].hash == s[k].hash
      {
        if k < |init| {
          assert s[k] == init[k];
          var m :| 0 <= m < |d| && d[m].hash == init[k].hash;
          assert Dedupe(s)[m] == d[m];
        } else if |d| > 0 && d[|d| - 1].hash == s[k].hash {
          assert Dedupe(s)[|d| - 1] == d[|d| - 1];
        } else {
          assert Dedupe(s)[|d|] == s[k];
        }
      }
    }
  }
}
