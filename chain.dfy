/** Blocks, events, errors and the block-by-hash capability shared by the tracker's components. */
module Chain {

  /** A block hash. Only equality of hashes matters to the tracker. */
  type Hash = nat

  /** A block as the tracker sees it: its own hash and its parent's hash. */
  datatype Block = Block(hash: Hash, parent: Hash)

  /** The outcome of one reconciliation: blocks that joined the canonical chain and blocks
      that left it, each oldest first. */
  datatype Event = Event(added: seq<Block>, removed: seq<Block>)

  datatype Error =
    | ParentNotFound(hash: Hash)   // backfill could not fetch the parent with this hash
    | BlockNotFound(id: Hash)      // the client holds no block under this hash
    | HeadUnavailable              // the current head could not be fetched

  datatype Option<T> = None | Some(value: T)

  datatype Result<T> = Ok(value: T) | Err(error: Error)

  /** The remote block source, seen as the blocks it can serve, keyed by hash. */
  type Client = map<Hash, Block>

  /** A client serves every block under its own hash. */
  predicate WellKeyed(c: Client)
  {
    forall h :: h in c ==> c[h].hash == h
  }

  /** BlockByHash: the block stored under h, or an error when there is none. */
  function FetchByHash(c: Client, h: Hash): (r: Result<Block>)
    ensures r.Ok? <==> h in c
    ensures r.Ok? ==> r.value == c[h]
    ensures r.Ok? && WellKeyed(c) ==> r.value.hash == h
    ensures r.Err? ==> r.error == BlockNotFound(h)
  {
    if h in c then Ok(c[h]) else Err(BlockNotFound(h))
  }
}
