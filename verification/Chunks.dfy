/** A query result as it is fetched: in chunks, to the first empty one. */
module Chunks {

  /** What reaches the client: fetching stops at the first empty chunk. */
  function Delivered<T>(chunks: seq<seq<T>>): seq<T> {
    if chunks == [] || chunks[0] == [] then [] else chunks[0] + Delivered(chunks[1..])
  }

  function Flattened<T>(chunks: seq<seq<T>>): seq<T> {
    if chunks == [] then [] else chunks[0] + Flattened(chunks[1..])
  }

  /** Any split into non-empty chunks delivers all the rows. */
  lemma {:induction false} NonEmptyChunksDeliverAll<T>(chunks: seq<seq<T>>)
    requires forall k :: 0 <= k < |chunks| ==> chunks[k] != []
    ensures Delivered(chunks) == Flattened(chunks)
  {
    if chunks != [] { NonEmptyChunksDeliverAll(chunks[1..]); }
  }
}
