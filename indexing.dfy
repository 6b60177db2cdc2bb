/** The vector collection of `WikiProvenance`: its name, the ids given to the
    page chunks when they are added, and the handling of a similarity query's
    result in `get_closest_chunks`. The similarity search itself is a
    parameter. */
module Indexing {
  import opened Base
  import opened Text

  /** The number of closest chunks asked for per query (`n_results=3`). */
  const QueryLimit: nat := 3

  /** The collection name `f"wiki_{str(hash(topic))}"`, for a given hash value. */
  function CollectionName(topicHash: int): string
  {
    "wiki_" + IntToString(topicHash)
  }

  /** Distinct hash values name distinct collections, and the number can be
      read back from the name. */
  lemma CollectionNameInjective(h1: int, h2: int)
    requires CollectionName(h1) == CollectionName(h2)
    ensures h1 == h2
  {
    assert IntToString(h1) == CollectionName(h1)[5..];
    assert IntToString(h2) == CollectionName(h2)[5..];
    IntToStringInjective(h1, h2);
  }

  /** The ids `[f"{i}" for i in range(n)]` that `add_to_collection` gives `n` chunks. */
  function ChunkIds(n: nat): (ids: seq<string>)
    ensures |ids| == n
  {
    seq(n, i requires 0 <= i < n => NatToString(i))
  }

  /** The id at each position reads back as that position. */
  lemma ChunkIdsAreIndices(n: nat, i: nat)
    requires i < n
    ensures ParseNat(ChunkIds(n)[i]) == i
  {
    ParseNatToString(i);
  }

  /** No two chunks share an id. */
  lemma ChunkIdsDistinct(n: nat, i: nat, j: nat)
    requires i < n && j < n && ChunkIds(n)[i] == ChunkIds(n)[j]
    ensures i == j
  {
    NatToStringInjective(i, j);
  }

  /** Adding more chunks extends the ids: ids depend only on the position. */
  lemma ChunkIdsPrefix(m: nat, n: nat)
    requires m <= n
    ensures ChunkIds(n)[..m] == ChunkIds(m)
  {
  }

  /** A Chroma collection as the validator uses it: a name and the documents
      added so far, each with its id. */
  class Collection {
    const name: string
    var ids: seq<string>
    var documents: seq<string>

    /** Every document has an id. */
    predicate Valid()
      reads this
    {
      |ids| == |documents|
    }

    /** A new, empty collection. */
    constructor (name: string)
      ensures Valid()
      ensures this.name == name && ids == [] && documents == []
    {
      this.name := name;
      ids := [];
      documents := [];
    }

    /** `collection.add(documents=..., ids=...)`: the documents are appended in
        order, each with the id at the same position. */
    method Add(newDocuments: seq<string>, newIds: seq<string>)
      requires Valid() && |newDocuments| == |newIds|
      modifies this
      ensures Valid()
      ensures documents == old(documents) + newDocuments
      ensures ids == old(ids) + newIds
    {
      documents := documents + newDocuments;
      ids := ids + newIds;
    }
  }

  /** The handling of a query result in `get_closest_chunks`: no result list
      is an error; otherwise the first list is returned as it is, even if it
      is empty. */
  function ClosestChunks(results: seq<seq<string>>): (r: Result<seq<string>>)
    ensures r.Err? <==> results == []
    ensures r.Err? ==> r.error == NoMatchingParagraphs
    ensures r.Ok? ==> r.value == results[0]
  {
    if results == [] then Err(NoMatchingParagraphs) else Ok(results[0])
  }

  /** An empty first result list passes through as no chunks, not as an error. */
  lemma EmptyFirstListPassesThrough(results: seq<seq<string>>)
    requires results != [] && results[0] == []
    ensures ClosestChunks(results) == Ok([])
  {
  }
}
