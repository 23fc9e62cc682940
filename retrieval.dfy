/** Query-time retrieval of stored chunk text. */
module Retrieval {
  import opened Wrappers
  import opened Services
  import opened Index

  /**
   * Embeds the query and returns the text of the first `topK` records of
   * an unfiltered index query, in the index's order. Provider and index
   * failures propagate to the caller.
   */
  method GetRelevantChunks(index: VectorIndex, provider: Provider, query: string, topK: nat := 5)
    returns (r: Result<seq<string>, Failure>)
    ensures !provider.up ==> r == Failure(ProviderUnavailable)
    ensures provider.up && !index.up ==> r == Failure(IndexUnavailable)
    ensures provider.up && index.up ==>
      && r.Success?
      && |r.value| == (if topK < |index.records| then topK else |index.records|)
      && forall k :: 0 <= k < |r.value| ==> r.value[k] == index.records[k].metadata.text
  {
    if !provider.up {
      return Failure(ProviderUnavailable);
    }
    var queryEmbedding := EmbedAll(provider, [query])[0];
    var result := index.Query(queryEmbedding, topK, NoFilter);
    if result.Failure? {
      return Failure(result.error);
    }
    MatchingNoFilter(index.records);
    r := Success(TextsOf(result.value));
  }
}
