/**
 * The external collaborators of the embedding service, reduced to what the
 * pipeline can observe of them: whether a call succeeds, and what it returns.
 */
module Services {

  /** An embedding vector; its numbers are never inspected by the pipeline. */
  type Vector = seq<real>

  /** Number of dimensions of the embedding model used by the index. */
  const EmbeddingDimension: nat := 1536

  /** The neutral vector passed to metadata-only existence probes. */
  const ZeroVector: Vector := seq(EmbeddingDimension, _ => 0.0)

  /** Why a call into an external service failed. */
  datatype Failure = IndexUnavailable | ProviderUnavailable | LogUnavailable

  /**
   * The embedding provider: `up` says whether its calls succeed, `embed`
   * maps one text to its vector (a pure function, so equal texts embed
   * equally).
   */
  datatype Provider = Provider(up: bool, embed: string -> Vector)

  /** One batch embedding call: one vector per input text, in input order. */
  function EmbedAll(provider: Provider, texts: seq<string>): (vectors: seq<Vector>)
    ensures |vectors| == |texts|
    ensures forall i :: 0 <= i < |texts| ==> vectors[i] == provider.embed(texts[i])
  {
    seq(|texts|, i requires 0 <= i < |texts| => provider.embed(texts[i]))
  }
}
