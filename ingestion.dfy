/**
 * Content-addressed ingestion of one file: chunk it, probe the index for
 * the chunk hashes already stored under the same scope, embed every chunk,
 * store the chunks whose hash was not found, and log the outcome.
 */
module Ingestion {
  import opened Wrappers
  import opened Services
  import opened Index
  import opened Audit
  import opened Chunker

  /** The source of added record ids, standing in for random UUIDs. */
  class IdSource {
    var next: nat

    constructor ()
      ensures next == 0
    {
      next := 0;
    }

    /** Hands out the `n` ids `next`, ..., `next + n - 1`. */
    method Reserve(n: nat) returns (first: Id)
      modifies this`next
      ensures first == old(next) && next == old(next) + n
    {
      first := next;
      next := next + n;
    }
  }

  /** Ids in the index are unique and none of them will be handed out again. */
  predicate Consistent(index: VectorIndex, ids: IdSource)
    reads index, ids
  {
    UniqueIds(index.records) && IdsBelow(index.records, ids.next)
  }

  /** The identity fields every record of one ingestion call carries. */
  datatype Scope = Scope(filePath: string, fileHash: string, contentHash: string, commitHash: string, repoTag: string)

  /** The file is identified by the digest of its path, its version by the digest of its content. */
  function ScopeOf(hash: string -> string, filePath: string, content: string, repoTag: string, commitHash: string): Scope {
    Scope(filePath, hash(filePath), hash(content), commitHash, repoTag)
  }

  /** The existence probe's filter: file, version, commit and tag (not the path itself). */
  function ScopeFilter(s: Scope): (f: Filter)
    ensures forall m :: Matches(f, m) <==>
      && m.repoTag == s.repoTag && m.commitHash == s.commitHash
      && m.fileHash == s.fileHash && m.contentHash == s.contentHash
  {
    Filter(Some(s.repoTag), Some(s.commitHash), None, Some(s.fileHash), Some(s.contentHash))
  }

  /** The record stored for one chunk: the chunk, its digest and vector, tagged with the call's scope. */
  function RecordFor(s: Scope, hash: string -> string, id: Id, values: Vector, text: string): (r: VectorRecord)
    ensures r.id == id && r.values == values && r.metadata.text == text && r.metadata.hash == hash(text)
    ensures r.metadata.filePath == s.filePath && Matches(ScopeFilter(s), r.metadata)
  {
    VectorRecord(id, values, Metadata(text, hash(text), s.filePath, s.fileHash, s.contentHash, s.commitHash, s.repoTag))
  }

  /** Record ids strictly increase along the sequence. */
  predicate Ascending(records: seq<VectorRecord>) {
    forall j, k :: 0 <= j < k < |records| ==> records[j].id < records[k].id
  }

  /**
   * The records built for the chunks whose hash is not in `existing`, in
   * chunk order; chunk `i` gets id `firstId + i` and vector `vectors[i]`.
   */
  function NewRecords(s: Scope, hash: string -> string, chunks: seq<string>, vectors: seq<Vector>,
                      existing: set<string>, firstId: Id): (r: seq<VectorRecord>)
    requires |vectors| == |chunks|
    ensures |r| <= |chunks|
    ensures Ascending(r)
    ensures forall k :: 0 <= k < |r| ==>
      var i := r[k].id - firstId;
      0 <= i < |chunks| && hash(chunks[i]) !in existing &&
      r[k] == RecordFor(s, hash, r[k].id, vectors[i], chunks[i])
    decreases |chunks|
  {
    if chunks == [] then []
    else
      var h := hash(chunks[0]);
      (if h in existing then [] else [RecordFor(s, hash, firstId, vectors[0], chunks[0])])
      + NewRecords(s, hash, chunks[1..], vectors[1..], existing, firstId + 1)
  }

  /** The chunks whose hash is not in `existing`, in order. */
  function Unseen(chunks: seq<string>, hash: string -> string, existing: set<string>): seq<string> {
    if chunks == [] then []
    else (if hash(chunks[0]) in existing then [] else [chunks[0]]) + Unseen(chunks[1..], hash, existing)
  }

  /** How many chunks have their hash in `existing`. */
  function CountStored(chunks: seq<string>, hash: string -> string, existing: set<string>): nat {
    if chunks == [] then 0
    else (if hash(chunks[0]) in existing then 1 else 0) + CountStored(chunks[1..], hash, existing)
  }

  /**
   * The chunk hashes the scoped existence probe reports as stored: hashes of
   * records in the scope, and all of them when the scope fits in one page.
   */
  function ExistingHashes(records: seq<VectorRecord>, s: Scope): (r: set<string>)
    ensures forall h :: h in r ==>
      exists x :: x in records && Matches(ScopeFilter(s), x.metadata) && x.metadata.hash == h
    ensures |Matching(records, ScopeFilter(s))| <= ProbePageSize ==>
      r == set x | x in records && Matches(ScopeFilter(s), x.metadata) :: x.metadata.hash
  {
    HashesOf(Probe(records, ScopeFilter(s), ProbePageSize))
  }

  /** The records one ingestion call stores, given the index before the call. */
  function PlannedRecords(records: seq<VectorRecord>, provider: Provider, hash: string -> string,
                          filePath: string, content: string, repoTag: string, commitHash: string,
                          firstId: Id): (r: seq<VectorRecord>)
    ensures |r| <= |Chunks(content, DefaultChunkSize)|
  {
    var s := ScopeOf(hash, filePath, content, repoTag, commitHash);
    var chunks := Chunks(content, DefaultChunkSize);
    NewRecords(s, hash, chunks, EmbedAll(provider, chunks), ExistingHashes(records, s), firstId)
  }

  /** What a successful ingestion reports. */
  datatype EmbedReport = EmbedReport(embeddedCount: nat, skippedCount: nat, filePath: string, commitHash: string, logId: nat)

  /**
   * Ingests one file. Index and provider failures propagate to the caller;
   * a log failure propagates too, after the new records were stored.
   */
  method EmbedAndStoreFileChunks(index: VectorIndex, log: AuditLog, ids: IdSource, provider: Provider,
                                 hash: string -> string, filePath: string, content: string,
                                 repoTag: string, commitHash: string)
    returns (r: Result<EmbedReport, Failure>)
    requires Consistent(index, ids)
    modifies index`records, log`entries, ids`next
    ensures Consistent(index, ids)
    ensures !index.up ==>
      r == Failure(IndexUnavailable) && index.records == old(index.records)
      && log.entries == old(log.entries) && ids.next == old(ids.next)
    ensures index.up && !provider.up ==>
      r == Failure(ProviderUnavailable) && index.records == old(index.records)
      && log.entries == old(log.entries) && ids.next == old(ids.next)
    ensures index.up && provider.up ==>
      var chunks := Chunks(content, DefaultChunkSize);
      var added := PlannedRecords(old(index.records), provider, hash, filePath, content, repoTag, commitHash, old(ids.next));
      && ids.next == old(ids.next) + |chunks|
      && index.records == old(index.records) + added
      && (log.up ==>
            && log.entries == old(log.entries) + [Embedding(filePath, commitHash, repoTag, |added|, |chunks| - |added|)]
            && r == Success(EmbedReport(|added|, |chunks| - |added|, filePath, commitHash, |old(log.entries)|)))
      && (!log.up ==> r == Failure(LogUnavailable) && log.entries == old(log.entries))
  {
    var contentHash := hash(content);
    var chunks := ChunkText(content);
    var fileHash := hash(filePath);
    var s := Scope(filePath, fileHash, contentHash, commitHash, repoTag);
    assert s == ScopeOf(hash, filePath, content, repoTag, commitHash);

    var existing := ProbeExisting(index, s);
    if existing.Failure? {
      return Failure(existing.error);
    }
    var existingHashes := existing.value;

    if !provider.up {
      return Failure(ProviderUnavailable);
    }
    var embeddings := EmbedAll(provider, chunks);

    assert NewRecords(s, hash, chunks, embeddings, existingHashes, ids.next)
      == PlannedRecords(old(index.records), provider, hash, filePath, content, repoTag, commitHash, old(ids.next));
    r := StoreAndLog(index, log, ids, s, hash, chunks, embeddings, existingHashes);
  }

  /** The existence probe: the chunk hashes already stored under the scope, or the index's failure. */
  method ProbeExisting(index: VectorIndex, s: Scope) returns (r: Result<set<string>, Failure>)
    ensures index.up ==> r == Success(ExistingHashes(index.records, s))
    ensures !index.up ==> r == Failure(IndexUnavailable)
  {
    var existing := index.Query(ZeroVector, ProbePageSize, ScopeFilter(s));
    if existing.Failure? {
      return Failure(existing.error);
    }
    r := Success(HashesOf(existing.value));
  }

  /**
   * The second half of an ingestion: builds the records of the chunks not
   * found by the probe, upserts them when there are any, and logs the counts.
   */
  method StoreAndLog(index: VectorIndex, log: AuditLog, ids: IdSource, s: Scope, hash: string -> string,
                     chunks: seq<string>, embeddings: seq<Vector>, existingHashes: set<string>)
    returns (r: Result<EmbedReport, Failure>)
    requires Consistent(index, ids) && index.up && |embeddings| == |chunks|
    modifies index`records, log`entries, ids`next
    ensures Consistent(index, ids)
    ensures var added := NewRecords(s, hash, chunks, embeddings, existingHashes, old(ids.next));
      && ids.next == old(ids.next) + |chunks|
      && index.records == old(index.records) + added
      && (log.up ==>
            && log.entries == old(log.entries) + [Embedding(s.filePath, s.commitHash, s.repoTag, |added|, |chunks| - |added|)]
            && r == Success(EmbedReport(|added|, |chunks| - |added|, s.filePath, s.commitHash, |old(log.entries)|)))
      && (!log.up ==> r == Failure(LogUnavailable) && log.entries == old(log.entries))
  {
    var added := StoreNew(index, ids, s, hash, chunks, embeddings, existingHashes);
    var logged := log.Append(Embedding(s.filePath, s.commitHash, s.repoTag, |added|, |chunks| - |added|));
    if logged.Failure? {
      return Failure(logged.error);
    }
    r := Success(EmbedReport(|added|, |chunks| - |added|, s.filePath, s.commitHash, logged.value));
  }

  /** Reserves an id per chunk and upserts the records of the chunks not found by the probe, if any. */
  method StoreNew(index: VectorIndex, ids: IdSource, s: Scope, hash: string -> string,
                  chunks: seq<string>, embeddings: seq<Vector>, existingHashes: set<string>)
    returns (added: seq<VectorRecord>)
    requires Consistent(index, ids) && index.up && |embeddings| == |chunks|
    modifies index`records, ids`next
    ensures Consistent(index, ids)
    ensures added == NewRecords(s, hash, chunks, embeddings, existingHashes, old(ids.next))
    ensures ids.next == old(ids.next) + |chunks| && index.records == old(index.records) + added
  {
    var firstId := ids.Reserve(|chunks|);
    added := NewRecords(s, hash, chunks, embeddings, existingHashes, firstId);
    AppendFresh(index.records, added, firstId, |chunks|);
    if |added| > 0 {
      // The index answered the probe, so it accepts the batch.
      var _ := index.Upsert(added);
    } else {
      assert index.records == old(index.records) + added;
    }
  }

  /** Appending records with added ascending ids keeps the index's ids unique and bounded. */
  lemma AppendFresh(records: seq<VectorRecord>, batch: seq<VectorRecord>, bound: nat, n: nat)
    requires UniqueIds(records) && IdsBelow(records, bound) && Ascending(batch)
    requires forall k :: 0 <= k < |batch| ==> bound <= batch[k].id < bound + n
    ensures forall k :: 0 <= k < |batch| ==> batch[k].id !in IdsOf(records)
    ensures UniqueIds(records + batch) && IdsBelow(records + batch, bound + n)
  {
    var all := records + batch;
    forall j, k | 0 <= j < k < |all| ensures all[j].id != all[k].id {
      if k < |records| {
      } else if j < |records| {
        assert all[j].id < bound <= all[k].id;
      } else {
        assert all[j] == batch[j - |records|] && all[k] == batch[k - |records|];
      }
    }
  }

  /** The records built are exactly the unseen chunks, in chunk order. */
  lemma {:induction false} NewRecordsAreUnseenChunks(s: Scope, hash: string -> string, chunks: seq<string>,
                                                     vectors: seq<Vector>, existing: set<string>, firstId: Id)
    requires |vectors| == |chunks|
    ensures TextsOf(NewRecords(s, hash, chunks, vectors, existing, firstId)) == Unseen(chunks, hash, existing)
    decreases |chunks|
  {
    if chunks != [] {
      NewRecordsAreUnseenChunks(s, hash, chunks[1..], vectors[1..], existing, firstId + 1);
      var head := if hash(chunks[0]) in existing then [] else [RecordFor(s, hash, firstId, vectors[0], chunks[0])];
      var tail := NewRecords(s, hash, chunks[1..], vectors[1..], existing, firstId + 1);
      assert NewRecords(s, hash, chunks, vectors, existing, firstId) == head + tail;
      TextsOfAppend(head, tail);
    }
  }

  lemma TextsOfAppend(a: seq<VectorRecord>, b: seq<VectorRecord>)
    ensures TextsOf(a + b) == TextsOf(a) + TextsOf(b)
  {
  }

  /** Stored records plus skipped chunks account for every chunk. */
  lemma {:induction false} CountsAccount(s: Scope, hash: string -> string, chunks: seq<string>,
                                         vectors: seq<Vector>, existing: set<string>, firstId: Id)
    requires |vectors| == |chunks|
    ensures |NewRecords(s, hash, chunks, vectors, existing, firstId)| + CountStored(chunks, hash, existing) == |chunks|
    decreases |chunks|
  {
    if chunks != [] {
      CountsAccount(s, hash, chunks[1..], vectors[1..], existing, firstId + 1);
    }
  }

  /** A chunk whose hash was not found is stored, so its hash is among the new records' hashes. */
  lemma {:induction false} UnseenChunkRecorded(s: Scope, hash: string -> string, chunks: seq<string>,
                                               vectors: seq<Vector>, existing: set<string>, firstId: Id, i: nat)
    requires |vectors| == |chunks| && i < |chunks| && hash(chunks[i]) !in existing
    ensures hash(chunks[i]) in HashesOf(NewRecords(s, hash, chunks, vectors, existing, firstId))
    decreases |chunks|
  {
    var r := NewRecords(s, hash, chunks, vectors, existing, firstId);
    if i == 0 {
      assert r[0] == RecordFor(s, hash, firstId, vectors[0], chunks[0]);
    } else {
      UnseenChunkRecorded(s, hash, chunks[1..], vectors[1..], existing, firstId + 1, i - 1);
      var tail := NewRecords(s, hash, chunks[1..], vectors[1..], existing, firstId + 1);
      assert HashesOf(tail) <= HashesOf(r);
    }
  }

  /** When every chunk hash is already stored, nothing new is built. */
  lemma NothingNewWhenAllStored(s: Scope, hash: string -> string, chunks: seq<string>,
                                vectors: seq<Vector>, existing: set<string>, firstId: Id)
    requires |vectors| == |chunks|
    requires forall i :: 0 <= i < |chunks| ==> hash(chunks[i]) in existing
    ensures NewRecords(s, hash, chunks, vectors, existing, firstId) == []
  {
  }

  /**
   * Dedup is against stored records only: when no chunk hash is stored,
   * every chunk is stored, repeated chunks included.
   */
  lemma {:induction false} EveryChunkNewWhenNoneStored(s: Scope, hash: string -> string, chunks: seq<string>,
                                                       vectors: seq<Vector>, existing: set<string>, firstId: Id)
    requires |vectors| == |chunks|
    requires forall i :: 0 <= i < |chunks| ==> hash(chunks[i]) !in existing
    ensures TextsOf(NewRecords(s, hash, chunks, vectors, existing, firstId)) == chunks
    decreases |chunks|
  {
    NewRecordsAreUnseenChunks(s, hash, chunks, vectors, existing, firstId);
    UnseenAll(chunks, hash, existing);
  }

  lemma {:induction false} UnseenAll(chunks: seq<string>, hash: string -> string, existing: set<string>)
    requires forall i :: 0 <= i < |chunks| ==> hash(chunks[i]) !in existing
    ensures Unseen(chunks, hash, existing) == chunks
    decreases |chunks|
  {
    if chunks != [] {
      assert hash(chunks[0]) !in existing;
      UnseenAll(chunks[1..], hash, existing);
    }
  }

  /** Two identical unseen chunks in one call give two records with distinct ids. */
  lemma IdenticalChunksBothStored(s: Scope, hash: string -> string, c: string, v0: Vector, v1: Vector,
                                  existing: set<string>, firstId: Id)
    requires hash(c) !in existing
    ensures var r := NewRecords(s, hash, [c, c], [v0, v1], existing, firstId);
      |r| == 2 && r[0].metadata.text == c == r[1].metadata.text && r[0].id != r[1].id
  {
    EveryChunkNewWhenNoneStored(s, hash, [c, c], [v0, v1], existing, firstId);
  }

  /** A matching list of records that all match is the list itself. */
  lemma {:induction false} MatchingAll(records: seq<VectorRecord>, f: Filter)
    requires forall x :: x in records ==> Matches(f, x.metadata)
    ensures Matching(records, f) == records
    decreases |records|
  {
    if records != [] {
      MatchingAll(records[1..], f);
    }
  }

  /** Every record one call stores lies in that call's scope. */
  lemma PlannedInScope(records: seq<VectorRecord>, provider: Provider, hash: string -> string,
                       filePath: string, content: string, repoTag: string, commitHash: string, firstId: Id)
    ensures var s := ScopeOf(hash, filePath, content, repoTag, commitHash);
      forall x :: x in PlannedRecords(records, provider, hash, filePath, content, repoTag, commitHash, firstId)
        ==> Matches(ScopeFilter(s), x.metadata) && x.metadata.filePath == filePath
  {
    var s := ScopeOf(hash, filePath, content, repoTag, commitHash);
    var r := PlannedRecords(records, provider, hash, filePath, content, repoTag, commitHash, firstId);
    forall x | x in r ensures Matches(ScopeFilter(s), x.metadata) && x.metadata.filePath == filePath {
      var k :| 0 <= k < |r| && r[k] == x;
    }
  }

  /**
   * Idempotence: re-ingesting the same file under the same scope stores
   * nothing, provided the scope's records after the first call fit in one
   * probe page.
   */
  lemma ReingestStoresNothing(records: seq<VectorRecord>, provider: Provider, hash: string -> string,
                              filePath: string, content: string, repoTag: string, commitHash: string,
                              firstId: Id, laterId: Id)
    requires var s := ScopeOf(hash, filePath, content, repoTag, commitHash);
      |Matching(records, ScopeFilter(s))|
      + |PlannedRecords(records, provider, hash, filePath, content, repoTag, commitHash, firstId)| <= ProbePageSize
    ensures var added := PlannedRecords(records, provider, hash, filePath, content, repoTag, commitHash, firstId);
      PlannedRecords(records + added, provider, hash, filePath, content, repoTag, commitHash, laterId) == []
  {
    var s := ScopeOf(hash, filePath, content, repoTag, commitHash);
    var f := ScopeFilter(s);
    var chunks := Chunks(content, DefaultChunkSize);
    var vectors := EmbedAll(provider, chunks);
    var added := PlannedRecords(records, provider, hash, filePath, content, repoTag, commitHash, firstId);
    var before := Matching(records, f);
    var existing := ExistingHashes(records, s);
    assert existing == HashesOf(before);

    PlannedInScope(records, provider, hash, filePath, content, repoTag, commitHash, firstId);
    MatchingAll(added, f);
    MatchingAppend(records, added, f);
    var after := Matching(records + added, f);
    assert after == before + added;
    var existing' := ExistingHashes(records + added, s);
    assert existing' == HashesOf(before + added);

    forall i | 0 <= i < |chunks| ensures hash(chunks[i]) in existing' {
      if hash(chunks[i]) in existing {
        var x :| x in before && x.metadata.hash == hash(chunks[i]);
        assert x in before + added;
      } else {
        UnseenChunkRecorded(s, hash, chunks, vectors, existing, firstId, i);
        var x :| x in added && x.metadata.hash == hash(chunks[i]);
        assert x in before + added;
      }
    }
    NothingNewWhenAllStored(s, hash, chunks, vectors, existing', laterId);
  }

  /**
   * Dedup is scoped: when nothing is stored under this file version,
   * commit and tag, every chunk is stored, whatever other scopes hold.
   */
  lemma FreshScopeStoresEveryChunk(records: seq<VectorRecord>, provider: Provider, hash: string -> string,
                                   filePath: string, content: string, repoTag: string, commitHash: string, firstId: Id)
    requires var s := ScopeOf(hash, filePath, content, repoTag, commitHash);
      forall x :: x in records ==> !Matches(ScopeFilter(s), x.metadata)
    ensures TextsOf(PlannedRecords(records, provider, hash, filePath, content, repoTag, commitHash, firstId))
      == Chunks(content, DefaultChunkSize)
  {
    var s := ScopeOf(hash, filePath, content, repoTag, commitHash);
    var chunks := Chunks(content, DefaultChunkSize);
    MatchingEmpty(records, ScopeFilter(s));
    assert ExistingHashes(records, s) == {};
    EveryChunkNewWhenNoneStored(s, hash, chunks, EmbedAll(provider, chunks), {}, firstId);
  }

  /**
   * Two identical ingestion calls in a row: if the first succeeds, the
   * second stores nothing and reports every chunk as skipped.
   */
  method ReingestIsIdempotent(index: VectorIndex, log: AuditLog, ids: IdSource, provider: Provider,
                              hash: string -> string, filePath: string, content: string,
                              repoTag: string, commitHash: string)
    returns (first: Result<EmbedReport, Failure>, second: Result<EmbedReport, Failure>)
    requires Consistent(index, ids)
    requires var s := ScopeOf(hash, filePath, content, repoTag, commitHash);
      |Matching(index.records, ScopeFilter(s))|
      + |PlannedRecords(index.records, provider, hash, filePath, content, repoTag, commitHash, ids.next)| <= ProbePageSize
    modifies index`records, log`entries, ids`next
    ensures first.Success? ==>
      && second.Success?
      && second.value.embeddedCount == 0
      && second.value.skippedCount == |Chunks(content, DefaultChunkSize)|
  {
    ghost var records := index.records;
    ghost var firstId := ids.next;
    first := EmbedAndStoreFileChunks(index, log, ids, provider, hash, filePath, content, repoTag, commitHash);
    ghost var laterId := ids.next;
    if first.Success? {
      ghost var added := PlannedRecords(records, provider, hash, filePath, content, repoTag, commitHash, firstId);
      assert index.records == records + added;
      ReingestStoresNothing(records, provider, hash, filePath, content, repoTag, commitHash, firstId, laterId);
      assert PlannedRecords(index.records, provider, hash, filePath, content, repoTag, commitHash, laterId) == [];
    }
    second := EmbedAndStoreFileChunks(index, log, ids, provider, hash, filePath, content, repoTag, commitHash);
  }
}
