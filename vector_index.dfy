/**
 * The external vector index, seen as an ordered sequence of records. A
 * query keeps the records whose metadata agrees with every field of its
 * filter and returns the first `topK` of them; nearest-neighbour ranking is
 * abstracted to the index's own (stored) order.
 */
module Index {
  import opened Wrappers
  import opened Services

  type Id = nat

  /** Page size of every metadata-only probe the service issues. */
  const ProbePageSize: nat := 1000

  /** Metadata stored beside each vector; `hash` is the chunk's digest. */
  datatype Metadata = Metadata(
    text: string,
    hash: string,
    filePath: string,
    fileHash: string,
    contentHash: string,
    commitHash: string,
    repoTag: string)

  datatype VectorRecord = VectorRecord(id: Id, values: Vector, metadata: Metadata)

  /** An exact-match metadata filter; `None` leaves the field unconstrained. */
  datatype Filter = Filter(
    repoTag: Option<string>,
    commitHash: Option<string>,
    filePath: Option<string>,
    fileHash: Option<string>,
    contentHash: Option<string>)

  const NoFilter: Filter := Filter(None, None, None, None, None)

  predicate FieldMatches(want: Option<string>, have: string) {
    want.None? || want.value == have
  }

  predicate Matches(f: Filter, m: Metadata) {
    && FieldMatches(f.repoTag, m.repoTag)
    && FieldMatches(f.commitHash, m.commitHash)
    && FieldMatches(f.filePath, m.filePath)
    && FieldMatches(f.fileHash, m.fileHash)
    && FieldMatches(f.contentHash, m.contentHash)
  }

  /** The records matching `f`, in index order. */
  function Matching(records: seq<VectorRecord>, f: Filter): (r: seq<VectorRecord>)
    ensures |r| <= |records|
    ensures forall x :: x in r <==> x in records && Matches(f, x.metadata)
  {
    if records == [] then []
    else
      (if Matches(f, records[0].metadata) then [records[0]] else []) + Matching(records[1..], f)
  }

  /**
   * What a query with filter `f` and page size `topK` returns: a page of
   * matching records, taken from the front of the match order, which holds
   * every match when they fit in the page.
   */
  function Probe(records: seq<VectorRecord>, f: Filter, topK: nat): (r: seq<VectorRecord>)
    ensures |r| == if topK < |Matching(records, f)| then topK else |Matching(records, f)|
    ensures r <= Matching(records, f)
    ensures forall x :: x in r ==> x in records && Matches(f, x.metadata)
    ensures |Matching(records, f)| <= topK ==> r == Matching(records, f)
  {
    var m := Matching(records, f);
    m[..if topK < |m| then topK else |m|]
  }

  function IdsOf(records: seq<VectorRecord>): (ids: seq<Id>)
    ensures |ids| == |records|
    ensures forall k :: 0 <= k < |records| ==> ids[k] == records[k].id
    ensures IdSet(ids) == set x | x in records :: x.id
  {
    seq(|records|, k requires 0 <= k < |records| => records[k].id)
  }

  function TextsOf(records: seq<VectorRecord>): (texts: seq<string>)
    ensures |texts| == |records|
    ensures forall k :: 0 <= k < |records| ==> texts[k] == records[k].metadata.text
  {
    seq(|records|, k requires 0 <= k < |records| => records[k].metadata.text)
  }

  function HashesOf(records: seq<VectorRecord>): set<string> {
    set x | x in records :: x.metadata.hash
  }

  function IdSet(ids: seq<Id>): set<Id> {
    set id | id in ids
  }

  /** The records whose id is not in `ids`, in index order. */
  function RemoveIds(records: seq<VectorRecord>, ids: set<Id>): (r: seq<VectorRecord>)
    ensures |r| <= |records|
    ensures forall x :: x in r <==> x in records && x.id !in ids
  {
    if records == [] then []
    else
      (if records[0].id in ids then [] else [records[0]]) + RemoveIds(records[1..], ids)
  }

  /** No two records of the index share an id. */
  predicate UniqueIds(records: seq<VectorRecord>) {
    forall j, k :: 0 <= j < k < |records| ==> records[j].id != records[k].id
  }

  /** Every id in the index is below `bound`. */
  predicate IdsBelow(records: seq<VectorRecord>, bound: nat) {
    forall k :: 0 <= k < |records| ==> records[k].id < bound
  }

  /** Matching distributes over the concatenation of two record lists. */
  lemma {:induction false} MatchingAppend(a: seq<VectorRecord>, b: seq<VectorRecord>, f: Filter)
    ensures Matching(a + b, f) == Matching(a, f) + Matching(b, f)
    decreases |a|
  {
    if a != [] {
      assert (a + b)[1..] == a[1..] + b;
      MatchingAppend(a[1..], b, f);
    } else {
      assert a + b == b;
    }
  }

  /** The empty filter matches every record, so an unfiltered query sees the whole index. */
  lemma {:induction false} MatchingNoFilter(records: seq<VectorRecord>)
    ensures Matching(records, NoFilter) == records
    decreases |records|
  {
    if records != [] {
      MatchingNoFilter(records[1..]);
    }
  }

  /** Removing no id leaves the index as it was. */
  lemma {:induction false} RemoveNoIds(records: seq<VectorRecord>)
    ensures RemoveIds(records, {}) == records
    decreases |records|
  {
    if records != [] {
      RemoveNoIds(records[1..]);
    }
  }

  /** Deleting records keeps the remaining ids unique and below every bound the old ids were below. */
  lemma RemoveIdsKeepsIds(records: seq<VectorRecord>, ids: set<Id>)
    ensures UniqueIds(records) ==> UniqueIds(RemoveIds(records, ids))
    ensures forall b: nat :: IdsBelow(records, b) ==> IdsBelow(RemoveIds(records, ids), b)
  {
    if UniqueIds(records) {
      RemoveIdsKeepsUnique(records, ids);
    }
    var r := RemoveIds(records, ids);
    forall b: nat | IdsBelow(records, b) ensures IdsBelow(r, b) {
      forall k | 0 <= k < |r| ensures r[k].id < b {
        assert r[k] in r;
        var i :| 0 <= i < |records| && records[i] == r[k];
      }
    }
  }

  lemma {:induction false} RemoveIdsKeepsUnique(records: seq<VectorRecord>, ids: set<Id>)
    requires UniqueIds(records)
    ensures UniqueIds(RemoveIds(records, ids))
    decreases |records|
  {
    if records != [] {
      var tail := records[1..];
      assert UniqueIds(tail) by {
        forall j, k | 0 <= j < k < |tail| ensures tail[j].id != tail[k].id {
          assert tail[j] == records[j + 1] && tail[k] == records[k + 1];
        }
      }
      RemoveIdsKeepsUnique(tail, ids);
      var rest := RemoveIds(tail, ids);
      if records[0].id !in ids {
        assert RemoveIds(records, ids) == [records[0]] + rest;
        forall k | 0 <= k < |rest| ensures rest[k].id != records[0].id {
          assert rest[k] in rest;
          var i :| 0 <= i < |tail| && tail[i] == rest[k];
          assert tail[i] == records[i + 1];
        }
      }
    }
  }

  /** A matching list is empty exactly when no record matches. */
  lemma MatchingEmpty(records: seq<VectorRecord>, f: Filter)
    ensures Matching(records, f) == [] <==> forall x :: x in records ==> !Matches(f, x.metadata)
  {
    var m := Matching(records, f);
    if m != [] {
      assert m[0] in m;
    }
  }

  /** A query that returns fewer than its page size returned every match. */
  lemma ProbeIsComplete(records: seq<VectorRecord>, f: Filter, topK: nat)
    requires |Matching(records, f)| <= topK
    ensures Probe(records, f, topK) == Matching(records, f)
  {
  }

  /**
   * The index client: `records` is the index's content in its own order and
   * `up` says whether the remote index answers.
   */
  class VectorIndex {
    var records: seq<VectorRecord>
    var up: bool

    constructor (up: bool)
      ensures records == [] && this.up == up
    {
      records := [];
      this.up := up;
    }

    /**
     * The first `topK` records matching every field of `filter`. The query
     * vector only ranks matches, which this model leaves to stored order.
     */
    method Query(vector: Vector, topK: nat, filter: Filter) returns (r: Result<seq<VectorRecord>, Failure>)
      ensures up ==> r.Success? && |r.value| <= topK && r.value == Probe(records, filter, topK)
      ensures !up ==> r == Failure(IndexUnavailable)
    {
      if !up {
        return Failure(IndexUnavailable);
      }
      r := Success(Probe(records, filter, topK));
    }

    /** Stores a batch of records carrying ids the index does not hold yet. */
    method Upsert(batch: seq<VectorRecord>) returns (r: Result<(), Failure>)
      requires forall k :: 0 <= k < |batch| ==> batch[k].id !in IdsOf(records)
      modifies this`records
      ensures up ==> r.Success? && records == old(records) + batch
      ensures !up ==> r == Failure(IndexUnavailable) && records == old(records)
    {
      if !up {
        return Failure(IndexUnavailable);
      }
      records := records + batch;
      r := Success(());
    }

    /** Removes every record whose id is listed. */
    method DeleteMany(ids: seq<Id>) returns (r: Result<(), Failure>)
      modifies this`records
      ensures up ==> r.Success? && records == RemoveIds(old(records), IdSet(ids))
      ensures !up ==> r == Failure(IndexUnavailable) && records == old(records)
    {
      if !up {
        return Failure(IndexUnavailable);
      }
      records := RemoveIds(records, IdSet(ids));
      r := Success(());
    }
  }
}
