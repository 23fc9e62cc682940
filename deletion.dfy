/**
 * Commit-scoped and file-scoped removal of stored records. Both operations
 * collect ids with filtered probes, delete them in one batch, log, and turn
 * any failure into an error report instead of propagating it.
 */
module Deletion {
  import opened Wrappers
  import opened Services
  import opened Index
  import opened Audit
  import opened Ingestion

  function CommitFilter(repoTag: string, commitHash: string): Filter {
    Filter(Some(repoTag), Some(commitHash), None, None, None)
  }

  function FileFilter(repoTag: string, commitHash: string, filePath: string): Filter {
    Filter(Some(repoTag), Some(commitHash), Some(filePath), None, None)
  }

  predicate InCommit(x: VectorRecord, repoTag: string, commitHash: string) {
    x.metadata.repoTag == repoTag && x.metadata.commitHash == commitHash
  }

  /** The ids one commit-scoped probe collects: at most a page of them, each from a record of that commit. */
  function CommitDeletionIds(records: seq<VectorRecord>, repoTag: string, commitHash: string): (r: seq<Id>)
    ensures var matched := |Matching(records, CommitFilter(repoTag, commitHash))|;
      |r| == if matched < ProbePageSize then matched else ProbePageSize
    ensures forall id :: id in r ==> exists x :: x in records && x.id == id && InCommit(x, repoTag, commitHash)
  {
    ProbedIdsMatch(records, CommitFilter(repoTag, commitHash));
    IdsOf(Probe(records, CommitFilter(repoTag, commitHash), ProbePageSize))
  }

  /** The ids the per-path probes collect, path after path, duplicates kept. */
  function FileListDeletionIds(records: seq<VectorRecord>, repoTag: string, commitHash: string,
                               filePaths: seq<string>): (r: seq<Id>)
    ensures |r| <= ProbePageSize * |filePaths|
  {
    var probe := (p: string) => PathIds(records, repoTag, commitHash, p);
    CollectedBound(filePaths, probe, ProbePageSize);
    Collected(filePaths, probe)
  }

  /** What `probe` returns for each path in turn, concatenated. */
  function Collected(filePaths: seq<string>, probe: string -> seq<Id>): seq<Id>
    decreases |filePaths|
  {
    if filePaths == [] then []
    else Collected(filePaths[..|filePaths| - 1], probe) + probe(filePaths[|filePaths| - 1])
  }

  lemma {:induction false} CollectedBound(filePaths: seq<string>, probe: string -> seq<Id>, bound: nat)
    requires forall p :: |probe(p)| <= bound
    ensures |Collected(filePaths, probe)| <= bound * |filePaths|
    decreases |filePaths|
  {
    if filePaths != [] {
      CollectedBound(filePaths[..|filePaths| - 1], probe, bound);
      assert bound * (|filePaths| - 1) + bound == bound * |filePaths|;
    }
  }

  lemma {:induction false} CollectedAppend(first: seq<string>, second: seq<string>, probe: string -> seq<Id>)
    ensures Collected(first + second, probe) == Collected(first, probe) + Collected(second, probe)
    decreases |second|
  {
    if second == [] {
      assert first + second == first;
    } else {
      var init := second[..|second| - 1];
      assert (first + second)[..|first + second| - 1] == first + init;
      CollectedAppend(first, init, probe);
    }
  }

  /** The ids one file-scoped probe collects: at most a page of them, each from a record of that file. */
  function PathIds(records: seq<VectorRecord>, repoTag: string, commitHash: string, filePath: string): (r: seq<Id>)
    ensures var matched := |Matching(records, FileFilter(repoTag, commitHash, filePath))|;
      |r| == if matched < ProbePageSize then matched else ProbePageSize
    ensures forall id :: id in r ==>
      exists x :: x in records && x.id == id && InCommit(x, repoTag, commitHash) && x.metadata.filePath == filePath
  {
    ProbedIdsMatch(records, FileFilter(repoTag, commitHash, filePath));
    IdsOf(Probe(records, FileFilter(repoTag, commitHash, filePath), ProbePageSize))
  }

  datatype CommitDeletion = CommitDeletion(deletedCount: nat, commitHash: string, error: bool)

  /** `affectedFiles` is absent from the error report. */
  datatype FileListDeletion = FileListDeletion(deletedCount: nat, commitHash: string, affectedFiles: Option<nat>, error: bool)

  /**
   * Deletes the records of one commit of one repository (the first probe
   * page of them). When the log write fails the records are already gone,
   * yet the report says nothing was deleted.
   */
  method DeleteChunksByCommit(index: VectorIndex, log: AuditLog, repoTag: string, commitHash: string)
    returns (r: CommitDeletion)
    modifies index`records, log`entries
    ensures !index.up ==>
      r == CommitDeletion(0, commitHash, true)
      && index.records == old(index.records) && log.entries == old(log.entries)
    ensures index.up ==>
      var ids := CommitDeletionIds(old(index.records), repoTag, commitHash);
      var matched := |Matching(old(index.records), CommitFilter(repoTag, commitHash))|;
      && |ids| == (if matched < ProbePageSize then matched else ProbePageSize)
      && index.records == RemoveIds(old(index.records), IdSet(ids))
      && (log.up ==>
            && log.entries == old(log.entries) + [DeleteAll(commitHash, repoTag, |ids|)]
            && r == CommitDeletion(|ids|, commitHash, false))
      && (!log.up ==> log.entries == old(log.entries) && r == CommitDeletion(0, commitHash, true))
    ensures UniqueIds(old(index.records)) ==> UniqueIds(index.records)
    ensures forall b: nat :: IdsBelow(old(index.records), b) ==> IdsBelow(index.records, b)
  {
    var result := index.Query(ZeroVector, ProbePageSize, CommitFilter(repoTag, commitHash));
    if result.Failure? {
      return CommitDeletion(0, commitHash, true);
    }
    var idsToDelete := IdsOf(result.value);
    if |idsToDelete| > 0 {
      var _ := index.DeleteMany(idsToDelete);
    } else {
      assert IdSet(idsToDelete) == {};
      RemoveNoIds(index.records);
    }
    RemoveIdsKeepsIds(old(index.records), IdSet(idsToDelete));

    var logged := log.Append(DeleteAll(commitHash, repoTag, |idsToDelete|));
    if logged.Failure? {
      return CommitDeletion(0, commitHash, true);
    }
    r := CommitDeletion(|idsToDelete|, commitHash, false);
  }

  /**
   * Deletes the records of the listed files in one commit. Every listed
   * path counts toward `affectedFiles`, whether or not it had records.
   */
  method DeleteChunksByFileList(index: VectorIndex, log: AuditLog, repoTag: string, commitHash: string,
                                filePaths: seq<string>)
    returns (r: FileListDeletion)
    modifies index`records, log`entries
    ensures !index.up && |filePaths| > 0 ==>
      r == FileListDeletion(0, commitHash, None, true)
      && index.records == old(index.records) && log.entries == old(log.entries)
    ensures index.up || |filePaths| == 0 ==>
      var ids := FileListDeletionIds(old(index.records), repoTag, commitHash, filePaths);
      && index.records == RemoveIds(old(index.records), IdSet(ids))
      && (log.up ==>
            && log.entries == old(log.entries) + [DeleteChanged(commitHash, repoTag, |ids|, |filePaths|)]
            && r == FileListDeletion(|ids|, commitHash, Some(|filePaths|), false))
      && (!log.up ==> log.entries == old(log.entries) && r == FileListDeletion(0, commitHash, None, true))
    ensures UniqueIds(old(index.records)) ==> UniqueIds(index.records)
    ensures forall b: nat :: IdsBelow(old(index.records), b) ==> IdsBelow(index.records, b)
  {
    var deletions: seq<Id> := [];
    var i := 0;
    while i < |filePaths|
      invariant 0 <= i <= |filePaths|
      invariant i > 0 ==> index.up
      invariant index.records == old(index.records) && log.entries == old(log.entries)
      invariant deletions == FileListDeletionIds(index.records, repoTag, commitHash, filePaths[..i])
    {
      var result := index.Query(ZeroVector, ProbePageSize, FileFilter(repoTag, commitHash, filePaths[i]));
      if result.Failure? {
        return FileListDeletion(0, commitHash, None, true);
      }
      assert filePaths[..i + 1][..i] == filePaths[..i];
      deletions := deletions + IdsOf(result.value);
      i := i + 1;
    }
    assert filePaths[..i] == filePaths;

    if |deletions| > 0 {
      var _ := index.DeleteMany(deletions);
    } else {
      assert IdSet(deletions) == {};
      RemoveNoIds(index.records);
    }
    RemoveIdsKeepsIds(old(index.records), IdSet(deletions));

    var logged := log.Append(DeleteChanged(commitHash, repoTag, |deletions|, |filePaths|));
    if logged.Failure? {
      return FileListDeletion(0, commitHash, None, true);
    }
    r := FileListDeletion(|deletions|, commitHash, Some(|filePaths|), false);
  }

  lemma IdOfMember(records: seq<VectorRecord>, x: VectorRecord)
    requires x in records
    ensures x.id in IdSet(IdsOf(records))
  {
    var k :| 0 <= k < |records| && records[k] == x;
    assert IdsOf(records)[k] == x.id;
  }

  /** Every id a probe collects belongs to a record of the index that matches the probe's filter. */
  lemma ProbedIdsMatch(records: seq<VectorRecord>, f: Filter)
    ensures forall id :: id in IdsOf(Probe(records, f, ProbePageSize)) ==>
      exists x :: x in records && x.id == id && Matches(f, x.metadata)
  {
    var p := Probe(records, f, ProbePageSize);
    forall id | id in IdsOf(p) ensures exists x :: x in records && x.id == id && Matches(f, x.metadata) {
      var k :| 0 <= k < |p| && IdsOf(p)[k] == id;
      assert p[k] in Matching(records, f);
    }
  }

  /** With unique ids, removing ids taken from records in a set S removes no record outside S. */
  lemma RemoveSparesOthers(records: seq<VectorRecord>, ids: set<Id>, x: VectorRecord, inS: VectorRecord -> bool)
    requires UniqueIds(records) && x in records && !inS(x)
    requires forall id :: id in ids ==> exists y :: y in records && y.id == id && inS(y)
    ensures x in RemoveIds(records, ids)
  {
    if x.id in ids {
      var y :| y in records && y.id == x.id && inS(y);
      var j :| 0 <= j < |records| && records[j] == x;
      assert false;
    }
  }

  /** Deleting a commit leaves every record of other commits and other tags in place. */
  lemma CommitDeletionSparesOthers(records: seq<VectorRecord>, repoTag: string, commitHash: string)
    requires UniqueIds(records)
    ensures forall x :: x in records && !InCommit(x, repoTag, commitHash) ==>
      x in RemoveIds(records, IdSet(CommitDeletionIds(records, repoTag, commitHash)))
  {
    var ids := IdSet(CommitDeletionIds(records, repoTag, commitHash));
    var inCommit := (y: VectorRecord) => InCommit(y, repoTag, commitHash);
    assert forall id :: id in ids ==> exists y :: y in records && y.id == id && inCommit(y);
    forall x | x in records && !InCommit(x, repoTag, commitHash)
      ensures x in RemoveIds(records, ids)
    {
      RemoveSparesOthers(records, ids, x, inCommit);
    }
  }

  /**
   * When the commit fits in one probe page, deleting it removes all of its
   * records, so a second deletion of the same commit finds nothing.
   */
  lemma CommitDeletionEmptiesScope(records: seq<VectorRecord>, repoTag: string, commitHash: string)
    requires |Matching(records, CommitFilter(repoTag, commitHash))| <= ProbePageSize
    ensures var rest := RemoveIds(records, IdSet(CommitDeletionIds(records, repoTag, commitHash)));
      (forall x :: x in rest ==> !InCommit(x, repoTag, commitHash))
      && CommitDeletionIds(rest, repoTag, commitHash) == []
  {
    var rest := RemoveIds(records, IdSet(CommitDeletionIds(records, repoTag, commitHash)));
    CommitDeletionCoversScope(records, repoTag, commitHash);
    MatchingEmpty(rest, CommitFilter(repoTag, commitHash));
  }

  /** When the commit fits in one page, every record of it has its id collected. */
  lemma CommitDeletionCoversScope(records: seq<VectorRecord>, repoTag: string, commitHash: string)
    requires |Matching(records, CommitFilter(repoTag, commitHash))| <= ProbePageSize
    ensures forall x :: x in records && InCommit(x, repoTag, commitHash) ==>
      x.id in IdSet(CommitDeletionIds(records, repoTag, commitHash))
  {
    var probed := Probe(records, CommitFilter(repoTag, commitHash), ProbePageSize);
    forall x | x in records && InCommit(x, repoTag, commitHash)
      ensures x.id in IdSet(CommitDeletionIds(records, repoTag, commitHash))
    {
      assert x in probed;
      IdOfMember(probed, x);
    }
  }

  /** Listing paths one after another collects the ids of each list in turn. */
  lemma FileListIdsAppend(records: seq<VectorRecord>, repoTag: string, commitHash: string,
                          first: seq<string>, second: seq<string>)
    ensures FileListDeletionIds(records, repoTag, commitHash, first + second)
      == FileListDeletionIds(records, repoTag, commitHash, first) + FileListDeletionIds(records, repoTag, commitHash, second)
  {
    CollectedAppend(first, second, (p: string) => PathIds(records, repoTag, commitHash, p));
  }

  /** Each listed path's match count, capped at one probe page, added up path by path. */
  function CappedMatchCounts(records: seq<VectorRecord>, repoTag: string, commitHash: string,
                             filePaths: seq<string>): nat
    decreases |filePaths|
  {
    if filePaths == [] then 0
    else
      var matched := |Matching(records, FileFilter(repoTag, commitHash, filePaths[|filePaths| - 1]))|;
      CappedMatchCounts(records, repoTag, commitHash, filePaths[..|filePaths| - 1])
      + if matched < ProbePageSize then matched else ProbePageSize
  }

  /** A file-list deletion collects, for each listed path, its match count capped at one page. */
  lemma {:induction false} FileListDeletionCount(records: seq<VectorRecord>, repoTag: string, commitHash: string,
                                                 filePaths: seq<string>)
    ensures |FileListDeletionIds(records, repoTag, commitHash, filePaths)|
      == CappedMatchCounts(records, repoTag, commitHash, filePaths)
    decreases |filePaths|
  {
    if filePaths != [] {
      var init := filePaths[..|filePaths| - 1];
      var last := filePaths[|filePaths| - 1];
      FileListDeletionCount(records, repoTag, commitHash, init);
      assert filePaths == init + [last];
      FileListIdsAppend(records, repoTag, commitHash, init, [last]);
      assert [last][..0] == [];
    }
  }

  /** A path listed twice has its records counted twice. */
  lemma RepeatedPathCountedTwice(records: seq<VectorRecord>, repoTag: string, commitHash: string, filePath: string)
    ensures |FileListDeletionIds(records, repoTag, commitHash, [filePath, filePath])|
      == 2 * |FileListDeletionIds(records, repoTag, commitHash, [filePath])|
  {
    assert [filePath] + [filePath] == [filePath, filePath];
    FileListIdsAppend(records, repoTag, commitHash, [filePath], [filePath]);
  }

  /** Every collected id belongs to a record of a listed file in that tag and commit. */
  lemma {:induction false} FileListIdsScoped(records: seq<VectorRecord>, repoTag: string, commitHash: string,
                                             filePaths: seq<string>)
    ensures forall id :: id in FileListDeletionIds(records, repoTag, commitHash, filePaths) ==>
      exists x :: x in records && x.id == id && InCommit(x, repoTag, commitHash) && x.metadata.filePath in filePaths
    decreases |filePaths|
  {
    if filePaths != [] {
      var init := filePaths[..|filePaths| - 1];
      var last := filePaths[|filePaths| - 1];
      FileListIdsScoped(records, repoTag, commitHash, init);
      forall id | id in FileListDeletionIds(records, repoTag, commitHash, filePaths)
        ensures exists x :: x in records && x.id == id && InCommit(x, repoTag, commitHash) && x.metadata.filePath in filePaths
      {
        if id in FileListDeletionIds(records, repoTag, commitHash, init) {
          var x :| x in records && x.id == id && InCommit(x, repoTag, commitHash) && x.metadata.filePath in init;
          assert x.metadata.filePath in filePaths;
        } else {
          assert id in PathIds(records, repoTag, commitHash, last);
        }
      }
    }
  }

  /** File-list deletion removes only records of listed files in that tag and commit. */
  lemma FileListDeletionSparesOthers(records: seq<VectorRecord>, repoTag: string, commitHash: string, filePaths: seq<string>)
    requires UniqueIds(records)
    ensures forall x :: x in records && !(InCommit(x, repoTag, commitHash) && x.metadata.filePath in filePaths) ==>
      x in RemoveIds(records, IdSet(FileListDeletionIds(records, repoTag, commitHash, filePaths)))
  {
    var ids := IdSet(FileListDeletionIds(records, repoTag, commitHash, filePaths));
    var listed := (y: VectorRecord) => InCommit(y, repoTag, commitHash) && y.metadata.filePath in filePaths;
    FileListIdsScoped(records, repoTag, commitHash, filePaths);
    assert forall id :: id in ids ==> exists y :: y in records && y.id == id && listed(y);
    forall x | x in records && !listed(x) ensures x in RemoveIds(records, ids) {
      RemoveSparesOthers(records, ids, x, listed);
    }
  }

  /**
   * When each listed file fits in one probe page, every record of a listed
   * file in that tag and commit is removed.
   */
  lemma {:induction false} FileListDeletionComplete(records: seq<VectorRecord>, repoTag: string, commitHash: string,
                                                    filePaths: seq<string>)
    requires forall p :: p in filePaths ==> |Matching(records, FileFilter(repoTag, commitHash, p))| <= ProbePageSize
    ensures forall x :: x in records && InCommit(x, repoTag, commitHash) && x.metadata.filePath in filePaths ==>
      x.id in FileListDeletionIds(records, repoTag, commitHash, filePaths)
    decreases |filePaths|
  {
    if filePaths != [] {
      var init := filePaths[..|filePaths| - 1];
      var last := filePaths[|filePaths| - 1];
      FileListDeletionComplete(records, repoTag, commitHash, init);
      forall x | x in records && InCommit(x, repoTag, commitHash) && x.metadata.filePath in filePaths
        ensures x.id in FileListDeletionIds(records, repoTag, commitHash, filePaths)
      {
        if x.metadata.filePath !in init {
          assert x.metadata.filePath == last;
          var probed := Probe(records, FileFilter(repoTag, commitHash, last), ProbePageSize);
          assert x in probed;
          IdOfMember(probed, x);
        }
      }
    }
  }

  /**
   * A changed file's records are deleted and the file is embedded again, as
   * the delete and embed routes do one after the other: the deletion keeps
   * the index consistent with the id source, so the re-embedding may run.
   */
  method DeleteThenReembed(index: VectorIndex, log: AuditLog, ids: IdSource, provider: Provider,
                           hash: string -> string, repoTag: string, commitHash: string,
                           filePath: string, content: string)
    returns (deleted: FileListDeletion, embedded: Result<EmbedReport, Failure>)
    requires Consistent(index, ids)
    modifies index`records, log`entries, ids`next
    ensures Consistent(index, ids)
    ensures index.up ==> !deleted.error || !log.up
  {
    deleted := DeleteChunksByFileList(index, log, repoTag, commitHash, [filePath]);
    embedded := EmbedAndStoreFileChunks(index, log, ids, provider, hash, filePath, content, repoTag, commitHash);
  }
}
