/** The transformation agent's own state and the operations that change it: the
    replica cache in front of the catalog, the in-flight list and queue fed by
    the poller, the per-transformation record of unused files, and the
    pipeline one worker runs for one transformation. Remote services are
    inputs: the catalog's reply, the registry's replies, the plugin's tasks and
    the results of the task submissions. */
module TransformationAgent {
  import opened Wrappers
  import opened Catalog
  import opened ReplicaCache
  import opened TaskPipeline
  import opened Dispatch
  import opened Collections
  import opened PyCalls

  const MissingLFC: string := "MissingLFC"

  // ---------------------------------------------------------------------------
  // Two calls as written

  /** The parameters of `_getTransformationFiles` (line 245). */
  const GetFilesParams: seq<string> := ["self", "transDict"]

  /** The parameters of `__getDataReplicasRM` (line 349); `active` has a default. */
  const ReplicasRMParams: seq<string> := ["self", "transID", "lfns", "active"]

  /** `processTransformation(transDict)` as written: lines 140-141 read the
      descriptor, then line 144 calls `self._getTransformationFiles()`, which
      binds `self` alone. */
  function ProcessAsWritten(t: TransDict): Option<PyError> {
    BindArgs(1, {}, GetFilesParams, |GetFilesParams|)
  }

  /** As written, every pass raises `TypeError` at line 144, before the registry
      is asked, so no input reaches what `Processed` states; the call with the
      descriptor, which the model makes, binds. */
  lemma ProcessAlwaysRaises(t: TransDict)
    ensures ProcessAsWritten(t).Some? && ProcessAsWritten(t).value.TypeError?
    ensures BindArgs(2, {}, GetFilesParams, |GetFilesParams|).None?
  {
    var none: set<string> := {};
    assert |GetFilesParams| == 2 && GetFilesParams[1] !in none;
    assert ProcessAsWritten(t) == BindArgs(1, none, GetFilesParams, 2);
  }

  /** The catalog step of `__getDataReplicas` as written: line 336 is reached
      when some requested LFN is not in `found`, and passes `self` to a bound
      method, so `active` is given twice. */
  function ReplicasCallAsWritten(lfns: seq<LFN>, found: set<LFN>): Option<PyError> {
    if Unresolved(lfns, found) != [] then BindArgs(4, {"active"}, ReplicasRMParams, 3) else None
  }

  /** As written, `__getDataReplicas` raises `TypeError` exactly when some
      requested LFN missed the cache: a miss is never resolved. The call with
      `self` once, which the model makes, binds. */
  lemma {:induction false} ReplicasCallRaises(lfns: seq<LFN>, found: set<LFN>)
    ensures ReplicasCallAsWritten(lfns, found).Some? <==> !(SetOf(lfns) <= found)
    ensures ReplicasCallAsWritten(lfns, found).Some? ==> ReplicasCallAsWritten(lfns, found).value.TypeError?
    ensures BindArgs(3, {"active"}, ReplicasRMParams, 3).None?
  {
    UnresolvedEmpty(lfns, found);
    assert ReplicasRMParams[..4][3] == "active";
    assert ReplicasRMParams[..3] == ["self", "transID", "lfns"];
  }

  /** The remote calls a pipeline run issues, in order. */
  datatype Call =
    | GetTransformationFiles(transID: int)
    | GetReplicas(query: seq<LFN>, active: bool)
    | SetFileStatus(transID: int, status: string, files: set<LFN>)
    | LoadPlugin(name: string)
    | AddTask(transID: int, taskLFNs: seq<LFN>, se: SE)
    | SetStatus(transID: int, status: string)

  /** The LFNs the cache cannot serve, sent to the catalog in one call. */
  ghost function Misses(cache: Cache, transID: int, lfns: seq<LFN>): seq<LFN> {
    Unresolved(lfns, HitSet(cache, transID, lfns))
  }

  /** The batch stored as a new snapshot, when the catalog was asked and answered usefully. */
  ghost function NewBatch(cache: Cache, transID: int, lfns: seq<LFN>, active: bool, reply: CatalogReply)
    : Option<ReplicaMap>
  {
    var outcome := CatalogOutcome(reply, active);
    if Misses(cache, transID, lfns) != [] && outcome.Success? then Some(outcome.value) else None
  }

  /** The remote calls of one `__getDataReplicas`. */
  ghost function ReplicaCalls(cache: Cache, transID: int, lfns: seq<LFN>, active: bool, reply: CatalogReply)
    : seq<Call>
  {
    var misses := Misses(cache, transID, lfns);
    if misses == [] then []
    else [GetReplicas(misses, active)] +
         (if reply.Success? && MissingInCatalog(reply.value.failed) != {}
          then [SetFileStatus(transID, MissingLFC, MissingInCatalog(reply.value.failed))] else [])
  }

  /** `v` is the entry for `l` in some snapshot of `transID`. */
  ghost predicate FromSnapshot(cache: Cache, transID: int, l: LFN, v: map<SE, Pfn>) {
    transID in cache && exists t :: t in cache[transID] && l in cache[transID][t] && cache[transID][t][l] == v
  }

  /** The LFNs processed in this cycle: a sample for replication and removal. */
  function Sample(t: TransDict, files: seq<TransFile>, maxFiles: int, offset: int): seq<LFN>
    requires ReplicateOrRemove(t) && |files| > maxFiles ==> 0 <= offset <= |files| - maxFiles
  {
    if ReplicateOrRemove(t) then ApplyReduction(LFNsOf(files), maxFiles, offset) else LFNsOf(files)
  }

  /** The sampling offset suits the files the registry returns. */
  predicate OffsetFits(t: TransDict, filesReply: Result<seq<TransFile>>, maxFiles: int, offset: int) {
    filesReply.Success? && ReplicateOrRemove(t) && |filesReply.value| > maxFiles ==>
      0 <= offset <= |filesReply.value| - maxFiles
  }

  function AddTaskCalls(transID: int, tasks: seq<Task>): (r: seq<Call>)
    ensures |r| == |tasks|
    ensures forall i :: 0 <= i < |tasks| ==> r[i] == AddTask(transID, tasks[i].lfns, tasks[i].se)
  {
    seq(|tasks|, i requires 0 <= i < |tasks| => AddTask(transID, tasks[i].lfns, tasks[i].se))
  }

  predicate AllTrue(results: seq<bool>) {
    forall i :: 0 <= i < |results| ==> results[i]
  }

  /** The answer of `__getDataReplicas`: the cache hits updated with the new batch. */
  lemma MergeValues(hits: ReplicaMap, batch: ReplicaMap)
    ensures forall l :: l in hits + batch <==> l in hits || l in batch
    ensures forall l :: l in batch ==> (hits + batch)[l] == batch[l]
    ensures forall l :: l in hits && l !in batch ==> (hits + batch)[l] == hits[l]
  {
  }

  /** What one `processTransformation` of `t` does, on the state before
      (`cache0`, `unused0`) and after (`cache1`, `unused1`). The remote answers are
      inputs: `filesReply` (the Unused files), `offset` (the random sampling
      offset), `catalogReply` (the catalog's replicas), `generated` (the plugin's
      tasks, or the failure to load it or to generate them), `submissions[i]`
      (whether task i was added) and `now`. */
  ghost predicate Processed(t: TransDict, maxFiles: int, filesReply: Result<seq<TransFile>>, offset: int,
                            catalogReply: CatalogReply, generated: Result<seq<Task>>, submissions: seq<bool>,
                            now: int, cache0: Cache, unused0: map<int, int>, cache1: Cache,
                            unused1: map<int, int>, res: Status, calls: seq<Call>)
    requires OffsetFits(t, filesReply, maxFiles, offset)
    requires generated.Success? ==> |submissions| == |generated.value|
  {
    var step := SelectUnusedFiles(t, filesReply, unused0);
    var getFiles := [GetTransformationFiles(t.transID)];
    match step
    case FilesFailed(message) =>
      res == Error(message) && calls == getFiles && cache1 == cache0 && unused1 == unused0
    case NothingToDo(setActive) =>
      && res == Ok && cache1 == cache0 && unused1 == unused0
      && calls == getFiles + (if setActive then [SetStatus(t.transID, Active)] else [])
    case Proceed(files) =>
      && |calls| >= 1 && calls[..1] == getFiles
      && ProcessedFiles(t, maxFiles, files, offset, catalogReply, generated, submissions, now,
                        cache0, unused0, cache1, unused1, res, calls[1..])
  }

  /** The part of `processTransformation` after the Unused `files` are known:
      sample, resolve the replicas, load the plugin, submit its tasks. */
  ghost predicate ProcessedFiles(t: TransDict, maxFiles: int, files: seq<TransFile>, offset: int,
                                 catalogReply: CatalogReply, generated: Result<seq<Task>>, submissions: seq<bool>,
                                 now: int, cache0: Cache, unused0: map<int, int>, cache1: Cache,
                                 unused1: map<int, int>, res: Status, calls: seq<Call>)
    requires ReplicateOrRemove(t) && |files| > maxFiles ==> 0 <= offset <= |files| - maxFiles
    requires generated.Success? ==> |submissions| == |generated.value|
  {
    var lfns := Sample(t, files, maxFiles, offset);
    var active := !ReplicateOrRemove(t);
    var head := ReplicaCalls(cache0, t.transID, lfns, active, catalogReply) + [LoadPlugin(PluginName(t))];
    && cache1 == ResolvedCache(cache0, t.transID, lfns, active, catalogReply, now)
    && |calls| >= |head| && calls[..|head|] == head
    && Submitted(t, |lfns|, generated, submissions, unused0, unused1, res, calls[|head|..])
  }

  /** The end of `processTransformation`: the plugin's outcome, the tasks added,
      the new unused count of the `sampled` files and the Flush to Active step. */
  ghost predicate Submitted(t: TransDict, sampled: int, generated: Result<seq<Task>>, submissions: seq<bool>,
                            unused0: map<int, int>, unused1: map<int, int>, res: Status, calls: seq<Call>)
    requires generated.Success? ==> |submissions| == |generated.value|
  {
    match generated
    case Failure(message) =>
      res == Error(message) && calls == [] && unused1 == unused0
    case Success(tasks) =>
      && res == Ok
      && unused1 == unused0[t.transID := sampled - SubmittedFiles(tasks, submissions)]
      && calls == AddTaskCalls(t.transID, tasks) +
                  (if t.status == Flush && AllTrue(submissions) then [SetStatus(t.transID, Active)] else [])
  }

  class Agent {
    /** `MaxFiles` */
    const maxFiles: int
    /** transID -> (time -> (LFN -> (SE -> PFN))) */
    var replicaCache: Cache
    /** IDs queued or being processed */
    var transInQueue: seq<int>
    /** the FIFO queue the workers take descriptors from */
    var transQueue: seq<TransDict>
    /** transID -> number of unused files left after the last cycle */
    var unusedFiles: map<int, int>

    /** In the single-threaded model an ID is in flight exactly while its
        descriptor waits in the queue, and never twice. */
    ghost predicate Valid()
      reads this
    {
      Distinct(transInQueue) && Ids(transQueue) == transInQueue
    }

    /** `initialCache` is what `__readCache` loaded (empty when the load fails). */
    constructor (maxFiles: int, initialCache: Cache)
      ensures Valid()
      ensures this.maxFiles == maxFiles && replicaCache == initialCache
      ensures transInQueue == [] && transQueue == [] && unusedFiles == map[]
    {
      this.maxFiles := maxFiles;
      replicaCache := initialCache;
      transInQueue := [];
      transQueue := [];
      unusedFiles := map[];
    }

    /** `execute`: queue the polled transformations that are not in flight. */
    method Execute(polled: Result<seq<TransDict>>) returns (count: nat)
      requires Valid()
      modifies this`transInQueue, this`transQueue
      ensures Valid()
      ensures polled.Failure? ==> count == 0 && transInQueue == old(transInQueue) && transQueue == old(transQueue)
      ensures polled.Success? ==>
        var queued := Enqueued(old(transInQueue), polled.value);
        && transQueue == old(transQueue) + queued
        && transInQueue == old(transInQueue) + Ids(queued)
        && count == |queued|
    {
      count := 0;
      if polled.Failure? {
        return;
      }
      var batch := polled.value;
      var inQueue := transInQueue;
      var queue := transQueue;
      ghost var queued: seq<TransDict> := [];
      var i := 0;
      while i < |batch|
        invariant 0 <= i <= |batch|
        invariant queue == old(transQueue) + queued
        invariant inQueue == old(transInQueue) + Ids(queued)
        invariant Enqueued(old(transInQueue), batch) == queued + Enqueued(inQueue, batch[i..])
        invariant count == |queued|
        invariant Distinct(inQueue)
      {
        var transDict := batch[i];
        var transID := transDict.transID;
        if transID !in inQueue {
          PollTake(old(transInQueue), batch, i, queued, inQueue);
          AppendFresh(inQueue, transID);
          count := count + 1;
          inQueue := inQueue + [transID];
          queue := queue + [transDict];
          queued := queued + [transDict];
        } else {
          PollSkip(old(transInQueue), batch, i, queued, inQueue);
        }
        i := i + 1;
      }
      assert batch[i..] == [];
      assert Enqueued(old(transInQueue), batch) == queued;
      IdsAppend(old(transQueue), queued);
      transInQueue := inQueue;
      transQueue := queue;
    }

    /** `pluginCallback`: forget the snapshots of one transformation. */
    method PluginCallback(transID: int, invalidateCache: bool)
      modifies this`replicaCache
      ensures replicaCache == if invalidateCache then old(replicaCache) - {transID} else old(replicaCache)
    {
      if invalidateCache && transID in replicaCache {
        replicaCache := replicaCache - {transID};
      }
    }

    /** `__cleanCache` at time `now`. */
    method CleanCache(now: int)
      modifies this`replicaCache
      ensures replicaCache == Cleaned(old(replicaCache), ValidityLimit(now))
    {
      replicaCache := DropStaleCache(replicaCache, ValidityLimit(now));
    }

    /** The cache half of `__getDataReplicas`: the requested LFNs that some
        snapshot of `transID` holds, each with the replicas of one such snapshot;
        the snapshots are compacted to the requested LFNs on the way. */
    method LookUp(transID: int, lfns: seq<LFN>) returns (hits: ReplicaMap)
      modifies this`replicaCache
      ensures replicaCache == Compact(old(replicaCache), transID, SetOf(lfns))
      ensures hits.Keys == HitSet(old(replicaCache), transID, lfns)
      ensures forall l :: l in hits ==> FromSnapshot(old(replicaCache), transID, l, hits[l])
    {
      hits := map[];
      if transID in replicaCache {
        var compacted;
        hits, compacted := ScanSnapshots(replicaCache[transID], lfns);
        replicaCache := replicaCache[transID := compacted];
      }
    }

    /** `__getDataReplicas`: serve what the snapshots of `transID` hold, compact
        them to the requested LFNs, ask the catalog (`reply`) for the rest, store a
        useful answer as the snapshot of time `now`, then clean the cache. */
    method GetDataReplicas(transID: int, lfns: seq<LFN>, active: bool, reply: CatalogReply, now: int)
      returns (dataReplicas: ReplicaMap, calls: seq<Call>)
      modifies this`replicaCache
      ensures replicaCache == ResolvedCache(old(replicaCache), transID, lfns, active, reply, now)
      ensures calls == ReplicaCalls(old(replicaCache), transID, lfns, active, reply)
      ensures var batch := NewBatch(old(replicaCache), transID, lfns, active, reply);
        && (forall l :: l in dataReplicas <==>
              l in HitSet(old(replicaCache), transID, lfns) || (batch.Some? && l in batch.value))
        && (batch.Some? ==> forall l :: l in batch.value ==> dataReplicas[l] == batch.value[l])
        && (forall l :: l in dataReplicas && (batch.None? || l !in batch.value) ==>
              FromSnapshot(old(replicaCache), transID, l, dataReplicas[l]))
    {
      var hits := LookUp(transID, lfns);
      dataReplicas := hits;
      var newLFNs := Unresolved(lfns, hits.Keys);
      assert newLFNs == Misses(old(replicaCache), transID, lfns);
      calls := [];
      if newLFNs != [] {
        calls := [GetReplicas(newLFNs, active)];
        var res, missing := FilterCatalogReply(reply, active);
        if missing != {} {
          calls := calls + [SetFileStatus(transID, MissingLFC, missing)];
        }
        if res.Success? {
          replicaCache := Insert(replicaCache, transID, now, res.value);
          dataReplicas := hits + res.value;
        }
      }
      CleanCache(now);
      ghost var batch := NewBatch(old(replicaCache), transID, lfns, active, reply);
      if batch.Some? {
        assert dataReplicas == hits + batch.value;
        MergeValues(hits, batch.value);
      } else {
        assert dataReplicas == hits;
      }
    }

    /** `processTransformation`, with `_getTransformationFiles` given the descriptor. */
    method ProcessTransformation(t: TransDict, filesReply: Result<seq<TransFile>>, offset: int,
                                 catalogReply: CatalogReply, generated: Result<seq<Task>>,
                                 submissions: seq<bool>, now: int)
      returns (res: Status, calls: seq<Call>)
      requires OffsetFits(t, filesReply, maxFiles, offset)
      requires generated.Success? ==> |submissions| == |generated.value|
      modifies this`replicaCache, this`unusedFiles
      ensures Processed(t, maxFiles, filesReply, offset, catalogReply, generated, submissions, now,
                        old(replicaCache), old(unusedFiles), replicaCache, unusedFiles, res, calls)
    {
      calls := [GetTransformationFiles(t.transID)];
      var step := SelectUnusedFiles(t, filesReply, unusedFiles);
      match step {
        case FilesFailed(message) =>
          return Error(message), calls;
        case NothingToDo(setActive) =>
          if setActive {
            calls := calls + [SetStatus(t.transID, Active)];
          }
          return Ok, calls;
        case Proceed(files) =>
      }
      var more;
      res, more := ProcessFiles(t, step.files, offset, catalogReply, generated, submissions, now);
      assert (calls + more)[1..] == more;
      calls := calls + more;
    }

    /** The part of `processTransformation` after `_getTransformationFiles`. */
    method ProcessFiles(t: TransDict, transFiles: seq<TransFile>, offset: int, catalogReply: CatalogReply,
                        generated: Result<seq<Task>>, submissions: seq<bool>, now: int)
      returns (res: Status, calls: seq<Call>)
      requires ReplicateOrRemove(t) && |transFiles| > maxFiles ==> 0 <= offset <= |transFiles| - maxFiles
      requires generated.Success? ==> |submissions| == |generated.value|
      modifies this`replicaCache, this`unusedFiles
      ensures ProcessedFiles(t, maxFiles, transFiles, offset, catalogReply, generated, submissions, now,
                             old(replicaCache), old(unusedFiles), replicaCache, unusedFiles, res, calls)
    {
      var lfns := Sample(t, transFiles, maxFiles, offset);
      var unused := |lfns|;
      var active := !ReplicateOrRemove(t);
      var dataReplicas;
      dataReplicas, calls := GetDataReplicas(t.transID, lfns, active, catalogReply, now);
      calls := calls + [LoadPlugin(PluginName(t))];
      var more;
      res, more := SubmitGenerated(t, unused, generated, submissions);
      assert (calls + more)[..|calls|] == calls && (calls + more)[|calls|..] == more;
      calls := calls + more;
    }

    /** The plugin's tasks are added one by one; `unusedFiles[transID]` drops by
        the files of each one added; a Flush transformation goes back to Active
        when every task was added. */
    method SubmitGenerated(t: TransDict, unused: int, generated: Result<seq<Task>>, submissions: seq<bool>)
      returns (res: Status, calls: seq<Call>)
      requires generated.Success? ==> |submissions| == |generated.value|
      modifies this`unusedFiles
      ensures Submitted(t, unused, generated, submissions, old(unusedFiles), unusedFiles, res, calls)
    {
      if generated.Failure? {
        return Error(generated.error), [];
      }
      var tasks := generated.value;
      var created, allCreated, remaining := SubmitTasks(tasks, submissions, unused);
      calls := AddTaskCalls(t.transID, tasks);
      unusedFiles := unusedFiles[t.transID := remaining];
      if t.status == Flush && allCreated {
        calls := calls + [SetStatus(t.transID, Active)];
      }
      res := Ok;
    }

    /** One pass of the worker loop `_execute`: take the head of the queue,
        process it, and in any case take its ID off the in-flight list. */
    method ExecuteNext(filesReply: Result<seq<TransFile>>, offset: int, catalogReply: CatalogReply,
                       generated: Result<seq<Task>>, submissions: seq<bool>, now: int)
      returns (res: Status, calls: seq<Call>)
      requires Valid() && transQueue != []
      requires OffsetFits(transQueue[0], filesReply, maxFiles, offset)
      requires generated.Success? ==> |submissions| == |generated.value|
      modifies this
      ensures Valid()
      ensures transQueue == old(transQueue)[1..] && transInQueue == old(transInQueue)[1..]
      ensures old(transQueue)[0].transID !in transInQueue
      ensures Processed(old(transQueue)[0], maxFiles, filesReply, offset, catalogReply, generated, submissions,
                        now, old(replicaCache), old(unusedFiles), replicaCache, unusedFiles, res, calls)
    {
      var transDict := transQueue[0];
      transQueue := transQueue[1..];
      var transID := transDict.transID;
      res, calls := ProcessTransformation(transDict, filesReply, offset, catalogReply, generated, submissions, now);
      if transID in transInQueue {
        RemoveFirstSpec(transInQueue, transID);
        transInQueue := RemoveFirst(transInQueue, transID);
      }
    }
  }
}
