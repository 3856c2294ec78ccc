# Transformation agent and consistency inspector, modelled in Dafny

This project models two pieces of DIRAC's data-management bookkeeping and
proves what they promise.

**The transformation agent** (`TransformationSystem/Agent/TransformationAgent.py`)
is modelled as the class `TransformationAgent.Agent`. Its state is the replica
cache, the in-flight list `transInQueue`, the queue the workers read, and the
record of unused files. One worker's pass follows these steps:

- It asks the transformation registry for the Unused files, and stops when
  nothing is new.
- It samples the files for replication and removal transformations.
- It resolves replicas through the cache. The cache answers what it holds, is
  compacted to the request, asks the catalog for the rest, stores a useful answer
  as a new snapshot and is then cleaned.
- It submits the plugin's tasks and updates the unused count and the
  Flush→Active status.

**The consistency inspector** (`DataManagementSystem/Client/ConsistencyInspector.py`)
is modelled as the class `ConsistencyInspector.Inspector` and the modules
`LfnSelection`, `ChecksumCheck` and `StorageCheck`:

- the LFN-list comparison;
- the file-type selection and per-type counts over ancestor→descendant maps;
- the LFN and file-type setters;
- the checksum comparison;
- the catalog→storage check and the storage→catalog check.

Remote services are inputs:

- the catalog's, the registry's and the storage elements' replies, as
  `Result`/`BulkReply` values or as functions from the question to the reply;
- the plugin's task list;
- the per-task submission results;
- the random sampling offset;
- the current time, in integer seconds.

`compareAdler` is an uninterpreted predicate. Calls made to services are
returned (`Call`, `Report`) rather than performed. Python dictionary iteration
order is unspecified, so loops over dictionaries pick an arbitrary remaining key
and contracts do not depend on the order. Where the source sorts (`sorted(seFiles)`),
the model visits SEs in an order proved to be the unique ascending one.

Modules:

| module | file | contents |
|---|---|---|
| `Wrappers` | wrappers.dfy | Option/Result/Status, standing for `S_OK`/`S_ERROR` |
| `Catalog` | catalog.dfy | LFN/SE types, bulk replies, file metadata |
| `Collections` | collections.dfy | distinct lists, map sums, set-valued lookups |
| `PyStrings` | py_strings.dfy | substring search, ASCII `lower`/`upper`, LFN normalisation |
| `PyCalls` | py_calls.dfy | Python argument binding, dictionary subscripts and iteration, for the code as written |
| `StringOrder` | string_order.dfy | Python string `<` and `sorted()` of a set |
| `ReplicaCache` | replica_cache.dfy | cache snapshots, catalog-reply filtering, cleaning |
| `TaskPipeline` | task_pipeline.dfy | Unused-files decision, sampling, submission loop |
| `Dispatch` | dispatch.dfy | in-flight de-duplication and removal |
| `TransformationAgent` | transformation_agent.dfy | class `Agent` |
| `LfnSelection` | lfn_selection.dfy | list comparison, file-type selection and counts |
| `SeGrouping` | se_grouping.dfy | LFN→SE reversal (`seFiles`/`seLfns`, `nReps`) |
| `Inversion` | inversion.dfy | SE→LFN answers turned into LFN→SE records |
| `ChecksumCheck` | checksum_check.dfy | `compareChecksum` |
| `StorageCheck` | storage_check.dfy | `checkPhysicalFiles`, `__checkPhysicalFileMetadata`, `__checkCatalogForSEFiles` |
| `ConsistencyInspector` | consistency_inspector.dfy | class `Inspector` |

## Model

| member | source | states |
|---|---|---|
| TaskPipeline.ApplyReduction | TransformationSystem/Agent/TransformationAgent.py:278-287 | The sample has length `min(len, maxFiles-1)`. A shorter list is kept whole. A list of exactly `maxFiles` loses its last LFN. A longer one gives the contiguous slice of `maxFiles-1` items starting at the offset, with the offset in `[0, len-maxFiles]`. |
| TaskPipeline.ApplyReductionIntended | TransformationSystem/Agent/TransformationAgent.py:278-287 | The sampling the guard at lines 281-282 means: a list of at most `maxFiles` LFNs is used whole, and a longer one gives the window of `maxFiles-1` LFNs at the offset. |
| TaskPipeline.ReductionDropsLastAtLimit | TransformationSystem/Agent/TransformationAgent.py:285 | The code's sample differs from the intended one exactly when the list holds `maxFiles` LFNs, and then only by the last LFN. |
| TaskPipeline.PyIndex | TransformationSystem/Agent/TransformationAgent.py:285 | A Python slice bound, negative ones included, lands within the list. |
| TaskPipeline.LfnsAsWritten | TransformationSystem/Agent/TransformationAgent.py:144-149 | Lines 148-149 as written: a registry error is returned, the files of a step that goes on are mapped to their LFNs in order, and the bare `S_OK()` of the stops raises on iteration. |
| TaskPipeline.BareOkRaises | TransformationSystem/Agent/TransformationAgent.py:269-274 | As written the pass raises `TypeError` exactly when the registry answered with no Unused files, or with no new ones and the status not Flush, which are the stops `NothingToDo` models. |
| TaskPipeline.SelectUnusedFiles | TransformationSystem/Agent/TransformationAgent.py:245-276 | A registry error is passed on. Processing stops exactly when there are no Unused files, or when their number equals the recorded count (default 0) and the status is not Flush. Active is requested exactly when there are none and the status is Flush. Otherwise the files go on unchanged. |
| TaskPipeline.PluginName | TransformationSystem/Agent/TransformationAgent.py:166-168 | The plugin is the descriptor's when it is present and non-empty, and `Standard` otherwise. |
| TaskPipeline.SubmitTasks | TransformationSystem/Agent/TransformationAgent.py:186-201 | `created` is the number of successful submissions. `allCreated` holds iff no submission failed, and zero tasks count as all created. The new unused count is the sampled count minus the sizes of the successful tasks. |
| TaskPipeline.CountTrueAll | TransformationSystem/Agent/TransformationAgent.py:186-197 | The counter never exceeds the number of tasks, and equals it exactly when every task was created. |
| TaskPipeline.SubmittedFilesBounds | TransformationSystem/Agent/TransformationAgent.py:186-201 | The files taken off the unused count are at most all the tasks' files. They are all of them when every submission succeeds, and none when every submission fails. |
| Dispatch.EnqueuedFromBatch | TransformationSystem/Agent/TransformationAgent.py:82-87 | Every queued descriptor comes from the poll with an ID that was not in flight. |
| Dispatch.EnqueuedDistinct | TransformationSystem/Agent/TransformationAgent.py:82-87 | A poll keeps `transInQueue` free of duplicates, even when an ID repeats within the poll. |
| Dispatch.EnqueuedCovers | TransformationSystem/Agent/TransformationAgent.py:82-87 | After a poll every polled ID is in flight. |
| Dispatch.RemoveFirstSpec | TransformationSystem/Agent/TransformationAgent.py:131-133 | `list.remove` of the ID makes it absent, keeps every other ID and keeps the list duplicate-free. |
| TransformationAgent.ProcessAlwaysRaises | TransformationSystem/Agent/TransformationAgent.py:144 | As written every pass raises `TypeError` at line 144, because `_getTransformationFiles` (line 245) is called without its descriptor, so no input reaches `Processed`. The call with the descriptor binds. |
| TransformationAgent.ReplicasCallRaises | TransformationSystem/Agent/TransformationAgent.py:332-336 | As written `__getDataReplicas` raises `TypeError` exactly when some requested LFN missed the cache, because the bound method also gets `self` as an argument and `active` is then given twice. The call with `self` once binds. |
| TransformationAgent.Agent.constructor | TransformationSystem/Agent/TransformationAgent.py:43-54 | The agent starts with an empty in-flight list, queue and unused record, with the loaded cache, and in its invariant. |
| TransformationAgent.Agent.Execute | TransformationSystem/Agent/TransformationAgent.py:72-89 | A failed poll changes nothing. Otherwise exactly the polled descriptors whose ID is not in flight (nor taken earlier in the poll) are queued in order and their IDs appended. `count` is their number. The in-flight list stays distinct and equal to the queued IDs. |
| TransformationAgent.Agent.ExecuteNext | TransformationSystem/Agent/TransformationAgent.py:115-134 | The head of the queue is processed as `processTransformation` specifies. Its ID is then taken off the in-flight list, where it is afterwards absent, and the invariant is kept. |
| TransformationAgent.Agent.ProcessTransformation | TransformationSystem/Agent/TransformationAgent.py:136-212 | The whole pass is stated by `Processed` over the state before and after: the Unused-files step, sampling, replica resolution (cache and calls), plugin load, the task calls in order, the new unused count, and Active requested iff the status was Flush and every task was added. |
| TransformationAgent.Agent.ProcessFiles | TransformationSystem/Agent/TransformationAgent.py:149-212 | The part after the files are known, as `ProcessedFiles` states: the LFNs, one per file record in order (`LFNsOf`), sampled, `ResolvedCache` as the new cache, the replica calls, then `LoadPlugin`, then the submissions. |
| TransformationAgent.Agent.SubmitGenerated | TransformationSystem/Agent/TransformationAgent.py:177-212 | A plugin failure is passed on and changes nothing. Otherwise one `addTaskForTransformation(transID, lfns, se)` call per task, in task order (`AddTaskCalls`), `unusedFiles[transID]` becomes the sampled count minus the added tasks' files, and Active is requested iff Flush and all were added. |
| TransformationAgent.Agent.PluginCallback | TransformationSystem/Agent/TransformationAgent.py:229-243 | Invalidation removes exactly the given transformation. Otherwise the cache is unchanged. |
| TransformationAgent.Agent.CleanCache | TransformationSystem/Agent/TransformationAgent.py:387-407 | The cache becomes `Cleaned` with the limit `now` minus 2 days. |
| TransformationAgent.Agent.LookUp | TransformationSystem/Agent/TransformationAgent.py:315-324 | The hits are exactly the requested LFNs some snapshot of the transformation holds, each with that snapshot's replicas. The cache becomes the compaction of that transformation alone. |
| TransformationAgent.Agent.GetDataReplicas | TransformationSystem/Agent/TransformationAgent.py:309-346 | The answer is every cache hit plus, when the catalog was asked and answered usefully, the new batch, which wins over a hit. Every other entry comes from a snapshot. The catalog is asked only about the misses, and the `MissingLFC` call is issued only for missing LFNs. The new cache is `ResolvedCache`: compacted, the batch stored at `now`, cleaned. |
| ReplicaCache.CollectHits | TransformationSystem/Agent/TransformationAgent.py:320-321 | One snapshot copies exactly the requested LFNs it holds into the answer, replacing earlier copies and keeping everything else. |
| ReplicaCache.CompactSnapshot | TransformationSystem/Agent/TransformationAgent.py:323-324 | A compacted snapshot keeps exactly its requested LFNs, with their values unchanged. |
| ReplicaCache.ScanSnapshots | TransformationSystem/Agent/TransformationAgent.py:315-324 | The hits are exactly the requested LFNs held by some snapshot, each with the value of one such snapshot. Every snapshot is compacted. |
| ReplicaCache.Compact | TransformationSystem/Agent/TransformationAgent.py:318-324 | Compaction keeps the transformation IDs and the snapshot times, and leaves other transformations untouched. |
| ReplicaCache.CompactRetainsOnlyRequested | TransformationSystem/Agent/TransformationAgent.py:318-324 | After the scan no snapshot holds an unrequested LFN, every requested LFN a snapshot held is still there with its value, and other transformations are untouched. |
| ReplicaCache.Unresolved | TransformationSystem/Agent/TransformationAgent.py:332 | `newLFNs` holds exactly the requested LFNs that are not hits, and is never longer than the request. |
| ReplicaCache.UnresolvedEmpty | TransformationSystem/Agent/TransformationAgent.py:332-333 | The catalog is skipped exactly when every requested LFN was a hit. |
| ReplicaCache.UsableReplicas | TransformationSystem/Agent/TransformationAgent.py:362-371 | Every kept replica is one the catalog reported, with its PFN, and is not a failover SE when the lookup is active. An LFN is kept iff it keeps a replica. |
| ReplicaCache.UsableReplicasComplete | TransformationSystem/Agent/TransformationAgent.py:363-371 | Every non-failover replica is kept (every replica, for an inactive lookup). |
| ReplicaCache.FailoverOnlyDropped | TransformationSystem/Agent/TransformationAgent.py:363-371 | An LFN with only failover replicas gets no entry in an active lookup. An inactive lookup keeps each LFN with a replica, unchanged. |
| ReplicaCache.CatalogOutcome | TransformationSystem/Agent/TransformationAgent.py:357-385 | A catalog error is passed on. An empty result gives "No replicas obtained". Otherwise the result is the filtered, non-empty replica map. |
| ReplicaCache.FilterCatalogReply | TransformationSystem/Agent/TransformationAgent.py:349-385 | The loops compute `CatalogOutcome`. The single `MissingLFC` call lists exactly the failed LFNs whose reason contains "No such file or directory". |
| ReplicaCache.Insert | TransformationSystem/Agent/TransformationAgent.py:340 | The batch becomes the snapshot at the given time, and every other snapshot and transformation is unchanged. |
| ReplicaCache.DropStale | TransformationSystem/Agent/TransformationAgent.py:394-399 | The inner loop keeps exactly the snapshots that are fresh and non-empty. |
| ReplicaCache.Cleaned | TransformationSystem/Agent/TransformationAgent.py:387-407 | After cleaning every transformation has a snapshot, and every snapshot is non-empty, within the limit, and unchanged from before. |
| ReplicaCache.DropStaleCache | TransformationSystem/Agent/TransformationAgent.py:393-402 | The loops compute `Cleaned`. |
| ReplicaCache.CleanedKeepsFresh | TransformationSystem/Agent/TransformationAgent.py:394-399 | A fresh non-empty snapshot survives cleaning unchanged. |
| ReplicaCache.CleanedIdempotent | TransformationSystem/Agent/TransformationAgent.py:387-407 | Cleaning twice equals cleaning once. |
| LfnSelection.CompareLFNLists | DataManagementSystem/Client/ConsistencyInspector.py:170-183 | With an empty second list, nothing is present and the first list is returned unchanged. Otherwise `present` holds exactly the LFNs in both lists and `notPresent` those only in the first, both without repeats. |
| LfnSelection.PickSpec | DataManagementSystem/Client/ConsistencyInspector.py:179-181 | The picked list is duplicate-free and holds exactly the members of the input that match the test. |
| LfnSelection.EffectiveTypes | DataManagementSystem/Client/ConsistencyInspector.py:289-296 | The argument is used when given, the inspector's list otherwise, and `['']` becomes no filter. |
| LfnSelection.NotIn | DataManagementSystem/Client/ConsistencyInspector.py:293 | Exactly the inspector's excluded types missing from the argument. |
| LfnSelection.EffectiveExcluded | DataManagementSystem/Client/ConsistencyInspector.py:291-293 | With no argument the inspector's list is used. Otherwise the argument is extended at its end, and the result's members are those of the argument and of the inspector's list. |
| LfnSelection.SelectionSurvivors | DataManagementSystem/Client/ConsistencyInspector.py:297-306 | A descendant survives iff its type is not excluded and is listed or unfiltered, with its metadata. Surviving ancestors are non-empty. |
| LfnSelection.SelectionIdempotent | DataManagementSystem/Client/ConsistencyInspector.py:284-307 | Selecting again with the same filter changes nothing. |
| LfnSelection.NoFilterKeepsAll | DataManagementSystem/Client/ConsistencyInspector.py:297-306 | With no filter only empty ancestors are dropped. |
| LfnSelection.DropUnwanted | DataManagementSystem/Client/ConsistencyInspector.py:299-303 | The inner loop pops exactly the unwanted descendants. |
| LfnSelection.SelectDescendants | DataManagementSystem/Client/ConsistencyInspector.py:295-307 | The copy holds the non-empty filtered ancestors. The caller's dictionary keeps every ancestor, with its inner dictionaries filtered (the copy is shallow). |
| LfnSelection.SumOfCounts | DataManagementSystem/Client/ConsistencyInspector.py:313-318 | The per-type counts of a set of descendants add up to its size. |
| LfnSelection.SumCountByType | DataManagementSystem/Client/ConsistencyInspector.py:313-319 | Each ancestor's per-type counts sum to its number of descendants. |
| LfnSelection.CountOfPositive | DataManagementSystem/Client/ConsistencyInspector.py:316-317 | A type appears in the counts exactly when some descendant has it. |
| LfnSelection.CountTypes | DataManagementSystem/Client/ConsistencyInspector.py:314-318 | The `setdefault(ft, 0) + 1` loop computes exactly the per-type count. |
| LfnSelection.GetFileTypesCount | DataManagementSystem/Client/ConsistencyInspector.py:310-321 | The outer keys are exactly the ancestors, each mapped to its per-type count. |
| PyStrings.NormaliseLFN | DataManagementSystem/Client/ConsistencyInspector.py:500 | The result has no space and is never longer than the input. It equals the input iff the input has neither a space nor a `//`. |
| PyStrings.RemoveSpacesSpec | DataManagementSystem/Client/ConsistencyInspector.py:500 | `replace(' ', '')` drops every space and keeps every other character. |
| PyStrings.CollapseDoubleSlashSpec | DataManagementSystem/Client/ConsistencyInspector.py:500 | `replace('//', '/')` never grows the string, never touches spaces, and changes it iff it holds `//`. |
| PyStrings.UpperIdempotent | DataManagementSystem/Client/ConsistencyInspector.py:480 | Upper-casing twice equals upper-casing once. |
| PyStrings.UpperShape | DataManagementSystem/Client/ConsistencyInspector.py:480 | Upper-casing keeps the length, maps character by character, and leaves no lower-case ASCII letter. |
| ConsistencyInspector.NormalisedLfns | DataManagementSystem/Client/ConsistencyInspector.py:496-501 | A single string becomes a one-element list and a list keeps its length. Every element is normalised, has no space, and is unchanged iff it had neither a space nor a `//`. |
| ConsistencyInspector.UpperAllSpec | DataManagementSystem/Client/ConsistencyInspector.py:478-489 | The setters upper-case the list element by element, keeping its length (`UpperAll`). Setting the types twice equals setting them once, and no setting holds a lower-case ASCII letter. |
| ConsistencyInspector.CheckFC2SEAlwaysRaises | DataManagementSystem/Client/ConsistencyInspector.py:92-97 | As written `checkFC2SE` raises `KeyError('MissingReplica')` on every call, success or failure, because it subscripts the `S_OK`/`S_ERROR` dictionary. The report is under `Value`, which exactly a success has. |
| ConsistencyInspector.Inspector.constructor | DataManagementSystem/Client/ConsistencyInspector.py:45-73 | Settings, cache and result dictionaries start empty. |
| ConsistencyInspector.Inspector.SetLfns | DataManagementSystem/Client/ConsistencyInspector.py:496-501 | `lfns` becomes the normalised list and nothing else changes. |
| ConsistencyInspector.Inspector.SetFileType | DataManagementSystem/Client/ConsistencyInspector.py:478-480 | `fileType` becomes the upper-cased list and nothing else changes. |
| ConsistencyInspector.Inspector.SetFileTypesExcluded | DataManagementSystem/Client/ConsistencyInspector.py:487-489 | `fileTypesExcluded` becomes the upper-cased list and nothing else changes. |
| ConsistencyInspector.Inspector.CacheReplicas | DataManagementSystem/Client/ConsistencyInspector.py:118 | `cachedReplicas.update(successful)`, and nothing else changes. |
| ConsistencyInspector.Inspector.SelectByFileType | DataManagementSystem/Client/ConsistencyInspector.py:284-307 | An empty dictionary gives `{}` and changes nothing. Otherwise the selection with the effective filters is returned, along with the caller's dictionary filtered in place and the caller's exclusion list extended when it was non-empty. |
| ConsistencyInspector.Inspector.CompareChecksum | DataManagementSystem/Client/ConsistencyInspector.py:335-452 | The result is `ChecksumOutcome` on the inspector's cache. |
| ConsistencyInspector.Inspector.CheckFC2SE | DataManagementSystem/Client/ConsistencyInspector.py:92-97 | On success the four result dictionaries become the comparison's MissingReplica, MissingAllReplicas, SomeReplicasCorrupted and AllReplicasCorrupted. On failure they are unchanged and the error is returned. |
| ConsistencyInspector.CachedNotRefetched | DataManagementSystem/Client/ConsistencyInspector.py:345-360 | When every LFN is cached, the catalog's answer makes no difference and NoReplicas is empty. |
| ChecksumCheck.CopyCached | DataManagementSystem/Client/ConsistencyInspector.py:345-349 | The cached LFNs are copied from the cache. The LFNs left are exactly the requested ones not cached, disjoint from the copied ones, and together they are the request. |
| ChecksumCheck.FetchReplicas | DataManagementSystem/Client/ConsistencyInspector.py:345-361 | The catalog is asked only about the uncached LFNs, and only if there are any. Its error stops the check with "error:  …". Its failures become NoReplicas and its successes are merged over the cached entries. |
| ChecksumCheck.CheckReplicas | DataManagementSystem/Client/ConsistencyInspector.py:372-452 | The reversal, the storage loop and the verdict loop compute `ReportFor`. |
| ChecksumCheck.StorageViewSpec | DataManagementSystem/Client/ConsistencyInspector.py:389-409 | An LFN is recorded missing at an SE iff that SE answered and listed it as failed. It is recorded without information iff the SE's answer failed and the LFN was in its list. It has a checksum there iff the SE reported one, with that value. |
| ChecksumCheck.ViewStep | DataManagementSystem/Client/ConsistencyInspector.py:402-407 | Recording one more SE's answer adds exactly that SE's entries. |
| ChecksumCheck.CollectStorage | DataManagementSystem/Client/ConsistencyInspector.py:389-409 | The SEs are visited in ascending order, each once, and the records are those of `StorageViewSpec`. |
| ChecksumCheck.ClassifyReplicas | DataManagementSystem/Client/ConsistencyInspector.py:414-438 | `oneGoodReplica` holds iff some replica is good, and `allGoodReplicas` iff every one is. A replica is good when it has no information or a matching checksum. The mismatches are recorded with their storage checksum. |
| ChecksumCheck.AllMatchHealthy | DataManagementSystem/Client/ConsistencyInspector.py:414-452 | An LFN with replicas that all exist and match lands in no bucket. |
| ChecksumCheck.NoGoodReplica | DataManagementSystem/Client/ConsistencyInspector.py:439-445 | With no good replica (an empty replica map included) the LFN goes to MissingAllReplicas if it is recorded missing somewhere, and otherwise to AllReplicasCorrupted with its mismatches. |
| ChecksumCheck.NoInfoCountsAsGood | DataManagementSystem/Client/ConsistencyInspector.py:425-428 | A replica without information keeps the LFN out of MissingAllReplicas and AllReplicasCorrupted. |
| ChecksumCheck.BadReplicaNotHealthy | DataManagementSystem/Client/ConsistencyInspector.py:409-442 | A missing or mismatching replica always puts the LFN in a bucket. |
| ChecksumCheck.ReportExclusive | DataManagementSystem/Client/ConsistencyInspector.py:439-452 | Each LFN lands in at most one of the four buckets, and exactly the LFNs that are not healthy land in one. |
| ChecksumCheck.ReportAdd | DataManagementSystem/Client/ConsistencyInspector.py:439-452 | One more verdict adds the LFN to exactly its bucket. |
| ChecksumCheck.BuildReport | DataManagementSystem/Client/ConsistencyInspector.py:413-452 | The verdict loop puts every LFN in the bucket its verdict names. |
| SeGrouping.GroupingSpec | DataManagementSystem/Client/ConsistencyInspector.py:566-571 | An LFN is listed under an SE iff it has a replica there and the SE passes the `ses` filter. Listed SEs are non-empty. |
| SeGrouping.GroupBySE | DataManagementSystem/Client/ConsistencyInspector.py:376-381 | The loop builds exactly that grouping, and `nReps` is the sum of the per-LFN replica counts. |
| SeGrouping.CountsWithoutFilter | DataManagementSystem/Client/ConsistencyInspector.py:376-381 | Without a filter each LFN counts its replicas, so `nReps` is the total replica count. |
| SeGrouping.AddReplicasOf | DataManagementSystem/Client/ConsistencyInspector.py:378-381 | One LFN is appended to the list of each of its selected SEs, and no other list changes. |
| StringOrder.SortedNames | DataManagementSystem/Client/ConsistencyInspector.py:389 | `sorted()`: the names are listed in strictly ascending Python string order, each exactly once. |
| StringOrder.SortedUnique | DataManagementSystem/Client/ConsistencyInspector.py:389 | Two strictly ascending lists with the same members are equal, so the order is `sorted()`'s. |
| StringOrder.InsertSortedSpec | DataManagementSystem/Client/ConsistencyInspector.py:574 | Insertion keeps the order and adds exactly the one name. |
| StringOrder.StrLessTransitive | DataManagementSystem/Client/ConsistencyInspector.py:574 | Python string `<` is transitive; `StrLessIrreflexive` and `StrLessTotal` make it a strict total order. |
| StorageCheck.CheckPhysicalFileMetadata | DataManagementSystem/Client/ConsistencyInspector.py:592-629 | An SE error is passed on with no report. Otherwise PFNMissing, PFNLost, PFNUnavailable and PFNZeroSize are reported in that order, each only if non-empty, and the successful metadata is returned unchanged. |
| StorageCheck.MetadataReportsSpec | DataManagementSystem/Client/ConsistencyInspector.py:605-629 | A file is listed under a problem iff that problem's rule holds for it: the reason contains "File does not exist", Lost, Unavailable, or size 0. |
| StorageCheck.SeveralProblems | DataManagementSystem/Client/ConsistencyInspector.py:617-623 | One replica can be lost, unavailable and empty at once, and is then listed three times. |
| StorageCheck.SizeMismatches | DataManagementSystem/Client/ConsistencyInspector.py:584-587 | Exactly the catalogued files whose storage size differs from the catalog's, by any amount. |
| StorageCheck.CheckPhysicalFiles | DataManagementSystem/Client/ConsistencyInspector.py:557-590 | The LFNs are grouped per SE, restricted to `ses` when it is given, the SEs are visited in sorted order, and the results are as `PhysicalScan` states. |
| StorageCheck.ScanSEs | DataManagementSystem/Client/ConsistencyInspector.py:574-590 | The loop over the sorted SEs computes `PhysicalScan`. |
| StorageCheck.PhysicalScanOk | DataManagementSystem/Client/ConsistencyInspector.py:579-590 | The check succeeds exactly when every SE answers. |
| StorageCheck.PhysicalScanFirstError | DataManagementSystem/Client/ConsistencyInspector.py:579-581 | A failed check carries the error of the first SE that did not answer. |
| StorageCheck.VisitSE | DataManagementSystem/Client/ConsistencyInspector.py:578-586 | For one SE: its metadata reports, then its size mismatches, or nothing when it fails. |
| StorageCheck.CheckCatalogForSEFiles | DataManagementSystem/Client/ConsistencyInspector.py:653-693 | The result equals `CatalogCheck`: a catalog error is passed on; not-registered LFNs are reported; any other failure stops with "Failed to obtain replicas"; an empty storage list gives empty metadata; a size mismatch needs a non-zero storage size. |
| StorageCheck.CatalogCheckAccounts | DataManagementSystem/Client/ConsistencyInspector.py:665-674 | After a successful check every storage file is either registered at the SE or reported LFNNotRegistered. |
| StorageCheck.NotRegisteredSpec | DataManagementSystem/Client/ConsistencyInspector.py:665-671 | Once the catalog answers, a storage file is listed LFNNotRegistered iff the catalog has no such file or lists it without a replica at the SE. |
| StorageCheck.SizeRulesDiffer | DataManagementSystem/Client/ConsistencyInspector.py:586 | A file empty on storage but of size 5 in the catalog is a mismatch for the catalog→storage check (line 586) and not for the storage→catalog check (line 687). |
| StorageCheck.ReportIf | DataManagementSystem/Client/ConsistencyInspector.py:610-629 | A problem is reported only when its list is non-empty. |

## Left out

- Threads, locks and the blocking queue are left out. The model is the single-threaded effect on the cache, `transInQueue` and the queue. `_execute`'s endless loop is modelled one pass at a time (`ExecuteNext`), and `finalize`'s wait is not modelled.
- TransformationAgent.Agent.ExecuteNext requires a non-empty queue. The worker's `transQueue.get()` blocks until one arrives, so the blocking wait is not modelled.
- Reading and writing `ReplicaCache.pkl` is left out. A successful write leaves disk equal to memory, so `pluginCallback`'s re-read and the writes in `__cleanCache`/`pluginCallback` are no-ops.
- The remote clients are left out. Their answers are inputs, and the requests made are returned as `Call` and `Report` values.
- Service answers are assumed not to change within one call. `compareChecksum` asks each SE once per list.
- The dynamic plugin import, the plugin object and `generateTasks` are left out. The plugin's outcome is the input `generated`.
- `random.uniform` is left out; the offset is an input with its range as a precondition.
- Clocks are left out. Time is integer seconds, and one `now` serves a whole call.
- ReplicaCache.Insert keys a snapshot by integer seconds. A second batch stored for the same transformation in the same second replaces the first. The source keys snapshots by `datetime.utcnow()`, with microseconds, so it keeps both.
- Logging, `__write` and the verbose formatting are left out.
- Directory traversals, the retry loop of `getReplicasPresence` and `_getTSFiles` are left out. Only the cache update of `getReplicasPresence` is modelled (`CacheReplicas`).
- `errno` codes in `S_ERROR` are left out.
- `PyCalls.WrapperKeys` gives the `S_OK`/`S_ERROR` dictionary only the keys this code reads (`OK`, with `Value` or `Message`), because DIRAC's `ReturnValues` module is not part of this model. `PyCalls.BindArgs` covers positional and keyword arguments only, not `*args`/`**kwargs`.
- ChecksumCheck.FetchReplicas: the catalog is asked in one call, not in chunks of 100. With chunks, a failing chunk stops the check after earlier chunks were merged, and that difference is not captured.
- ChecksumCheck.CollectStorage: each SE is asked about its whole list at once, not in chunks of 100. A failed chunk in the source marks the SE's whole list as without information even when other chunks answered, and that mixed case is not captured.
- ChecksumCheck.MetadataOf: the catalog metadata is asked in one call, not in chunks of 100. Any failing chunk stops the check with an error either way, so the outcome differs only in which message is returned when several chunks would fail.
- ChecksumCheck.BadReplicas: `csDict[lfn][se] = {'PFNChecksum': surl}` is modelled as the map SE → `surl`.
- SeGrouping.GroupBySE: `nReps` grows by the number of an LFN's selected SEs once per LFN, instead of by one per (LFN, SE) pair. The total is the same.
- Report lists such as `missingReplicas` and `sizeMismatch` are sets of LFNs, because their order follows dictionary iteration. The tuple's `'deprecatedUrl'` field is constant and is not modelled.
- StorageCheck.CheckCatalogForSEFiles requires the catalog to answer for every file it is asked about and to return metadata only for those files. Otherwise the source's dictionary lookups raise `KeyError`, and that crash is not modelled.
- `Lower` and `Upper` map ASCII letters only; non-ASCII case mapping is not modelled.
- `processTransformation`'s check of `__getDataReplicas`'s result is always satisfied, because the call always returns `S_OK`.

## Source defects

These were found by reading the code. For each one the model has both the code
as written and its evident intent. Where the code raises, the raising member is
stated with the Python call rules of `PyCalls`: argument binding, dictionary
subscripts and iteration. The rest of the model uses the intended behaviour.

- `TransformationAgent.py:285`: the slice keeps `maxFiles - 1` LFNs, so a list of exactly `maxFiles` loses its last LFN. The guard at lines 281-282 gives such a list `firstFile = 0`, which means it is to be used whole. As written: `ApplyReduction`, which the agent uses. Intended: `ApplyReductionIntended`. `ReductionDropsLastAtLimit` proves that the two differ exactly when the list holds `maxFiles` LFNs, and then only by the last LFN.
- `TransformationAgent.py:144` calls `_getTransformationFiles()` without the descriptor its signature requires (line 245). As written: `ProcessAsWritten` and `ProcessAlwaysRaises`, where every pass raises `TypeError` before the registry is asked. Intended: the call with the descriptor, which `ProcessTransformation` makes.
- `TransformationAgent.py:336` passes `self` to the bound method `__getDataReplicasRM`, so `active` is given twice. As written: `ReplicasCallAsWritten` and `ReplicasCallRaises`, where the call raises `TypeError` exactly when some requested LFN missed the cache. Intended: the call with `self` once, which `GetDataReplicas` makes.
- `TransformationAgent.py:269` and `:274` return `S_OK()`, whose value is `None`, and lines 148-149 then iterate it. As written: `LfnsAsWritten` and `BareOkRaises`, where the pass raises `TypeError` exactly at the two stops. Intended: "stop, nothing to do" (`NothingToDo`).
- `ConsistencyInspector.py:93-97` subscript the `S_OK`/`S_ERROR` dictionary itself with the result keys rather than its `Value`. As written: `CheckFC2SEAsWritten` and `CheckFC2SEAlwaysRaises`, where every call raises `KeyError`, so the results are never set. Intended: `Inspector.CheckFC2SE`, which reads the value and leaves the results unchanged on failure.
- `ConsistencyInspector.py:843` returns `S_OK({})` for an empty request, where the callers unpack a triple.
  - This raises `ValueError` only through `catalogFileToSE([])` at line 546, which is not part of this model.
  - At line 683 the empty case cannot arise, because the only caller (line 650) is guarded by line 649.
  - `CatalogCheck`'s empty-storage branch therefore covers a path the source never takes. It gives empty catalog metadata.
- `TransformationAgent.py:100` uses `self.transDB`, which is never assigned. `getTransformations` is not part of this model; `Execute` takes its reply as input.
- `TransformationAgent.py:306-307` are unreachable, because both branches above them return. They are not modelled.
