/** The per-transformation steps of `processTransformation` that only compute:
    the "nothing new" decision on the Unused files, the sampling window, and the
    bookkeeping of the task-submission loop. */
module TaskPipeline {
  import opened Wrappers
  import opened PyStrings
  import opened Catalog
  import opened PyCalls

  /** The fields of a transformation descriptor the agent reads. */
  datatype TransDict = TransDict(transID: int, transType: string, status: string, plugin: Option<string>)

  /** A file record of the transformation; only the LFN is used here. */
  datatype TransFile = TransFile(lfn: LFN)

  /** A task produced by the plugin: a target SE and its LFNs. */
  datatype Task = Task(se: SE, lfns: seq<LFN>)

  const Flush: string := "Flush"
  const Active: string := "Active"

  /** `transDict['Type'].lower() in ['replication', 'removal']` */
  predicate ReplicateOrRemove(t: TransDict) {
    Lower(t.transType) == "replication" || Lower(t.transType) == "removal"
  }

  /** The plugin named by the descriptor, `Standard` when absent or empty. */
  function PluginName(t: TransDict): (name: string)
    ensures name != ""
    ensures t.plugin.Some? && t.plugin.value != "" ==> name == t.plugin.value
    ensures t.plugin.None? || t.plugin.value == "" ==> name == "Standard"
  {
    if t.plugin.Some? && t.plugin.value != "" then t.plugin.value else "Standard"
  }

  function LFNsOf(files: seq<TransFile>): (r: seq<LFN>)
    ensures |r| == |files|
    ensures forall i :: 0 <= i < |files| ==> r[i] == files[i].lfn
  {
    seq(|files|, i requires 0 <= i < |files| => files[i].lfn)
  }

  // ---------------------------------------------------------------------------
  // `_getTransformationFiles`

  /** What `_getTransformationFiles` leads `processTransformation` to do. */
  datatype FilesStep =
    | FilesFailed(message: string)
    | NothingToDo(setActive: bool)
    | Proceed(files: seq<TransFile>)

  /** `self.unusedFiles.get(transID, 0)` */
  function LastUnused(unusedFiles: map<int, int>, transID: int): int {
    if transID in unusedFiles then unusedFiles[transID] else 0
  }

  /** The registry's answer to the request for Unused files, and the decision
      drawn from it: stop when there are none (asking for Active when the status
      was Flush), stop when their number equals the one recorded last cycle and
      the status is not Flush, and otherwise go on with them. */
  function SelectUnusedFiles(t: TransDict, reply: Result<seq<TransFile>>, unusedFiles: map<int, int>)
    : (o: FilesStep)
    ensures o.FilesFailed? <==> reply.Failure?
    ensures o.FilesFailed? ==> o.message == reply.error
    ensures o.NothingToDo? <==> (reply.Success? &&
      (reply.value == [] || (|reply.value| == LastUnused(unusedFiles, t.transID) && t.status != Flush)))
    ensures o.NothingToDo? ==> (o.setActive <==> reply.value == [] && t.status == Flush)
    ensures o.Proceed? ==> reply.Success? && o.files == reply.value && o.files != []
  {
    match reply
    case Failure(m) => FilesFailed(m)
    case Success(files) =>
      if files == [] then NothingToDo(t.status == Flush)
      else if |files| == LastUnused(unusedFiles, t.transID) && t.status != Flush then NothingToDo(false)
      else Proceed(files)
  }

  /** Lines 148-149 as written, after the check at 145-146: the stops at 269 and
      274 return `S_OK()`, whose value `None` the comprehension then iterates. */
  function LfnsAsWritten(o: FilesStep): (r: Raising<Result<seq<LFN>>>)
    ensures o.FilesFailed? ==> r == Returns(Failure(o.message))
    ensures o.Proceed? ==> r == Returns(Success(LFNsOf(o.files)))
  {
    match o
    case FilesFailed(m) => Returns(Failure(m))
    case NothingToDo(_) =>
      var items := Iterate<TransFile>(None);
      Raises(items.error)
    case Proceed(files) => Returns(Success(LFNsOf(files)))
  }

  /** As written, the pass raises `TypeError` exactly where the evident intent
      is to stop with nothing to do: no Unused files, or none new and no Flush. */
  lemma BareOkRaises(t: TransDict, reply: Result<seq<TransFile>>, unusedFiles: map<int, int>)
    ensures LfnsAsWritten(SelectUnusedFiles(t, reply, unusedFiles)).Raises? <==>
      reply.Success? &&
      (reply.value == [] || (|reply.value| == LastUnused(unusedFiles, t.transID) && t.status != Flush))
    ensures LfnsAsWritten(SelectUnusedFiles(t, reply, unusedFiles)).Raises? ==>
      LfnsAsWritten(SelectUnusedFiles(t, reply, unusedFiles)).error.TypeError?
  {
  }

  // ---------------------------------------------------------------------------
  // `__applyReduction`

  /** A Python index used as a slice bound on a sequence of length n. */
  function PyIndex(n: nat, k: int): (r: nat)
    ensures r <= n
  {
    if k < 0 then (if n + k < 0 then 0 else n + k) else if k > n then n else k
  }

  /** `s[i:j]` with Python's clamping and negative bounds. */
  function PySlice<T>(s: seq<T>, i: int, j: int): seq<T> {
    var a, b := PyIndex(|s|, i), PyIndex(|s|, j);
    if a < b then s[a..b] else []
  }

  function Min(a: int, b: int): int {
    if a <= b then a else b
  }

  /** The sample of a replication or removal transformation's LFNs; `offset` is
      `int(random.uniform(0, len(lfns) - maxFiles))`, used only when the list is
      longer than `maxFiles`. The window is `maxFiles - 1` long. */
  function ApplyReduction(lfns: seq<LFN>, maxFiles: int, offset: int): (r: seq<LFN>)
    requires |lfns| > maxFiles ==> 0 <= offset <= |lfns| - maxFiles
    ensures maxFiles >= 1 ==> |r| == Min(|lfns|, maxFiles - 1)
    ensures maxFiles >= 1 && |lfns| < maxFiles ==> r == lfns
    ensures maxFiles >= 1 && |lfns| == maxFiles ==> r == lfns[..|lfns| - 1]
    ensures maxFiles >= 1 && |lfns| > maxFiles ==>
      r == lfns[offset..offset + maxFiles - 1] && offset + |r| < |lfns|
  {
    var first := if |lfns| <= maxFiles then 0 else offset;
    PySlice(lfns, first, first + maxFiles - 1)
  }

  /** The sample lines 281-282 mean: a list of at most `maxFiles` LFNs starts
      at 0 and is used whole; a longer one is cut to the window of
      `maxFiles - 1`. */
  function ApplyReductionIntended(lfns: seq<LFN>, maxFiles: int, offset: int): (r: seq<LFN>)
    requires |lfns| > maxFiles ==> 0 <= offset <= |lfns| - maxFiles
    ensures |lfns| <= maxFiles ==> r == lfns
    ensures maxFiles >= 1 && |lfns| > maxFiles ==>
      |r| == maxFiles - 1 && r == lfns[offset..offset + maxFiles - 1]
  {
    if |lfns| <= maxFiles then lfns else PySlice(lfns, offset, offset + maxFiles - 1)
  }

  /** The slice at line 285 departs from the sampling lines 281-282 mean exactly when the
      list holds `maxFiles` LFNs: the last one is then dropped. */
  lemma ReductionDropsLastAtLimit(lfns: seq<LFN>, maxFiles: int, offset: int)
    requires maxFiles >= 1
    requires |lfns| > maxFiles ==> 0 <= offset <= |lfns| - maxFiles
    ensures ApplyReduction(lfns, maxFiles, offset) != ApplyReductionIntended(lfns, maxFiles, offset)
      <==> |lfns| == maxFiles
    ensures |lfns| == maxFiles ==>
      ApplyReduction(lfns, maxFiles, offset) + [lfns[|lfns| - 1]] == ApplyReductionIntended(lfns, maxFiles, offset)
  {
  }

  // ---------------------------------------------------------------------------
  // The submission loop

  /** The number of successful submissions. */
  function CountTrue(results: seq<bool>): nat {
    if results == [] then 0
    else CountTrue(results[..|results| - 1]) + (if results[|results| - 1] then 1 else 0)
  }

  /** The number of LFNs in the tasks that were submitted successfully. */
  function SubmittedFiles(tasks: seq<Task>, results: seq<bool>): nat
    requires |tasks| == |results|
  {
    if tasks == [] then 0
    else SubmittedFiles(tasks[..|tasks| - 1], results[..|results| - 1]) +
         (if results[|results| - 1] then |tasks[|tasks| - 1].lfns| else 0)
  }

  function TotalFiles(tasks: seq<Task>): nat {
    if tasks == [] then 0 else TotalFiles(tasks[..|tasks| - 1]) + |tasks[|tasks| - 1].lfns|
  }

  /** The loop over the plugin's tasks; `results[i]` is the answer of
      `addTaskForTransformation` for `tasks[i]`. It returns `created`,
      `allCreated` and the new `unusedFiles[transID]`. */
  method SubmitTasks(tasks: seq<Task>, results: seq<bool>, unused: int)
    returns (created: nat, allCreated: bool, remaining: int)
    requires |results| == |tasks|
    ensures created == CountTrue(results)
    ensures allCreated <==> forall i :: 0 <= i < |results| ==> results[i]
    ensures remaining == unused - SubmittedFiles(tasks, results)
  {
    allCreated := true;
    created := 0;
    remaining := unused;
    var i := 0;
    while i < |tasks|
      invariant 0 <= i <= |tasks|
      invariant created == CountTrue(results[..i])
      invariant allCreated <==> forall k :: 0 <= k < i ==> results[k]
      invariant remaining == unused - SubmittedFiles(tasks[..i], results[..i])
    {
      assert results[..i + 1][..i] == results[..i];
      assert tasks[..i + 1][..i] == tasks[..i];
      if !results[i] {
        allCreated := false;
      } else {
        created := created + 1;
        remaining := remaining - |tasks[i].lfns|;
      }
      i := i + 1;
    }
    assert results[..i] == results;
    assert tasks[..i] == tasks;
  }

  /** `allCreated` holds exactly when every task was created, and then the
      counter equals the number of tasks; zero tasks count as all created. */
  lemma {:induction false} CountTrueAll(results: seq<bool>)
    ensures CountTrue(results) <= |results|
    ensures CountTrue(results) == |results| <==> forall i :: 0 <= i < |results| ==> results[i]
  {
    if results != [] {
      var init := results[..|results| - 1];
      CountTrueAll(init);
      if forall i :: 0 <= i < |results| ==> results[i] {
        assert forall i :: 0 <= i < |init| ==> init[i];
      }
      if CountTrue(results) == |results| {
        assert CountTrue(init) == |init| && results[|results| - 1];
        forall i | 0 <= i < |results| ensures results[i] {
          if i < |init| { assert init[i] == results[i]; }
        }
      }
    }
  }

  /** The files taken off the unused count are those of the created tasks: never
      more than the plugin handed out, and all of them when every task was created. */
  lemma {:induction false} SubmittedFilesBounds(tasks: seq<Task>, results: seq<bool>)
    requires |tasks| == |results|
    ensures SubmittedFiles(tasks, results) <= TotalFiles(tasks)
    ensures (forall i :: 0 <= i < |results| ==> results[i]) ==> SubmittedFiles(tasks, results) == TotalFiles(tasks)
    ensures (forall i :: 0 <= i < |results| ==> !results[i]) ==> SubmittedFiles(tasks, results) == 0
  {
    if tasks != [] {
      var n := |tasks|;
      SubmittedFilesBounds(tasks[..n - 1], results[..n - 1]);
      assert forall i :: 0 <= i < n - 1 ==> results[..n - 1][i] == results[i];
    }
  }
}
