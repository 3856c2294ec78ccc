/** The catalog-to-storage check (`checkPhysicalFiles` and
    `__checkPhysicalFileMetadata`) and the storage-to-catalog check
    (`__checkCatalogForSEFiles`). Each `reportProblematicReplicas` call is
    returned as a `Report` instead of being sent to the integrity service. */
module StorageCheck {
  import opened Wrappers
  import opened Catalog
  import opened PyStrings
  import opened StringOrder
  import opened SeGrouping
  import opened Collections

  type StorageReply = Result<BulkReply<StorageFileMeta>>

  datatype Problem =
    | PFNMissing | PFNLost | PFNUnavailable | PFNZeroSize | CatalogPFNSizeMismatch | LFNNotRegistered

  /** One `reportProblematicReplicas(replicas, se, problem)` call, with the LFNs it lists. */
  datatype Report = Report(se: SE, problem: Problem, lfns: set<LFN>)

  const FileDoesNotExist: string := "File does not exist"
  const FailedToObtainReplicas: string := "Failed to obtain replicas"

  /** A report is sent only when its list is non-empty. */
  function ReportIf(se: SE, problem: Problem, lfns: set<LFN>): (r: seq<Report>)
    ensures lfns == {} <==> r == []
    ensures r != [] ==> r == [Report(se, problem, lfns)]
  {
    if lfns == {} then [] else [Report(se, problem, lfns)]
  }

  /** Whether `l` is listed under `problem` in some report. */
  predicate Listed(reports: seq<Report>, problem: Problem, l: LFN) {
    exists r :: r in reports && r.problem == problem && l in r.lfns
  }

  // ---------------------------------------------------------------------------
  // `__checkPhysicalFileMetadata`

  /** The per-file rule: which problems the answer of one SE shows for `l`. */
  predicate Shows(b: BulkReply<StorageFileMeta>, problem: Problem, l: LFN) {
    match problem
    case PFNMissing => l in b.failed && Contains(b.failed[l], FileDoesNotExist)
    case PFNLost => l in b.successful && b.successful[l].lost
    case PFNUnavailable => l in b.successful && b.successful[l].unavailable
    case PFNZeroSize => l in b.successful && b.successful[l].size == 0
    case _ => false
  }

  function ShowingAll(b: BulkReply<StorageFileMeta>, problem: Problem): set<LFN> {
    set l | l in b.failed.Keys + b.successful.Keys && Shows(b, problem, l)
  }

  /** The reports of one SE's answer, in the source's order. */
  function MetadataReports(se: SE, b: BulkReply<StorageFileMeta>): seq<Report> {
    ReportIf(se, PFNMissing, ShowingAll(b, PFNMissing)) + ReportIf(se, PFNLost, ShowingAll(b, PFNLost)) +
    ReportIf(se, PFNUnavailable, ShowingAll(b, PFNUnavailable)) + ReportIf(se, PFNZeroSize, ShowingAll(b, PFNZeroSize))
  }

  /** A file is reported under a problem exactly when the rule for that
      problem holds of it, and only for those four problems; every report is
      about this SE. */
  lemma MetadataReportsSpec(se: SE, b: BulkReply<StorageFileMeta>, problem: Problem, l: LFN)
    ensures Listed(MetadataReports(se, b), problem, l) <==> Shows(b, problem, l)
    ensures forall r :: r in MetadataReports(se, b) ==> r.se == se && r.lfns != {}
  {
    var reports := MetadataReports(se, b);
    forall r | r in reports
      ensures r.se == se && r.lfns == ShowingAll(b, r.problem) && r.lfns != {}
    {
    }
    if Shows(b, problem, l) {
      assert l in ShowingAll(b, problem);
      var r := Report(se, problem, ShowingAll(b, problem));
      assert r in reports;
    }
  }

  /** One replica can fall under several problems: a lost, unavailable,
      empty replica is listed three times. */
  lemma SeveralProblems()
    ensures var b := BulkReply(map["f" := StorageFileMeta(0, true, true, "")], map[]);
      Listed(MetadataReports("SE", b), PFNLost, "f") && Listed(MetadataReports("SE", b), PFNUnavailable, "f") &&
      Listed(MetadataReports("SE", b), PFNZeroSize, "f") && !Listed(MetadataReports("SE", b), PFNMissing, "f")
  {
    var b := BulkReply(map["f" := StorageFileMeta(0, true, true, "")], map[]);
    MetadataReportsSpec("SE", b, PFNLost, "f");
    MetadataReportsSpec("SE", b, PFNUnavailable, "f");
    MetadataReportsSpec("SE", b, PFNZeroSize, "f");
    MetadataReportsSpec("SE", b, PFNMissing, "f");
  }

  /** The metadata of `lfns` at `se`: an error is passed on with no report;
      otherwise the four problem lists are reported and the SE's successful
      metadata is returned as it came. */
  method CheckPhysicalFileMetadata(se: SE, answer: StorageReply)
    returns (res: Result<map<LFN, StorageFileMeta>>, reports: seq<Report>)
    ensures answer.Failure? ==> res == Failure(answer.error) && reports == []
    ensures answer.Success? ==> res == Success(answer.value.successful) && reports == MetadataReports(se, answer.value)
  {
    if answer.Failure? {
      return Failure(answer.error), [];
    }
    var b := answer.value;
    var missing: set<LFN> := {};
    var todo := b.failed.Keys;
    while todo != {}
      invariant todo <= b.failed.Keys
      invariant forall l :: l in missing <==> l in b.failed && l !in todo && Contains(b.failed[l], FileDoesNotExist)
      decreases todo
    {
      var lfn :| lfn in todo;
      if Contains(b.failed[lfn], FileDoesNotExist) {
        missing := missing + {lfn};
      }
      todo := todo - {lfn};
    }
    var lost, unavailable, zeroSize: set<LFN> := {}, {}, {};
    todo := b.successful.Keys;
    while todo != {}
      invariant todo <= b.successful.Keys
      invariant forall l :: l in lost <==> l in b.successful && l !in todo && b.successful[l].lost
      invariant forall l :: l in unavailable <==> l in b.successful && l !in todo && b.successful[l].unavailable
      invariant forall l :: l in zeroSize <==> l in b.successful && l !in todo && b.successful[l].size == 0
      decreases todo
    {
      var lfn :| lfn in todo;
      var meta := b.successful[lfn];
      if meta.lost {
        lost := lost + {lfn};
      }
      if meta.unavailable {
        unavailable := unavailable + {lfn};
      }
      if meta.size == 0 {
        zeroSize := zeroSize + {lfn};
      }
      todo := todo - {lfn};
    }
    assert missing == ShowingAll(b, PFNMissing);
    assert lost == ShowingAll(b, PFNLost);
    assert unavailable == ShowingAll(b, PFNUnavailable);
    assert zeroSize == ShowingAll(b, PFNZeroSize);
    reports := ReportIf(se, PFNMissing, missing) + ReportIf(se, PFNLost, lost) +
      ReportIf(se, PFNUnavailable, unavailable) + ReportIf(se, PFNZeroSize, zeroSize);
    res := Success(b.successful);
  }

  // ---------------------------------------------------------------------------
  // `checkPhysicalFiles`

  /** Catalog-to-storage size rule: any difference counts. */
  function PhysicalSizeMismatch(storage: map<LFN, StorageFileMeta>, catalog: map<LFN, CatalogFileMeta>): set<LFN> {
    set l | l in storage && l in catalog && storage[l].size != catalog[l].size
  }

  method SizeMismatches(storage: map<LFN, StorageFileMeta>, catalog: map<LFN, CatalogFileMeta>)
    returns (mismatch: set<LFN>)
    ensures mismatch == PhysicalSizeMismatch(storage, catalog)
  {
    mismatch := {};
    var todo := storage.Keys;
    while todo != {}
      invariant todo <= storage.Keys
      invariant forall l :: l in mismatch <==>
        l in storage && l !in todo && l in catalog && storage[l].size != catalog[l].size
      decreases todo
    {
      var lfn :| lfn in todo;
      if lfn in catalog && storage[lfn].size != catalog[lfn].size {
        mismatch := mismatch + {lfn};
      }
      todo := todo - {lfn};
    }
  }

  /** Everything reported for one SE that answered. */
  function SEReports(se: SE, b: BulkReply<StorageFileMeta>, catalog: map<LFN, CatalogFileMeta>): seq<Report> {
    MetadataReports(se, b) + ReportIf(se, CatalogPFNSizeMismatch, PhysicalSizeMismatch(b.successful, catalog))
  }

  /** The SEs visited in `order`: each one's reports, then its size
      mismatches; the first SE whose metadata cannot be obtained ends the
      check with its error, and the reports sent before it stay sent. */
  function PhysicalScan(order: seq<SE>, seLfns: map<SE, set<LFN>>, catalog: map<LFN, CatalogFileMeta>,
                        seReply: (SE, set<LFN>) -> StorageReply): (Status, seq<Report>)
    requires forall se :: se in order ==> se in seLfns
  {
    if order == [] then (Ok, [])
    else
      var se := order[0];
      var answer := seReply(se, seLfns[se]);
      if answer.Failure? then (Error(answer.error), [])
      else
        var rest := PhysicalScan(order[1..], seLfns, catalog, seReply);
        (rest.0, SEReports(se, answer.value, catalog) + rest.1)
  }

  /** The check succeeds exactly when every SE answers. */
  lemma {:induction false} PhysicalScanOk(order: seq<SE>, seLfns: map<SE, set<LFN>>,
                                          catalog: map<LFN, CatalogFileMeta>, seReply: (SE, set<LFN>) -> StorageReply)
    requires forall se :: se in order ==> se in seLfns
    ensures PhysicalScan(order, seLfns, catalog, seReply).0 == Ok <==>
      forall i :: 0 <= i < |order| ==> seReply(order[i], seLfns[order[i]]).Success?
  {
    if order != [] {
      var rest := order[1..];
      PhysicalScanOk(rest, seLfns, catalog, seReply);
      assert forall i :: 0 < i < |order| ==> order[i] == rest[i - 1];
    }
  }

  /** A failed check carries the error of the first SE that did not answer. */
  lemma {:induction false} PhysicalScanFirstError(order: seq<SE>, seLfns: map<SE, set<LFN>>,
                                                  catalog: map<LFN, CatalogFileMeta>, seReply: (SE, set<LFN>) -> StorageReply,
                                                  i: nat)
    requires forall se :: se in order ==> se in seLfns
    requires i < |order| && seReply(order[i], seLfns[order[i]]).Failure?
    requires forall k :: 0 <= k < i ==> seReply(order[k], seLfns[order[k]]).Success?
    ensures PhysicalScan(order, seLfns, catalog, seReply).0 == Error(seReply(order[i], seLfns[order[i]]).error)
  {
    if i > 0 {
      var rest := order[1..];
      assert seReply(order[0], seLfns[order[0]]).Success?;
      assert forall k :: 0 <= k < i - 1 ==> rest[k] == order[k + 1];
      PhysicalScanFirstError(rest, seLfns, catalog, seReply, i - 1);
    }
  }

  lemma ScanStep(order: seq<SE>, i: nat, seLfns: map<SE, set<LFN>>, catalog: map<LFN, CatalogFileMeta>,
                 seReply: (SE, set<LFN>) -> StorageReply)
    requires forall se :: se in order ==> se in seLfns
    requires i < |order|
    ensures var se := order[i];
      var a := seReply(se, seLfns[se]);
      var rest := PhysicalScan(order[i + 1..], seLfns, catalog, seReply);
      PhysicalScan(order[i..], seLfns, catalog, seReply) ==
        if a.Failure? then (Error(a.error), []) else (rest.0, SEReports(se, a.value, catalog) + rest.1)
  {
    assert order[i..][1..] == order[i + 1..];
  }

  /** The loop invariant of `ScanSEs` carried past one SE that answered. */
  lemma ScanAdvance(order: seq<SE>, i: nat, seLfns: map<SE, set<LFN>>, catalog: map<LFN, CatalogFileMeta>,
                    seReply: (SE, set<LFN>) -> StorageReply, reports: seq<Report>, spec: (Status, seq<Report>))
    requires forall se :: se in order ==> se in seLfns
    requires i < |order| && seReply(order[i], seLfns[order[i]]).Success?
    requires PhysicalScan(order[i..], seLfns, catalog, seReply).0 == spec.0
    requires reports + PhysicalScan(order[i..], seLfns, catalog, seReply).1 == spec.1
    ensures PhysicalScan(order[i + 1..], seLfns, catalog, seReply).0 == spec.0
    ensures (reports + SEReports(order[i], seReply(order[i], seLfns[order[i]]).value, catalog))
      + PhysicalScan(order[i + 1..], seLfns, catalog, seReply).1 == spec.1
  {
    ScanStep(order, i, seLfns, catalog, seReply);
    var found := SEReports(order[i], seReply(order[i], seLfns[order[i]]).value, catalog);
    var rest := PhysicalScan(order[i + 1..], seLfns, catalog, seReply).1;
    ConcatRegroup(reports, found, rest, spec.1);
  }

  /** The body of the loop for one SE: its metadata check, then its size check. */
  method VisitSE(se: SE, answer: StorageReply, catalog: map<LFN, CatalogFileMeta>) returns (found: seq<Report>)
    ensures answer.Failure? ==> found == []
    ensures answer.Success? ==> found == SEReports(se, answer.value, catalog)
  {
    var res, reports := CheckPhysicalFileMetadata(se, answer);
    if res.Failure? {
      return [];
    }
    var mismatch := SizeMismatches(res.value, catalog);
    found := reports + ReportIf(se, CatalogPFNSizeMismatch, mismatch);
  }

  /** The loop over the sorted SEs. */
  method ScanSEs(order: seq<SE>, seLfns: map<SE, set<LFN>>, catalog: map<LFN, CatalogFileMeta>,
                 seReply: (SE, set<LFN>) -> StorageReply)
    returns (status: Status, reports: seq<Report>)
    requires forall se :: se in order ==> se in seLfns
    ensures (status, reports) == PhysicalScan(order, seLfns, catalog, seReply)
  {
    ghost var spec := PhysicalScan(order, seLfns, catalog, seReply);
    reports := [];
    var i := 0;
    while i < |order|
      invariant 0 <= i <= |order|
      invariant PhysicalScan(order[i..], seLfns, catalog, seReply).0 == spec.0
      invariant reports + PhysicalScan(order[i..], seLfns, catalog, seReply).1 == spec.1
      decreases |order| - i
    {
      var se := order[i];
      var answer := seReply(se, seLfns[se]);
      var found := VisitSE(se, answer, catalog);
      if answer.Failure? {
        ScanStep(order, i, seLfns, catalog, seReply);
        assert reports + [] == reports;
        status := Error(answer.error);
        return;
      }
      ScanAdvance(order, i, seLfns, catalog, seReply, reports, spec);
      reports := reports + found;
      i := i + 1;
    }
    assert order[i..] == [] && reports + [] == reports;
    status := Ok;
  }

  /** `checkPhysicalFiles(replicas, catalogMetadata, ses)`: the LFNs grouped
      by SE (only the SEs of `ses` when it is non-empty), the SEs visited in
      `sorted()` order. */
  method CheckPhysicalFiles(replicas: ReplicaMap, catalog: map<LFN, CatalogFileMeta>, ses: seq<SE>,
                            seReply: (SE, set<LFN>) -> StorageReply)
    returns (status: Status, reports: seq<Report>, order: seq<SE>)
    ensures StrictlySorted(order) && forall se :: se in order <==> se in Grouping(replicas, ses)
    ensures (status, reports) == PhysicalScan(order, Grouping(replicas, ses), catalog, seReply)
  {
    var seLfns, _ := GroupBySE(replicas, ses);
    order := SortedNames(seLfns.Keys);
    status, reports := ScanSEs(order, seLfns, catalog, seReply);
  }

  // ---------------------------------------------------------------------------
  // `__checkCatalogForSEFiles`

  /** The files found at `se` that the catalog does not have there: its
      failure reason says the file does not exist, or it has replicas but
      none at `se`. */
  function NotRegistered(storage: map<LFN, StorageFileMeta>, se: SE, b: BulkReply<map<SE, Pfn>>): set<LFN> {
    set l | l in storage &&
      ((l in b.failed && Contains(b.failed[l], NoSuchFile)) ||
       (l !in b.failed && l in b.successful && se !in b.successful[l]))
  }

  /** `failedLfns` after the loop: the not-registered entries are popped. */
  function OtherFailures(storage: map<LFN, StorageFileMeta>, b: BulkReply<map<SE, Pfn>>): map<LFN, string> {
    map l | l in b.failed && !(l in storage && Contains(b.failed[l], NoSuchFile)) :: b.failed[l]
  }

  /** Storage-to-catalog size rule: a storage size of zero is never a mismatch. */
  function CatalogSizeMismatch(storage: map<LFN, StorageFileMeta>, catalog: map<LFN, CatalogFileMeta>): set<LFN> {
    set l | l in catalog && l in storage && storage[l].size != catalog[l].size && storage[l].size != 0
  }

  /** The two size rules part on a replica that is empty on storage. */
  lemma SizeRulesDiffer()
    ensures var storage := map["f" := StorageFileMeta(0, false, false, "")];
      var catalog := map["f" := CatalogFileMeta(5, None)];
      "f" in PhysicalSizeMismatch(storage, catalog) && "f" !in CatalogSizeMismatch(storage, catalog)
  {
    var storage := map["f" := StorageFileMeta(0, false, false, "")];
    var catalog := map["f" := CatalogFileMeta(5, None)];
    assert "f" in storage && "f" in catalog && storage["f"].size != catalog["f"].size;
  }

  /** The whole storage-to-catalog check on the catalog's two answers:
      `replicaReply` about the storage files, `metadataReply` about the same
      files (asked only when there are any). */
  function CatalogCheck(storage: map<LFN, StorageFileMeta>, se: SE, replicaReply: Result<BulkReply<map<SE, Pfn>>>,
                        metadataReply: Result<BulkReply<CatalogFileMeta>>)
    : (Result<(map<LFN, CatalogFileMeta>, map<LFN, StorageFileMeta>)>, seq<Report>)
  {
    if replicaReply.Failure? then (Failure(replicaReply.error), [])
    else
      var notReg := ReportIf(se, LFNNotRegistered, NotRegistered(storage, se, replicaReply.value));
      if OtherFailures(storage, replicaReply.value) != map[] then (Failure(FailedToObtainReplicas), notReg)
      else if storage == map[] then (Success((map[], storage)), notReg)
      else if metadataReply.Failure? then (Failure(metadataReply.error), notReg)
      else
        var catalog := metadataReply.value.successful;
        (Success((catalog, storage)), notReg + ReportIf(se, CatalogPFNSizeMismatch, CatalogSizeMismatch(storage, catalog)))
  }

  /** A successful check accounts for every storage file: each one is either
      registered at the SE by the catalog or reported as not registered. */
  lemma CatalogCheckAccounts(storage: map<LFN, StorageFileMeta>, se: SE, replicaReply: Result<BulkReply<map<SE, Pfn>>>,
                             metadataReply: Result<BulkReply<CatalogFileMeta>>, l: LFN)
    requires replicaReply.Success? ==>
      forall f :: f in storage ==> f in replicaReply.value.failed || f in replicaReply.value.successful
    requires CatalogCheck(storage, se, replicaReply, metadataReply).0.Success?
    requires l in storage
    ensures var b := replicaReply.value;
      (l in b.successful && l !in b.failed && se in b.successful[l]) ||
      Listed(CatalogCheck(storage, se, replicaReply, metadataReply).1, LFNNotRegistered, l)
  {
    var b := replicaReply.value;
    var reports := CatalogCheck(storage, se, replicaReply, metadataReply).1;
    if l in NotRegistered(storage, se, b) {
      assert Report(se, LFNNotRegistered, NotRegistered(storage, se, b)) in reports;
    }
  }

  /** Once the catalog answers, a storage file is reported LFNNotRegistered
      exactly when the catalog says it has no such file, or lists it without a
      replica at the SE. */
  lemma NotRegisteredSpec(storage: map<LFN, StorageFileMeta>, se: SE, replicaReply: Result<BulkReply<map<SE, Pfn>>>,
                          metadataReply: Result<BulkReply<CatalogFileMeta>>, l: LFN)
    requires replicaReply.Success?
    ensures Listed(CatalogCheck(storage, se, replicaReply, metadataReply).1, LFNNotRegistered, l) <==>
      l in NotRegistered(storage, se, replicaReply.value)
    ensures var b := replicaReply.value;
      l in NotRegistered(storage, se, b) <==>
      l in storage && ((l in b.failed && Contains(b.failed[l], NoSuchFile)) ||
                       (l !in b.failed && l in b.successful && se !in b.successful[l]))
  {
    var b := replicaReply.value;
    var notRegSet := NotRegistered(storage, se, b);
    var notReg := ReportIf(se, LFNNotRegistered, notRegSet);
    var reports := CatalogCheck(storage, se, replicaReply, metadataReply).1;
    assert forall r :: r in reports && r.problem == LFNNotRegistered ==> r in notReg;
    if l in notRegSet {
      assert Report(se, LFNNotRegistered, notRegSet) in reports;
    }
  }

  /** `__checkCatalogForSEFiles(storageMetadata, se)`. The catalog is assumed
      to answer for every file it is asked about and to return metadata only
      for those files, as the source's dictionary lookups demand. */
  method CheckCatalogForSEFiles(storage: map<LFN, StorageFileMeta>, se: SE, replicaReply: Result<BulkReply<map<SE, Pfn>>>,
                                metadataReply: Result<BulkReply<CatalogFileMeta>>)
    returns (res: Result<(map<LFN, CatalogFileMeta>, map<LFN, StorageFileMeta>)>, reports: seq<Report>)
    requires replicaReply.Success? ==>
      forall l :: l in storage ==> l in replicaReply.value.failed || l in replicaReply.value.successful
    requires metadataReply.Success? ==> metadataReply.value.successful.Keys <= storage.Keys
    ensures (res, reports) == CatalogCheck(storage, se, replicaReply, metadataReply)
  {
    if replicaReply.Failure? {
      return Failure(replicaReply.error), [];
    }
    var b := replicaReply.value;
    var failed := b.failed;
    var notRegistered: set<LFN> := {};
    var todo := storage.Keys;
    while todo != {}
      invariant todo <= storage.Keys
      invariant forall l :: l in notRegistered <==> l in storage && l !in todo && l in NotRegistered(storage, se, b)
      invariant forall l :: l in failed <==> l in b.failed && !(l in storage && l !in todo && Contains(b.failed[l], NoSuchFile))
      invariant forall l :: l in failed ==> failed[l] == b.failed[l]
      decreases todo
    {
      var lfn :| lfn in todo;
      if lfn in b.failed {
        if Contains(b.failed[lfn], NoSuchFile) {
          notRegistered := notRegistered + {lfn};
          failed := failed - {lfn};
        }
      } else if se !in b.successful[lfn] {
        notRegistered := notRegistered + {lfn};
      }
      todo := todo - {lfn};
    }
    assert notRegistered == NotRegistered(storage, se, b);
    MapsEqual(failed, OtherFailures(storage, b));
    reports := ReportIf(se, LFNNotRegistered, notRegistered);
    if failed != map[] {
      return Failure(FailedToObtainReplicas), reports;
    }
    if storage == map[] {
      return Success((map[], storage)), reports;
    }
    if metadataReply.Failure? {
      return Failure(metadataReply.error), reports;
    }
    var catalog := metadataReply.value.successful;
    var mismatch: set<LFN> := {};
    todo := catalog.Keys;
    while todo != {}
      invariant todo <= catalog.Keys
      invariant forall l :: l in mismatch <==>
        l in catalog && l !in todo && storage[l].size != catalog[l].size && storage[l].size != 0
      decreases todo
    {
      var lfn :| lfn in todo;
      if storage[lfn].size != catalog[lfn].size && storage[lfn].size != 0 {
        mismatch := mismatch + {lfn};
      }
      todo := todo - {lfn};
    }
    assert mismatch == CatalogSizeMismatch(storage, catalog);
    reports := reports + ReportIf(se, CatalogPFNSizeMismatch, mismatch);
    res := Success((catalog, storage));
  }
}
