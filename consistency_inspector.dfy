/** The `ConsistencyChecks` object: its settings (`lfns`, `fileType`,
    `fileTypesExcluded`), its replica cache `cachedReplicas`, and the four
    result dictionaries `checkFC2SE` fills. */
module ConsistencyInspector {
  import opened Wrappers
  import opened Catalog
  import opened PyStrings
  import opened LfnSelection
  import opened ChecksumCheck
  import opened PyCalls

  /** `checkFC2SE` as written: line 94 subscripts the `S_OK`/`S_ERROR`
      dictionary `compareChecksum` returns, not its `Value`. */
  function CheckFC2SEAsWritten(outcome: Result<ChecksumReport>): Option<PyError> {
    Subscript(WrapperKeys(outcome), "MissingReplica")
  }

  /** As written, `checkFC2SE` raises `KeyError` on every call, whether the
      comparison succeeded or failed, so the four result dictionaries are never
      set; the report the intended reading assigns is under `Value`. */
  lemma CheckFC2SEAlwaysRaises(outcome: Result<ChecksumReport>)
    ensures CheckFC2SEAsWritten(outcome) == Some(KeyError("MissingReplica"))
    ensures outcome.Success? <==> Subscript(WrapperKeys(outcome), "Value").None?
  {
  }

  /** What `set_lfns` accepts: one string or a list of strings. */
  datatype LfnsValue = OneLfn(lfn: string) | LfnList(items: seq<string>)

  /** The value of `lfns` after `set_lfns(value)`. */
  function NormalisedLfns(value: LfnsValue): (r: seq<LFN>)
    ensures value.OneLfn? ==> r == [NormaliseLFN(value.lfn)]
    ensures value.OneLfn? ==> (r[0] == value.lfn <==> ' ' !in value.lfn && !HasDoubleSlash(value.lfn))
    ensures value.LfnList? ==> |r| == |value.items|
    ensures value.LfnList? ==> forall i :: 0 <= i < |r| ==> r[i] == NormaliseLFN(value.items[i])
    ensures forall i :: 0 <= i < |r| ==> ' ' !in r[i]
    ensures value.LfnList? ==> forall i :: 0 <= i < |r| ==> |r[i]| <= |value.items[i]|
    ensures value.LfnList? ==> forall i :: 0 <= i < |r| ==>
      (r[i] == value.items[i] <==> ' ' !in value.items[i] && !HasDoubleSlash(value.items[i]))
  {
    var items := if value.OneLfn? then [value.lfn] else value.items;
    seq(|items|, i requires 0 <= i < |items| => NormaliseLFN(items[i]))
  }

  /** `[ft.upper() for ft in value]` */
  function UpperAll(value: seq<string>): (r: seq<string>)
    ensures |r| == |value|
    ensures forall i :: 0 <= i < |r| ==> r[i] == Upper(value[i])
  {
    seq(|value|, i requires 0 <= i < |value| => Upper(value[i]))
  }

  /** Setting the file types twice is setting them once; no setting contains a
      lower-case ASCII letter. */
  lemma UpperAllSpec(value: seq<string>)
    ensures UpperAll(UpperAll(value)) == UpperAll(value)
    ensures forall i, j :: 0 <= i < |value| && 0 <= j < |UpperAll(value)[i]| ==> !('a' <= UpperAll(value)[i][j] <= 'z')
  {
    forall i | 0 <= i < |value|
      ensures Upper(Upper(value[i])) == Upper(value[i])
      ensures forall j :: 0 <= j < |Upper(value[i])| ==> !('a' <= Upper(value[i])[j] <= 'z')
    {
      UpperIdempotent(value[i]);
      UpperShape(value[i]);
    }
  }

  /** When every requested LFN is cached, the catalog is not consulted and no
      LFN is reported as having no replicas. */
  lemma CachedNotRefetched(lfns: seq<LFN>, cached: ReplicaMap,
                           catalog: set<LFN> -> Result<BulkReply<map<SE, Pfn>>>,
                           otherCatalog: set<LFN> -> Result<BulkReply<map<SE, Pfn>>>,
                           fcMeta: set<LFN> -> Result<BulkReply<CatalogFileMeta>>,
                           seReply: (SE, set<LFN>) -> StorageReply, compareAdler: Comparer)
    requires forall l :: l in lfns ==> l in cached
    ensures ChecksumOutcome(lfns, cached, catalog, fcMeta, seReply, compareAdler) ==
      ChecksumOutcome(lfns, cached, otherCatalog, fcMeta, seReply, compareAdler)
    ensures ChecksumOutcome(lfns, cached, catalog, fcMeta, seReply, compareAdler).Success?
      ==> ChecksumOutcome(lfns, cached, catalog, fcMeta, seReply, compareAdler).value.noReplicas == map[]
  {
    assert SetOf(lfns) - cached.Keys == {};
  }

  class Inspector {
    var fileType: seq<string>
    var fileTypesExcluded: seq<string>
    var lfns: seq<LFN>
    var cachedReplicas: ReplicaMap
    var existLFNsNoSE: map<LFN, set<SE>>
    var existLFNsNotExisting: map<LFN, string>
    var existLFNsBadReplicas: map<LFN, map<SE, string>>
    var existLFNsBadFiles: map<LFN, map<SE, string>>

    /** The four result dictionaries. */
    ghost function Results(): (map<LFN, set<SE>>, map<LFN, string>, map<LFN, map<SE, string>>, map<LFN, map<SE, string>>)
      reads this
    {
      (existLFNsNoSE, existLFNsNotExisting, existLFNsBadReplicas, existLFNsBadFiles)
    }

    constructor ()
      ensures fileType == [] && fileTypesExcluded == [] && lfns == [] && cachedReplicas == map[]
      ensures Results() == (map[], map[], map[], map[])
    {
      fileType, fileTypesExcluded, lfns, cachedReplicas := [], [], [], map[];
      existLFNsNoSE, existLFNsNotExisting, existLFNsBadReplicas, existLFNsBadFiles := map[], map[], map[], map[];
    }

    /** `set_lfns`: a single string becomes a one-element list; spaces are
        removed from each LFN and each `//` becomes `/`. */
    method SetLfns(value: LfnsValue)
      modifies this
      ensures lfns == NormalisedLfns(value)
      ensures fileType == old(fileType) && fileTypesExcluded == old(fileTypesExcluded)
      ensures cachedReplicas == old(cachedReplicas) && Results() == old(Results())
    {
      lfns := NormalisedLfns(value);
    }

    method SetFileType(value: seq<string>)
      modifies this
      ensures fileType == UpperAll(value)
      ensures lfns == old(lfns) && fileTypesExcluded == old(fileTypesExcluded)
      ensures cachedReplicas == old(cachedReplicas) && Results() == old(Results())
    {
      fileType := UpperAll(value);
    }

    method SetFileTypesExcluded(value: seq<string>)
      modifies this
      ensures fileTypesExcluded == UpperAll(value)
      ensures lfns == old(lfns) && fileType == old(fileType)
      ensures cachedReplicas == old(cachedReplicas) && Results() == old(Results())
    {
      fileTypesExcluded := UpperAll(value);
    }

    /** The cache update of `getReplicasPresence`: the replicas found are
        added, replacing any cached entry of the same LFN. */
    method CacheReplicas(successful: ReplicaMap)
      modifies this
      ensures cachedReplicas == old(cachedReplicas) + successful
      ensures lfns == old(lfns) && fileType == old(fileType) && fileTypesExcluded == old(fileTypesExcluded)
      ensures Results() == old(Results())
    {
      cachedReplicas := cachedReplicas + successful;
    }

    /** `_selectByFileType(lfnDict, fileTypes, fileTypesExcluded)`. Besides the
        selection it returns the caller's dictionary and exclusion list as the
        call leaves them: an empty dictionary changes nothing; otherwise the
        inner dictionaries lose the dropped descendants, and a non-empty
        exclusion argument is extended with the inspector's own exclusions. */
    method SelectByFileType(lfnDict: AncestorMap, fileTypes: seq<string>, typesExcluded: seq<string>)
      returns (selected: AncestorMap, lfnDictAfter: AncestorMap, excludedAfter: seq<string>)
      ensures lfnDict == map[] ==> selected == map[] && lfnDictAfter == lfnDict && excludedAfter == typesExcluded
      ensures lfnDict != map[] ==>
        var types := EffectiveTypes(fileTypes, fileType);
        var excl := EffectiveExcluded(typesExcluded, fileTypesExcluded);
        selected == NonEmpty(Filtered(lfnDict, types, excl)) && lfnDictAfter == Filtered(lfnDict, types, excl) &&
        excludedAfter == (if typesExcluded == [] then [] else excl)
    {
      if lfnDict == map[] {
        return map[], lfnDict, typesExcluded;
      }
      var types := if fileTypes == [] then fileType else fileTypes;
      var excl: seq<string>;
      if typesExcluded == [] {
        excl := fileTypesExcluded;
        excludedAfter := typesExcluded;
      } else {
        excl := typesExcluded + NotIn(fileTypesExcluded, typesExcluded);
        excludedAfter := excl;
      }
      if types == [""] {
        types := [];
      }
      selected, lfnDictAfter := SelectDescendants(lfnDict, types, excl);
    }

    /** `compareChecksum(lfns)`, on the answers of the services. */
    method CompareChecksum(lfnsArg: seq<LFN>, catalog: set<LFN> -> Result<BulkReply<map<SE, Pfn>>>,
                           fcMeta: set<LFN> -> Result<BulkReply<CatalogFileMeta>>,
                           seReply: (SE, set<LFN>) -> StorageReply, compareAdler: Comparer)
      returns (res: Result<ChecksumReport>)
      ensures res == ChecksumOutcome(lfnsArg, cachedReplicas, catalog, fcMeta, seReply, compareAdler)
    {
      var fetched := FetchReplicas(lfnsArg, cachedReplicas, catalog);
      if fetched.Failure? {
        return Failure(fetched.error);
      }
      var (replicas, noReplicas) := fetched.value;
      var metadata: map<LFN, CatalogFileMeta> := map[];
      if replicas != map[] {
        var metaReply := fcMeta(replicas.Keys);
        if metaReply.Failure? {
          return Failure("error " + metaReply.error);
        }
        metadata := metaReply.value.successful;
      }
      var report := CheckReplicas(replicas, metadata, noReplicas, seReply, compareAdler);
      res := Success(report);
    }

    /** `checkFC2SE`: the comparison of the inspector's own LFNs, whose four
        buckets become the inspector's result dictionaries. A failed
        comparison leaves them as they were. */
    method CheckFC2SE(catalog: set<LFN> -> Result<BulkReply<map<SE, Pfn>>>,
                      fcMeta: set<LFN> -> Result<BulkReply<CatalogFileMeta>>,
                      seReply: (SE, set<LFN>) -> StorageReply, compareAdler: Comparer)
      returns (status: Status)
      modifies this
      ensures var outcome := ChecksumOutcome(lfns, cachedReplicas, catalog, fcMeta, seReply, compareAdler);
        if outcome.Failure? then status == Error(outcome.error) && Results() == old(Results())
        else status == Ok && Results() == (outcome.value.missingReplica, outcome.value.missingAll,
                                           outcome.value.someCorrupted, outcome.value.allCorrupted)
      ensures lfns == old(lfns) && cachedReplicas == old(cachedReplicas)
      ensures fileType == old(fileType) && fileTypesExcluded == old(fileTypesExcluded)
    {
      var repDict := CompareChecksum(lfns, catalog, fcMeta, seReply, compareAdler);
      if repDict.Failure? {
        return Error(repDict.error);
      }
      existLFNsNoSE := repDict.value.missingReplica;
      existLFNsNotExisting := repDict.value.missingAll;
      existLFNsBadReplicas := repDict.value.someCorrupted;
      existLFNsBadFiles := repDict.value.allCorrupted;
      status := Ok;
    }
  }
}
