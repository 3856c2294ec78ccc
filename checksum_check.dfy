/** `compareChecksum`: which requested LFNs have missing or corrupted replicas.
    The catalog, the file catalog's metadata and each storage element are
    inputs: each is a function from the question asked to the answer given.
    `compareAdler` is an input predicate on (catalog checksum, replica checksum). */
module ChecksumCheck {
  import opened Wrappers
  import opened Catalog
  import opened Collections
  import opened StringOrder
  import opened SeGrouping
  import opened Inversion

  type StorageReply = Result<BulkReply<StorageFileMeta>>
  type Comparer = (Option<string>, string) -> bool

  const AllMissing: string := "All"

  // ---------------------------------------------------------------------------
  // The cache split

  /** The requested LFNs that the inspector's replica cache already holds. */
  function CachedPart(lfns: seq<LFN>, cached: ReplicaMap): ReplicaMap {
    map l | l in SetOf(lfns) && l in cached :: cached[l]
  }

  /** The copy of the cached replicas and the LFNs left for the catalog. The
      LFNs left are exactly the requested ones missing from the cache, so a
      cached LFN is never asked for again. */
  method CopyCached(lfns: seq<LFN>, cached: ReplicaMap) returns (replicas: ReplicaMap, left: set<LFN>)
    ensures replicas == CachedPart(lfns, cached)
    ensures left == SetOf(lfns) - cached.Keys
    ensures forall l :: l in left <==> l in lfns && l !in cached
    ensures replicas.Keys !! left && replicas.Keys + left == SetOf(lfns)
  {
    var setLfns := SetOf(lfns);
    replicas := map[];
    var todo := setLfns * cached.Keys;
    while todo != {}
      invariant todo <= setLfns * cached.Keys
      invariant forall l :: l in replicas <==> l in setLfns && l in cached && l !in todo
      invariant forall l :: l in replicas ==> replicas[l] == cached[l]
      decreases todo
    {
      var lfn :| lfn in todo;
      replicas := replicas[lfn := cached[lfn]];
      todo := todo - {lfn};
    }
    left := setLfns - cached.Keys;
    MapsEqual(replicas, CachedPart(lfns, cached));
  }

  // ---------------------------------------------------------------------------
  // What the storage elements say

  /** The SEs among `done` whose answer failed, each with the list it was asked about. */
  function NoInfoBySE(seFiles: map<SE, set<LFN>>, seReply: (SE, set<LFN>) -> StorageReply, done: set<SE>)
    : map<SE, set<LFN>>
  {
    map se | se in done && se in seFiles && seReply(se, seFiles[se]).Failure? :: seFiles[se]
  }

  /** The SEs among `done` that answered, each with the LFNs it does not have. */
  function NotFoundBySE(seFiles: map<SE, set<LFN>>, seReply: (SE, set<LFN>) -> StorageReply, done: set<SE>)
    : map<SE, set<LFN>>
  {
    map se | se in done && se in seFiles && seReply(se, seFiles[se]).Success? ::
      seReply(se, seFiles[se]).value.failed.Keys
  }

  function ChecksumsOf(successful: map<LFN, StorageFileMeta>): map<LFN, string> {
    map l | l in successful :: successful[l].checksum
  }

  /** The SEs among `done` that answered, each with the checksums it reported. */
  function ChecksumsBySE(seFiles: map<SE, set<LFN>>, seReply: (SE, set<LFN>) -> StorageReply, done: set<SE>)
    : map<SE, map<LFN, string>>
  {
    map se | se in done && se in seFiles && seReply(se, seFiles[se]).Success? ::
      ChecksumsOf(seReply(se, seFiles[se]).value.successful)
  }

  /** `checkSum`, `lfnNotExisting` and `lfnNoInfo`: the answers of the SEs,
      recorded per LFN. */
  datatype StorageView = StorageView(
    checkSum: map<LFN, map<SE, string>>,
    notExisting: map<LFN, set<SE>>,
    noInfo: map<LFN, set<SE>>)

  function ViewOver(seFiles: map<SE, set<LFN>>, seReply: (SE, set<LFN>) -> StorageReply, done: set<SE>)
    : StorageView
  {
    StorageView(
      InverseMap(ChecksumsBySE(seFiles, seReply, done)),
      Inverse(NotFoundBySE(seFiles, seReply, done)),
      Inverse(NoInfoBySE(seFiles, seReply, done)))
  }

  function StorageViewOf(seFiles: map<SE, set<LFN>>, seReply: (SE, set<LFN>) -> StorageReply): StorageView {
    ViewOver(seFiles, seReply, seFiles.Keys)
  }

  /** What the recorded answers mean: an LFN is recorded as missing at an SE
      exactly when that SE answered and listed it as failed; as without
      information exactly when the SE's answer failed and the LFN was in its
      list; and with a checksum exactly when the SE reported one for it. */
  lemma StorageViewSpec(seFiles: map<SE, set<LFN>>, seReply: (SE, set<LFN>) -> StorageReply, l: LFN, se: SE)
    ensures var v := StorageViewOf(seFiles, seReply);
      se in Members(v.notExisting, l) <==>
        se in seFiles && seReply(se, seFiles[se]).Success? && l in seReply(se, seFiles[se]).value.failed
    ensures var v := StorageViewOf(seFiles, seReply);
      se in Members(v.noInfo, l) <==>
        se in seFiles && seReply(se, seFiles[se]).Failure? && l in seFiles[se]
    ensures var v := StorageViewOf(seFiles, seReply);
      (l in v.checkSum && se in v.checkSum[l]) <==>
        se in seFiles && seReply(se, seFiles[se]).Success? && l in seReply(se, seFiles[se]).value.successful
    ensures var v := StorageViewOf(seFiles, seReply);
      l in v.checkSum && se in v.checkSum[l] ==>
        v.checkSum[l][se] == seReply(se, seFiles[se]).value.successful[l].checksum
  {
    InverseSpec(NotFoundBySE(seFiles, seReply, seFiles.Keys), se, l);
    InverseSpec(NoInfoBySE(seFiles, seReply, seFiles.Keys), se, l);
    InverseMapSpec(ChecksumsBySE(seFiles, seReply, seFiles.Keys), se, l);
  }

  /** The view once the answer of `se` about `files` is recorded. */
  function Recorded(v: StorageView, se: SE, files: set<LFN>, answer: StorageReply): StorageView {
    if answer.Failure? then StorageView(v.checkSum, v.notExisting, AddToEach(v.noInfo, files, se))
    else StorageView(PutEach(v.checkSum, ChecksumsOf(answer.value.successful), se),
                     AddToEach(v.notExisting, answer.value.failed.Keys, se), v.noInfo)
  }

  /** The answers of `done` and one SE more. */
  lemma ViewStep(seFiles: map<SE, set<LFN>>, seReply: (SE, set<LFN>) -> StorageReply, done: set<SE>, se: SE)
    requires se in seFiles && se !in done
    ensures ViewOver(seFiles, seReply, done + {se}) ==
      Recorded(ViewOver(seFiles, seReply, done), se, seFiles[se], seReply(se, seFiles[se]))
  {
    var a := seReply(se, seFiles[se]);
    var noInfo, notFound, sums := NoInfoBySE(seFiles, seReply, done), NotFoundBySE(seFiles, seReply, done),
      ChecksumsBySE(seFiles, seReply, done);
    assert se !in noInfo && se !in notFound && se !in sums;
    if a.Failure? {
      assert NoInfoBySE(seFiles, seReply, done + {se}) == noInfo[se := seFiles[se]];
      assert NotFoundBySE(seFiles, seReply, done + {se}) == notFound;
      assert ChecksumsBySE(seFiles, seReply, done + {se}) == sums;
      InverseAdd(noInfo, se, seFiles[se]);
    } else {
      assert NoInfoBySE(seFiles, seReply, done + {se}) == noInfo;
      assert NotFoundBySE(seFiles, seReply, done + {se}) == notFound[se := a.value.failed.Keys];
      assert ChecksumsBySE(seFiles, seReply, done + {se}) == sums[se := ChecksumsOf(a.value.successful)];
      InverseAdd(notFound, se, a.value.failed.Keys);
      InverseMapAdd(sums, se, ChecksumsOf(a.value.successful));
    }
  }

  /** One SE's answer written into `checkSum`, `lfnNotExisting` or `lfnNoInfo`. */
  method RecordAnswer(v: StorageView, se: SE, files: set<LFN>, answer: StorageReply) returns (w: StorageView)
    ensures w == Recorded(v, se, files, answer)
  {
    if answer.Failure? {
      var noInfo := AddEach(v.noInfo, files, se);
      w := v.(noInfo := noInfo);
    } else {
      var notExisting := AddEach(v.notExisting, answer.value.failed.Keys, se);
      var checkSum := PutEachLoop(v.checkSum, ChecksumsOf(answer.value.successful), se);
      w := StorageView(checkSum, notExisting, v.noInfo);
    }
  }

  /** In a list without repeats, the next element is new. */
  lemma NextIsNew(order: seq<SE>, i: nat)
    requires forall j, k :: 0 <= j < k < |order| ==> order[j] != order[k]
    requires i < |order|
    ensures order[i] !in SetOf(order[..i])
    ensures SetOf(order[..i + 1]) == SetOf(order[..i]) + {order[i]}
  {
    assert order[..i + 1] == order[..i] + [order[i]];
  }

  lemma ViewNone(seFiles: map<SE, set<LFN>>, seReply: (SE, set<LFN>) -> StorageReply)
    ensures ViewOver(seFiles, seReply, {}) == StorageView(map[], map[], map[])
  {
    InverseEmpty(NoInfoBySE(seFiles, seReply, {}));
    InverseEmpty(NotFoundBySE(seFiles, seReply, {}));
    InverseMapEmpty(ChecksumsBySE(seFiles, seReply, {}));
  }

  /** The loop over `sorted(seFiles)`: one metadata request per SE, in that
      order, with the SE's list of LFNs; each answer is recorded per LFN. */
  method CollectStorage(seFiles: map<SE, set<LFN>>, seReply: (SE, set<LFN>) -> StorageReply)
    returns (view: StorageView, order: seq<SE>)
    ensures StrictlySorted(order) && forall se :: se in order <==> se in seFiles
    ensures view == StorageViewOf(seFiles, seReply)
  {
    order := SortedNames(seFiles.Keys);
    SortedDistinct(order);
    view := StorageView(map[], map[], map[]);
    ghost var done: set<SE> := {};
    ViewNone(seFiles, seReply);
    var i := 0;
    while i < |order|
      invariant 0 <= i <= |order|
      invariant done == SetOf(order[..i]) && done <= seFiles.Keys
      invariant view == ViewOver(seFiles, seReply, done)
      decreases |order| - i
    {
      var se := order[i];
      NextIsNew(order, i);
      ViewStep(seFiles, seReply, done, se);
      view := RecordAnswer(view, se, seFiles[se], seReply(se, seFiles[se]));
      done := done + {se};
      i := i + 1;
    }
    assert order[..i] == order;
    assert done == seFiles.Keys;
  }

  // ---------------------------------------------------------------------------
  // The verdict on one LFN

  /** What the check concludes about one replica. */
  datatype ReplicaState = Absent | Unknown | Mismatch(surl: string) | Match

  /** `checkSum.get(lfn, {}).get(se, '')` */
  function ChecksumAt(checkSum: map<LFN, map<SE, string>>, l: LFN, se: SE): string {
    if l in checkSum && se in checkSum[l] then checkSum[l][se] else ""
  }

  /** The replica at `se` of `l`, checked in the source's order: recorded as
      missing, else without information, else compared by checksum (an absent
      or empty storage checksum is a mismatch). */
  function StateOf(view: StorageView, l: LFN, se: SE, lfc: Option<string>, compareAdler: Comparer): ReplicaState {
    if se in Members(view.notExisting, l) then Absent
    else if se in Members(view.noInfo, l) then Unknown
    else
      var surl := ChecksumAt(view.checkSum, l, se);
      if surl == "" || !compareAdler(lfc, surl) then Mismatch(surl) else Match
  }

  /** A replica that may be good: one without information counts as good. */
  predicate Good(st: ReplicaState) {
    st.Unknown? || st.Match?
  }

  /** `csDict[lfn]` after the loop: each mismatching SE with its `PFNChecksum`. */
  function BadReplicas(view: StorageView, l: LFN, ses: set<SE>, lfc: Option<string>, compareAdler: Comparer)
    : map<SE, string>
  {
    map se | se in ses && StateOf(view, l, se, lfc, compareAdler).Mismatch? ::
      StateOf(view, l, se, lfc, compareAdler).surl
  }

  /** The loop over one LFN's replicas with its flags `oneGoodReplica` and
      `allGoodReplicas`. */
  method ClassifyReplicas(view: StorageView, l: LFN, ses: set<SE>, lfc: Option<string>, compareAdler: Comparer)
    returns (oneGood: bool, allGood: bool, bad: map<SE, string>)
    ensures oneGood <==> exists se :: se in ses && Good(StateOf(view, l, se, lfc, compareAdler))
    ensures allGood <==> forall se :: se in ses ==> Good(StateOf(view, l, se, lfc, compareAdler))
    ensures bad == BadReplicas(view, l, ses, lfc, compareAdler)
  {
    oneGood, allGood, bad := false, true, map[];
    var todo := ses;
    while todo != {}
      invariant todo <= ses
      invariant oneGood <==> exists se :: se in ses && se !in todo && Good(StateOf(view, l, se, lfc, compareAdler))
      invariant allGood <==> forall se :: se in ses && se !in todo ==> Good(StateOf(view, l, se, lfc, compareAdler))
      invariant forall se :: se in bad <==>
        se in ses && se !in todo && StateOf(view, l, se, lfc, compareAdler).Mismatch?
      invariant forall se :: se in bad ==> bad[se] == StateOf(view, l, se, lfc, compareAdler).surl
      decreases todo
    {
      var se :| se in todo;
      if se in Members(view.notExisting, l) {
        allGood := false;
      } else if se in Members(view.noInfo, l) {
        oneGood := true;
      } else {
        var surl := ChecksumAt(view.checkSum, l, se);
        if surl == "" || !compareAdler(lfc, surl) {
          bad := bad[se := surl];
          allGood := false;
        } else {
          oneGood := true;
        }
      }
      todo := todo - {se};
    }
    MapsEqual(bad, BadReplicas(view, l, ses, lfc, compareAdler));
  }

  /** Where an LFN ends up in the result. */
  datatype Verdict =
    | Healthy
    | AllCorrupted(bad: map<SE, string>)
    | SomeCorrupted(bad: map<SE, string>)
    | MissingAll
    | MissingReplica(missingAt: set<SE>)

  /** The decision taken on the flags. */
  function Decide(oneGood: bool, allGood: bool, bad: map<SE, string>, view: StorageView, l: LFN): Verdict {
    if !oneGood then (if l in view.notExisting then MissingAll else AllCorrupted(bad))
    else if !allGood then (if l in view.notExisting then MissingReplica(view.notExisting[l]) else SomeCorrupted(bad))
    else Healthy
  }

  function LfnVerdict(view: StorageView, l: LFN, ses: set<SE>, lfc: Option<string>, compareAdler: Comparer): Verdict {
    Decide(
      exists se :: se in ses && Good(StateOf(view, l, se, lfc, compareAdler)),
      forall se :: se in ses ==> Good(StateOf(view, l, se, lfc, compareAdler)),
      BadReplicas(view, l, ses, lfc, compareAdler), view, l)
  }

  /** An LFN with at least one replica, every one of which exists and matches,
      is reported nowhere. */
  lemma AllMatchHealthy(view: StorageView, l: LFN, ses: set<SE>, lfc: Option<string>, compareAdler: Comparer)
    requires ses != {}
    requires forall se :: se in ses ==> StateOf(view, l, se, lfc, compareAdler) == Match
    ensures LfnVerdict(view, l, ses, lfc, compareAdler) == Healthy
  {
    var se :| se in ses;
    assert Good(StateOf(view, l, se, lfc, compareAdler));
  }

  /** With no good replica, and in particular with no replica at all, the LFN
      is missing everywhere when some SE reported it missing, and otherwise
      corrupted everywhere, with its mismatching replicas. */
  lemma NoGoodReplica(view: StorageView, l: LFN, ses: set<SE>, lfc: Option<string>, compareAdler: Comparer)
    requires forall se :: se in ses ==> !Good(StateOf(view, l, se, lfc, compareAdler))
    ensures LfnVerdict(view, l, ses, lfc, compareAdler) ==
      if l in view.notExisting then MissingAll else AllCorrupted(BadReplicas(view, l, ses, lfc, compareAdler))
    ensures ses == {} && l !in view.notExisting ==> LfnVerdict(view, l, ses, lfc, compareAdler) == AllCorrupted(map[])
  {
  }

  /** A replica without storage information keeps the LFN out of the
      missing-everywhere and corrupted-everywhere buckets. */
  lemma NoInfoCountsAsGood(view: StorageView, l: LFN, ses: set<SE>, lfc: Option<string>, compareAdler: Comparer, se: SE)
    requires se in ses && StateOf(view, l, se, lfc, compareAdler) == Unknown
    ensures !LfnVerdict(view, l, ses, lfc, compareAdler).MissingAll?
    ensures !LfnVerdict(view, l, ses, lfc, compareAdler).AllCorrupted?
  {
    assert Good(StateOf(view, l, se, lfc, compareAdler));
  }

  /** A replica that is missing or mismatching keeps the LFN out of the healthy ones. */
  lemma BadReplicaNotHealthy(view: StorageView, l: LFN, ses: set<SE>, lfc: Option<string>, compareAdler: Comparer, se: SE)
    requires se in ses && !Good(StateOf(view, l, se, lfc, compareAdler))
    ensures LfnVerdict(view, l, ses, lfc, compareAdler) != Healthy
  {
  }

  // ---------------------------------------------------------------------------
  // The result dictionary

  /** `retDict`: the four buckets and the LFNs the catalog had no replicas for. */
  datatype ChecksumReport = ChecksumReport(
    allCorrupted: map<LFN, map<SE, string>>,
    someCorrupted: map<LFN, map<SE, string>>,
    missingReplica: map<LFN, set<SE>>,
    missingAll: map<LFN, string>,
    noReplicas: map<LFN, string>)

  function ReportOf(verdicts: map<LFN, Verdict>, noReplicas: map<LFN, string>): ChecksumReport {
    ChecksumReport(AllCorruptedOf(verdicts), SomeCorruptedOf(verdicts), MissingReplicaOf(verdicts),
      MissingAllOf(verdicts), noReplicas)
  }

  /** Each LFN lands in at most one of the four buckets, and only a checked LFN does. */
  lemma ReportExclusive(verdicts: map<LFN, Verdict>, noReplicas: map<LFN, string>)
    ensures var r := ReportOf(verdicts, noReplicas);
      r.allCorrupted.Keys !! r.someCorrupted.Keys && r.allCorrupted.Keys !! r.missingReplica.Keys &&
      r.allCorrupted.Keys !! r.missingAll.Keys && r.someCorrupted.Keys !! r.missingReplica.Keys &&
      r.someCorrupted.Keys !! r.missingAll.Keys && r.missingReplica.Keys !! r.missingAll.Keys
    ensures var r := ReportOf(verdicts, noReplicas);
      r.allCorrupted.Keys + r.someCorrupted.Keys + r.missingReplica.Keys + r.missingAll.Keys ==
        set l | l in verdicts && verdicts[l] != Healthy
  {
  }

  /** `lfcChecksum`: `metadata.get(lfn, {}).get('Checksum')` */
  function LfcChecksum(meta: map<LFN, CatalogFileMeta>, l: LFN): Option<string> {
    if l in meta then meta[l].checksum else None
  }

  function VerdictsOver(replicas: ReplicaMap, meta: map<LFN, CatalogFileMeta>, view: StorageView,
                        compareAdler: Comparer, done: set<LFN>): map<LFN, Verdict>
  {
    map l | l in done && l in replicas :: LfnVerdict(view, l, replicas[l].Keys, LfcChecksum(meta, l), compareAdler)
  }

  function Verdicts(replicas: ReplicaMap, meta: map<LFN, CatalogFileMeta>, view: StorageView,
                    compareAdler: Comparer): map<LFN, Verdict>
  {
    VerdictsOver(replicas, meta, view, compareAdler, replicas.Keys)
  }

  /** The result with one verdict more. */
  function AddVerdict(r: ChecksumReport, l: LFN, v: Verdict): ChecksumReport {
    match v
    case Healthy => r
    case AllCorrupted(bad) => r.(allCorrupted := r.allCorrupted[l := bad])
    case SomeCorrupted(bad) => r.(someCorrupted := r.someCorrupted[l := bad])
    case MissingAll => r.(missingAll := r.missingAll[l := AllMissing])
    case MissingReplica(ses) => r.(missingReplica := r.missingReplica[l := ses])
  }

  function AllCorruptedOf(verdicts: map<LFN, Verdict>): map<LFN, map<SE, string>> {
    map l | l in verdicts && verdicts[l].AllCorrupted? :: verdicts[l].bad
  }

  function SomeCorruptedOf(verdicts: map<LFN, Verdict>): map<LFN, map<SE, string>> {
    map l | l in verdicts && verdicts[l].SomeCorrupted? :: verdicts[l].bad
  }

  function MissingReplicaOf(verdicts: map<LFN, Verdict>): map<LFN, set<SE>> {
    map l | l in verdicts && verdicts[l].MissingReplica? :: verdicts[l].missingAt
  }

  function MissingAllOf(verdicts: map<LFN, Verdict>): map<LFN, string> {
    map l | l in verdicts && verdicts[l].MissingAll? :: AllMissing
  }

  lemma ReportAdd(verdicts: map<LFN, Verdict>, noReplicas: map<LFN, string>, l: LFN, v: Verdict)
    requires l !in verdicts
    ensures ReportOf(verdicts[l := v], noReplicas) == AddVerdict(ReportOf(verdicts, noReplicas), l, v)
  {
    var w := verdicts[l := v];
    assert AllCorruptedOf(w) == if v.AllCorrupted? then AllCorruptedOf(verdicts)[l := v.bad] else AllCorruptedOf(verdicts);
    assert SomeCorruptedOf(w) == if v.SomeCorrupted? then SomeCorruptedOf(verdicts)[l := v.bad] else SomeCorruptedOf(verdicts);
    assert MissingReplicaOf(w) ==
      if v.MissingReplica? then MissingReplicaOf(verdicts)[l := v.missingAt] else MissingReplicaOf(verdicts);
    assert MissingAllOf(w) == if v.MissingAll? then MissingAllOf(verdicts)[l := AllMissing] else MissingAllOf(verdicts);
  }

  lemma VerdictsStep(replicas: ReplicaMap, meta: map<LFN, CatalogFileMeta>, view: StorageView,
                     compareAdler: Comparer, done: set<LFN>, l: LFN)
    requires l in replicas && l !in done
    ensures l !in VerdictsOver(replicas, meta, view, compareAdler, done)
    ensures VerdictsOver(replicas, meta, view, compareAdler, done + {l}) ==
      VerdictsOver(replicas, meta, view, compareAdler, done)[l :=
        LfnVerdict(view, l, replicas[l].Keys, LfcChecksum(meta, l), compareAdler)]
  {
  }

  /** The final loop over the replicas: every LFN is classified and put in its bucket. */
  method BuildReport(replicas: ReplicaMap, meta: map<LFN, CatalogFileMeta>, view: StorageView,
                     compareAdler: Comparer, noReplicas: map<LFN, string>)
    returns (report: ChecksumReport)
    ensures report == ReportOf(Verdicts(replicas, meta, view, compareAdler), noReplicas)
  {
    report := ChecksumReport(map[], map[], map[], map[], noReplicas);
    ghost var done: set<LFN> := {};
    assert VerdictsOver(replicas, meta, view, compareAdler, done) == map[];
    var todo := replicas.Keys;
    while todo != {}
      invariant todo <= replicas.Keys && done == replicas.Keys - todo
      invariant report == ReportOf(VerdictsOver(replicas, meta, view, compareAdler, done), noReplicas)
      decreases todo
    {
      var lfn :| lfn in todo;
      var lfc := LfcChecksum(meta, lfn);
      var oneGood, allGood, bad := ClassifyReplicas(view, lfn, replicas[lfn].Keys, lfc, compareAdler);
      var v := Decide(oneGood, allGood, bad, view, lfn);
      VerdictsStep(replicas, meta, view, compareAdler, done, lfn);
      ReportAdd(VerdictsOver(replicas, meta, view, compareAdler, done), noReplicas, lfn, v);
      report := AddVerdict(report, lfn, v);
      done := done + {lfn};
      todo := todo - {lfn};
    }
    assert done == replicas.Keys;
  }

  // ---------------------------------------------------------------------------
  // The whole comparison

  /** The replicas to check and the `NoReplicas` entries: cached LFNs are
      taken from the cache and only the others are asked for, and only if
      there are any; a catalog error stops the check. */
  function ReplicasOf(lfns: seq<LFN>, cached: ReplicaMap, catalog: set<LFN> -> Result<BulkReply<map<SE, Pfn>>>)
    : Result<(ReplicaMap, map<LFN, string>)>
  {
    var left := SetOf(lfns) - cached.Keys;
    var fetched := if left == {} then Success(BulkReply(map[], map[])) else catalog(left);
    if fetched.Failure? then Failure("error:  " + fetched.error)
    else Success((CachedPart(lfns, cached) + fetched.value.successful, fetched.value.failed))
  }

  method FetchReplicas(lfns: seq<LFN>, cached: ReplicaMap, catalog: set<LFN> -> Result<BulkReply<map<SE, Pfn>>>)
    returns (res: Result<(ReplicaMap, map<LFN, string>)>)
    ensures res == ReplicasOf(lfns, cached, catalog)
  {
    var replicas, left := CopyCached(lfns, cached);
    var noReplicas: map<LFN, string> := map[];
    if left != {} {
      var fetched := catalog(left);
      if fetched.Failure? {
        return Failure("error:  " + fetched.error);
      }
      noReplicas := fetched.value.failed;
      replicas := replicas + fetched.value.successful;
    } else {
      assert replicas + map[] == replicas;
    }
    return Success((replicas, noReplicas));
  }

  /** The catalog metadata of the replicas' LFNs, asked for only if there are any. */
  function MetadataOf(replicas: ReplicaMap, fcMeta: set<LFN> -> Result<BulkReply<CatalogFileMeta>>)
    : Result<map<LFN, CatalogFileMeta>>
  {
    if replicas == map[] then Success(map[])
    else
      var reply := fcMeta(replicas.Keys);
      if reply.Failure? then Failure("error " + reply.error) else Success(reply.value.successful)
  }

  /** The storage part and the verdicts. */
  function ReportFor(replicas: ReplicaMap, metadata: map<LFN, CatalogFileMeta>, noReplicas: map<LFN, string>,
                     seReply: (SE, set<LFN>) -> StorageReply, compareAdler: Comparer): ChecksumReport
  {
    var view := StorageViewOf(Grouping(replicas, []), seReply);
    ReportOf(Verdicts(replicas, metadata, view, compareAdler), noReplicas)
  }

  method CheckReplicas(replicas: ReplicaMap, metadata: map<LFN, CatalogFileMeta>, noReplicas: map<LFN, string>,
                       seReply: (SE, set<LFN>) -> StorageReply, compareAdler: Comparer)
    returns (report: ChecksumReport)
    ensures report == ReportFor(replicas, metadata, noReplicas, seReply, compareAdler)
  {
    var seFiles, _ := GroupBySE(replicas, []);
    var view, _ := CollectStorage(seFiles, seReply);
    report := BuildReport(replicas, metadata, view, compareAdler, noReplicas);
  }

  /** `compareChecksum(lfns)` as a function of what the services answer. */
  function ChecksumOutcome(lfns: seq<LFN>, cached: ReplicaMap,
                           catalog: set<LFN> -> Result<BulkReply<map<SE, Pfn>>>,
                           fcMeta: set<LFN> -> Result<BulkReply<CatalogFileMeta>>,
                           seReply: (SE, set<LFN>) -> StorageReply, compareAdler: Comparer)
    : Result<ChecksumReport>
  {
    var fetched := ReplicasOf(lfns, cached, catalog);
    if fetched.Failure? then Failure(fetched.error)
    else
      var (replicas, noReplicas) := fetched.value;
      var metadata := MetadataOf(replicas, fcMeta);
      if metadata.Failure? then Failure(metadata.error)
      else Success(ReportFor(replicas, metadata.value, noReplicas, seReply, compareAdler))
  }
}
