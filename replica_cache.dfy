/** The replica cache of the transformation agent, as values: a cache maps a
    transformation ID to its snapshots, a snapshot is keyed by the time it was
    stored (integer seconds) and maps each LFN to its replicas (SE -> PFN).
    The agent class updates such a value in place; the functions here say what
    the updates produce, and the methods are the loops the agent runs. */
module ReplicaCache {
  import opened Wrappers
  import opened PyStrings
  import opened Catalog
  import opened Collections

  type Snapshots = map<int, ReplicaMap>
  type Cache = map<int, Snapshots>

  type CatalogReply = Result<BulkReply<map<SE, Pfn>>>

  const SecondsPerDay: int := 86400
  /** `replicaCacheValidity`, in days. */
  const ReplicaCacheValidity: int := 2
  const NoReplicasObtained: string := "No replicas obtained"

  /** A snapshot cut down to the requested LFNs. */
  function Restrict(snapshot: ReplicaMap, keep: set<LFN>): ReplicaMap {
    map l | l in snapshot && l in keep :: snapshot[l]
  }

  /** A non-empty set of IDs or times has a member to pick. */
  lemma NonEmptyHasMember(s: set<int>)
    requires s != {}
    ensures exists x :: x in s
  {
    if forall x :: x !in s {
      assert false;
    }
  }

  // ---------------------------------------------------------------------------
  // The scan of a transformation's snapshots

  /** The replicas a single snapshot contributes to the answer: every requested
      LFN it holds is copied into the accumulated answer, replacing an earlier copy. */
  method CollectHits(lfns: seq<LFN>, snapshot: ReplicaMap, acc: ReplicaMap) returns (res: ReplicaMap)
    ensures forall l :: l in res <==> l in acc || (l in lfns && l in snapshot)
    ensures forall l :: l in res ==>
      res[l] == if l in lfns && l in snapshot then snapshot[l] else acc[l]
  {
    res := acc;
    var i := 0;
    while i < |lfns|
      invariant 0 <= i <= |lfns|
      invariant forall l :: l in res <==> l in acc || (l in lfns[..i] && l in snapshot)
      invariant forall l :: l in res ==>
        res[l] == if l in lfns[..i] && l in snapshot then snapshot[l] else acc[l]
    {
      assert lfns[..i + 1] == lfns[..i] + [lfns[i]];
      if lfns[i] in snapshot {
        res := res[lfns[i] := snapshot[lfns[i]]];
      }
      i := i + 1;
    }
    assert lfns[..i] == lfns;
  }

  /** The compaction of one snapshot: every LFN that is not requested is popped. */
  method CompactSnapshot(snapshot: ReplicaMap, lfns: seq<LFN>) returns (kept: ReplicaMap)
    ensures kept.Keys == snapshot.Keys * SetOf(lfns)
    ensures forall l :: l in kept ==> kept[l] == snapshot[l]
  {
    var stale := set l | l in snapshot && l !in lfns;
    kept := snapshot;
    while stale != {}
      invariant stale <= snapshot.Keys - SetOf(lfns)
      invariant kept.Keys == (snapshot.Keys * SetOf(lfns)) + stale
      invariant forall l :: l in kept ==> kept[l] == snapshot[l]
      decreases stale
    {
      var l :| l in stale;
      kept := kept - {l};
      stale := stale - {l};
    }
  }

  /** The cache after the scan for `transID` has compacted its snapshots. */
  function Compact(cache: Cache, transID: int, keep: set<LFN>): (c: Cache)
    ensures c.Keys == cache.Keys
    ensures forall id :: id in cache && id != transID ==> c[id] == cache[id]
    ensures transID in cache ==> c[transID].Keys == cache[transID].Keys
  {
    if transID in cache then
      cache[transID := map t | t in cache[transID] :: Restrict(cache[transID][t], keep)]
    else cache
  }

  /** The scan of `__getDataReplicas` over one transformation's snapshots, in
      any order: the answer collects every requested LFN some snapshot holds
      (from one of those snapshots), and every snapshot is compacted. */
  method ScanSnapshots(snaps: Snapshots, lfns: seq<LFN>) returns (hits: ReplicaMap, compacted: Snapshots)
    ensures compacted == map t | t in snaps :: Restrict(snaps[t], SetOf(lfns))
    ensures forall l :: l in hits <==> l in lfns && exists t :: t in snaps && l in snaps[t]
    ensures forall l :: l in hits ==> exists t :: t in snaps && l in snaps[t] && snaps[t][l] == hits[l]
  {
    var keep := SetOf(lfns);
    hits := map[];
    compacted := snaps;
    var todo := snaps.Keys;
    while todo != {}
      invariant todo <= snaps.Keys
      invariant compacted.Keys == snaps.Keys
      invariant forall t :: t in todo ==> compacted[t] == snaps[t]
      invariant forall t :: t in snaps && t !in todo ==> compacted[t] == Restrict(snaps[t], keep)
      invariant forall l :: l in hits <==> l in lfns && exists t :: t in snaps && t !in todo && l in snaps[t]
      invariant forall l :: l in hits ==>
        exists t :: t in snaps && t !in todo && l in snaps[t] && snaps[t][l] == hits[l]
      decreases todo
    {
      NonEmptyHasMember(todo);
      var crs :| crs in todo;
      var cachedReplicas := snaps[crs];
      ghost var before := hits;
      hits := CollectHits(lfns, cachedReplicas, hits);
      var kept := CompactSnapshot(cachedReplicas, lfns);
      assert kept == Restrict(cachedReplicas, keep);
      compacted := compacted[crs := kept];
      todo := todo - {crs};
      forall l | l in hits
        ensures exists t :: t in snaps && t !in todo && l in snaps[t] && snaps[t][l] == hits[l]
      {
        if l in lfns && l in cachedReplicas {
          assert snaps[crs][l] == hits[l];
        } else {
          assert l in before;
        }
      }
    }
    var target := map t | t in snaps :: Restrict(snaps[t], keep);
    assert forall t :: t in compacted <==> t in target;
    assert compacted.Keys == target.Keys;
    assert forall t :: t in compacted ==> compacted[t] == target[t];
  }

  /** After the scan no snapshot of `transID` holds an LFN outside the requested
      set, every requested LFN it held is still there, and the other
      transformations are untouched. */
  lemma CompactRetainsOnlyRequested(cache: Cache, transID: int, keep: set<LFN>)
    ensures var c := Compact(cache, transID, keep);
      && (transID in c ==> forall t, l :: t in c[transID] && l in c[transID][t] ==>
            l in keep && l in cache[transID][t] && c[transID][t][l] == cache[transID][t][l])
      && (transID in c ==> forall t, l :: t in cache[transID] && l in cache[transID][t] && l in keep ==>
            l in c[transID][t])
      && (forall id :: id in cache && id != transID ==> c[id] == cache[id])
  {
  }

  /** The requested LFNs held by some snapshot of `transID`. */
  ghost function HitSet(cache: Cache, transID: int, lfns: seq<LFN>): set<LFN> {
    set l | l in lfns && transID in cache && exists t :: t in cache[transID] && l in cache[transID][t]
  }

  /** `[lfn for lfn in lfns if lfn not in found]` */
  function Unresolved(lfns: seq<LFN>, found: set<LFN>): (r: seq<LFN>)
    ensures forall l :: l in r <==> l in lfns && l !in found
    ensures |r| <= |lfns|
  {
    if lfns == [] then []
    else if lfns[0] in found then Unresolved(lfns[1..], found)
    else [lfns[0]] + Unresolved(lfns[1..], found)
  }

  /** The catalog is asked about nothing exactly when every request was a hit. */
  lemma {:induction false} UnresolvedEmpty(lfns: seq<LFN>, found: set<LFN>)
    ensures Unresolved(lfns, found) == [] <==> SetOf(lfns) <= found
  {
    if lfns != [] {
      UnresolvedEmpty(lfns[1..], found);
      assert lfns[0] in SetOf(lfns);
      assert SetOf(lfns) == {lfns[0]} + SetOf(lfns[1..]);
    }
  }

  // ---------------------------------------------------------------------------
  // The catalog reply

  /** An SE whose lower-cased name contains `failover`. */
  predicate IsFailover(se: SE) {
    Contains(Lower(se), "failover")
  }

  /** The replicas of one LFN that an active lookup keeps. */
  function UsableSEs(replicas: map<SE, Pfn>, active: bool): map<SE, Pfn> {
    map se | se in replicas && !(active && IsFailover(se)) :: replicas[se]
  }

  /** The replica map built from the catalog's successful entries. */
  function UsableReplicas(successful: ReplicaMap, active: bool): (r: ReplicaMap)
    ensures forall l :: l in r <==> l in successful && UsableSEs(successful[l], active) != map[]
    ensures forall l, se :: l in r && se in r[l] ==>
      se in successful[l] && r[l][se] == successful[l][se] && !(active && IsFailover(se))
  {
    map l | l in successful && UsableSEs(successful[l], active) != map[] :: UsableSEs(successful[l], active)
  }

  /** Every non-failover replica the catalog reports is kept (every replica, for
      an inactive lookup). */
  lemma UsableReplicasComplete(successful: ReplicaMap, active: bool, l: LFN, se: SE)
    requires l in successful && se in successful[l] && !(active && IsFailover(se))
    ensures l in UsableReplicas(successful, active) && se in UsableReplicas(successful, active)[l]
  {
    var u := UsableSEs(successful[l], active);
    assert se in u;
  }

  /** An LFN whose replicas are all failover SEs gets no entry in an active lookup;
      an inactive lookup keeps every LFN with at least one replica, unchanged. */
  lemma FailoverOnlyDropped(successful: ReplicaMap, l: LFN)
    requires l in successful
    ensures (forall se :: se in successful[l] ==> IsFailover(se)) ==> l !in UsableReplicas(successful, true)
    ensures successful[l] != map[] ==>
      l in UsableReplicas(successful, false) && UsableReplicas(successful, false)[l] == successful[l]
  {
    if forall se :: se in successful[l] ==> IsFailover(se) {
      assert UsableSEs(successful[l], true) == map[];
    }
  }

  /** The LFNs the catalog reports as missing, marked `MissingLFC` in one call. */
  function MissingInCatalog(failed: map<LFN, string>): set<LFN> {
    set l | l in failed && Contains(failed[l], NoSuchFile)
  }

  /** What `__getDataReplicasRM` returns for a catalog reply. */
  function CatalogOutcome(reply: CatalogReply, active: bool): (r: Result<ReplicaMap>)
    ensures reply.Failure? ==> r == Failure(reply.error)
    ensures r.Success? ==>
      reply.Success? && r.value != map[] && r.value == UsableReplicas(reply.value.successful, active)
    ensures reply.Success? && r.Failure? ==>
      r.error == NoReplicasObtained && UsableReplicas(reply.value.successful, active) == map[]
  {
    match reply
    case Failure(m) => Failure(m)
    case Success(b) =>
      var u := UsableReplicas(b.successful, active);
      if u == map[] then Failure(NoReplicasObtained) else Success(u)
  }

  /** The loops of `__getDataReplicasRM` over the catalog reply; `missing` is the
      set of LFNs passed to the single `MissingLFC` status call (empty: no call). */
  method FilterCatalogReply(reply: CatalogReply, active: bool)
    returns (res: Result<ReplicaMap>, missing: set<LFN>)
    ensures res == CatalogOutcome(reply, active)
    ensures missing == if reply.Success? then MissingInCatalog(reply.value.failed) else {}
  {
    if reply.Failure? {
      return Failure(reply.error), {};
    }
    var successful := reply.value.successful;
    var dataReplicas: ReplicaMap := map[];
    var todo := successful.Keys;
    while todo != {}
      invariant todo <= successful.Keys
      invariant forall l :: l in dataReplicas <==>
        l in successful && l !in todo && UsableSEs(successful[l], active) != map[]
      invariant forall l :: l in dataReplicas ==> dataReplicas[l] == UsableSEs(successful[l], active)
      decreases todo
    {
      var lfn :| lfn in todo;
      var replicaDict := successful[lfn];
      var ses := replicaDict.Keys;
      var kept: map<SE, Pfn> := map[];
      while ses != {}
        invariant ses <= replicaDict.Keys
        invariant kept == map se | se in replicaDict && se !in ses && !(active && IsFailover(se)) :: replicaDict[se]
        decreases ses
      {
        var se :| se in ses;
        if !(active && IsFailover(se)) {
          kept := kept[se := replicaDict[se]];
        }
        ses := ses - {se};
      }
      assert kept == UsableSEs(replicaDict, active);
      if kept != map[] {
        dataReplicas := dataReplicas[lfn := kept];
      }
      todo := todo - {lfn};
    }
    assert dataReplicas == UsableReplicas(successful, active);

    var failed := reply.value.failed;
    missing := {};
    var pending := failed.Keys;
    while pending != {}
      invariant pending <= failed.Keys
      invariant missing == set l | l in failed && l !in pending && Contains(failed[l], NoSuchFile)
      decreases pending
    {
      var lfn :| lfn in pending;
      if Contains(failed[lfn], NoSuchFile) {
        missing := missing + {lfn};
      }
      pending := pending - {lfn};
    }

    if dataReplicas == map[] {
      res := Failure(NoReplicasObtained);
    } else {
      res := Success(dataReplicas);
    }
  }

  // ---------------------------------------------------------------------------
  // Storing a batch and cleaning

  /** `replicaCache.setdefault(transID, {})[time] = replicas` */
  function Insert(cache: Cache, transID: int, time: int, replicas: ReplicaMap): (c: Cache)
    ensures c.Keys == cache.Keys + {transID}
    ensures forall id :: id in cache && id != transID ==> c[id] == cache[id]
    ensures transID in c && time in c[transID] && c[transID][time] == replicas
    ensures forall t :: t != time && transID in cache && t in cache[transID] ==> t in c[transID] && c[transID][t] == cache[transID][t]
  {
    cache[transID := (if transID in cache then cache[transID] else map[])[time := replicas]]
  }

  /** The snapshots that survive a cleaning: not older than `limit` and not empty. */
  function FreshSnapshots(snaps: Snapshots, limit: int): Snapshots {
    map t | t in snaps && t >= limit && snaps[t] != map[] :: snaps[t]
  }

  /** The inner loop of `__cleanCache` over one transformation: every snapshot
      older than `limit` or empty is popped. */
  method DropStale(snaps: Snapshots, limit: int) returns (kept: Snapshots)
    ensures kept == FreshSnapshots(snaps, limit)
  {
    kept := snaps;
    var times := snaps.Keys;
    while times != {}
      invariant times <= snaps.Keys
      invariant kept.Keys <= snaps.Keys
      invariant forall t :: t in times ==> t in kept
      invariant forall t :: t in snaps && t !in times ==> (t in kept <==> t >= limit && snaps[t] != map[])
      invariant forall t :: t in kept ==> kept[t] == snaps[t]
      decreases times
    {
      NonEmptyHasMember(times);
      var updateTime :| updateTime in times;
      if updateTime < limit || kept[updateTime] == map[] {
        kept := kept - {updateTime};
      }
      times := times - {updateTime};
    }
    var recent := FreshSnapshots(snaps, limit);
    assert forall t :: t in kept <==> t in recent;
    assert kept.Keys == recent.Keys;
  }

  /** The cache after `__cleanCache` with time limit `limit`. */
  function Cleaned(cache: Cache, limit: int): (c: Cache)
    ensures forall id :: id in c ==> id in cache && c[id] != map[]
    ensures forall id, t :: id in c && t in c[id] ==>
      t >= limit && c[id][t] != map[] && t in cache[id] && c[id][t] == cache[id][t]
  {
    map id | id in cache && FreshSnapshots(cache[id], limit) != map[] :: FreshSnapshots(cache[id], limit)
  }

  /** The loops of `__cleanCache` on a copy of the cache: every stale or empty
      snapshot goes, then every transformation left without snapshots. */
  method DropStaleCache(cache: Cache, limit: int) returns (c: Cache)
    ensures c == Cleaned(cache, limit)
  {
    c := cache;
    var ids := cache.Keys;
    while ids != {}
      invariant ids <= cache.Keys
      invariant c.Keys <= cache.Keys
      invariant forall id :: id in ids ==> id in c && c[id] == cache[id]
      invariant forall id :: id in cache && id !in ids ==>
        (id in c <==> FreshSnapshots(cache[id], limit) != map[])
      invariant forall id :: id in c && id !in ids ==> c[id] == FreshSnapshots(cache[id], limit)
      decreases ids
    {
      NonEmptyHasMember(ids);
      var transID :| transID in ids;
      var snaps := DropStale(c[transID], limit);
      if snaps == map[] {
        c := c - {transID};
      } else {
        c := c[transID := snaps];
      }
      ids := ids - {transID};
    }
    var cleaned := Cleaned(cache, limit);
    forall id
      ensures id in c <==> id in cleaned
    {
      assert id !in ids;
    }
    forall id | id in c
      ensures c[id] == cleaned[id]
    {
      assert id !in ids;
    }
    MapsEqual(c, cleaned);
  }

  /** A fresh, non-empty snapshot survives cleaning unchanged. */
  lemma CleanedKeepsFresh(cache: Cache, limit: int)
    ensures forall id, t :: id in cache && t in cache[id] && t >= limit && cache[id][t] != map[] ==>
      id in Cleaned(cache, limit) && t in Cleaned(cache, limit)[id] &&
      Cleaned(cache, limit)[id][t] == cache[id][t]
  {
    forall id, t | id in cache && t in cache[id] && t >= limit && cache[id][t] != map[]
      ensures id in Cleaned(cache, limit) && t in Cleaned(cache, limit)[id]
    {
      assert t in FreshSnapshots(cache[id], limit);
    }
  }

  /** Cleaning a clean cache changes nothing. */
  lemma CleanedIdempotent(cache: Cache, limit: int)
    ensures Cleaned(Cleaned(cache, limit), limit) == Cleaned(cache, limit)
  {
    var c := Cleaned(cache, limit);
    forall id | id in c ensures FreshSnapshots(c[id], limit) == c[id] {
    }
  }

  function ValidityLimit(now: int): int {
    now - ReplicaCacheValidity * SecondsPerDay
  }

  /** The cache after one `__getDataReplicas` call at time `now`, when `reply` is
      the catalog's answer to the LFNs the cache could not serve. */
  ghost function ResolvedCache(cache: Cache, transID: int, lfns: seq<LFN>, active: bool,
                               reply: CatalogReply, now: int): Cache
  {
    var compacted := Compact(cache, transID, SetOf(lfns));
    var misses := Unresolved(lfns, HitSet(cache, transID, lfns));
    var outcome := CatalogOutcome(reply, active);
    var stored := if misses != [] && outcome.Success? then Insert(compacted, transID, now, outcome.value)
                  else compacted;
    Cleaned(stored, ValidityLimit(now))
  }
}
