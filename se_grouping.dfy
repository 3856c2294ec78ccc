/** The reversal of an LFN -> replicas dictionary into SE -> LFNs, used by both
    the checksum comparison and the physical-file check. */
module SeGrouping {
  import opened Catalog
  import opened Collections

  /** Whether a replica at `se` takes part: an empty `ses` selects every SE. */
  predicate Selected<S(==)>(se: S, ses: seq<S>) {
    ses == [] || se in ses
  }

  function SelectedSEs<S(==), P>(r: map<S, P>, ses: seq<S>): set<S> {
    set se | se in r && Selected(se, ses)
  }

  /** The SEs holding a selected replica of one of the LFNs `done`. */
  function SEsOver<L, S(==), P>(replicas: map<L, map<S, P>>, done: set<L>, ses: seq<S>): set<S> {
    set l, se | l in done && l in replicas && se in SelectedSEs(replicas[l], ses) :: se
  }

  /** The LFNs among `done` with a selected replica at `se`. */
  function FilesAt<L, S(==), P>(replicas: map<L, map<S, P>>, done: set<L>, se: S, ses: seq<S>): set<L> {
    set l | l in done && l in replicas && se in SelectedSEs(replicas[l], ses)
  }

  function GroupOver<L, S(==), P>(replicas: map<L, map<S, P>>, done: set<L>, ses: seq<S>): map<S, set<L>> {
    map se | se in SEsOver(replicas, done, ses) :: FilesAt(replicas, done, se, ses)
  }

  /** `seLfns`/`seFiles`: every selected SE with the LFNs it holds. */
  function Grouping<L, S(==), P>(replicas: map<L, map<S, P>>, ses: seq<S>): map<S, set<L>> {
    GroupOver(replicas, replicas.Keys, ses)
  }

  /** The number of selected replicas of each of the LFNs `done`. */
  function ReplicaCounts<L, S(==), P>(replicas: map<L, map<S, P>>, done: set<L>, ses: seq<S>): map<L, nat> {
    map l | l in done && l in replicas :: |SelectedSEs(replicas[l], ses)|
  }

  /** An LFN is listed under an SE exactly when it has a selected replica
      there, and only SEs with at least one listed LFN appear. */
  lemma GroupingSpec<L, S, P>(replicas: map<L, map<S, P>>, ses: seq<S>, se: S, l: L)
    ensures var g := Grouping(replicas, ses);
      (se in g && l in g[se]) <==> (l in replicas && se in replicas[l] && Selected(se, ses))
    ensures var g := Grouping(replicas, ses);
      se in g ==> g[se] != {}
  {
    var g := Grouping(replicas, ses);
    if l in replicas && se in replicas[l] && Selected(se, ses) {
      assert se in SelectedSEs(replicas[l], ses);
      assert se in SEsOver(replicas, replicas.Keys, ses);
    }
    if se in g {
      var l', se' :| l' in replicas && se' in SelectedSEs(replicas[l'], ses) && se' == se;
      assert l' in g[se];
    }
  }

  /** Without an SE filter, the count of an LFN is its number of replicas. */
  lemma CountsWithoutFilter<L, S, P>(replicas: map<L, map<S, P>>)
    ensures ReplicaCounts(replicas, replicas.Keys, []) == map l | l in replicas :: |replicas[l].Keys|
  {
    forall l | l in replicas ensures SelectedSEs(replicas[l], []) == replicas[l].Keys {
    }
  }

  /** The inner loop: `seLfns.setdefault(se, []).append(lfn)` for each
      selected SE of one LFN. */
  method AddReplicasOf<L, S(==), P>(groups: map<S, set<L>>, lfn: L, r: map<S, P>, ses: seq<S>)
    returns (g: map<S, set<L>>)
    ensures forall s :: s in g <==> s in groups || s in SelectedSEs(r, ses)
    ensures forall s :: s in g ==>
      g[s] == if s in SelectedSEs(r, ses) then Members(groups, s) + {lfn} else groups[s]
  {
    g := groups;
    var todo := r.Keys;
    while todo != {}
      invariant todo <= r.Keys
      invariant forall s :: s in g <==> s in groups || (s in r && s !in todo && Selected(s, ses))
      invariant forall s :: s in g ==>
        g[s] == if s in r && s !in todo && Selected(s, ses) then Members(groups, s) + {lfn} else groups[s]
      decreases todo
    {
      var se :| se in todo;
      if Selected(se, ses) {
        assert SelectedSEs(r, ses) - (todo - {se}) == (SelectedSEs(r, ses) - todo) + {se};
        g := g[se := Members(groups, se) + {lfn}];
      } else {
        assert SelectedSEs(r, ses) - (todo - {se}) == SelectedSEs(r, ses) - todo;
      }
      todo := todo - {se};
    }
  }
  /** One LFN more in the grouping. */
  lemma GroupOverAdd<L, S, P>(replicas: map<L, map<S, P>>, done: set<L>, l: L, ses: seq<S>, se: S)
    requires l in replicas && l !in done
    ensures se in SEsOver(replicas, done + {l}, ses) <==>
      se in SEsOver(replicas, done, ses) || se in SelectedSEs(replicas[l], ses)
    ensures FilesAt(replicas, done + {l}, se, ses) ==
      FilesAt(replicas, done, se, ses) + (if se in SelectedSEs(replicas[l], ses) then {l} else {})
  {
    if se in SEsOver(replicas, done + {l}, ses) {
      var l', se' :| l' in done + {l} && l' in replicas && se' in SelectedSEs(replicas[l'], ses) && se' == se;
      if l' != l {
        assert se in SEsOver(replicas, done, ses);
      }
    }
    if se in SEsOver(replicas, done, ses) {
      var l', se' :| l' in done && l' in replicas && se' in SelectedSEs(replicas[l'], ses) && se' == se;
      assert l' in done + {l};
    }
    if se in SelectedSEs(replicas[l], ses) {
      assert se in SEsOver(replicas, done + {l}, ses);
    }
    forall x ensures x in FilesAt(replicas, done + {l}, se, ses) <==>
      x in FilesAt(replicas, done, se, ses) || (x == l && se in SelectedSEs(replicas[l], ses)) {
    }
  }

  /** `se in SEsOver` exactly when the SE has a file. */
  lemma SEsOverFiles<L, S, P>(replicas: map<L, map<S, P>>, done: set<L>, ses: seq<S>, se: S)
    ensures se in SEsOver(replicas, done, ses) <==> FilesAt(replicas, done, se, ses) != {}
  {
    if se in SEsOver(replicas, done, ses) {
      var l', se' :| l' in done && l' in replicas && se' in SelectedSEs(replicas[l'], ses) && se' == se;
      assert l' in FilesAt(replicas, done, se, ses);
    }
    if FilesAt(replicas, done, se, ses) != {} {
      var l' :| l' in FilesAt(replicas, done, se, ses);
      assert se in SelectedSEs(replicas[l'], ses);
    }
  }

  /** `seLfns` is the grouping of the LFNs `done`. */
  ghost predicate Grouped<L, S, P>(seLfns: map<S, set<L>>, replicas: map<L, map<S, P>>, done: set<L>, ses: seq<S>) {
    seLfns.Keys == SEsOver(replicas, done, ses) &&
    forall se | se in seLfns :: seLfns[se] == FilesAt(replicas, done, se, ses)
  }

  /** Adding one LFN's selected SEs to the grouping of `done` gives the
      grouping of `done` with that LFN. */
  lemma GroupStep<L, S, P>(seLfns: map<S, set<L>>, g: map<S, set<L>>, replicas: map<L, map<S, P>>,
                           done: set<L>, lfn: L, ses: seq<S>)
    requires Grouped(seLfns, replicas, done, ses) && lfn in replicas && lfn !in done
    requires forall s :: s in g <==> s in seLfns || s in SelectedSEs(replicas[lfn], ses)
    requires forall s :: s in g ==>
      g[s] == if s in SelectedSEs(replicas[lfn], ses) then Members(seLfns, s) + {lfn} else seLfns[s]
    ensures Grouped(g, replicas, done + {lfn}, ses)
  {
    forall se ensures se in g <==> se in SEsOver(replicas, done + {lfn}, ses) {
      GroupOverAdd(replicas, done, lfn, ses, se);
    }
    forall se | se in g ensures g[se] == FilesAt(replicas, done + {lfn}, se, ses) {
      GroupOverAdd(replicas, done, lfn, ses, se);
      SEsOverFiles(replicas, done, ses, se);
    }
  }

  /** The count of `done` with one LFN more. */
  lemma CountStep<L, S, P>(replicas: map<L, map<S, P>>, done: set<L>, lfn: L, ses: seq<S>)
    requires lfn in replicas && lfn !in done
    ensures SumOf(ReplicaCounts(replicas, done + {lfn}, ses)) ==
      SumOf(ReplicaCounts(replicas, done, ses)) + |SelectedSEs(replicas[lfn], ses)|
  {
    var counts := ReplicaCounts(replicas, done + {lfn}, ses);
    SumOfRemove(counts, lfn);
    assert counts - {lfn} == ReplicaCounts(replicas, done, ses);
  }

  /** The loop invariant of `GroupBySE` carried past one more LFN. */
  lemma GroupAdvance<L, S, P>(seLfns: map<S, set<L>>, g: map<S, set<L>>, replicas: map<L, map<S, P>>,
                              done: set<L>, todo: set<L>, nReps: nat, lfn: L, ses: seq<S>)
    requires todo <= replicas.Keys && done == replicas.Keys - todo && lfn in todo
    requires Grouped(seLfns, replicas, done, ses)
    requires nReps == SumOf(ReplicaCounts(replicas, done, ses))
    requires forall s :: s in g <==> s in seLfns || s in SelectedSEs(replicas[lfn], ses)
    requires forall s :: s in g ==>
      g[s] == if s in SelectedSEs(replicas[lfn], ses) then Members(seLfns, s) + {lfn} else seLfns[s]
    ensures todo - {lfn} <= replicas.Keys && done + {lfn} == replicas.Keys - (todo - {lfn})
    ensures Grouped(g, replicas, done + {lfn}, ses)
    ensures nReps + |SelectedSEs(replicas[lfn], ses)| == SumOf(ReplicaCounts(replicas, done + {lfn}, ses))
  {
    GroupStep(seLfns, g, replicas, done, lfn, ses);
    CountStep(replicas, done, lfn, ses);
  }

  /** The grouping of all LFNs is `Grouping`. */
  lemma GroupedIsGrouping<L, S, P>(seLfns: map<S, set<L>>, replicas: map<L, map<S, P>>, ses: seq<S>)
    requires Grouped(seLfns, replicas, replicas.Keys, ses)
    ensures seLfns == Grouping(replicas, ses)
  {
    MapsEqual(seLfns, Grouping(replicas, ses));
  }

  /** The reversal loop of both checks: the SE -> LFNs grouping and the number
      of (LFN, SE) pairs visited, `nReps`. */
  method GroupBySE<L, S(==), P>(replicas: map<L, map<S, P>>, ses: seq<S>) returns (seLfns: map<S, set<L>>, nReps: nat)
    ensures seLfns == Grouping(replicas, ses)
    ensures nReps == SumOf(ReplicaCounts(replicas, replicas.Keys, ses))
  {
    seLfns, nReps := map[], 0;
    var todo := replicas.Keys;
    ghost var done: set<L> := {};
    assert ReplicaCounts(replicas, done, ses) == map[];
    while todo != {}
      invariant todo <= replicas.Keys && done == replicas.Keys - todo
      invariant Grouped(seLfns, replicas, done, ses)
      invariant nReps == SumOf(ReplicaCounts(replicas, done, ses))
      decreases todo
    {
      var lfn :| lfn in todo;
      var g := AddReplicasOf(seLfns, lfn, replicas[lfn], ses);
      GroupAdvance(seLfns, g, replicas, done, todo, nReps, lfn, ses);
      seLfns, nReps := g, nReps + |SelectedSEs(replicas[lfn], ses)|;
      done := done + {lfn};
      todo := todo - {lfn};
    }
    assert done == replicas.Keys;
    GroupedIsGrouping(seLfns, replicas, ses);
  }
}
