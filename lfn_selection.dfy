/** The list and dictionary logic of the consistency inspector that works on
    LFNs alone: comparing two LFN lists, keeping the descendants of the wanted
    file types, and counting descendants per file type. */
module LfnSelection {
  import opened Catalog
  import opened Collections

  // ---------------------------------------------------------------------------
  // `__compareLFNLists`

  /** The distinct elements of `s`, in first-occurrence order, that are not in
      `seen` and whose membership of `found` is `inFound`. */
  function Pick(s: seq<LFN>, found: set<LFN>, inFound: bool, seen: set<LFN>): seq<LFN> {
    if s == [] then []
    else if s[0] in seen || (s[0] in found) != inFound then Pick(s[1..], found, inFound, seen)
    else [s[0]] + Pick(s[1..], found, inFound, seen + {s[0]})
  }

  lemma {:induction false} PickSpec(s: seq<LFN>, found: set<LFN>, inFound: bool, seen: set<LFN>)
    ensures Distinct(Pick(s, found, inFound, seen))
    ensures forall x :: x in Pick(s, found, inFound, seen) <==>
      x in s && x !in seen && (x in found) == inFound
  {
    if s != [] {
      var x := s[0];
      assert forall y :: y in s <==> y == x || y in s[1..];
      if x in seen || (x in found) != inFound {
        PickSpec(s[1..], found, inFound, seen);
      } else {
        PickSpec(s[1..], found, inFound, seen + {x});
        var r := Pick(s[1..], found, inFound, seen + {x});
        forall i, j | 0 <= i < j < |[x] + r| ensures ([x] + r)[i] != ([x] + r)[j] {
          if i == 0 {
            assert ([x] + r)[j] == r[j - 1];
          } else {
            assert ([x] + r)[i] == r[i - 1] && ([x] + r)[j] == r[j - 1];
          }
        }
      }
    }
  }

  /** `(present, notPresent)`: with a non-empty second list, the distinct LFNs
      of `lfns` that are in it and those that are not (in order of first
      occurrence, one of the orders `list(set(...))` may give); with an empty
      second list, nothing is present and `lfns` is returned as it is. */
  function CompareLFNLists(lfns: seq<LFN>, lfnsFound: seq<LFN>): (r: (seq<LFN>, seq<LFN>))
    ensures lfnsFound == [] ==> r == ([], lfns)
    ensures lfnsFound != [] ==> Distinct(r.0) && Distinct(r.1)
    ensures lfnsFound != [] ==> forall x :: x in r.0 <==> x in lfns && x in lfnsFound
    ensures lfnsFound != [] ==> forall x :: x in r.1 <==> x in lfns && x !in lfnsFound
  {
    if lfnsFound == [] then ([], lfns)
    else
      var found := SetOf(lfnsFound);
      PickSpec(lfns, found, true, {});
      PickSpec(lfns, found, false, {});
      (Pick(lfns, found, true, {}), Pick(lfns, found, false, {}))
  }

  // ---------------------------------------------------------------------------
  // `_selectByFileType`

  /** The metadata of a descendant; only `FileType` is read. */
  datatype FileMeta = FileMeta(fileType: string)

  type Descendants = map<LFN, FileMeta>
  type AncestorMap = map<LFN, Descendants>

  /** The type filter in force: the argument, or the inspector's own list when
      the argument is empty; `['']` means no filter. */
  function EffectiveTypes(arg: seq<string>, own: seq<string>): (types: seq<string>)
    ensures arg != [] && arg != [""] ==> types == arg
    ensures arg == [] && own != [""] ==> types == own
    ensures types != [""]
    ensures (if arg == [] then own else arg) == [""] ==> types == []
  {
    var t := if arg == [] then own else arg;
    if t == [""] then [] else t
  }

  /** `[ft for ft in own if ft not in arg]` */
  function NotIn(own: seq<string>, arg: seq<string>): (r: seq<string>)
    ensures forall x :: x in r <==> x in own && x !in arg
  {
    if own == [] then []
    else if own[0] in arg then NotIn(own[1..], arg)
    else [own[0]] + NotIn(own[1..], arg)
  }

  /** The exclusion list in force: the inspector's own list when the argument is
      empty, and otherwise the argument extended with the inspector's types it
      lacks. The extension is computed before the argument grows, so a type
      that occurs twice in the inspector's list is added twice. */
  function EffectiveExcluded(arg: seq<string>, own: seq<string>): (excl: seq<string>)
    ensures arg == [] ==> excl == own
    ensures arg != [] ==> |excl| >= |arg| && excl[..|arg|] == arg
    ensures forall x :: x in excl <==> x in arg || x in own
  {
    if arg == [] then own else arg + NotIn(own, arg)
  }

  /** Whether a descendant of type `ft` survives the selection. */
  predicate Kept(ft: string, types: seq<string>, excl: seq<string>) {
    ft !in excl && (types == [] || ft in types)
  }

  function FilterDescendants(d: Descendants, types: seq<string>, excl: seq<string>): Descendants {
    map k | k in d && Kept(d[k].fileType, types, excl) :: d[k]
  }

  /** Every ancestor, with only its kept descendants. */
  function Filtered(m: AncestorMap, types: seq<string>, excl: seq<string>): AncestorMap {
    map a | a in m :: FilterDescendants(m[a], types, excl)
  }

  /** The ancestors left with at least one descendant. */
  function NonEmpty(m: AncestorMap): AncestorMap {
    map a | a in m && m[a] != map[] :: m[a]
  }

  /** What survives: exactly the descendants of ancestors in the input whose
      type is kept, with their metadata, under ancestors that keep one. */
  lemma SelectionSurvivors(m: AncestorMap, types: seq<string>, excl: seq<string>, a: LFN, k: LFN)
    ensures var s := NonEmpty(Filtered(m, types, excl));
      (a in s && k in s[a]) <==> (a in m && k in m[a] && Kept(m[a][k].fileType, types, excl))
    ensures var s := NonEmpty(Filtered(m, types, excl));
      a in s && k in s[a] ==> s[a][k] == m[a][k]
    ensures var s := NonEmpty(Filtered(m, types, excl));
      a in s ==> s[a] != map[]
  {
    if a in m && k in m[a] && Kept(m[a][k].fileType, types, excl) {
      assert k in Filtered(m, types, excl)[a];
    }
  }

  /** Selecting again with the same filter changes nothing. */
  lemma SelectionIdempotent(m: AncestorMap, types: seq<string>, excl: seq<string>)
    ensures var s := NonEmpty(Filtered(m, types, excl));
      NonEmpty(Filtered(s, types, excl)) == s
  {
    var s := NonEmpty(Filtered(m, types, excl));
    forall a | a in s ensures FilterDescendants(s[a], types, excl) == s[a] {
    }
    assert Filtered(s, types, excl) == s;
  }

  /** With no type list and nothing excluded, a selection drops only the
      ancestors that have no descendants. */
  lemma NoFilterKeepsAll(m: AncestorMap)
    ensures NonEmpty(Filtered(m, [], [])) == NonEmpty(m)
  {
    forall a | a in m ensures FilterDescendants(m[a], [], []) == m[a] {
    }
    assert Filtered(m, [], []) == m;
  }

  /** The inner loop: pops every unwanted descendant of one ancestor. */
  method DropUnwanted(d: Descendants, types: seq<string>, excl: seq<string>) returns (kept: Descendants)
    ensures kept == FilterDescendants(d, types, excl)
  {
    kept := d;
    var todo := d.Keys;
    while todo != {}
      invariant todo <= d.Keys
      invariant forall k :: k in kept <==> k in d && (k in todo || Kept(d[k].fileType, types, excl))
      invariant forall k :: k in kept ==> kept[k] == d[k]
      decreases todo
    {
      var desc :| desc in todo;
      if !Kept(d[desc].fileType, types, excl) {
        kept := kept - {desc};
      }
      todo := todo - {desc};
    }
    MapsEqual(kept, FilterDescendants(d, types, excl));
  }

  /** The outer loop over the ancestors. `after` is the caller's dictionary once
      the loop is done: the copy taken is shallow, so its inner dictionaries lose
      the popped descendants too, while only the copy loses empty ancestors. */
  method SelectDescendants(m: AncestorMap, types: seq<string>, excl: seq<string>)
    returns (selected: AncestorMap, after: AncestorMap)
    ensures after == Filtered(m, types, excl)
    ensures selected == NonEmpty(Filtered(m, types, excl))
  {
    selected := m;
    after := m;
    var todo := m.Keys;
    while todo != {}
      invariant todo <= m.Keys
      invariant forall a :: a in after <==> a in m
      invariant forall a :: a in after ==>
        after[a] == if a in todo then m[a] else FilterDescendants(m[a], types, excl)
      invariant forall a :: a in selected <==> a in m && (a in todo || after[a] != map[])
      invariant forall a :: a in selected ==> selected[a] == after[a]
      decreases todo
    {
      var ancestor :| ancestor in todo;
      var kept := DropUnwanted(m[ancestor], types, excl);
      after := after[ancestor := kept];
      if kept == map[] {
        selected := selected - {ancestor};
      } else {
        selected := selected[ancestor := kept];
      }
      todo := todo - {ancestor};
    }
    MapsEqual(after, Filtered(m, types, excl));
    MapsEqual(selected, NonEmpty(Filtered(m, types, excl)));
  }

  // ---------------------------------------------------------------------------
  // `_getFileTypesCount`

  /** The file types met among the descendants `keys` of `d`. */
  function TypesOver(d: Descendants, keys: set<LFN>): set<string> {
    set k | k in keys && k in d :: d[k].fileType
  }

  /** How many of the descendants `keys` of `d` have type `ft`. */
  function CountOf(d: Descendants, keys: set<LFN>, ft: string): nat {
    |set k | k in keys && k in d && d[k].fileType == ft|
  }

  /** The per-type counts of the descendants `keys` of `d`. */
  function CountsOver(d: Descendants, keys: set<LFN>): map<string, nat> {
    map ft | ft in TypesOver(d, keys) :: CountOf(d, keys, ft)
  }

  /** The per-type count of one ancestor's descendants. */
  function CountByType(d: Descendants): map<string, nat> {
    CountsOver(d, d.Keys)
  }

  /** One more descendant raises the count of its own type by one. */
  lemma CountOfAdd(d: Descendants, keys: set<LFN>, k: LFN, ft: string)
    requires k in d && k !in keys
    ensures CountOf(d, keys + {k}, ft) == CountOf(d, keys, ft) + (if d[k].fileType == ft then 1 else 0)
  {
    var before := set j | j in keys && j in d && d[j].fileType == ft;
    var now := set j | j in keys + {k} && j in d && d[j].fileType == ft;
    if d[k].fileType == ft {
      assert now == before + {k};
    } else {
      assert now == before;
    }
  }

  /** A type is met exactly when its count is positive. */
  lemma CountOfPositive(d: Descendants, keys: set<LFN>, ft: string)
    ensures ft in TypesOver(d, keys) <==> CountOf(d, keys, ft) > 0
  {
    var s := set j | j in keys && j in d && d[j].fileType == ft;
    if ft in TypesOver(d, keys) {
      var k :| k in keys && k in d && d[k].fileType == ft;
      assert k in s;
    }
    if CountOf(d, keys, ft) > 0 {
      assert s != {};
      var k :| k in s;
      assert ft == d[k].fileType;
    }
  }

  /** Adding a descendant adds one to the sum of the counts. */
  lemma CountsOverAdd(d: Descendants, rest: set<LFN>, k: LFN)
    requires k in d && k !in rest
    ensures SumOf(CountsOver(d, rest + {k})) == SumOf(CountsOver(d, rest)) + 1
  {
    var ft := d[k].fileType;
    var counts, restCounts := CountsOver(d, rest + {k}), CountsOver(d, rest);
    forall t ensures CountOf(d, rest + {k}, t) == CountOf(d, rest, t) + (if t == ft then 1 else 0) {
      CountOfAdd(d, rest, k, t);
    }
    assert ft in TypesOver(d, rest + {k});
    SumOfRemove(counts, ft);
    if ft in restCounts {
      SumOfRemove(restCounts, ft);
      CountsWithout(d, rest, k);
    } else {
      CountOfPositive(d, rest, ft);
      CountsFresh(d, rest, k);
    }
  }

  /** Away from the new descendant's type, the counts do not move. */
  lemma CountsWithout(d: Descendants, rest: set<LFN>, k: LFN)
    requires k in d && k !in rest
    ensures CountsOver(d, rest + {k}) - {d[k].fileType} == CountsOver(d, rest) - {d[k].fileType}
  {
    var ft := d[k].fileType;
    assert TypesOver(d, rest + {k}) == TypesOver(d, rest) + {ft};
    forall t | t != ft ensures CountOf(d, rest + {k}, t) == CountOf(d, rest, t) {
      CountOfAdd(d, rest, k, t);
    }
  }

  /** A descendant of a type not met before brings a count of one. */
  lemma CountsFresh(d: Descendants, rest: set<LFN>, k: LFN)
    requires k in d && k !in rest && d[k].fileType !in TypesOver(d, rest)
    ensures CountsOver(d, rest + {k}) - {d[k].fileType} == CountsOver(d, rest)
  {
    CountsWithout(d, rest, k);
    assert d[k].fileType !in CountsOver(d, rest);
    assert CountsOver(d, rest) - {d[k].fileType} == CountsOver(d, rest);
  }

  /** The per-type counts of a set of descendants add up to its size. */
  lemma {:induction false} SumOfCounts(d: Descendants, keys: set<LFN>)
    requires keys <= d.Keys
    ensures SumOf(CountsOver(d, keys)) == |keys|
    decreases |keys|
  {
    if keys == {} {
      assert CountsOver(d, keys) == map[];
    } else {
      var k :| k in keys;
      var rest := keys - {k};
      SumOfCounts(d, rest);
      assert keys == rest + {k};
      CountsOverAdd(d, rest, k);
    }
  }

  /** Each ancestor's per-type counts sum to its number of descendants. */
  lemma SumCountByType(d: Descendants)
    ensures SumOf(CountByType(d)) == |d|
  {
    SumOfCounts(d, d.Keys);
    assert |d.Keys| == |d|;
  }

  /** `t_dict` for one ancestor: `setdefault(ft, 0) + 1` per descendant. */
  method CountTypes(d: Descendants) returns (counts: map<string, nat>)
    ensures counts == CountByType(d)
  {
    counts := map[];
    var done: set<LFN> := {};
    var todo := d.Keys;
    while todo != {}
      invariant todo <= d.Keys && done == d.Keys - todo
      invariant counts.Keys == TypesOver(d, done)
      invariant forall ft :: ft in counts ==> counts[ft] == CountOf(d, done, ft)
      decreases todo
    {
      var desc :| desc in todo;
      var ft := d[desc].fileType;
      var n := if ft in counts then counts[ft] else 0;
      CountOfPositive(d, done, ft);
      forall t ensures CountOf(d, done + {desc}, t) == CountOf(d, done, t) + (if t == ft then 1 else 0) {
        CountOfAdd(d, done, desc, t);
      }
      counts := counts[ft := n + 1];
      assert TypesOver(d, done + {desc}) == TypesOver(d, done) + {ft};
      done := done + {desc};
      todo := todo - {desc};
    }
    assert done == d.Keys;
    MapsEqual(counts, CountByType(d));
  }

  /** `_getFileTypesCount`: one per-type count for every ancestor. */
  method GetFileTypesCount(lfnDict: AncestorMap) returns (ftDict: map<LFN, map<string, nat>>)
    ensures ftDict.Keys == lfnDict.Keys
    ensures forall a :: a in ftDict ==> ftDict[a] == CountByType(lfnDict[a])
  {
    ftDict := map[];
    var todo := lfnDict.Keys;
    while todo != {}
      invariant todo <= lfnDict.Keys
      invariant ftDict.Keys == lfnDict.Keys - todo
      invariant forall a :: a in ftDict ==> ftDict[a] == CountByType(lfnDict[a])
      decreases todo
    {
      var ancestor :| ancestor in todo;
      var counts := CountTypes(lfnDict[ancestor]);
      ftDict := ftDict[ancestor := counts];
      todo := todo - {ancestor};
    }
  }
}
