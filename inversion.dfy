/** Turning an SE -> LFNs dictionary back into LFN -> SEs, as the checksum
    comparison does when it records each SE's answer under every LFN the
    answer names. */
module Inversion {
  import opened Collections

  /** Every element listed under some key. */
  function Listed<S, L>(m: map<S, set<L>>): set<L> {
    set s, l | s in m && l in m[s] :: l
  }

  /** For each listed element, the keys it is listed under. */
  function Inverse<S, L>(m: map<S, set<L>>): map<L, set<S>> {
    map l | l in Listed(m) :: set s | s in m && l in m[s]
  }

  /** `s` added under each of `keys`. */
  function AddToEach<L, S>(inv: map<L, set<S>>, keys: set<L>, s: S): map<L, set<S>> {
    map l | l in inv.Keys + keys :: Members(inv, l) + (if l in keys then {s} else {})
  }

  /** An element is listed under a key of the inverse exactly when the key is
      listed under it in the original, and no inverse entry is empty. */
  lemma InverseSpec<S, L>(m: map<S, set<L>>, s: S, l: L)
    ensures (l in Inverse(m) && s in Inverse(m)[l]) <==> (s in m && l in m[s])
    ensures l in Inverse(m) ==> Inverse(m)[l] != {}
  {
    if s in m && l in m[s] {
      assert l in Listed(m);
    }
    if l in Inverse(m) {
      var s', l' :| s' in m && l' in m[s'] && l' == l;
      assert s' in Inverse(m)[l];
    }
  }

  /** Inverting with one key more adds that key under each of its elements. */
  lemma InverseAdd<S, L>(m: map<S, set<L>>, s: S, keys: set<L>)
    requires s !in m
    ensures Inverse(m[s := keys]) == AddToEach(Inverse(m), keys, s)
  {
    var a, b := Inverse(m[s := keys]), AddToEach(Inverse(m), keys, s);
    forall l ensures l in a <==> l in b {
      if l in Listed(m[s := keys]) {
        var s', l' :| s' in m[s := keys] && l' in m[s := keys][s'] && l' == l;
        if s' != s {
          assert l in Listed(m);
        }
      }
      if l in Listed(m) {
        var s', l' :| s' in m && l' in m[s'] && l' == l;
        assert s' in m[s := keys];
      }
      if l in keys {
        assert s in m[s := keys] && l in m[s := keys][s];
      }
    }
    forall l | l in a ensures a[l] == b[l] {
      forall t ensures t in a[l] <==> t in b[l] {
        InverseSpec(m, t, l);
      }
    }
    MapsEqual(a, b);
  }

  lemma InverseEmpty<S, L>(m: map<S, set<L>>)
    requires m == map[]
    ensures Inverse(m) == map[]
  {
  }

  /** `for lfn in keys: inv.setdefault(lfn, []).append(s)` */
  method AddEach<L, S>(inv: map<L, set<S>>, keys: set<L>, s: S) returns (r: map<L, set<S>>)
    ensures r == AddToEach(inv, keys, s)
  {
    r := inv;
    var todo := keys;
    while todo != {}
      invariant todo <= keys
      invariant forall l :: l in r <==> l in inv || (l in keys && l !in todo)
      invariant forall l :: l in r ==>
        r[l] == if l in keys && l !in todo then Members(inv, l) + {s} else inv[l]
      decreases todo
    {
      var l :| l in todo;
      r := r[l := Members(inv, l) + {s}];
      todo := todo - {l};
    }
    forall l | l in r && l !in keys ensures r[l] == AddToEach(inv, keys, s)[l] {
      assert Members(inv, l) + {} == inv[l];
    }
    MapsEqual(r, AddToEach(inv, keys, s));
  }

  // The same for dictionaries of values rather than lists.

  function ListedIn<S, L, V>(m: map<S, map<L, V>>): set<L> {
    set s, l | s in m && l in m[s] :: l
  }

  /** For each element, the keys it is recorded under, with what was recorded. */
  function InverseMap<S, L, V>(m: map<S, map<L, V>>): map<L, map<S, V>> {
    map l | l in ListedIn(m) :: map s | s in m && l in m[s] :: m[s][l]
  }

  function Entries<L, S, V>(inv: map<L, map<S, V>>, l: L): map<S, V> {
    if l in inv then inv[l] else map[]
  }

  /** `vals[l]` recorded under `s` for each `l` of `vals`. */
  function PutEach<L, S, V>(inv: map<L, map<S, V>>, vals: map<L, V>, s: S): map<L, map<S, V>> {
    map l | l in inv.Keys + vals.Keys :: if l in vals then Entries(inv, l)[s := vals[l]] else inv[l]
  }

  lemma InverseMapSpec<S, L, V>(m: map<S, map<L, V>>, s: S, l: L)
    ensures (l in InverseMap(m) && s in InverseMap(m)[l]) <==> (s in m && l in m[s])
    ensures l in InverseMap(m) && s in InverseMap(m)[l] ==> InverseMap(m)[l][s] == m[s][l]
    ensures l in InverseMap(m) ==> InverseMap(m)[l] != map[]
  {
    if s in m && l in m[s] {
      assert l in ListedIn(m);
    }
    if l in InverseMap(m) {
      var s', l' :| s' in m && l' in m[s'] && l' == l;
      assert s' in InverseMap(m)[l];
    }
  }

  lemma InverseMapAdd<S, L, V>(m: map<S, map<L, V>>, s: S, vals: map<L, V>)
    requires s !in m
    ensures InverseMap(m[s := vals]) == PutEach(InverseMap(m), vals, s)
  {
    var a, b := InverseMap(m[s := vals]), PutEach(InverseMap(m), vals, s);
    forall l ensures l in a <==> l in b {
      if l in ListedIn(m[s := vals]) {
        var s', l' :| s' in m[s := vals] && l' in m[s := vals][s'] && l' == l;
        if s' != s {
          assert l in ListedIn(m);
        }
      }
      if l in ListedIn(m) {
        var s', l' :| s' in m && l' in m[s'] && l' == l;
        assert s' in m[s := vals];
      }
      if l in vals {
        assert s in m[s := vals] && l in m[s := vals][s];
      }
    }
    forall l | l in a ensures a[l] == b[l] {
      forall t ensures t in a[l] <==> t in b[l] {
        InverseMapSpec(m, t, l);
      }
      forall t | t in a[l] ensures a[l][t] == b[l][t] {
        InverseMapSpec(m, t, l);
      }
      MapsEqual(a[l], b[l]);
    }
    MapsEqual(a, b);
  }

  lemma InverseMapEmpty<S, L, V>(m: map<S, map<L, V>>)
    requires m == map[]
    ensures InverseMap(m) == map[]
  {
  }

  /** `for lfn in vals: inv.setdefault(lfn, {})[s] = vals[lfn]` */
  method PutEachLoop<L, S, V>(inv: map<L, map<S, V>>, vals: map<L, V>, s: S) returns (r: map<L, map<S, V>>)
    ensures r == PutEach(inv, vals, s)
  {
    r := inv;
    var todo := vals.Keys;
    while todo != {}
      invariant todo <= vals.Keys
      invariant forall l :: l in r <==> l in inv || (l in vals && l !in todo)
      invariant forall l :: l in r ==>
        r[l] == if l in vals && l !in todo then Entries(inv, l)[s := vals[l]] else inv[l]
      decreases todo
    {
      var l :| l in todo;
      r := r[l := Entries(inv, l)[s := vals[l]]];
      todo := todo - {l};
    }
    MapsEqual(r, PutEach(inv, vals, s));
  }
}
