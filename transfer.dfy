/**
 The two shapes of the store. In memory each day holds a set of habit ids;
 in local storage and in the exported file each day holds an array. Saving
 and exporting turn every set into an array (`Array.from`), loading and
 importing turn every array back into a set (`new Set(array)`), so duplicates
 in a file collapse. JSON text itself is not modelled here.
 */
module Transfer {
  import opened Completions

  /** The store as written to storage or to a file: day key to array of ids. */
  type StoredForm = map<string, seq<string>>

  function Elems(a: seq<string>): set<string> {
    set x | x in a
  }

  predicate NoDuplicates(a: seq<string>) {
    forall i, j :: 0 <= i < j < |a| ==> a[i] != a[j]
  }

  /** `p` is one of the arrays-form renderings of `s`: the same keys, and for
      each key an array without duplicates listing exactly that day's set, in
      some order. */
  ghost predicate Represents(s: Store, p: StoredForm) {
    && p.Keys == s.Keys
    && forall k :: k in p ==> Elems(p[k]) == s[k] && NoDuplicates(p[k])
  }

  /** The store read back from the arrays form. */
  function AsSets(p: StoredForm): (s: Store)
    ensures s.Keys == p.Keys
    ensures forall k, x :: k in p ==> (x in s[k] <==> x in p[k])
  {
    map k | k in p :: Elems(p[k])
  }

  /** An array without duplicates is as long as the set of its elements. */
  lemma {:induction false} NoDuplicatesLength(a: seq<string>)
    requires NoDuplicates(a)
    ensures |Elems(a)| == |a|
    decreases |a|
  {
    if |a| > 0 {
      NoDuplicatesLength(a[1..]);
      assert Elems(a) == Elems(a[1..]) + {a[0]};
      assert a[0] !in Elems(a[1..]);
    }
  }

  /** `Array.from(set)`: every element once, in some order. */
  method SetToArray(s: set<string>) returns (a: seq<string>)
    ensures Elems(a) == s && NoDuplicates(a)
    ensures |a| == |s|
  {
    a := [];
    var rest := s;
    while rest != {}
      invariant Elems(a) + rest == s
      invariant Elems(a) !! rest
      invariant NoDuplicates(a)
      decreases rest
    {
      var x :| x in rest;
      a := a + [x];
      rest := rest - {x};
    }
    NoDuplicatesLength(a);
  }

  /** `new Set(array)`. */
  method ArrayToSet(a: seq<string>) returns (s: set<string>)
    ensures s == Elems(a)
  {
    s := {};
    for i := 0 to |a|
      invariant s == Elems(a[..i])
    {
      assert a[..i + 1] == a[..i] + [a[i]];
      s := s + {a[i]};
    }
    assert a[..|a|] == a;
  }

  /** The save and export loop: `Object.keys(habits).forEach(...)`. */
  method ToArrays(s: Store) returns (p: StoredForm)
    ensures Represents(s, p)
  {
    p := map[];
    var keys := s.Keys;
    while keys != {}
      invariant keys <= s.Keys
      invariant p.Keys == s.Keys - keys
      invariant forall k :: k in p ==> Elems(p[k]) == s[k] && NoDuplicates(p[k])
      decreases keys
    {
      var key :| key in keys;
      var arr := SetToArray(s[key]);
      p := p[key := arr];
      keys := keys - {key};
    }
  }

  /** The load and import loop: `Object.keys(parsed).forEach(...)`. */
  method FromArrays(p: StoredForm) returns (s: Store)
    ensures s == AsSets(p)
  {
    s := map[];
    var keys := p.Keys;
    while keys != {}
      invariant keys <= p.Keys
      invariant s.Keys == p.Keys - keys
      invariant forall k :: k in s ==> s[k] == Elems(p[k])
      decreases keys
    {
      var key :| key in keys;
      var daySet := ArrayToSet(p[key]);
      s := s[key := daySet];
      keys := keys - {key};
    }
  }

  /** Export then import (or save then load) gives back the very same store. */
  lemma SetsArraysRoundTrip(s: Store, p: StoredForm)
    requires Represents(s, p)
    ensures AsSets(p) == s
  {
  }

  /** Import then export gives the same keys and, per key, the same ids, each
      once: duplicates in the file are dropped, order is not kept. */
  lemma ArraysSetsRoundTrip(p: StoredForm, p': StoredForm)
    requires Represents(AsSets(p), p')
    ensures p'.Keys == p.Keys
    ensures forall k, x :: k in p ==> (x in p'[k] <==> x in p[k])
    ensures forall k :: k in p ==> NoDuplicates(p'[k]) && |p'[k]| <= |p[k]|
  {
    forall k | k in p ensures |p'[k]| <= |p[k]| {
      NoDuplicatesLength(p'[k]);
      ElemsBound(p[k]);
    }
  }

  lemma {:induction false} ElemsBound(a: seq<string>)
    ensures |Elems(a)| <= |a|
    decreases |a|
  {
    if |a| > 0 {
      ElemsBound(a[1..]);
      assert Elems(a) == Elems(a[1..]) + {a[0]};
    }
  }
}
