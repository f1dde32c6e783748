/**
 * The name/value pairs of a JSON object and the item list of a JSON array,
 * as sequences. These functions are the one definition of what adding,
 * setting, looking up and removing do; the container classes are proved
 * against them and the dot-notation operations are built from them.
 */
module Members {
  import opened Wrappers
  import opened Bytes

  datatype Pair<T> = Pair(name: Bytes, value: T)

  /** No two pairs share a name: the invariant every insertion path of an object keeps. */
  predicate UniqueNames<T>(ps: seq<Pair<T>>)
  {
    forall i, j :: 0 <= i < j < |ps| ==> ps[i].name != ps[j].name
  }

  predicate HasName<T>(ps: seq<Pair<T>>, name: Bytes)
  {
    exists i :: 0 <= i < |ps| && ps[i].name == name
  }

  /** The linear scan of `json_object_getn_value`: the first pair whose name has the same length and bytes. */
  function IndexOf<T>(ps: seq<Pair<T>>, name: Bytes): (r: Option<nat>)
    ensures r.None? <==> !HasName(ps, name)
    ensures r.Some? ==> r.value < |ps| && ps[r.value].name == name
    ensures r.Some? ==> forall j :: 0 <= j < r.value ==> ps[j].name != name
  {
    if ps == [] then None
    else if ps[0].name == name then Some(0)
    else match IndexOf(ps[1..], name)
      case None =>
        assert forall j :: 1 <= j < |ps| ==> ps[1..][j - 1] == ps[j];
        None
      case Some(k) =>
        assert forall j :: 1 <= j < |ps| ==> ps[1..][j - 1] == ps[j];
        Some(k + 1)
  }

  /** The value stored under a name (NULL when there is none). */
  function Lookup<T>(ps: seq<Pair<T>>, name: Bytes): Option<T>
  {
    match IndexOf(ps, name)
    case None => None
    case Some(i) => Some(ps[i].value)
  }

  /** The scan stops at the first pair carrying the name. */
  lemma IndexOfFirst<T>(ps: seq<Pair<T>>, name: Bytes, i: nat)
    requires i < |ps| && ps[i].name == name
    requires forall j :: 0 <= j < i ==> ps[j].name != name
    ensures IndexOf(ps, name) == Some(i)
  {
    assert HasName(ps, name);
  }

  /** In a sequence with unique names, the pair at any index is the one a lookup finds. */
  lemma LookupAt<T>(ps: seq<Pair<T>>, i: nat)
    requires UniqueNames(ps) && i < |ps|
    ensures IndexOf(ps, ps[i].name) == Some(i)
    ensures Lookup(ps, ps[i].name) == Some(ps[i].value)
  {
  }

  /** Adding under a fresh name (`json_object_addn`): refused when the name is present. */
  function Add<T>(ps: seq<Pair<T>>, name: Bytes, v: T): Option<seq<Pair<T>>>
  {
    if HasName(ps, name) then None else Some(ps + [Pair(name, v)])
  }

  /** Setting a name (`json_object_set_value`): replaces the value of the existing pair in its slot, or appends. */
  function Set<T>(ps: seq<Pair<T>>, name: Bytes, v: T): seq<Pair<T>>
  {
    match IndexOf(ps, name)
    case Some(i) => ps[i := Pair(name, v)]
    case None => ps + [Pair(name, v)]
  }

  /** Removing a name (`json_object_remove_internal`): the last pair moves into the freed slot. */
  function RemoveSwap<T>(ps: seq<Pair<T>>, name: Bytes): Option<seq<Pair<T>>>
  {
    match IndexOf(ps, name)
    case None => None
    case Some(i) => Some(SwapRemove(ps, i))
  }

  /** The last item moved into slot `i` and the last slot dropped. */
  function SwapRemove<T>(s: seq<T>, i: nat): (r: seq<T>)
    requires i < |s|
    ensures |r| == |s| - 1
  {
    s[i := s[|s| - 1]][..|s| - 1]
  }

  /** Removing the item at an index with the later items shifted left (`json_array_remove`). */
  function RemoveAt<T>(s: seq<T>, i: nat): seq<T>
    requires i < |s|
  {
    s[..i] + s[i + 1..]
  }

  /** Add succeeds exactly for a fresh name; it appends one pair and keeps names unique. */
  lemma AddSpec<T>(ps: seq<Pair<T>>, name: Bytes, v: T)
    ensures Add(ps, name, v).None? <==> Lookup(ps, name).Some?
    ensures Add(ps, name, v).Some? ==>
      var q := Add(ps, name, v).value;
      |q| == |ps| + 1 && q[..|ps|] == ps &&
      Lookup(q, name) == Some(v) &&
      (forall m :: m != name ==> Lookup(q, m) == Lookup(ps, m)) &&
      (UniqueNames(ps) ==> UniqueNames(q))
  {
    if !HasName(ps, name) {
      var q := ps + [Pair(name, v)];
      assert q[..|ps|] == ps;
      IndexOfFirst(q, name, |ps|);
      forall m | m != name
        ensures Lookup(q, m) == Lookup(ps, m)
      {
        LookupPrefix(ps, Pair(name, v), m);
      }
    }
  }

  lemma LookupPrefix<T>(ps: seq<Pair<T>>, p: Pair<T>, m: Bytes)
    requires p.name != m
    ensures Lookup(ps + [p], m) == Lookup(ps, m)
  {
    var q := ps + [p];
    assert forall j :: 0 <= j < |ps| ==> q[j] == ps[j];
    match IndexOf(ps, m)
    case None =>
      assert !HasName(q, m);
    case Some(i) =>
      assert IndexOf(q, m) == Some(i);
  }

  /** Set stores the value under the name, leaves every other name alone and keeps names unique. */
  lemma SetSpec<T>(ps: seq<Pair<T>>, name: Bytes, v: T)
    ensures var q := Set(ps, name, v);
      Lookup(q, name) == Some(v) &&
      |q| == (if HasName(ps, name) then |ps| else |ps| + 1) &&
      (forall m :: m != name ==> Lookup(q, m) == Lookup(ps, m)) &&
      (UniqueNames(ps) ==> UniqueNames(q))
  {
    match IndexOf(ps, name)
    case None =>
      AddSpec(ps, name, v);
    case Some(i) =>
      var q := ps[i := Pair(name, v)];
      IndexOfFirst(q, name, i);
      forall m | m != name
        ensures Lookup(q, m) == Lookup(ps, m)
      {
        SetInPlaceOthers(ps, i, name, v, m);
      }
      SetInPlaceUnique(ps, i, name, v);
  }

  /** After a set, the name reaches the stored value. */
  lemma SetGet<T>(ps: seq<Pair<T>>, name: Bytes, v: T)
    ensures Lookup(Set(ps, name, v), name) == Some(v)
  {
    SetSpec(ps, name, v);
  }

  /** A set leaves every other name reaching what it reached. */
  lemma SetOther<T>(ps: seq<Pair<T>>, name: Bytes, v: T, m: Bytes)
    requires m != name
    ensures Lookup(Set(ps, name, v), m) == Lookup(ps, m)
  {
    SetSpec(ps, name, v);
  }

  /** Replacing a value in its slot keeps the names, so it keeps them unique. */
  lemma SetInPlaceUnique<T>(ps: seq<Pair<T>>, i: nat, name: Bytes, v: T)
    requires i < |ps| && ps[i].name == name
    ensures UniqueNames(ps) ==> UniqueNames(ps[i := Pair(name, v)])
  {
    var q := ps[i := Pair(name, v)];
    assert forall j :: 0 <= j < |ps| ==> q[j].name == ps[j].name;
  }

  /** Replacing a value in its slot does not change what any other name finds. */
  lemma SetInPlaceOthers<T>(ps: seq<Pair<T>>, i: nat, name: Bytes, v: T, m: Bytes)
    requires i < |ps| && ps[i].name == name && m != name
    ensures Lookup(ps[i := Pair(name, v)], m) == Lookup(ps, m)
  {
    var q := ps[i := Pair(name, v)];
    assert forall j :: 0 <= j < |ps| && q[j].name == m ==> q[j] == ps[j];
    assert forall j :: 0 <= j < |ps| && ps[j].name == m ==> q[j] == ps[j];
    match IndexOf(ps, m)
    case None =>
      assert !HasName(q, m);
    case Some(k) =>
      IndexOfFirst(q, m, k);
  }

  /** Appending a fresh name keeps names unique. */
  lemma AddUnique<T>(ps: seq<Pair<T>>, name: Bytes, v: T)
    requires UniqueNames(ps) && !HasName(ps, name)
    ensures UniqueNames(ps + [Pair(name, v)])
  {
  }

  /** Moving the last pair into slot `i` and dropping the last slot keeps names unique. */
  lemma RemoveSwapUnique<T>(ps: seq<Pair<T>>, i: nat)
    requires UniqueNames(ps) && i < |ps|
    ensures UniqueNames(SwapRemove(ps, i))
  {
  }

  /** The pairs of two parallel arrays after the same remove-by-swap on both. */
  lemma ZipRemoveSwap<T>(ns: seq<Bytes>, vs: seq<T>, i: nat)
    requires |ns| == |vs| && i < |ns|
    ensures Zip(SwapRemove(ns, i), SwapRemove(vs, i)) == SwapRemove(Zip(ns, vs), i)
  {
    var ns', vs' := SwapRemove(ns, i), SwapRemove(vs, i);
    var z := Zip(ns, vs);
    var a, b := Zip(ns', vs'), SwapRemove(z, i);
    forall j | 0 <= j < |a|
      ensures a[j] == b[j]
    {
      var k := if j == i then |ns| - 1 else j;
      assert ns'[j] == ns[k] && vs'[j] == vs[k];
      assert b[j] == z[k];
    }
  }

  /**
   * With unique names, removal succeeds exactly when the name is present; then
   * the name is gone, one pair fewer remains, every other pair is still there
   * (as a multiset) and names stay unique.
   */
  lemma RemoveSwapSpec<T>(ps: seq<Pair<T>>, name: Bytes)
    requires UniqueNames(ps)
    ensures RemoveSwap(ps, name).Some? <==> Lookup(ps, name).Some?
    ensures RemoveSwap(ps, name).Some? ==>
      var q := RemoveSwap(ps, name).value;
      |q| == |ps| - 1 && Lookup(q, name).None? && UniqueNames(q) &&
      multiset(q) == multiset(ps) - multiset{ps[IndexOf(ps, name).value]} &&
      (forall m :: m != name ==> Lookup(q, m) == Lookup(ps, m))
  {
    match IndexOf(ps, name)
    case None =>
    case Some(i) =>
      var last := |ps| - 1;
      var q := SwapRemove(ps, i);
      RemoveSwapUnique(ps, i);
      assert !HasName(q, name);
      RemoveSwapMultiset(ps, i);
      forall m | m != name
        ensures Lookup(q, m) == Lookup(ps, m)
      {
        match IndexOf(ps, m)
        case None =>
          assert !HasName(q, m);
        case Some(k) =>
          var k' := if k == last then i else k;
          assert q[k'].name == m;
          LookupAt(q, k');
      }
  }

  /** A removal leaves every other name reaching what it reached. */
  lemma RemoveSwapOther<T>(ps: seq<Pair<T>>, name: Bytes, m: Bytes)
    requires UniqueNames(ps) && RemoveSwap(ps, name).Some? && m != name
    ensures Lookup(RemoveSwap(ps, name).value, m) == Lookup(ps, m)
  {
    RemoveSwapSpec(ps, name);
  }

  lemma RemoveSwapMultiset<T>(ps: seq<T>, i: nat)
    requires i < |ps|
    ensures multiset(SwapRemove(ps, i)) == multiset(ps) - multiset{ps[i]}
  {
    var last := |ps| - 1;
    var p := ps[..last];
    assert multiset(ps) == multiset(p) + multiset{ps[last]} by {
      assert ps == p + [ps[last]];
    }
    if i < last {
      assert SwapRemove(ps, i) == p[i := ps[last]];
      assert p[i] == ps[i];
    } else {
      assert SwapRemove(ps, i) == p;
    }
  }

  /** The pairs formed by two parallel arrays of names and values. */
  function Zip<T>(ns: seq<Bytes>, vs: seq<T>): (r: seq<Pair<T>>)
    requires |ns| == |vs|
    ensures |r| == |ns| && forall i :: 0 <= i < |r| ==> r[i] == Pair(ns[i], vs[i])
  {
    if ns == [] then [] else [Pair(ns[0], vs[0])] + Zip(ns[1..], vs[1..])
  }

  lemma ZipSnoc<T>(ns: seq<Bytes>, vs: seq<T>, n: Bytes, v: T)
    requires |ns| == |vs|
    ensures Zip(ns + [n], vs + [v]) == Zip(ns, vs) + [Pair(n, v)]
  {
    var a, b := Zip(ns + [n], vs + [v]), Zip(ns, vs) + [Pair(n, v)];
    assert forall i :: 0 <= i < |ns| ==> a[i] == b[i];
  }

  lemma ZipUpdate<T>(ns: seq<Bytes>, vs: seq<T>, i: nat, n: Bytes, v: T)
    requires |ns| == |vs| && i < |ns|
    ensures Zip(ns[i := n], vs[i := v]) == Zip(ns, vs)[i := Pair(n, v)]
  {
    var a, b := Zip(ns[i := n], vs[i := v]), Zip(ns, vs)[i := Pair(n, v)];
    assert forall j :: 0 <= j < |ns| ==> a[j] == b[j];
  }

  /** Removing at an index keeps the items before it and shifts every later one down by one. */
  lemma RemoveAtSpec<T>(s: seq<T>, i: nat)
    requires i < |s|
    ensures var r := RemoveAt(s, i);
      |r| == |s| - 1 &&
      (forall j :: 0 <= j < i ==> r[j] == s[j]) &&
      (forall j :: i <= j < |r| ==> r[j] == s[j + 1]) &&
      multiset(r) == multiset(s) - multiset{s[i]}
  {
    assert s == s[..i] + [s[i]] + s[i + 1..];
  }
}
