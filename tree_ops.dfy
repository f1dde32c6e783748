/**
 * The read-only tree algorithms of the library on document values: structural
 * equality (`json_value_equals`) and the structural schema validator
 * (`json_validate`). Objects are looked up by the C string of each name, as
 * `json_object_get_name` followed by `json_object_get_value` does.
 */
module TreeOps {
  import opened Wrappers
  import opened Bytes
  import opened Members
  import opened Json

  /** The tolerance below which two numbers compare equal. */
  const EPSILON: real := 0.000001

  function Abs(x: real): (r: real)
    ensures r >= 0.0 && (r == x || r == -x)
  {
    if x < 0.0 then -x else x
  }

  /** `json_value_equals` on two possibly NULL values: NULL equals only NULL. */
  function EqualsOpt(a: Option<Json>, b: Option<Json>): bool
  {
    match (a, b)
    case (None, None) => true
    case (Some(x), Some(y)) => Equals(x, y)
    case _ => false
  }

  /** `json_value_equals`: same type, then a per-type comparison; values of different types are never equal. */
  function Equals(a: Json, b: Json): (r: bool)
    ensures r ==> TypeOf(Some(a)) == TypeOf(Some(b))
    decreases a, 1
  {
    match (a, b)
    case (Array(xs), Array(ys)) => |xs| == |ys| && ItemsEqual(xs, ys, 0)
    case (Object(ps), Object(qs)) => |ps| == |qs| && PairsEqual(ps, qs)
    case (String(s), String(t)) => CString(s) == CString(t)
    case (Boolean(x), Boolean(y)) => x == y
    case (Number(x), Number(y)) => Abs(x - y) < EPSILON
    case (Null, Null) => true
    case _ => false
  }

  /** The items from index `i` on compare equal in order. */
  function ItemsEqual(xs: seq<Json>, ys: seq<Json>, i: nat): bool
    requires |xs| == |ys| && i <= |xs|
    decreases xs, |xs| - i
  {
    i == |xs| || (Equals(xs[i], ys[i]) && ItemsEqual(xs, ys, i + 1))
  }

  /** Every name of `ps` finds equal values in both objects. */
  predicate PairsEqual(ps: seq<Pair<Json>>, qs: seq<Pair<Json>>)
    decreases ps, 1
  {
    forall k :: 0 <= k < |ps| ==> MemberEquals(ps, qs, CString(ps[k].name))
  }

  /** The values the name `key` reaches in both objects compare equal (NULL against NULL included). */
  function MemberEquals(ps: seq<Pair<Json>>, qs: seq<Pair<Json>>, key: Bytes): bool
    decreases ps, 0
  {
    match IndexOf(ps, key)
    case None => Lookup(qs, key).None?
    case Some(j) =>
      match Lookup(qs, key)
      case None => false
      case Some(w) => Equals(ps[j].value, w)
  }

  /** A name is compared through the values both lookups return. */
  lemma MemberEqualsLookup(ps: seq<Pair<Json>>, qs: seq<Pair<Json>>, key: Bytes)
    ensures MemberEquals(ps, qs, key) == EqualsOpt(Lookup(ps, key), Lookup(qs, key))
  {
  }

  lemma {:induction false} ItemsEqualAll(xs: seq<Json>, ys: seq<Json>, i: nat)
    requires |xs| == |ys| && i <= |xs|
    ensures ItemsEqual(xs, ys, i) <==> forall k :: i <= k < |xs| ==> Equals(xs[k], ys[k])
    decreases |xs| - i
  {
    if i < |xs| {
      ItemsEqualAll(xs, ys, i + 1);
    }
  }

  /** Arrays are equal exactly when they have the same count and equal items in the same order. */
  lemma EqualsArrays(xs: seq<Json>, ys: seq<Json>)
    ensures Equals(Array(xs), Array(ys)) <==>
      |xs| == |ys| && forall i :: 0 <= i < |xs| ==> Equals(xs[i], ys[i])
  {
    if |xs| == |ys| {
      ItemsEqualAll(xs, ys, 0);
    }
  }

  /**
   * Objects are equal exactly when they have the same count and every name of
   * the first reaches, in both objects, values that are equal.
   */
  lemma EqualsObjects(ps: seq<Pair<Json>>, qs: seq<Pair<Json>>)
    ensures Equals(Object(ps), Object(qs)) <==>
      |ps| == |qs| &&
      forall i :: 0 <= i < |ps| ==>
        EqualsOpt(Lookup(ps, CString(ps[i].name)), Lookup(qs, CString(ps[i].name)))
  {
    forall i | 0 <= i < |ps|
      ensures MemberEquals(ps, qs, CString(ps[i].name)) ==
        EqualsOpt(Lookup(ps, CString(ps[i].name)), Lookup(qs, CString(ps[i].name)))
    {
      MemberEqualsLookup(ps, qs, CString(ps[i].name));
    }
  }

  /** Every value equals itself. */
  lemma {:induction false} EqualsReflexive(v: Json)
    ensures Equals(v, v)
    decreases v
  {
    match v
    case Array(xs) =>
      forall i | 0 <= i < |xs|
        ensures Equals(xs[i], xs[i])
      {
        EqualsReflexive(xs[i]);
      }
      EqualsArrays(xs, xs);
    case Object(ps) =>
      forall i | 0 <= i < |ps|
        ensures MemberEquals(ps, ps, CString(ps[i].name))
      {
        var key := CString(ps[i].name);
        match IndexOf(ps, key)
        case None =>
        case Some(j) =>
          EqualsReflexive(ps[j].value);
      }
    case String(s) =>
    case Number(x) =>
    case _ =>
  }

  /** Equal values are equal under `json_value_equals`; the converse does not hold (see the examples). */
  lemma SameValueEquals(a: Json, b: Json)
    requires a == b
    ensures Equals(a, b)
  {
    EqualsReflexive(a);
  }

  /** The set of names of an object's pairs. */
  function Names(ps: seq<Pair<Json>>): (r: set<Bytes>)
    ensures forall i :: 0 <= i < |ps| ==> ps[i].name in r
    ensures forall n :: n in r ==> HasName(ps, n)
  {
    set i | 0 <= i < |ps| :: ps[i].name
  }

  lemma {:induction false} NamesCount(ps: seq<Pair<Json>>)
    requires UniqueNames(ps)
    ensures |Names(ps)| == |ps|
  {
    if ps != [] {
      var init := ps[..|ps| - 1];
      var last := ps[|ps| - 1].name;
      assert UniqueNames(init);
      NamesCount(init);
      assert Names(ps) == Names(init) + {last};
      assert last !in Names(init);
    }
  }

  lemma SubsetSameCount(a: set<Bytes>, b: set<Bytes>)
    requires a <= b && |a| == |b|
    ensures a == b
  {
    assert a + b == b;
    assert a * b == a;
    assert a - b == {};
    assert |b - a| == 0;
  }

  /** Equal objects with unique names have the same names, and each name of the first reaches equal values. */
  lemma EqualNames(ps: seq<Pair<Json>>, qs: seq<Pair<Json>>)
    requires WellFormed(Object(ps)) && WellFormed(Object(qs))
    requires Equals(Object(ps), Object(qs))
    ensures Names(ps) == Names(qs)
    ensures forall i :: 0 <= i < |ps| ==> Lookup(qs, ps[i].name).Some? && Equals(ps[i].value, Lookup(qs, ps[i].name).value)
  {
    EqualsObjects(ps, qs);
    forall i | 0 <= i < |ps|
      ensures ps[i].name in Names(qs)
      ensures Lookup(qs, ps[i].name).Some? && Equals(ps[i].value, Lookup(qs, ps[i].name).value)
    {
      CStringOfNoNul(ps[i].name);
      LookupAt(ps, i);
    }
    assert Names(ps) <= Names(qs);
    NamesCount(ps);
    NamesCount(qs);
    SubsetSameCount(Names(ps), Names(qs));
  }

  /**
   * With unique names (every tree the library builds), equality is symmetric:
   * the first object's names, found in the second, are all of the second's names.
   */
  lemma {:induction false} EqualsFlip(a: Json, b: Json)
    requires WellFormed(a) && WellFormed(b)
    requires Equals(a, b)
    ensures Equals(b, a)
    decreases a
  {
    match (a, b)
    case (Array(xs), Array(ys)) =>
      EqualsArrays(xs, ys);
      forall i | 0 <= i < |ys|
        ensures Equals(ys[i], xs[i])
      {
        EqualsFlip(xs[i], ys[i]);
      }
      EqualsArrays(ys, xs);
    case (Object(ps), Object(qs)) =>
      EqualsObjects(ps, qs);
      FlipPairs(ps, qs);
    case (Number(x), Number(y)) =>
      assert Abs(y - x) == Abs(x - y);
    case _ =>
  }

  lemma {:induction false} FlipPairs(ps: seq<Pair<Json>>, qs: seq<Pair<Json>>)
    requires WellFormed(Object(ps)) && WellFormed(Object(qs))
    requires Equals(Object(ps), Object(qs))
    ensures Equals(Object(qs), Object(ps))
    decreases Object(ps), 0
  {
    EqualNames(ps, qs);
    forall j | 0 <= j < |qs|
      ensures EqualsOpt(Lookup(qs, CString(qs[j].name)), Lookup(ps, CString(qs[j].name)))
    {
      var n := qs[j].name;
      CStringOfNoNul(n);
      assert n in Names(ps);
      var i :| 0 <= i < |ps| && ps[i].name == n;
      LookupAt(ps, i);
      LookupAt(qs, j);
      EqualsFlip(ps[i].value, qs[j].value);
    }
    EqualsObjects(qs, ps);
  }

  /** Equality of trees with unique names is symmetric. */
  lemma EqualsSymmetric(a: Json, b: Json)
    requires WellFormed(a) && WellFormed(b)
    ensures Equals(a, b) == Equals(b, a)
  {
    if Equals(a, b) {
      EqualsFlip(a, b);
    }
    if Equals(b, a) {
      EqualsFlip(b, a);
    }
  }

  /**
   * Object equality ignores the order of the pairs: two objects with unique
   * names, the same count and the same value under every name are equal.
   */
  lemma EqualsIgnoresOrder(ps: seq<Pair<Json>>, qs: seq<Pair<Json>>)
    requires WellFormed(Object(ps)) && |ps| == |qs|
    requires forall n :: Lookup(ps, n) == Lookup(qs, n)
    ensures Equals(Object(ps), Object(qs))
  {
    forall i | 0 <= i < |ps|
      ensures EqualsOpt(Lookup(ps, CString(ps[i].name)), Lookup(qs, CString(ps[i].name)))
    {
      CStringOfNoNul(ps[i].name);
      LookupAt(ps, i);
      EqualsReflexive(ps[i].value);
    }
    EqualsObjects(ps, qs);
  }

  // ---------- the schema validator ----------

  /** `json_validate` on two possibly NULL values: either being NULL fails. */
  function ValidateOpt(schema: Option<Json>, value: Option<Json>): (r: Status)
    ensures schema.None? || value.None? ==> r == Failure
  {
    if schema.None? || value.None? then Failure else Validate(schema.value, value.value)
  }

  /**
   * `json_validate`: the types must agree unless the schema is null; an array
   * schema checks every item against its first item, an object schema checks
   * each of its names against the value under that name.
   */
  function Validate(schema: Json, value: Json): (r: Status)
    ensures r == Success ==> schema.Null? || TypeOf(Some(schema)) == TypeOf(Some(value))
    ensures schema.Null? ==> r == Success
    ensures schema == Array([]) ==> (r == Success <==> value.Array?)
    ensures schema == Object([]) ==> (r == Success <==> value.Object?)
    decreases schema, 0, 0
  {
    if TypeOf(Some(schema)) != TypeOf(Some(value)) && !schema.Null? then Failure
    else match schema
      case Array(xs) =>
        if xs == [] then Success else ItemsValid(xs[0], value.items, 0)
      case Object(sps) =>
        if sps == [] then Success
        else if |value.members| < |sps| then Failure
        else MembersValid(sps, value.members)
      case _ => Success
  }

  /** Every item from index `i` on validates against the one item schema `s`. */
  function ItemsValid(s: Json, ys: seq<Json>, i: nat): Status
    requires i <= |ys|
    decreases s, 1, |ys| - i
  {
    if i == |ys| then Success
    else if Validate(s, ys[i]) == Failure then Failure
    else ItemsValid(s, ys, i + 1)
  }

  /** Every schema name is present in the value and its value validates. */
  function MembersValid(sps: seq<Pair<Json>>, vps: seq<Pair<Json>>): Status
    decreases sps, 1
  {
    if forall k :: 0 <= k < |sps| ==> MemberValid(sps, vps, CString(sps[k].name)) then Success else Failure
  }

  /** The name `key` is present in the value, and what it finds there validates against the schema's value. */
  predicate MemberValid(sps: seq<Pair<Json>>, vps: seq<Pair<Json>>, key: Bytes)
    decreases sps, 0
  {
    match Lookup(vps, key)
    case None => false
    case Some(w) =>
      match IndexOf(sps, key)
      case None => false
      case Some(j) => Validate(sps[j].value, w) == Success
  }

  lemma {:induction false} ItemsValidAll(s: Json, ys: seq<Json>, i: nat)
    requires i <= |ys|
    ensures ItemsValid(s, ys, i) == Success <==> forall k :: i <= k < |ys| ==> Validate(s, ys[k]) == Success
    decreases |ys| - i
  {
    if i < |ys| {
      ItemsValidAll(s, ys, i + 1);
    }
  }

  /** A non-empty array schema accepts exactly the arrays whose every item validates against its first item. */
  lemma ValidateArray(xs: seq<Json>, ys: seq<Json>)
    requires xs != []
    ensures Validate(Array(xs), Array(ys)) == Success <==>
      forall i :: 0 <= i < |ys| ==> Validate(xs[0], ys[i]) == Success
  {
    ItemsValidAll(xs[0], ys, 0);
  }

  /** In a schema with unique C-string names, the check of pair `k` is the check of its own name and value. */
  lemma MemberValidAt(sps: seq<Pair<Json>>, vps: seq<Pair<Json>>, k: nat)
    requires WellFormed(Object(sps)) && k < |sps|
    ensures MemberValid(sps, vps, CString(sps[k].name)) <==>
      Lookup(vps, sps[k].name).Some? && Validate(sps[k].value, Lookup(vps, sps[k].name).value) == Success
  {
    CStringOfNoNul(sps[k].name);
    LookupAt(sps, k);
  }

  /**
   * A non-empty object schema with unique names accepts exactly the objects
   * with at least as many pairs in which every schema name is present with a
   * value that validates against the schema's value.
   */
  lemma ValidateObject(sps: seq<Pair<Json>>, vps: seq<Pair<Json>>)
    requires WellFormed(Object(sps)) && sps != []
    ensures Validate(Object(sps), Object(vps)) == Success <==>
      |vps| >= |sps| &&
      forall i :: 0 <= i < |sps| ==>
        Lookup(vps, sps[i].name).Some? && Validate(sps[i].value, Lookup(vps, sps[i].name).value) == Success
  {
    forall k | 0 <= k < |sps|
      ensures MemberValid(sps, vps, CString(sps[k].name)) <==>
        Lookup(vps, sps[k].name).Some? && Validate(sps[k].value, Lookup(vps, sps[k].name).value) == Success
    {
      MemberValidAt(sps, vps, k);
    }
  }

  // ---------- deep copy ----------

  /**
   * What `json_value_deep_copy` returns: containers rebuilt item by item and
   * pair by pair (each pair re-added under its C-string name, which fails on
   * a name already copied), strings duplicated up to their terminator,
   * scalars as they are; NULL on any failure.
   */
  function Copy(v: Json): Option<Json>
    decreases v, 1
  {
    match v
    case Array(xs) =>
      (match CopyItems(xs, |xs|)
       case None => None
       case Some(ys) => Some(Array(ys)))
    case Object(ps) =>
      (match CopyPairs(ps, |ps|)
       case None => None
       case Some(qs) => Some(Object(qs)))
    case String(s) => Some(String(CString(s)))
    case _ => Some(v)
  }

  /** The copies of the first `n` items, appended in order. */
  function CopyItems(xs: seq<Json>, n: nat): Option<seq<Json>>
    requires n <= |xs|
    decreases xs, n
  {
    if n == 0 then Some([])
    else
      match CopyItems(xs, n - 1)
      case None => None
      case Some(acc) =>
        match Copy(xs[n - 1])
        case None => None
        case Some(c) => Some(acc + [c])
  }

  /** The copy of the first `n` pairs, each added to the copy of the pairs before it. */
  function CopyPairs(ps: seq<Pair<Json>>, n: nat): Option<seq<Pair<Json>>>
    requires n <= |ps|
    decreases ps, n
  {
    if n == 0 then Some([])
    else
      match CopyPairs(ps, n - 1)
      case None => None
      case Some(acc) => CopyPair(ps, n - 1, acc)
  }

  /** One turn of the object loop: the value under the i-th name is looked up, copied and added. */
  function CopyPair(ps: seq<Pair<Json>>, i: nat, acc: seq<Pair<Json>>): Option<seq<Pair<Json>>>
    requires i < |ps|
    decreases ps, 0
  {
    var key := CString(ps[i].name);
    match IndexOf(ps, key)
    case None => None
    case Some(j) =>
      match Copy(ps[j].value)
      case None => None
      case Some(c) => Add(acc, key, c)
  }

  /**
   * Deep copy of every tree the library builds succeeds and yields the same
   * value: same types, counts, item and name order, and string bytes.
   */
  lemma {:induction false} CopyIdentity(v: Json)
    requires WellFormed(v)
    ensures Copy(v) == Some(v)
    decreases v, 1
  {
    match v
    case Array(xs) =>
      CopyItemsIdentity(xs, |xs|);
      assert xs[..|xs|] == xs;
    case Object(ps) =>
      CopyPairsIdentity(ps, |ps|);
      assert ps[..|ps|] == ps;
    case String(s) =>
      CStringOfNoNul(s);
    case _ =>
  }

  lemma {:induction false} CopyItemsIdentity(xs: seq<Json>, n: nat)
    requires n <= |xs| && forall i :: 0 <= i < |xs| ==> WellFormed(xs[i])
    ensures CopyItems(xs, n) == Some(xs[..n])
    decreases xs, n
  {
    if n > 0 {
      CopyItemsIdentity(xs, n - 1);
      CopyIdentity(xs[n - 1]);
      assert xs[..n - 1] + [xs[n - 1]] == xs[..n];
    }
  }

  lemma {:induction false} CopyPairsIdentity(ps: seq<Pair<Json>>, n: nat)
    requires n <= |ps| && WellFormed(Object(ps))
    ensures CopyPairs(ps, n) == Some(ps[..n])
    decreases ps, n
  {
    if n > 0 {
      CopyPairsIdentity(ps, n - 1);
      assert WellFormed(ps[n - 1].value);
      CopyIdentity(ps[n - 1].value);
      CopyPairIdentity(ps, n - 1);
    }
  }

  /** One turn of the object loop over a well-formed object, whose value copies to itself, extends the copy by the same pair. */
  lemma CopyPairIdentity(ps: seq<Pair<Json>>, i: nat)
    requires i < |ps| && WellFormed(Object(ps))
    requires Copy(ps[i].value) == Some(ps[i].value)
    ensures CopyPair(ps, i, ps[..i]) == Some(ps[..i + 1])
  {
    var name := ps[i].name;
    CStringOfNoNul(name);
    LookupAt(ps, i);
    assert !HasName(ps[..i], name);
    assert ps[..i] + [Pair(name, ps[i].value)] == ps[..i + 1];
  }

  /** A copy of a tree the library builds equals the original under `json_value_equals`. */
  lemma CopyEquals(v: Json)
    requires WellFormed(v)
    ensures Copy(v).Some? && Equals(Copy(v).value, v) && Equals(v, Copy(v).value)
  {
    CopyIdentity(v);
    EqualsReflexive(v);
  }

  /** `json_value_deep_copy`, walking the containers with loops as the library does. */
  method DeepCopy(v: Json) returns (r: Option<Json>)
    ensures r == Copy(v)
    decreases v, 1
  {
    match v
    case Array(xs) =>
      var items := CopyArray(xs);
      r := if items.None? then None else Some(Array(items.value));
    case Object(ps) =>
      var pairs := CopyObject(ps);
      r := if pairs.None? then None else Some(Object(pairs.value));
    case String(s) =>
      r := Some(String(CString(s)));
    case _ =>
      r := Some(v);
  }

  method CopyArray(xs: seq<Json>) returns (r: Option<seq<Json>>)
    ensures r == CopyItems(xs, |xs|)
    decreases xs, 2
  {
    var acc: seq<Json> := [];
    for i := 0 to |xs|
      invariant CopyItems(xs, i) == Some(acc)
    {
      var c := DeepCopy(xs[i]);
      if c.None? {
        CopyItemsFails(xs, i + 1, |xs|);
        return None;
      }
      acc := acc + [c.value];
    }
    r := Some(acc);
  }

  method CopyObject(ps: seq<Pair<Json>>) returns (r: Option<seq<Pair<Json>>>)
    ensures r == CopyPairs(ps, |ps|)
    decreases ps, 2
  {
    var acc: seq<Pair<Json>> := [];
    for i := 0 to |ps|
      invariant CopyPairs(ps, i) == Some(acc)
    {
      var next := CopyMember(ps, i, acc);
      if next.None? {
        CopyPairsFails(ps, i + 1, |ps|);
        return None;
      }
      acc := next.value;
    }
    r := Some(acc);
  }

  method CopyMember(ps: seq<Pair<Json>>, i: nat, acc: seq<Pair<Json>>) returns (r: Option<seq<Pair<Json>>>)
    requires i < |ps|
    ensures r == CopyPair(ps, i, acc)
    decreases ps, 1
  {
    var key := CString(ps[i].name);
    var j := IndexOf(ps, key);
    if j.None? {
      return None;
    }
    var c := DeepCopy(ps[j.value].value);
    if c.None? {
      return None;
    }
    r := Add(acc, key, c.value);
  }

  /** Once a prefix of the items fails to copy, every longer prefix fails. */
  lemma {:induction false} CopyItemsFails(xs: seq<Json>, n: nat, m: nat)
    requires n <= m <= |xs| && CopyItems(xs, n).None?
    ensures CopyItems(xs, m).None?
    decreases m - n
  {
    if n < m {
      CopyItemsFails(xs, n + 1, m);
    }
  }

  lemma {:induction false} CopyPairsFails(ps: seq<Pair<Json>>, n: nat, m: nat)
    requires n <= m <= |ps| && CopyPairs(ps, n).None?
    ensures CopyPairs(ps, m).None?
    decreases m - n
  {
    if n < m {
      CopyPairsFails(ps, n + 1, m);
    }
  }
}
