/**
 * Dot-notation access to nested objects (`json_object_dotget_value`,
 * `json_object_dotset_value`, `json_object_dotremove`): a name is cut at its
 * first dot, the part before it names a child object, and the rest of the
 * name is applied to that child. Objects are their pair sequences; an object
 * changed at depth is the same object with the changed child in its slot.
 */
module DotPaths {
  import opened Wrappers
  import opened Bytes
  import opened Members
  import opened Json

  /** `strchr(name, '.')`: the index of the first dot before the terminator, if any. */
  function FirstDot(name: Bytes): (r: Option<nat>)
    ensures r.Some? ==> r.value < |name| && name[r.value] == DOT && NoNul(name[..r.value])
    ensures r.Some? ==> forall k :: 0 <= k < r.value ==> name[k] != DOT
    ensures r.None? ==> forall k :: 0 <= k < |CString(name)| ==> CString(name)[k] != DOT
  {
    if name == [] || name[0] == NUL then None
    else if name[0] == DOT then Some(0)
    else
      match FirstDot(name[1..])
      case None => None
      case Some(k) =>
        assert name[..k + 1] == [name[0]] + name[1..][..k];
        Some(k + 1)
  }

  /** The name of the pair a dotted name addresses in the outermost object. */
  function Head(name: Bytes): Bytes
  {
    match FirstDot(name)
    case None => CString(name)
    case Some(k) => name[..k]
  }

  /**
   * `json_object_dotget_value`: the value a dotted name reaches, NULL when a
   * step is missing or not an object. Nothing is reached from a NULL object,
   * nor without a pair named by the first step.
   */
  function DotGet(obj: Option<seq<Pair<Json>>>, name: Bytes): (r: Option<Json>)
    ensures r.Some? ==> obj.Some? && HasName(obj.value, Head(name))
    decreases |name|
  {
    match FirstDot(name)
    case None => ObjectGetValue(obj, CString(name))
    case Some(k) => DotGet(GetObject(ObjectGetValue(obj, name[..k])), name[k + 1..])
  }

  /**
   * `json_object_dotset_value`: the object after storing `v` under a dotted
   * name, or failure (the object unchanged) when a step names a value that is
   * not an object. Missing steps are created as new objects.
   */
  function DotSet(ps: seq<Pair<Json>>, name: Bytes, v: Json): (r: Option<seq<Pair<Json>>>)
    ensures r.None? ==> FirstDot(name).Some?
    ensures r.Some? ==> Lookup(r.value, Head(name)).Some? && |ps| <= |r.value| <= |ps| + 1
    decreases |name|
  {
    match FirstDot(name)
    case None =>
      SetSpec(ps, CString(name), v);
      Some(Set(ps, CString(name), v))
    case Some(k) =>
      var before, after := name[..k], name[k + 1..];
      match Lookup<Json>(ps, before)
      case Some(Object(inner)) =>
        (match DotSet(inner, after, v)
         case None => None
         case Some(q) =>
           SetSpec(ps, before, Object(q));
           Some(Set(ps, before, Object(q))))
      case Some(_) => None
      case None =>
        match DotSet([], after, v)
        case None => None
        case Some(q) =>
          AddSpec(ps, before, Object(q));
          Add(ps, before, Object(q))
  }

  /**
   * `json_object_dotremove`: the object after removing the pair a dotted name
   * reaches (the last pair of that object moving into its slot), or failure
   * when there is none.
   */
  function DotRemove(ps: seq<Pair<Json>>, name: Bytes): (r: Option<seq<Pair<Json>>>)
    ensures r.Some? ==> HasName(ps, Head(name)) && |ps| - 1 <= |r.value| <= |ps|
    decreases |name|
  {
    match FirstDot(name)
    case None => RemoveSwap(ps, CString(name))
    case Some(k) =>
      var before, after := name[..k], name[k + 1..];
      match Lookup<Json>(ps, before)
      case Some(Object(inner)) =>
        (match DotRemove(inner, after)
         case None => None
         case Some(q) =>
           SetSpec(ps, before, Object(q));
           Some(Set(ps, before, Object(q))))
      case _ => None
  }

  /** Some step of a dotted name, before its last part, names a value that is not an object. */
  predicate Blocked(ps: seq<Pair<Json>>, name: Bytes)
    decreases |name|
  {
    match FirstDot(name)
    case None => false
    case Some(k) =>
      match Lookup<Json>(ps, name[..k])
      case Some(Object(inner)) => Blocked(inner, name[k + 1..])
      case Some(_) => true
      case None => false
  }

  /** Nothing blocks a path inside an empty object. */
  lemma NotBlockedInEmpty(name: Bytes)
    ensures !Blocked([], name)
  {
  }

  /** Setting fails exactly when a step of the path names a value that is not an object. */
  lemma {:induction false} DotSetFails(ps: seq<Pair<Json>>, name: Bytes, v: Json)
    ensures DotSet(ps, name, v).None? <==> Blocked(ps, name)
    decreases |name|
  {
    match FirstDot(name)
    case None =>
    case Some(k) =>
      var before, after := name[..k], name[k + 1..];
      match Lookup<Json>(ps, before)
      case Some(Object(inner)) =>
        DotSetFails(inner, after, v);
      case Some(_) =>
      case None =>
        DotSetFails([], after, v);
        NotBlockedInEmpty(after);
        DotSetCreates(ps, name, v, k);
  }

  /** When the first step of a dotted name is missing, the set creates it, and it succeeds exactly when the rest does. */
  lemma DotSetCreates(ps: seq<Pair<Json>>, name: Bytes, v: Json, k: nat)
    requires FirstDot(name) == Some(k) && Lookup(ps, name[..k]).None?
    ensures DotSet(ps, name, v).Some? <==> DotSet([], name[k + 1..], v).Some?
    ensures !Blocked(ps, name)
  {
    var before, after := name[..k], name[k + 1..];
    if DotSet([], after, v).Some? {
      AddSpec(ps, before, Object(DotSet([], after, v).value));
    }
  }

  /** One level of a successful dotted set: the child object the first step names (empty when missing) is updated and set back under that step. */
  lemma DotSetChild(ps: seq<Pair<Json>>, name: Bytes, v: Json, k: nat) returns (inner: seq<Pair<Json>>)
    requires FirstDot(name) == Some(k) && DotSet(ps, name, v).Some?
    ensures Lookup(ps, name[..k]) == Some(Object(inner)) || (Lookup(ps, name[..k]).None? && inner == [])
    ensures DotSet(inner, name[k + 1..], v).Some?
    ensures DotSet(ps, name, v) == Some(Set(ps, name[..k], Object(DotSet(inner, name[k + 1..], v).value)))
  {
    var before, after := name[..k], name[k + 1..];
    if Lookup(ps, before).Some? {
      inner := Lookup(ps, before).value.members;
      assert DotSet(ps, name, v) == Some(Set(ps, before, Object(DotSet(inner, after, v).value)));
    } else {
      inner := [];
      assert !HasName(ps, before);
      assert DotSet(ps, name, v) == Add(ps, before, Object(DotSet(inner, after, v).value));
    }
  }

  /** After a successful set, the same dotted name reaches the stored value. */
  lemma {:induction false} DotSetThenGet(ps: seq<Pair<Json>>, name: Bytes, v: Json)
    requires DotSet(ps, name, v).Some?
    ensures DotGet(Some(DotSet(ps, name, v).value), name) == Some(v)
    decreases |name|
  {
    match FirstDot(name)
    case None =>
      SetSpec(ps, CString(name), v);
    case Some(k) =>
      var inner := DotSetChild(ps, name, v, k);
      var q := DotSet(inner, name[k + 1..], v).value;
      DotSetThenGet(inner, name[k + 1..], v);
      SetGet(ps, name[..k], Object(q));
  }

  /** A set changes only the pair named by the path's first step; every other name keeps its value. */
  lemma DotSetOthers(ps: seq<Pair<Json>>, name: Bytes, v: Json, m: Bytes)
    requires DotSet(ps, name, v).Some? && m != Head(name)
    ensures Lookup(DotSet(ps, name, v).value, m) == Lookup(ps, m)
  {
    match FirstDot(name)
    case None =>
      SetSpec(ps, CString(name), v);
    case Some(k) =>
      var inner := DotSetChild(ps, name, v, k);
      SetOther(ps, name[..k], Object(DotSet(inner, name[k + 1..], v).value), m);
  }

  /** A set leaves every dotted name that parts ways with the set one reaching what it reached before. */
  lemma {:induction false} DotSetKeepsOthers(ps: seq<Pair<Json>>, name: Bytes, v: Json, m: Bytes)
    requires DotSet(ps, name, v).Some? && Apart(name, m)
    ensures DotGet(Some(DotSet(ps, name, v).value), m) == DotGet(Some(ps), m)
    decreases |name|
  {
    if Head(name) != Head(m) {
      DotSetOthers(ps, name, v, Head(m));
      DotGetByHead(ps, DotSet(ps, name, v).value, m);
    } else {
      var k, j := FirstDot(name).value, FirstDot(m).value;
      var inner := DotSetChild(ps, name, v, k);
      var q := DotSet(inner, name[k + 1..], v).value;
      assert Apart(name[k + 1..], m[j + 1..]);
      DotSetKeepsOthers(inner, name[k + 1..], v, m[j + 1..]);
      SetGet(ps, name[..k], Object(q));
      if Lookup(ps, name[..k]).Some? {
        DotGetThrough(ps, DotSet(ps, name, v).value, m, j, inner, q);
      } else {
        DotGetThroughMissing(ps, DotSet(ps, name, v).value, m, j, q);
      }
    }
  }

  /** A child created under a step that was missing reaches by the rest of `m` what the missing step reached: nothing. */
  lemma DotGetThroughMissing(ps: seq<Pair<Json>>, qs: seq<Pair<Json>>, m: Bytes, j: nat, q: seq<Pair<Json>>)
    requires FirstDot(m) == Some(j)
    requires Lookup(ps, m[..j]).None? && Lookup(qs, m[..j]) == Some(Object(q))
    requires DotGet(Some(q), m[j + 1..]) == DotGet(Some([]), m[j + 1..])
    ensures DotGet(Some(qs), m) == DotGet(Some(ps), m)
  {
  }

  /** Every pair after a set is an old pair or the new one. */
  lemma SetPairs(ps: seq<Pair<Json>>, name: Bytes, v: Json)
    ensures forall i :: 0 <= i < |Set(ps, name, v)| ==> Set(ps, name, v)[i] in ps || Set(ps, name, v)[i] == Pair(name, v)
  {
  }

  /** Storing a well-formed value under a C-string name keeps an object well formed. */
  lemma SetWellFormed(ps: seq<Pair<Json>>, name: Bytes, v: Json)
    requires WellFormed(Object(ps)) && WellFormed(v) && NoNul(name)
    ensures WellFormed(Object(Set(ps, name, v)))
  {
    SetSpec(ps, name, v);
    SetPairs(ps, name, v);
    var q := Set(ps, name, v);
    forall i | 0 <= i < |q|
      ensures NoNul(q[i].name) && WellFormed(q[i].value)
    {
      if q[i] != Pair(name, v) {
        var j :| 0 <= j < |ps| && ps[j] == q[i];
      }
    }
  }

  /** Dot-notation set keeps a tree well formed: names stay unique at every level and are C strings. */
  lemma {:induction false} DotSetWellFormed(ps: seq<Pair<Json>>, name: Bytes, v: Json)
    requires WellFormed(Object(ps)) && WellFormed(v)
    requires DotSet(ps, name, v).Some?
    ensures WellFormed(Object(DotSet(ps, name, v).value))
    decreases |name|
  {
    match FirstDot(name)
    case None =>
      SetWellFormed(ps, CString(name), v);
    case Some(k) =>
      var inner := DotSetChild(ps, name, v, k);
      if Lookup(ps, name[..k]).Some? {
        assert WellFormed(ps[IndexOf(ps, name[..k]).value].value);
      }
      DotSetWellFormed(inner, name[k + 1..], v);
      SetWellFormed(ps, name[..k], Object(DotSet(inner, name[k + 1..], v).value));
  }

  /**
   * In a tree with unique names, removal succeeds exactly when the dotted name
   * reaches a value, and afterwards it reaches nothing.
   */
  lemma {:induction false} DotRemoveSpec(ps: seq<Pair<Json>>, name: Bytes)
    requires WellFormed(Object(ps))
    ensures DotRemove(ps, name).Some? <==> DotGet(Some(ps), name).Some?
    ensures DotRemove(ps, name).Some? ==> DotGet(Some(DotRemove(ps, name).value), name).None?
    decreases |name|
  {
    match FirstDot(name)
    case None =>
      RemoveSwapSpec(ps, CString(name));
    case Some(k) =>
      var before, after := name[..k], name[k + 1..];
      match Lookup<Json>(ps, before)
      case Some(Object(inner)) =>
        var j := IndexOf(ps, before).value;
        assert WellFormed(ps[j].value);
        DotRemoveSpec(inner, after);
        DotRemoveInner(ps, name, k, inner);
      case Some(_) =>
      case None =>
  }

  /** A removal changes only the pair named by the path's first step; every other name keeps its value. */
  lemma DotRemoveOthers(ps: seq<Pair<Json>>, name: Bytes, m: Bytes)
    requires WellFormed(Object(ps)) && DotRemove(ps, name).Some? && m != Head(name)
    ensures Lookup(DotRemove(ps, name).value, m) == Lookup(ps, m)
  {
    match FirstDot(name)
    case None =>
      RemoveSwapOther(ps, CString(name), m);
    case Some(k) =>
      var inner := DotRemoveChild(ps, name, k);
      SetOther(ps, name[..k], Object(DotRemove(inner, name[k + 1..]).value), m);
  }

  /** Two dotted names part ways: at some level their steps name different pairs of the same object. */
  predicate Apart(name: Bytes, m: Bytes)
    decreases |name|
  {
    Head(name) != Head(m) ||
    match (FirstDot(name), FirstDot(m))
    case (Some(k), Some(j)) => Apart(name[k + 1..], m[j + 1..])
    case _ => false
  }

  /** Two objects whose pairs under the first step of `m` agree reach the same value by `m`. */
  lemma DotGetByHead(ps: seq<Pair<Json>>, qs: seq<Pair<Json>>, m: Bytes)
    requires Lookup(qs, Head(m)) == Lookup(ps, Head(m))
    ensures DotGet(Some(qs), m) == DotGet(Some(ps), m)
  {
  }

  /** A removal leaves every dotted name that parts ways with the removed one reaching what it reached before. */
  lemma {:induction false} DotRemoveKeepsOthers(ps: seq<Pair<Json>>, name: Bytes, m: Bytes)
    requires WellFormed(Object(ps)) && DotRemove(ps, name).Some? && Apart(name, m)
    ensures DotGet(Some(DotRemove(ps, name).value), m) == DotGet(Some(ps), m)
    decreases |name|
  {
    var q := DotRemove(ps, name).value;
    if Head(name) != Head(m) {
      DotRemoveOthers(ps, name, Head(m));
      DotGetByHead(ps, q, m);
    } else {
      var k, j := FirstDot(name).value, FirstDot(m).value;
      var inner := DotRemoveChild(ps, name, k);
      var q := DotRemove(inner, name[k + 1..]).value;
      assert WellFormed(ps[IndexOf(ps, name[..k]).value].value);
      assert Apart(name[k + 1..], m[j + 1..]);
      DotRemoveKeepsOthers(inner, name[k + 1..], m[j + 1..]);
      SetGet(ps, name[..k], Object(q));
      DotGetThrough(ps, DotRemove(ps, name).value, m, j, inner, q);
    }
  }

  /** Two objects whose children under the first step of `m` agree on the rest of `m` reach the same value by `m`. */
  lemma DotGetThrough(ps: seq<Pair<Json>>, qs: seq<Pair<Json>>, m: Bytes, j: nat, inner: seq<Pair<Json>>, q: seq<Pair<Json>>)
    requires FirstDot(m) == Some(j)
    requires Lookup(ps, m[..j]) == Some(Object(inner)) && Lookup(qs, m[..j]) == Some(Object(q))
    requires DotGet(Some(q), m[j + 1..]) == DotGet(Some(inner), m[j + 1..])
    ensures DotGet(Some(qs), m) == DotGet(Some(ps), m)
  {
  }

  /** One level of a successful dotted removal: the child object the first step names is updated and set back under that step. */
  lemma DotRemoveChild(ps: seq<Pair<Json>>, name: Bytes, k: nat) returns (inner: seq<Pair<Json>>)
    requires FirstDot(name) == Some(k) && DotRemove(ps, name).Some?
    ensures Lookup(ps, name[..k]) == Some(Object(inner)) && DotRemove(inner, name[k + 1..]).Some?
    ensures DotRemove(ps, name) == Some(Set(ps, name[..k], Object(DotRemove(inner, name[k + 1..]).value)))
  {
    inner := Lookup(ps, name[..k]).value.members;
  }

  /** The inductive step of DotRemoveSpec: what holds for the child object holds for its parent. */
  lemma DotRemoveInner(ps: seq<Pair<Json>>, name: Bytes, k: nat, inner: seq<Pair<Json>>)
    requires FirstDot(name) == Some(k) && Lookup(ps, name[..k]) == Some(Object(inner))
    requires DotRemove(inner, name[k + 1..]).Some? <==> DotGet(Some(inner), name[k + 1..]).Some?
    requires DotRemove(inner, name[k + 1..]).Some? ==> DotGet(Some(DotRemove(inner, name[k + 1..]).value), name[k + 1..]).None?
    ensures DotRemove(ps, name).Some? <==> DotGet(Some(ps), name).Some?
    ensures DotRemove(ps, name).Some? ==> DotGet(Some(DotRemove(ps, name).value), name).None?
  {
    var before, after := name[..k], name[k + 1..];
    if DotRemove(inner, after).Some? {
      SetSpec(ps, before, Object(DotRemove(inner, after).value));
    }
  }
}
