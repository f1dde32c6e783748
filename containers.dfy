/**
 * The heap form of a document tree: a value node with a non-owning parent
 * link, and the object and array containers that grow their arrays in place.
 * Every mutating operation is proved against the pair and item sequence
 * functions of module Members.
 */
module Containers {
  import opened Wrappers
  import opened Bytes
  import opened Members
  import Utf8
  import Json

  /** The growth rule of both containers when they are full: double, but at least 16 slots. */
  const STARTING_CAPACITY: nat := 16

  function Grow(capacity: nat): (r: nat)
    ensures r > capacity && r >= STARTING_CAPACITY
  {
    if capacity * 2 > STARTING_CAPACITY then capacity * 2 else STARTING_CAPACITY
  }

  /**
   * What the filled slots of an object hold: as many values as names, no
   * null value, no name holding a NUL, and no name twice.
   */
  ghost predicate Slots(ns: seq<Bytes>, vs: seq<Value?>)
  {
    |ns| == |vs| && (forall i :: 0 <= i < |ns| ==> vs[i] != null && NoNul(ns[i]))
    && UniqueNames(Zip(ns, vs))
  }

  /** Filling the next slot with a fresh name and a value keeps the slots well formed. */
  lemma SlotsSnoc(ns: seq<Bytes>, vs: seq<Value?>, n: Bytes, v: Value?)
    requires Slots(ns, vs) && v != null && NoNul(n) && !HasName(Zip(ns, vs), n)
    ensures Slots(ns + [n], vs + [v]) && Zip(ns + [n], vs + [v]) == Zip(ns, vs) + [Pair(n, v)]
  {
    ZipSnoc(ns, vs, n, v);
    AddUnique(Zip(ns, vs), n, v);
  }

  /** Moving the last slot into slot `i` keeps the slots well formed. */
  lemma SlotsRemoveSwap(ns: seq<Bytes>, vs: seq<Value?>, i: nat)
    requires Slots(ns, vs) && i < |ns|
    ensures Slots(SwapRemove(ns, i), SwapRemove(vs, i))
      && Zip(SwapRemove(ns, i), SwapRemove(vs, i)) == SwapRemove(Zip(ns, vs), i)
  {
    ZipRemoveSwap(ns, vs, i);
    RemoveSwapUnique(Zip(ns, vs), i);
  }

  /** The filled slots of an array after its last filled slot moved into slot `i`. */
  lemma SwapRemoveSlice<T>(before: seq<T>, after: seq<T>, filled: seq<T>, i: nat)
    requires i < |filled| <= |before| && filled == before[..|filled|]
    requires after == before[i := before[|filled| - 1]]
    ensures after[..|filled| - 1] == SwapRemove(filled, i)
  {
  }

  /** Replacing the value of slot `i` by a non-null one keeps the slots well formed. */
  lemma SlotsUpdate(ns: seq<Bytes>, vs: seq<Value?>, i: nat, v: Value?)
    requires Slots(ns, vs) && i < |ns| && v != null
    ensures Slots(ns, vs[i := v]) && Zip(ns, vs[i := v]) == Zip(ns, vs)[i := Pair(ns[i], v)]
  {
    assert ns[i := ns[i]] == ns;
    ZipUpdate(ns, vs, i, ns[i], v);
    SetInPlaceUnique(Zip(ns, vs), i, ns[i], v);
  }

  /** What a value node holds, by its type tag. */
  datatype Kind =
    | KNull
    | KBoolean(b: bool)
    | KNumber(n: real)
    | KString(s: Bytes)
    | KObject(obj: JsonObject)
    | KArray(arr: JsonArray)

  /** The value NULL stands for when a lookup finds nothing. */
  function Deref(r: Option<Value?>): Value?
  {
    if r.Some? then r.value else null
  }

  class Value {
    /** The container value this one is stored in, or null for a root. */
    var parent: Value?
    var kind: Kind

    /** `json_value_get_type` of a non-NULL value. */
    function TypeCode(): (t: int)
      reads this
      ensures t == Json.JSONNull <==> kind.KNull?
      ensures t == Json.JSONBoolean <==> kind.KBoolean?
      ensures t == Json.JSONNumber <==> kind.KNumber?
      ensures t == Json.JSONString <==> kind.KString?
      ensures t == Json.JSONObject <==> kind.KObject?
      ensures t == Json.JSONArray <==> kind.KArray?
    {
      match kind
      case KNull => Json.JSONNull
      case KBoolean(_) => Json.JSONBoolean
      case KNumber(_) => Json.JSONNumber
      case KString(_) => Json.JSONString
      case KObject(_) => Json.JSONObject
      case KArray(_) => Json.JSONArray
    }

    /** `json_value_init_null`. */
    constructor InitNull()
      ensures parent == null && kind == KNull
    {
      parent := null;
      kind := KNull;
    }

    /** `json_value_init_boolean`: any non-zero int is true. */
    constructor InitBoolean(boolean: int)
      ensures parent == null && kind == KBoolean(boolean != 0)
    {
      parent := null;
      kind := KBoolean(boolean != 0);
    }

    /** The node `json_value_init_number` allocates once the number is known to be finite. */
    constructor InitFiniteNumber(n: real)
      ensures parent == null && kind == KNumber(n)
    {
      parent := null;
      kind := KNumber(n);
    }

    /** `json_value_init_string_no_copy`: takes the bytes as they are, without validation. */
    constructor InitStringNoCopy(s: Bytes)
      ensures parent == null && kind == KString(s)
    {
      parent := null;
      kind := KString(s);
    }

    /** `json_value_init_object`: a root wrapping a fresh empty object. */
    constructor InitObject()
      ensures parent == null && kind.KObject? && fresh(kind.obj)
      ensures kind.obj.wrapping == this && kind.obj.Valid() && kind.obj.Pairs() == []
      ensures fresh(kind.obj.names) && fresh(kind.obj.values)
    {
      parent := null;
      kind := KNull;
      new;
      var o := new JsonObject.Init(this);
      kind := KObject(o);
    }

    /** `json_value_init_array`: a root wrapping a fresh empty array. */
    constructor InitArray()
      ensures parent == null && kind.KArray? && fresh(kind.arr)
      ensures kind.arr.wrapping == this && kind.arr.Valid() && kind.arr.Items() == []
      ensures fresh(kind.arr.items)
    {
      parent := null;
      kind := KNull;
      new;
      var a := new JsonArray.Init(this);
      kind := KArray(a);
    }
  }

  /**
   * `json_value_init_string`: copies the caller's C string, refusing it unless
   * it is well-formed UTF-8, or when copying it (`copyOk`) or allocating the
   * node (`mallocOk`) fails.
   */
  method InitString(s: Bytes, copyOk: bool, mallocOk: bool) returns (v: Value?)
    ensures v == null <==> !Utf8.ValidUtf8(CString(s)) || !copyOk || !mallocOk
    ensures v != null ==> fresh(v) && v.parent == null && v.kind == KString(CString(s))
  {
    var text := CString(s);
    var ok := Utf8.IsValidUtf8(text);
    if !ok || !copyOk || !mallocOk {
      return null;
    }
    v := new Value.InitStringNoCopy(text);
  }

  /** `json_value_init_number`: refuses an infinity or a NaN, and fails when the node cannot be allocated (`mallocOk`). */
  method InitNumber(d: Json.Double, mallocOk: bool) returns (v: Value?)
    ensures v == null <==> d.NonFinite? || !mallocOk
    ensures v != null ==> fresh(v) && v.parent == null && v.kind == KNumber(d.r)
  {
    if d.NonFinite? || !mallocOk {
      return null;
    }
    v := new Value.InitFiniteNumber(d.r);
  }

  /**
   * An object: two parallel arrays of names and values that share one count
   * and one capacity, and the value node that wraps the object.
   */
  class JsonObject {
    var wrapping: Value
    var names: array<Bytes>
    var values: array<Value?>
    var count: nat
    var capacity: nat

    ghost predicate Valid()
      reads this, names, values
    {
      names.Length == capacity && values.Length == capacity && count <= capacity
      && Slots(names[..count], values[..count])
    }

    /** The pairs in slot order. */
    ghost function Pairs(): seq<Pair<Value?>>
      reads this, names, values
      requires count <= names.Length && count <= values.Length
    {
      Zip(names[..count], values[..count])
    }

    /** `json_object_init`: no slots yet. */
    constructor Init(wrapping: Value)
      ensures this.wrapping == wrapping && Valid() && Pairs() == [] && capacity == 0
      ensures fresh(names) && fresh(values)
    {
      this.wrapping := wrapping;
      names := new Bytes[0];
      values := new Value?[0];
      count := 0;
      capacity := 0;
    }

    lemma LookupNonNull(name: Bytes)
      requires Valid()
      ensures Lookup(Pairs(), name).Some? ==> Lookup(Pairs(), name).value != null
      ensures HasName(Pairs(), name) <==> Deref(Lookup(Pairs(), name)) != null
    {
      var ps := Pairs();
      if HasName(ps, name) {
        var i := IndexOf(ps, name).value;
        assert ps[i].value == values[i];
      }
    }

    /**
     * `json_object_resize`: moves the pairs into fresh arrays of the new
     * capacity. It refuses a zero capacity and fails when an allocation fails
     * (`mallocOk` is false); the source copies `count` slots unchecked, so the
     * new capacity must hold them.
     */
    method Resize(newCapacity: nat, mallocOk: bool) returns (status: Status)
      requires Valid() && count <= newCapacity
      modifies this
      ensures Valid() && wrapping == old(wrapping) && count == old(count) && Pairs() == old(Pairs())
      ensures status == Success <==> newCapacity != 0 && mallocOk
      ensures capacity == if status == Success then newCapacity else old(capacity)
      ensures status == Success ==> fresh(names) && fresh(values)
      ensures status == Failure ==> names == old(names) && values == old(values)
    {
      if newCapacity == 0 || !mallocOk {
        return Failure;
      }
      ghost var ns, vs := names[..count], values[..count];
      var tempNames := new Bytes[newCapacity];
      var tempValues := new Value?[newCapacity];
      var i := 0;
      while i < count
        modifies tempNames, tempValues
        invariant 0 <= i <= count
        invariant tempNames[..i] == ns[..i] && tempValues[..i] == vs[..i]
      {
        tempNames[i] := names[i];
        tempValues[i] := values[i];
        i := i + 1;
      }
      assert tempNames[..count] == ns && tempValues[..count] == vs;
      capacity, names, values := newCapacity, tempNames, tempValues;
      return Success;
    }

    /** `json_object_getn_value`: the value of the first pair with that name, null when there is none. */
    method Getn(name: Bytes) returns (v: Value?)
      requires Valid()
      ensures v == Deref(Lookup(Pairs(), name))
      ensures v == null <==> !HasName(Pairs(), name)
    {
      LookupNonNull(name);
      var i := 0;
      while i < count
        invariant 0 <= i <= count
        invariant forall j :: 0 <= j < i ==> Pairs()[j].name != name
      {
        if |names[i]| == |name| && names[i] == name {
          IndexOfFirst(Pairs(), name, i);
          return values[i];
        }
        i := i + 1;
      }
      return null;
    }

    /**
     * `json_object_addn`: appends a pair under a name not yet present. It
     * fails without change for a null value, a present name, or a failed
     * allocation: growing the arrays when full (`growOk`) or copying the name
     * (`copyOk`). On success the value's parent becomes the wrapping value.
     */
    method Addn(name: Bytes, value: Value?, growOk: bool, copyOk: bool) returns (status: Status)
      requires Valid() && NoNul(name)
      modifies this, names, values, value
      ensures Valid() && wrapping == old(wrapping) && (value != null ==> value.kind == old(value.kind))
      ensures status == Success <==>
        value != null && !HasName(old(Pairs()), name) && (old(count) < old(capacity) || growOk) && copyOk
      ensures status == Success ==> Pairs() == old(Pairs()) + [Pair(name, value)] && value.parent == wrapping
      ensures status == Failure ==> Pairs() == old(Pairs()) && (value != null ==> value.parent == old(value.parent))
      ensures capacity == if value != null && !HasName(old(Pairs()), name) && old(count) >= old(capacity) && growOk
        then Grow(old(capacity)) else old(capacity)
    {
      if value == null {
        return Failure;
      }
      var existing := Getn(name);
      if existing != null {
        return Failure;
      }
      if count >= capacity {
        status := Resize(Grow(capacity), growOk);
        if status == Failure {
          return Failure;
        }
      }
      if !copyOk {
        return Failure;
      }
      Push(name, value);
      return Success;
    }

    /** The store at the end of `json_object_addn`, once a free slot exists. */
    method Push(name: Bytes, value: Value)
      requires Valid() && NoNul(name) && !HasName(Pairs(), name) && count < capacity
      modifies this, names, values, value`parent
      ensures Valid() && wrapping == old(wrapping) && capacity == old(capacity)
      ensures names == old(names) && values == old(values)
      ensures Pairs() == old(Pairs()) + [Pair(name, value)] && value.parent == wrapping
    {
      ghost var ns, vs := names[..count], values[..count];
      SlotsSnoc(ns, vs, name, value);
      names[count] := name;
      value.parent := wrapping;
      values[count] := value;
      count := count + 1;
      assert names[..count] == ns + [name];
      assert values[..count] == vs + [value];
    }

    /**
     * `json_object_remove_internal`: removes the pair with that name, moving
     * the last pair into its slot; fails without change when the name is absent.
     */
    method RemoveInternal(name: Bytes) returns (status: Status)
      requires Valid() && NoNul(name)
      modifies this, names, values
      ensures Valid() && wrapping == old(wrapping) && capacity == old(capacity)
      ensures names == old(names) && values == old(values)
      ensures status == Success <==> HasName(old(Pairs()), name)
      ensures Pairs() == if status == Success then RemoveSwap(old(Pairs()), name).value else old(Pairs())
    {
      var found := Getn(name);
      if found == null {
        return Failure;
      }
      var i := FindSlot(name);
      SwapOut(i);
      return Success;
    }

    /** The scan of the names shared by `json_object_remove_internal` and `json_object_set_value`. */
    method FindSlot(name: Bytes) returns (i: nat)
      requires Valid() && HasName(Pairs(), name)
      ensures i < count && names[i] == name && IndexOf(Pairs(), name) == Some(i)
    {
      ghost var ps := Pairs();
      ghost var idx := IndexOf(ps, name).value;
      i := 0;
      while names[i] != name
        invariant 0 <= i <= idx
        invariant forall j :: 0 <= j < i ==> ps[j].name != name
        decreases idx - i
      {
        assert ps[i].name == names[i];
        i := i + 1;
      }
      assert ps[i].name == names[i];
    }

    /** The removal step of `json_object_remove_internal` at the found slot `i`. */
    method SwapOut(i: nat)
      requires Valid() && i < count
      modifies this, names, values
      ensures Valid() && wrapping == old(wrapping) && capacity == old(capacity)
      ensures names == old(names) && values == old(values)
      ensures Pairs() == SwapRemove(old(Pairs()), i)
    {
      ghost var ns, vs := names[..count], values[..count];
      ghost var an, av := names[..], values[..];
      var last := count - 1;
      SlotsRemoveSwap(ns, vs, i);
      MoveLast(i, last);
      count := count - 1;
      SwapRemoveSlice(an, names[..], ns, i);
      SwapRemoveSlice(av, values[..], vs, i);
    }

    /** Moves the pair in slot `last` into slot `i`, when they differ. */
    method MoveLast(i: nat, last: nat)
      requires i <= last < names.Length && last < values.Length
      modifies names, values
      ensures names[..] == old(names[..])[i := old(names[last])]
      ensures values[..] == old(values[..])[i := old(values[last])]
    {
      if i != last {
        names[i] := names[last];
        values[i] := values[last];
      }
    }

    /** `json_object_clear`: no pairs, the arrays and capacity kept. */
    method Clear()
      requires Valid()
      modifies this
      ensures Valid() && Pairs() == [] && capacity == old(capacity)
      ensures wrapping == old(wrapping) && names == old(names) && values == old(values)
    {
      count := 0;
    }

    /**
     * `json_object_set_value`: refuses a null value or one that already has a
     * parent; otherwise replaces the value of the pair with that name in its
     * slot, or adds a new pair.
     */
    method SetValue(name: Bytes, value: Value?, growOk: bool, copyOk: bool) returns (status: Status)
      requires Valid() && NoNul(name)
      modifies this, names, values, value
      ensures Valid() && wrapping == old(wrapping) && (value != null ==> value.kind == old(value.kind))
      ensures status == Success <==>
        value != null && old(value.parent) == null &&
        (HasName(old(Pairs()), name) || ((old(count) < old(capacity) || growOk) && copyOk))
      ensures status == Success ==> Pairs() == Set(old(Pairs()), name, value) && value.parent == wrapping
      ensures status == Failure ==> Pairs() == old(Pairs()) && (value != null ==> value.parent == old(value.parent))
      ensures HasName(old(Pairs()), name) ==> capacity == old(capacity)
    {
      if value == null || value.parent != null {
        return Failure;
      }
      var old_value := Getn(name);
      if old_value != null {
        var i := FindSlot(name);
        ReplaceAt(i, value);
        return Success;
      }
      status := Addn(name, value, growOk, copyOk);
    }

    /** The overwrite in `json_object_set_value`: slot `i` takes the value, which takes the object as parent. */
    method ReplaceAt(i: nat, value: Value)
      requires Valid() && i < count
      modifies values, value`parent
      ensures Valid() && value.parent == wrapping
      ensures Pairs() == old(Pairs())[i := Pair(names[i], value)]
    {
      ghost var ns, vs := names[..count], values[..count];
      SlotsUpdate(ns, vs, i, value);
      value.parent := wrapping;
      values[i] := value;
      assert values[..count] == vs[i := value];
    }
  }

  /** An array: one array of items with a count and a capacity, and the value node that wraps it. */
  class JsonArray {
    var wrapping: Value
    var items: array<Value?>
    var count: nat
    var capacity: nat

    ghost predicate Valid()
      reads this, items
    {
      items.Length == capacity && count <= capacity
      && forall i :: 0 <= i < count ==> items[i] != null
    }

    /** The items in order. */
    ghost function Items(): seq<Value?>
      reads this, items
      requires count <= items.Length
    {
      items[..count]
    }

    /** `json_array_init`: no slots yet. */
    constructor Init(wrapping: Value)
      ensures this.wrapping == wrapping && Valid() && Items() == [] && capacity == 0
      ensures fresh(items)
    {
      this.wrapping := wrapping;
      items := new Value?[0];
      count := 0;
      capacity := 0;
    }

    /**
     * `json_array_resize`: moves the items into a fresh array; refuses a zero
     * capacity or one below the count, and fails when the allocation fails.
     */
    method Resize(newCapacity: nat, mallocOk: bool) returns (status: Status)
      requires Valid()
      modifies this
      ensures Valid() && wrapping == old(wrapping) && count == old(count) && Items() == old(Items())
      ensures status == Success <==> newCapacity != 0 && newCapacity >= old(count) && mallocOk
      ensures capacity == if status == Success then newCapacity else old(capacity)
      ensures status == Success ==> fresh(items)
      ensures status == Failure ==> items == old(items)
    {
      if newCapacity == 0 || newCapacity < count {
        return Failure;
      }
      if !mallocOk {
        return Failure;
      }
      var newItems := new Value?[newCapacity];
      var i := 0;
      while i < count
        modifies newItems
        invariant 0 <= i <= count
        invariant newItems[..i] == items[..i]
      {
        newItems[i] := items[i];
        i := i + 1;
      }
      assert newItems[..count] == items[..count];
      capacity, items := newCapacity, newItems;
      return Success;
    }

    /**
     * `json_array_add`: appends the value, growing the array when full; the
     * value's parent becomes the wrapping value. It does not look at the old parent.
     */
    method Add(value: Value, growOk: bool) returns (status: Status)
      requires Valid()
      modifies this, items, value`parent
      ensures Valid() && wrapping == old(wrapping)
      ensures status == Success <==> old(count) < old(capacity) || growOk
      ensures status == Success ==> Items() == old(Items()) + [value] && value.parent == wrapping
      ensures status == Failure ==> Items() == old(Items()) && value.parent == old(value.parent)
      ensures capacity == if old(count) >= old(capacity) && growOk then Grow(old(capacity)) else old(capacity)
    {
      if count >= capacity {
        status := Resize(Grow(capacity), growOk);
        if status == Failure {
          return Failure;
        }
      }
      value.parent := wrapping;
      items[count] := value;
      count := count + 1;
      assert Items() == old(Items()) + [value] by {
        assert forall j :: 0 <= j < count - 1 ==> Items()[j] == old(Items())[j];
      }
      return Success;
    }

    /** `json_array_remove`: drops the item at the index and shifts the later items left, keeping their order. */
    method Remove(ix: nat) returns (status: Status)
      requires Valid()
      modifies this, items
      ensures Valid() && wrapping == old(wrapping) && capacity == old(capacity) && items == old(items)
      ensures status == Success <==> ix < old(count)
      ensures Items() == if status == Success then RemoveAt(old(Items()), ix) else old(Items())
    {
      if ix >= count {
        return Failure;
      }
      ghost var a := items[..count];
      Shift(ix);
      count := count - 1;
      assert Items() == RemoveAt(a, ix) by {
        RemoveAtSpec(a, ix);
      }
      return Success;
    }

    /** The `memmove` of `json_array_remove`: every item after `ix` moves one slot to the left. */
    method Shift(ix: nat)
      requires Valid() && ix < count
      modifies items
      ensures Valid()
      ensures forall j :: 0 <= j < ix ==> items[j] == old(items[j])
      ensures forall j :: ix <= j < count - 1 ==> items[j] == old(items[j + 1])
    {
      ghost var a := items[..];
      var k := ix;
      while k < count - 1
        modifies items
        invariant ix <= k <= count - 1
        invariant forall j :: 0 <= j < ix ==> items[j] == a[j]
        invariant forall j :: ix <= j < k ==> items[j] == a[j + 1]
        invariant forall j :: k <= j < items.Length ==> items[j] == a[j]
      {
        items[k] := items[k + 1];
        k := k + 1;
      }
    }

    /**
     * `json_array_replace_value`: puts the value in the slot of an existing
     * index; refuses a null value, one that already has a parent, or an index
     * past the end.
     */
    method ReplaceValue(ix: nat, value: Value?) returns (status: Status)
      requires Valid()
      modifies items, value
      ensures Valid() && count == old(count) && (value != null ==> value.kind == old(value.kind))
      ensures status == Success <==> value != null && old(value.parent) == null && ix < count
      ensures status == Success ==> Items() == old(Items())[ix := value] && value.parent == wrapping
      ensures status == Failure ==> Items() == old(Items()) && (value != null ==> value.parent == old(value.parent))
    {
      if value == null || value.parent != null || ix >= count {
        return Failure;
      }
      value.parent := wrapping;
      items[ix] := value;
      return Success;
    }

    /** `json_array_clear`: no items, the array and capacity kept. */
    method Clear()
      requires Valid()
      modifies this
      ensures Valid() && Items() == [] && capacity == old(capacity)
      ensures wrapping == old(wrapping) && items == old(items)
    {
      count := 0;
    }

    /** `json_array_append_value`: refuses a null value or one that already has a parent, then adds it. */
    method AppendValue(value: Value?, growOk: bool) returns (status: Status)
      requires Valid()
      modifies this, items, value
      ensures Valid() && wrapping == old(wrapping) && (value != null ==> value.kind == old(value.kind))
      ensures status == Success <==> value != null && old(value.parent) == null && (old(count) < old(capacity) || growOk)
      ensures status == Success ==> Items() == old(Items()) + [value] && value.parent == wrapping
      ensures status == Failure ==> Items() == old(Items()) && (value != null ==> value.parent == old(value.parent))
    {
      if value == null || value.parent != null {
        return Failure;
      }
      status := Add(value, growOk);
    }
  }
}
