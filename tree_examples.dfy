/** Concrete trees showing what the tree algorithms promise and where their rules bite. */
module TreeExamples {
  import opened Wrappers
  import opened Bytes
  import opened Members
  import opened Json
  import opened TreeOps
  import opened DotPaths

  const NAME: Bytes := [0x6E, 0x61, 0x6D, 0x65]
  const AGE: Bytes := [0x61, 0x67, 0x65]
  const GENDER: Bytes := [0x67, 0x65, 0x6E, 0x64, 0x65, 0x72]
  const JOE: Bytes := [0x4A, 0x6F, 0x65]
  const CUCUMBER: Bytes := [0x43, 0x75, 0x63, 0x75, 0x6D, 0x62, 0x65, 0x72]

  /** The schema `{"name":"", "age":0}`. */
  function PersonSchema(): (r: Json)
    ensures WellFormed(r)
  {
    Object([Pair(NAME, String([])), Pair(AGE, Number(0.0))])
  }

  /** `{"name":"", "age":0}` validates `{"name":"Joe", "age":25}`. */
  lemma ValidatesExactFields()
    ensures Validate(PersonSchema(), Object([Pair(NAME, String(JOE)), Pair(AGE, Number(25.0))])) == Success
  {
    var vps := [Pair(NAME, String(JOE)), Pair(AGE, Number(25.0))];
    LookupAt(vps, 0);
    LookupAt(vps, 1);
    ValidateObject(PersonSchema().members, vps);
  }

  /** ... and `{"name":"Joe", "age":25, "gender":"m"}`: extra fields are allowed. */
  lemma ValidatesExtraField()
    ensures Validate(PersonSchema(),
      Object([Pair(NAME, String(JOE)), Pair(AGE, Number(25.0)), Pair(GENDER, String([0x6D]))])) == Success
  {
    var vps := [Pair(NAME, String(JOE)), Pair(AGE, Number(25.0)), Pair(GENDER, String([0x6D]))];
    var sps := PersonSchema().members;
    LookupAt(vps, 0);
    LookupAt(vps, 1);
    assert forall i :: 0 <= i < |sps| ==> Lookup(vps, sps[i].name) == Some(vps[i].value);
    ValidateObject(sps, vps);
  }

  /** ... but not `{"name":"Joe"}`: fewer pairs than the schema. */
  lemma RejectsMissingField()
    ensures Validate(PersonSchema(), Object([Pair(NAME, String(JOE))])) == Failure
  {
  }

  /** ... nor `{"name":"Joe", "age":"Cucumber"}`: a field of another type. */
  lemma RejectsWrongType()
    ensures Validate(PersonSchema(), Object([Pair(NAME, String(JOE)), Pair(AGE, String(CUCUMBER))])) == Failure
  {
    var vps := [Pair(NAME, String(JOE)), Pair(AGE, String(CUCUMBER))];
    LookupAt(vps, 1);
    ValidateObject(PersonSchema().members, vps);
    assert !(Validate(Number(0.0), String(CUCUMBER)) == Success);
    assert PersonSchema().members[1] == Pair(AGE, Number(0.0));
  }

  /** Only the first item of an array schema is used: `[0, ""]` does not validate itself. */
  lemma OnlyFirstSchemaItem()
    ensures Validate(Array([Number(0.0)]), Array([Number(1.0), Number(2.0)])) == Success
    ensures Validate(Array([Number(0.0), String([])]), Array([Number(0.0), String([])])) == Failure
  {
    ValidateArray([Number(0.0)], [Number(1.0), Number(2.0)]);
    ValidateArray([Number(0.0), String([])], [Number(0.0), String([])]);
    assert Validate(Number(0.0), String([])) == Failure;
  }

  /** Pair order does not matter: `{"a":null,"b":true}` equals `{"b":true,"a":null}`. */
  lemma EqualsReorderedObject()
    ensures Equals(Object([Pair([0x61], Null), Pair([0x62], Boolean(true))]),
                   Object([Pair([0x62], Boolean(true)), Pair([0x61], Null)]))
  {
    var ps := [Pair([0x61], Null), Pair([0x62], Boolean(true))];
    var qs := [Pair([0x62], Boolean(true)), Pair([0x61], Null)];
    forall n
      ensures Lookup(ps, n) == Lookup(qs, n)
    {
      if n == [0x61] {
        LookupAt(ps, 0);
        LookupAt(qs, 1);
      } else if n == [0x62] {
        LookupAt(ps, 1);
        LookupAt(qs, 0);
      } else {
        assert !HasName(ps, n) && !HasName(qs, n);
      }
    }
    EqualsIgnoresOrder(ps, qs);
  }

  /** Numbers closer than the tolerance are equal, so equality is not transitive. */
  lemma NumberToleranceNotTransitive()
    ensures Equals(Number(0.0), Number(0.0000006)) && Equals(Number(0.0000006), Number(0.0000012))
    ensures !Equals(Number(0.0), Number(0.0000012))
  {
  }

  /**
   * Without unique names equality is not symmetric: `{"a":null,"a":true}`
   * equals `{"a":null,"b":true}` (both of its names find null), but not the
   * other way round (`b` is missing).
   */
  lemma DuplicateNamesAsymmetric()
    ensures Equals(Object([Pair([0x61], Null), Pair([0x61], Boolean(true))]),
                   Object([Pair([0x61], Null), Pair([0x62], Boolean(true))]))
    ensures !Equals(Object([Pair([0x61], Null), Pair([0x62], Boolean(true))]),
                    Object([Pair([0x61], Null), Pair([0x61], Boolean(true))]))
  {
    var ps := [Pair([0x61], Null), Pair([0x61], Boolean(true))];
    var qs := [Pair([0x61], Null), Pair([0x62], Boolean(true))];
    assert CString([0x61]) == [0x61];
    assert CString([0x62]) == [0x62];
    assert IndexOf(ps, [0x61]) == Some(0);
    assert IndexOf(qs, [0x61]) == Some(0);
    assert !HasName(ps, [0x62]);
    EqualsObjects(ps, qs);
    assert IndexOf(qs, [0x62]) == Some(1);
    assert !MemberEquals(qs, ps, CString(qs[1].name));
  }

  /** Deep copy re-adds every name, so an object with a repeated name cannot be copied. */
  lemma CopyRefusesDuplicateNames()
    ensures Copy(Object([Pair([0x61], Null), Pair([0x61], Null)])).None?
  {
    var ps := [Pair([0x61], Null), Pair([0x61], Null)];
    assert CString(ps[0].name) == [0x61] && CString(ps[1].name) == [0x61];
    assert IndexOf(ps, [0x61]) == Some(0);
    var none: seq<Pair<Json>> := [];
    assert !HasName(none, [0x61]);
    assert Copy(ps[0].value) == Some(Null);
    assert none + [Pair([0x61], Null)] == [Pair([0x61], Null)];
    assert Add(none, [0x61], Null) == Some([Pair([0x61], Null)]);
    assert IndexOf(ps, CString(ps[0].name)) == Some(0);
    assert CopyPair(ps, 0, none) == Some([Pair([0x61], Null)]);
    assert CopyPairs(ps, 1) == Some([Pair([0x61], Null)]);
    assert HasName([Pair([0x61], Null)], [0x61]);
    assert CopyPair(ps, 1, [Pair([0x61], Null)]).None?;
  }

  /** A name that itself contains a dot is stored but unreachable with dot notation. */
  lemma DottedNameUnreachable()
    ensures Lookup([Pair([0x61, DOT, 0x62], Null)], [0x61, DOT, 0x62]) == Some(Null)
    ensures DotGet(Some([Pair([0x61, DOT, 0x62], Null)]), [0x61, DOT, 0x62]).None?
    ensures DotRemove([Pair([0x61, DOT, 0x62], Null)], [0x61, DOT, 0x62]).None?
  {
    var ps := [Pair([0x61, DOT, 0x62], Null)];
    var name: Bytes := [0x61, DOT, 0x62];
    assert FirstDot(name) == Some(1);
    assert name[..1] == [0x61];
    assert !HasName(ps, [0x61]);
  }

  /** Setting `a.b` in an empty object creates the intermediate object `a`. */
  lemma DotSetCreatesHierarchy()
    ensures DotSet([], [0x61, DOT, 0x62], Null) == Some([Pair([0x61], Object([Pair([0x62], Null)]))])
  {
    var name: Bytes := [0x61, DOT, 0x62];
    assert FirstDot(name) == Some(1);
    assert name[..1] == [0x61];
    assert name[2..] == [0x62];
    assert FirstDot([0x62]) == None;
    assert CString([0x62]) == [0x62];
    assert Set([], [0x62], Null) == [Pair([0x62], Null)];
    assert DotSet([], [0x62], Null) == Some([Pair([0x62], Null)]);
    var none: seq<Pair<Json>> := [];
    assert !HasName(none, [0x61]);
    assert Lookup(none, [0x61]) == None;
    var top := [Pair([0x61], Object([Pair([0x62], Null)]))];
    assert none + top == top;
    assert Add(none, [0x61], Object([Pair([0x62], Null)])) == Some(top);
  }

  /** Setting `a.b` fails when `a` holds a value that is not an object. */
  lemma DotSetThroughScalarFails()
    ensures DotSet([Pair([0x61], Null)], [0x61, DOT, 0x62], Boolean(true)).None?
  {
    var name: Bytes := [0x61, DOT, 0x62];
    assert FirstDot(name) == Some(1);
    assert name[..1] == [0x61];
    LookupAt([Pair([0x61], Null)], 0);
  }
}
