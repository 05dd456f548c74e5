/** A declared member called `__proto__` (src/schema.ts): assigning its document sets the prototype
    of `properties` and stores nothing. What the published document then means, exactly. */
module SchemaProto {
  import opened Common
  import opened SchemaNodes
  import opened SchemaParse
  import opened JsonSchema
  import opened SchemaEmit
  import opened SchemaMeaning
  import opened SchemaValid
  import opened SchemaEmitProof
  import opened SchemaTheorems
  import opened SchemaReferences
  import opened SchemaAgreement
  import opened SchemaPublished

  // ---------------------------------------------------------------- the schema without the member

  /** The table with the members called `__proto__` of object `i` taken out. */
  function Without(t: Table, i: nat): Table
    requires i < |t| && t[i].body.ObjectS?
  {
    t[i := Node(ObjectS(StoredMembers(t[i].body.shape), t[i].body.unknownKeys), t[i].description)]
  }

  lemma WithoutWf(t: Table, i: nat)
    requires Wf(t) && i < |t| && t[i].body.ObjectS?
    ensures Wf(Without(t, i))
  {
    hide Wf, StoredMembers;
    forall j | 0 <= j < |t|
      ensures WfBody(Without(t, i)[j].body, j)
    {
      WfAt(t, j);
      if j == i { StoredDistinct(t[i].body.shape); }
    }
    WfAll(Without(t, i));
  }

  ghost predicate SameBelow(t: Table, u: Table, n: nat) {
    n <= |t| && |u| == |t| && forall j | 0 <= j < n :: u[j] == t[j]
  }

  lemma {:induction false} UndefinedBelow(t: Table, u: Table, n: nat, j: nat)
    requires Wf(t) && Wf(u) && SameBelow(t, u, n) && j < n
    ensures AcceptsUndefined(u, j) == AcceptsUndefined(t, j)
    decreases j
  {
    match t[j].body
    case UnionS(options) =>
      forall k | 0 <= k < |options|
        ensures AcceptsUndefined(u, options[k]) == AcceptsUndefined(t, options[k])
      {
        UndefinedBelow(t, u, n, options[k]);
      }
    case NullableS(inner) => UndefinedBelow(t, u, n, inner);
    case RefinedS(inner, _, _) => UndefinedBelow(t, u, n, inner);
    case _ =>
  }

  lemma {:induction false} VacuousBelow(t: Table, u: Table, n: nat, j: nat)
    requires Wf(t) && Wf(u) && SameBelow(t, u, n) && j < n
    ensures Vacuous(u, j) == Vacuous(t, j)
    decreases j
  {
    if t[j].body.RefinedS? { VacuousBelow(t, u, n, t[j].body.inner); }
  }

  /** What a schema means depends on the nodes below it. */
  lemma {:induction false} MeaningBelow(t: Table, u: Table, n: nat, o: Oracle, j: nat, v: Value)
    requires Wf(t) && Wf(u) && SameBelow(t, u, n) && j < n
    ensures Accepts(u, o, j, v) <==> Accepts(t, o, j, v)
    decreases j, 1
  {
    hide Accepts, Wf, Vacuous, SizeOk;
    WfAt(t, j);
    match t[j].body
    case ArrayS(item, _, _) =>
      AcceptsArray(t, o, j, v);
      AcceptsArray(u, o, j, v);
      if v.Arr? {
        forall k | 0 <= k < |v.items|
          ensures Accepts(u, o, item, v.items[k]) <==> Accepts(t, o, item, v.items[k])
        {
          MeaningBelow(t, u, n, o, item, v.items[k]);
        }
      }
    case RecordS(item) =>
      AcceptsRecord(t, o, j, v);
      AcceptsRecord(u, o, j, v);
      if v.Obj? {
        forall k | 0 <= k < |v.entries|
          ensures Accepts(u, o, item, v.entries[k].1) <==> Accepts(t, o, item, v.entries[k].1)
        {
          MeaningBelow(t, u, n, o, item, v.entries[k].1);
        }
      }
    case ObjectS(shape, _) =>
      AcceptsObject(t, o, j, v);
      AcceptsObject(u, o, j, v);
      if v.Obj? { MembersBelow(t, u, n, o, j, shape, v.entries); }
    case UnionS(options) =>
      AcceptsUnion(t, o, j, v);
      AcceptsUnion(u, o, j, v);
      forall k | 0 <= k < |options|
        ensures Accepts(u, o, options[k], v) <==> Accepts(t, o, options[k], v)
        ensures Vacuous(u, options[k]) == Vacuous(t, options[k])
      {
        MeaningBelow(t, u, n, o, options[k], v);
        VacuousBelow(t, u, n, options[k]);
      }
    case OptionalS(inner) => InnerBelow(t, u, n, o, j, v);
    case NullableS(inner) => InnerBelow(t, u, n, o, j, v);
    case RefinedS(inner, _, _) => InnerBelow(t, u, n, o, j, v);
    case _ =>
      LeafMeaning(t, o, j, v);
      LeafMeaning(u, o, j, v);
  }

  lemma {:induction false} InnerBelow(t: Table, u: Table, n: nat, o: Oracle, j: nat, v: Value)
    requires Wf(t) && Wf(u) && SameBelow(t, u, n) && j < n && (t[j].body.OptionalS? || t[j].body.NullableS? || t[j].body.RefinedS?)
    ensures Accepts(u, o, j, v) <==> Accepts(t, o, j, v)
    decreases j, 0
  {
    hide Accepts, Wf;
    WfAt(t, j);
    AcceptsInner(t, o, j, v);
    AcceptsInner(u, o, j, v);
    MeaningBelow(t, u, n, o, t[j].body.inner, v);
  }

  lemma {:induction false} MembersBelow(t: Table, u: Table, n: nat, o: Oracle, j: nat, shape: seq<(string, nat)>, es: Entries)
    requires Wf(t) && Wf(u) && SameBelow(t, u, n) && j <= n && Below(shape, j)
    ensures MembersAccepted(u, o, shape, es) <==> MembersAccepted(t, o, shape, es)
    ensures MissingAllowed(u, shape, es) <==> MissingAllowed(t, shape, es)
    decreases j, 0
  {
    hide Accepts, Wf, AcceptsUndefined, Has, Get;
    forall k | 0 <= k < |shape|
      ensures AcceptsUndefined(u, shape[k].1) == AcceptsUndefined(t, shape[k].1)
      ensures Accepts(u, o, shape[k].1, Get(es, shape[k].0)) <==> Accepts(t, o, shape[k].1, Get(es, shape[k].0))
    {
      UndefinedBelow(t, u, n, shape[k].1);
      MeaningBelow(t, u, n, o, shape[k].1, Get(es, shape[k].0));
    }
  }

  // ---------------------------------------------------------------- its document

  /** The object may not do without a member called `__proto__`. */
  predicate Needs(t: Table, i: nat)
    requires Wf(t) && i < |t| && t[i].body.ObjectS?
  {
    exists k | 0 <= k < |t[i].body.shape| :: t[i].body.shape[k].0 == "__proto__" && !AcceptsUndefined(t, t[i].body.shape[k].1)
  }

  /** What the document of object `i` says: everything the schema says without the member, and
      that the member is there, if it must be. */
  ghost predicate Says(t: Table, o: Oracle, i: nat, v: Value)
    requires Wf(t) && i < |t| && t[i].body.ObjectS? && Wf(Without(t, i))
  {
    v.Obj? && Accepts(Without(t, i), o, i, v) && (Needs(t, i) ==> Has(v.entries, "__proto__"))
  }

  lemma MissingSplit(t: Table, i: nat, es: Entries)
    requires Wf(t) && i < |t| && t[i].body.ObjectS?
    ensures MissingAllowed(t, t[i].body.shape, es) <==>
      MissingAllowed(t, StoredMembers(t[i].body.shape), es) && (Needs(t, i) ==> Has(es, "__proto__"))
  {
    hide Has, AcceptsUndefined, StoredMembers;
    var shape, stored := t[i].body.shape, StoredMembers(t[i].body.shape);
    forall k | 0 <= k < |stored|
      ensures exists j | 0 <= j < |shape| :: shape[j] == stored[k]
    {
      assert stored[k] in stored;
    }
    forall k | 0 <= k < |shape| && shape[k].0 != "__proto__"
      ensures exists j | 0 <= j < |stored| :: stored[j] == shape[k]
    {
      assert shape[k] in stored;
    }
  }

  lemma DeclaredSplit(shape: seq<(string, nat)>, es: Entries)
    ensures AllDeclared(StoredMembers(shape), es) <==> AllDeclared(shape, es)
  {
    hide StoredMembers, Declared;
    forall k | 0 <= k < |es|
      ensures Declared(StoredMembers(shape), es[k].0) <==> Declared(shape, es[k].0) && es[k].0 != "__proto__"
    {
      StoredDeclared(shape, es[k].0);
    }
  }

  lemma WithoutMeaning(t: Table, o: Oracle, i: nat, v: Value)
    requires Wf(t) && i < |t| && t[i].body.ObjectS?
    ensures Wf(Without(t, i)) && (Accepts(t, o, i, v) <==> Says(t, o, i, v))
  {
    hide Accepts, Wf, MembersAccepted, MissingAllowed, AllDeclared, StoredMembers, Needs;
    WithoutWf(t, i);
    WfAt(t, i);
    var u, shape := Without(t, i), t[i].body.shape;
    AcceptsObject(t, o, i, v);
    AcceptsObject(u, o, i, v);
    if v.Obj? {
      MembersBelow(t, u, i, o, i, StoredMembers(shape), v.entries);
      StoredAccepted(t, o, shape, v.entries);
      MissingSplit(t, i, v.entries);
      DeclaredSplit(shape, v.entries);
    }
  }

  /** The document of an object says exactly that, whatever its mode: emitted without sharing; in a
      published document without references; and in any published document none of whose references
      goes through such a member. One that has such a reference admits nothing. */
  lemma ProtoExactly(t: Table, o: Oracle, i: nat, v: Value)
    requires Wf(t) && KeepsOne(t) && i < |t| && t[i].body.ObjectS? && JsonData(v)
    ensures Wf(Without(t, i))
    ensures Validates(o, ToUnsharedJsonSchema(t, i), v) <==> Says(t, o, i, v)
    ensures RefFree(ToJsonSchema(t, i)) ==> (Validates(o, ToJsonSchema(t, i), v) <==> Says(t, o, i, v))
    ensures Placeable(t) && PlainKeys(t) ==> (Validates(o, ToJsonSchema(t, i), v) <==> Direct(ToJsonSchema(t, i)) && Says(t, o, i, v))
  {
    hide Wf, Without, KeepsOne, Placeable, PlainKeys, Storable, JsonData, Says, Accepts, Validates, ToJsonSchema, ToUnsharedJsonSchema, RefFree, Direct;
    WithoutMeaning(t, o, i, v);
    UnsharedMeaning(t, o, i, v);
    if RefFree(ToJsonSchema(t, i)) { RefFreeMeaning(t, o, i, v); }
    if Placeable(t) && PlainKeys(t) { DocumentMeaning(t, o, i, v); }
  }

  /** In the parser's terms: the document of `t` validates what the parser of the published schema
      without the member accepts and, if the member is needed, has it. */
  lemma ProtoAsParser(t: Table, o: Oracle, i: nat, v: Value)
    requires Wf(t) && Placeable(t) && PlainKeys(t) && i < |t| && t[i].body.ObjectS? && JsonData(v)
    requires Wf(Without(t, i)) && Emittable(Without(t, i))
    ensures Wf(Published(Without(t, i))) && |Published(Without(t, i))| == |t|
    ensures Validates(o, ToJsonSchema(t, i), v) <==>
      && Direct(ToJsonSchema(t, i))
      && SafeParse(Published(Without(t, i)), o, i, v).value.Some?
      && (Needs(t, i) ==> v.Obj? && Has(v.entries, "__proto__"))
  {
    hide Wf, Without, KeepsOne, PlainKeys, Storable, JsonData, Accepts, Validates, ToJsonSchema, ToUnsharedJsonSchema, Direct, SafeParse, SameAsMap, Published, Needs;
    var u := Without(t, i);
    WithoutSize(t, i);
    ProtoExactly(t, o, i, v);
    DocumentAsParser(u, o, i, v);
    DocumentMeaning(u, o, i, v);
    PublishedNode(u, i);
    if Accepts(u, o, i, v) { OnlyObjects(u, o, i, v); }
  }

  lemma WithoutSize(t: Table, i: nat)
    requires i < |t| && t[i].body.ObjectS?
    ensures |Without(t, i)| == |t| && Without(t, i)[i].body.ObjectS?
  {
  }

  lemma OnlyObjects(t: Table, o: Oracle, i: nat, v: Value)
    requires Wf(t) && i < |t| && t[i].body.ObjectS? && Accepts(t, o, i, v)
    ensures v.Obj?
  {
  }

  // ---------------------------------------------------------------- when nothing is admitted

  lemma {:induction false} ProtoRequired(t: Table, bound: nat, shape: seq<(string, nat)>, path: Path, seen: Seen, k: nat)
    requires Wf(t) && bound <= |t| && Below(shape, bound) && k < |shape| && !AcceptsUndefined(t, shape[k].1)
    ensures shape[k].0 in EmitMembers(t, true, bound, shape, path, seen).required
    decreases |shape|
  {
    hide Emit, AcceptsUndefined, Stored;
    var memberPath := path + ["properties", shape[0].0];
    if k == 0 {
      NeededSpeaks(t, true, shape[0].1, memberPath, Some(memberPath), seen);
    } else {
      var e := Emit(t, true, shape[0].1, memberPath, Some(memberPath), seen);
      assert shape[1..][k - 1] == shape[k];
      ProtoRequired(t, bound, shape[1..], path, e.seen, k - 1);
    }
  }

  lemma {:induction false} ProtoUndeclared(t: Table, bound: nat, shape: seq<(string, nat)>, path: Path, seen: Seen)
    requires Wf(t) && bound <= |t| && Below(shape, bound)
    ensures !Declares(EmitMembers(t, true, bound, shape, path, seen).props, "__proto__")
    decreases |shape|
  {
    hide Emit, AcceptsUndefined;
    if shape != [] {
      var memberPath := path + ["properties", shape[0].0];
      ProtoUndeclared(t, bound, shape[1..], path, Emit(t, true, shape[0].1, memberPath, Some(memberPath), seen).seen);
    }
  }

  /** A member called `__proto__` is missing from `properties` and still in `required`: if the object
      is closed and must have it, the document admits no value at all. */
  lemma ProtoMember(t: Table, o: Oracle, i: nat, k: nat, v: Value)
    requires Wf(t) && i < |t| && t[i].body.ObjectS? && t[i].body.unknownKeys != Loose
    requires k < |t[i].body.shape| && t[i].body.shape[k].0 == "__proto__" && !AcceptsUndefined(t, t[i].body.shape[k].1)
    ensures !Validates(o, ToJsonSchema(t, i), v)
  {
    hide Expand, Valid, EmitMembers, AcceptsUndefined, ToJsonSchema;
    var shape, start := t[i].body.shape, map[][i := ["#"]];
    var m := EmitMembers(t, true, i, shape, ["#"], start);
    ProtoRequired(t, i, shape, ["#"], start, k);
    ProtoUndeclared(t, i, shape, ["#"], start);
    var root := ToJsonSchema(t, i);
    ObjectRoot(t, i);
    forall fuel: nat | Expand(root, root, fuel).Some?
      ensures !Valid(o, Expand(root, root, fuel).value, v)
    {
      ClosedExpands(root, fuel);
      ClosedRefuses(o, Expand(root, root, fuel).value, v);
    }
  }

  lemma ClosedExpands(root: Doc, fuel: nat)
    requires root.ref.None? && root.additional == Allowed(false) && Expand(root, root, fuel).Some? && !Declares(root.properties, "__proto__")
    ensures var d := Expand(root, root, fuel).value;
      d.required == root.required && d.types == root.types && d.additional == root.additional && !Declares(d.properties, "__proto__")
  {
    ExpandPropsAt(root, root.properties, fuel);
  }

  lemma ClosedRefuses(o: Oracle, d: Doc, v: Value)
    requires d.types == ["object"] && d.additional == Allowed(false) && "__proto__" in d.required && !Declares(d.properties, "__proto__")
    ensures !Valid(o, d, v)
  {
    if v.Obj? && Has(v.entries, "__proto__") {
      var k :| 0 <= k < |v.entries| && v.entries[k].0 == "__proto__";
      assert !Declares(d.properties, v.entries[k].0);
    } else {
      ClosedDemands(o, d, v);
    }
  }

  lemma ClosedDemands(o: Oracle, d: Doc, v: Value)
    requires d.types == ["object"] && "__proto__" in d.required && !(v.Obj? && Has(v.entries, "__proto__"))
    ensures !ScalarOk(o, d, v)
  {
    if v.Obj? {
      var k :| 0 <= k < |d.required| && d.required[k] == "__proto__";
      assert !Has(v.entries, d.required[k]);
    }
  }


  // ---------------------------------------------------------------- what the parser takes

  const LONE: seq<(string, nat)> := [("__proto__", 0)]

  function Lone(): Table {
    [Node(BooleanS, None), Node(ObjectS(LONE, Strict), None)]
  }

  /** A required member: the parser takes an object that has it, the document takes nothing. */
  lemma ProtoParses(o: Oracle, v: Value)
    ensures Wf(Lone()) && SafeParse(Lone(), o, 1, Obj([("__proto__", Bool(true))])).value.Some?
    ensures !Validates(o, ToJsonSchema(Lone(), 1), v)
  {
    hide Validates, ToJsonSchema, SafeParse;
    LoneTable();
    var es := [("__proto__", Bool(true))];
    GetAt(es, 0);
    BooleanParses(Lone(), o, 1, es, 0);
    assert Declared(LONE, es[0].0);
    ObjectParses(Lone(), o, 1, es);
    ProtoMember(Lone(), o, 1, 0, v);
  }

  lemma LoneTable()
    ensures Wf(Lone()) && |Lone()| == 2 && Lone()[0].body == BooleanS && Lone()[1].body == ObjectS(LONE, Strict)
    ensures !AcceptsUndefined(Lone(), 0) && LONE[0] == ("__proto__", 0)
  {
  }

  const SPARE: seq<(string, nat)> := [("__proto__", 1), ("b", 0)]

  /** `{ ["__proto__"]: flag.optional(), b: flag }` */
  function Spare(): Table {
    [Node(BooleanS, None), Node(OptionalS(0), None), Node(ObjectS(SPARE, Strict), None)]
  }

  const AT_PROTO: Path := ["#", "properties", "__proto__"]

  lemma SpareTable()
    ensures Wf(Spare()) && |Spare()| == 3 && Spare()[0] == Node(BooleanS, None) && Spare()[1] == Node(OptionalS(0), None)
    ensures Spare()[2] == Node(ObjectS(SPARE, Strict), None)
    ensures SPARE[0] == ("__proto__", 1) && SPARE[1..] == [("b", 0)] && |SPARE| == 2
    ensures !AcceptsUndefined(Spare(), 0) && AcceptsUndefined(Spare(), 1)
  {
    assert |"__proto__"| != |"b"|;
  }

  /** Under the member that is not stored, the boolean is recorded. */
  lemma SpareMember()
    ensures var first := Emit(Spare(), true, 1, AT_PROTO, Some(AT_PROTO), map[2 := ["#"]]);
      Wf(Spare()) && first.doc.Some? && 0 in first.seen && first.seen[0] == AT_PROTO
  {
    hide Spare;
    SpareTable();
    var inner: Seen := map[2 := ["#"]][1 := AT_PROTO];
    LeafEmitted(Spare(), 0, AT_PROTO, Some(AT_PROTO), inner);
    assert AtProperty(AT_PROTO, Some(AT_PROTO));
  }

  lemma SpareDocument()
    ensures Wf(Spare()) && |Spare()| == 3
    ensures ToJsonSchema(Spare(), 2) == ObjectDoc([Prop("b", RefDoc(AT_PROTO))], ["b"], Strict)
  {
    hide Spare, AcceptsUndefined, RefDoc, Emit, ToJsonSchema, Stored;
    SpareTable();
    SpareMember();
    var first := Emit(Spare(), true, 1, AT_PROTO, Some(AT_PROTO), map[2 := ["#"]]);
    TwoMembers(Spare(), 2, "__proto__", 1, "b", 0, first);
    StoredNot(first.doc.value);
    assert "b" != "__proto__" by { assert |"__proto__"| == 9; }
    StoredPlain("b", RefDoc(AT_PROTO));
    assert [] + [Prop("b", RefDoc(AT_PROTO))] == [Prop("b", RefDoc(AT_PROTO))] && [] + ["b"] == ["b"];
  }

  lemma SpareFits()
    ensures Wf(Spare()) && Placeable(Spare()) && PlainKeys(Spare())
  {
    hide PlainToken;
    SpareTable();
    PlainWord("b");
    PlainProto();
  }

  lemma PlainProto()
    ensures PlainToken("__proto__") && '%' !in "__proto__"
  {
    hide Unescape;
    var key := "__proto__";
    UnescapePlain(key);
  }

  lemma SpareLost()
    ensures Through(Join(AT_PROTO, '/'))
  {
    hide PlainToken, Join, Tokens;
    PlainWord("#");
    PlainWord("properties");
    PlainProto();
    TokensExactly(AT_PROTO);
    LostThrough(AT_PROTO);
    assert AT_PROTO[2] == "__proto__";
  }

  /** An optional member is enough: the schema first emitted under it is recorded at a path the
      document does not have, and its next use refers to that path. The parser takes an object
      without the member; the document takes nothing. */
  lemma ProtoOptional(o: Oracle, v: Value)
    requires JsonData(v)
    ensures Wf(Spare()) && ToJsonSchema(Spare(), 2) == ObjectDoc([Prop("b", RefDoc(AT_PROTO))], ["b"], Strict)
    ensures Resolve(ToJsonSchema(Spare(), 2), Join(AT_PROTO, '/')).None? && !Direct(ToJsonSchema(Spare(), 2))
    ensures SafeParse(Spare(), o, 2, Obj([("b", Bool(true))])).value.Some?
    ensures !Validates(o, ToJsonSchema(Spare(), 2), v)
  {
    hide *;
    SpareDocument();
    SpareFits();
    SpareTable();
    SpareLost();
    RefsResolve(Spare(), 2);
    var root := ToJsonSchema(Spare(), 2);
    ThroughDangles(root, Join(AT_PROTO, '/'));
    SpareIndirect();
    DocumentMeaning(Spare(), o, 2, v);
    SpareParses(o);
  }

  lemma SpareIndirect()
    requires Through(Join(AT_PROTO, '/'))
    ensures !Direct(ObjectDoc([Prop("b", RefDoc(AT_PROTO))], ["b"], Strict))
  {
    hide Through, Join;
    var d := ObjectDoc([Prop("b", RefDoc(AT_PROTO))], ["b"], Strict);
    assert d.properties[0].doc == RefDoc(AT_PROTO) && RefDoc(AT_PROTO).ref == Some(Join(AT_PROTO, '/'));
    assert !Direct(RefDoc(AT_PROTO));
  }

  lemma SpareParses(o: Oracle)
    ensures Wf(Spare()) && SafeParse(Spare(), o, 2, Obj([("b", Bool(true))])).value.Some?
  {
    hide Spare, SafeParse;
    SpareTable();
    var es := [("b", Bool(true))];
    GetAt(es, 0);
    assert !Has(es, "__proto__") by { assert |"__proto__"| != |"b"|; }
    assert SPARE[1] == ("b", 0);
    assert MemberPieces(Spare(), o, 2, SPARE, es, [])[0].issues == [];
    BooleanParses(Spare(), o, 2, es, 1);
    assert Declared(SPARE, es[0].0);
    ObjectParses(Spare(), o, 2, es);
  }
}
