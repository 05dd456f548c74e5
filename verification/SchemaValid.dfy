/** A document that stands for a schema validates exactly the values the schema accepts
    (src/schema.ts, with the three union collapses). */
module SchemaValid {
  import opened Common
  import opened SchemaNodes
  import opened JsonSchema
  import opened SchemaEmit
  import opened SchemaMeaning

  lemma ValidChildless(o: Oracle, d: Doc, v: Value)
    requires Childless(d) && d.additional.Unsaid?
    ensures Valid(o, d, v) <==> ScalarOk(o, d, v)
  {
  }

  lemma ValidBare(o: Oracle, d: Doc, v: Value)
    ensures Valid(o, d, v) <==> Valid(o, Bare(d), v)
  {
  }

  ghost predicate AnyType(types: seq<string>, v: Value) {
    exists ty :: ty in types && HasType(v, ty)
  }

  ghost predicate AnyScalar(xs: seq<Scalar>, v: Value) {
    exists x :: x in xs && v == ScalarValue(x)
  }

  lemma TypesMeaning(o: Oracle, types: seq<string>, v: Value)
    requires types != []
    ensures ScalarOk(o, TypeDoc(types), v) <==> AnyType(types, v)
  {
    var d := TypeDoc(types);
    assert d.types == types;
    if AnyType(types, v) {
      var ty :| ty in types && HasType(v, ty);
      var k :| 0 <= k < |types| && types[k] == ty;
      assert HasType(v, d.types[k]);
    }
  }

  lemma ScalarsMeaning(o: Oracle, types: seq<string>, values: seq<Scalar>, v: Value)
    requires forall x | x in values :: ScalarType(x) in types
    requires types != []
    ensures ScalarOk(o, TypeDoc(types).(values := Some(values)), v) <==> AnyScalar(values, v)
  {
    var d := TypeDoc(types).(values := Some(values));
    if AnyScalar(values, v) {
      var x :| x in values && v == ScalarValue(x);
      var j :| 0 <= j < |values| && values[j] == x;
      var m :| 0 <= m < |types| && types[m] == ScalarType(x);
      assert v == ScalarValue(d.values.value[j]) && HasType(v, d.types[m]);
    }
  }

  lemma PlainMeaning(o: Oracle, b: Body, v: Value)
    requires PlainType(b).Some?
    ensures ScalarOk(o, LeafDoc(b).value, v) <==> HasType(v, PlainType(b).value)
  {
    var ty := PlainType(b).value;
    assert LeafDoc(b) == Some(TypeDoc([ty]));
    TypesMeaning(o, [ty], v);
  }

  lemma LiteralMeaning(o: Oracle, x: Scalar, v: Value)
    ensures ScalarOk(o, LeafDoc(LiteralS(x)).value, v) <==> v == ScalarValue(x)
  {
    var leaf := TypeDoc([ScalarType(x)]).(constant := Some(x));
    assert LeafDoc(LiteralS(x)) == Some(leaf);
    assert HasType(ScalarValue(x), leaf.types[0]);
  }

  lemma PlainUnion(t: Table, o: Oracle, options: seq<nat>, v: Value)
    requires Wf(t) && (forall k | 0 <= k < |options| :: options[k] < |t|) && AllPlain(t, options)
    requires options != []
    ensures ScalarOk(o, TypeDoc(Dedup(PlainTypes(t, options))), v) <==> exists k | 0 <= k < |options| :: Accepts(t, o, options[k], v)
  {
    hide ScalarOk, HasType, Wf;
    var all := PlainTypes(t, options);
    assert all[0] in Dedup(all);
    TypesMeaning(o, Dedup(all), v);
    assert AnyType(Dedup(all), v) <==> AnyType(all, v);
    forall k | 0 <= k < |options|
      ensures Accepts(t, o, options[k], v) <==> HasType(v, all[k])
    {
      PlainMeaning(o, t[options[k]].body, v);
      PlainAccepts(t, o, options[k], v);
    }
    hide Accepts;
    if AnyType(all, v) {
      var ty :| ty in all && HasType(v, ty);
      var k :| 0 <= k < |all| && all[k] == ty;
      assert Accepts(t, o, options[k], v);
    }
    if k :| 0 <= k < |options| && Accepts(t, o, options[k], v) {
      assert all[k] in all;
    }
  }

  lemma LiteralUnion(t: Table, o: Oracle, options: seq<nat>, v: Value)
    requires Wf(t) && (forall k | 0 <= k < |options| :: options[k] < |t|) && AllLiterals(t, options)
    requires options != []
    ensures var xs := Literals(t, options);
      ScalarOk(o, TypeDoc(Dedup(TypesOf(xs))).(values := Some(Dedup(xs))), v) <==> exists k | 0 <= k < |options| :: Accepts(t, o, options[k], v)
  {
    var xs := Literals(t, options);
    var types := TypesOf(xs);
    forall x | x in xs
      ensures ScalarType(x) in types
    {
      var k :| 0 <= k < |xs| && xs[k] == x;
      assert types[k] == ScalarType(x);
    }
    assert types[0] in Dedup(types);
    ScalarsMeaning(o, Dedup(types), Dedup(xs), v);
    assert AnyScalar(Dedup(xs), v) <==> AnyScalar(xs, v);
    LiteralOptions(t, o, options, v);
  }

  lemma LiteralOptions(t: Table, o: Oracle, options: seq<nat>, v: Value)
    requires Wf(t) && forall k | 0 <= k < |options| :: options[k] < |t| && t[options[k]].body.LiteralS?
    ensures AnyScalar(Literals(t, options), v) <==> exists k | 0 <= k < |options| :: Accepts(t, o, options[k], v)
  {
    hide ScalarOk, Wf, ScalarValue;
    var xs := Literals(t, options);
    forall k | 0 <= k < |options|
      ensures Accepts(t, o, options[k], v) <==> v == ScalarValue(xs[k])
    {
      LiteralMeaning(o, xs[k], v);
    }
    hide Accepts;
    if AnyScalar(xs, v) {
      var x :| x in xs && v == ScalarValue(x);
      var k :| 0 <= k < |xs| && xs[k] == x;
      assert Accepts(t, o, options[k], v);
    }
    if k :| 0 <= k < |options| && Accepts(t, o, options[k], v) {
      assert xs[k] in xs;
    }
  }

  lemma EnumMeaning(o: Oracle, values: seq<string>, v: Value)
    ensures ScalarOk(o, EnumDoc(values), v) <==> v.Str? && v.s in values
  {
    var d := EnumDoc(values);
    if v.Str? {
      assert HasType(v, d.types[0]);
      if v.s in values {
        var k :| 0 <= k < |values| && values[k] == v.s;
        assert v == ScalarValue(d.values.value[k]);
      }
    }
  }

  lemma EnumUnion(t: Table, o: Oracle, options: seq<nat>, v: Value)
    requires Wf(t) && forall k | 0 <= k < |options| :: options[k] < |t| && t[options[k]].body.EnumS?
    ensures ScalarOk(o, EnumDoc(Dedup(EnumValues(t, options))), v) <==> exists k | 0 <= k < |options| :: Accepts(t, o, options[k], v)
  {
    EnumMeaning(o, Dedup(EnumValues(t, options)), v);
    forall k | 0 <= k < |options|
      ensures Accepts(t, o, options[k], v) <==> v.Str? && v.s in t[options[k]].body.values
    {
      EnumMeaning(o, t[options[k]].body.values, v);
    }
  }

  lemma AcceptsUnion(t: Table, o: Oracle, i: nat, v: Value)
    requires Wf(t) && i < |t| && t[i].body.UnionS?
    ensures Accepts(t, o, i, v) <==> exists k | 0 <= k < |t[i].body.options| :: !Vacuous(t, t[i].body.options[k]) && Accepts(t, o, t[i].body.options[k], v)
  {
  }

  /** None of the collapsed forms has an option to drop. */
  lemma CollapsedKeepsAll(t: Table, options: seq<nat>)
    requires Wf(t) && (forall k | 0 <= k < |options| :: options[k] < |t|) && Collapsed(t, options).Some?
    ensures forall k | 0 <= k < |options| :: !Vacuous(t, options[k])
  {
    forall k | 0 <= k < |options|
      ensures !Vacuous(t, options[k])
    {
      assert PlainType(t[options[k]].body).Some? || t[options[k]].body.LiteralS? || t[options[k]].body.EnumS?;
    }
  }

  lemma AcceptsCollapsed(t: Table, o: Oracle, i: nat, v: Value)
    requires Wf(t) && i < |t| && t[i].body.UnionS? && Collapsed(t, t[i].body.options).Some?
    ensures Accepts(t, o, i, v) <==> exists k | 0 <= k < |t[i].body.options| :: Accepts(t, o, t[i].body.options[k], v)
  {
    hide Accepts, Collapsed, Vacuous;
    AcceptsUnion(t, o, i, v);
    CollapsedKeepsAll(t, t[i].body.options);
  }

  lemma KeptAccept(t: Table, o: Oracle, options: seq<nat>, v: Value)
    requires Wf(t) && forall k | 0 <= k < |options| :: options[k] < |t|
    ensures var kept := KeptOptions(t, options);
      (exists k | 0 <= k < |kept| :: Accepts(t, o, kept[k], v)) <==>
      (exists k | 0 <= k < |options| :: !Vacuous(t, options[k]) && Accepts(t, o, options[k], v))
  {
    hide Accepts, Vacuous;
    var kept := KeptOptions(t, options);
    forall k | 0 <= k < |kept| && Accepts(t, o, kept[k], v)
      ensures exists j | 0 <= j < |options| :: !Vacuous(t, options[j]) && Accepts(t, o, options[j], v)
    {
      assert kept[k] in kept;
      var j :| 0 <= j < |options| && options[j] == kept[k];
      assert !Vacuous(t, options[j]) && Accepts(t, o, options[j], v);
    }
    forall k | 0 <= k < |options| && !Vacuous(t, options[k]) && Accepts(t, o, options[k], v)
      ensures exists j | 0 <= j < |kept| :: Accepts(t, o, kept[j], v)
    {
      assert options[k] in kept;
      var j :| 0 <= j < |kept| && kept[j] == options[k];
      assert Accepts(t, o, kept[j], v);
    }
  }

  lemma UnionSome(t: Table, i: nat)
    requires Wf(t) && i < |t| && t[i].body.UnionS?
    ensures t[i].body.options != [] && forall k | 0 <= k < |t[i].body.options| :: t[i].body.options[k] < i
  {
  }

  predicate AllPlain(t: Table, options: seq<nat>)
    requires forall k | 0 <= k < |options| :: options[k] < |t|
  {
    forall k | 0 <= k < |options| :: PlainType(t[options[k]].body).Some?
  }

  predicate AllLiterals(t: Table, options: seq<nat>)
    requires forall k | 0 <= k < |options| :: options[k] < |t|
  {
    forall k | 0 <= k < |options| :: t[options[k]].body.LiteralS? && t[options[k]].description.None?
  }

  lemma CollapsedCases(t: Table, options: seq<nat>)
    requires forall k | 0 <= k < |options| :: options[k] < |t|
    requires Collapsed(t, options).Some?
    ensures AllPlain(t, options) ==> Collapsed(t, options).value == TypeDoc(Dedup(PlainTypes(t, options)))
    ensures !AllPlain(t, options) && AllLiterals(t, options) ==>
      Collapsed(t, options).value == TypeDoc(Dedup(TypesOf(Literals(t, options)))).(values := Some(Dedup(Literals(t, options))))
    ensures !AllPlain(t, options) && !AllLiterals(t, options) ==>
      (forall k | 0 <= k < |options| :: t[options[k]].body.EnumS?) && Collapsed(t, options).value == EnumDoc(Dedup(EnumValues(t, options)))
  {
    hide PlainType, PlainTypes, Dedup, Literals, TypesOf, EnumValues, EnumDoc, TypeDoc;
  }

  /** A collapsed union still means: one of its options. */
  lemma CollapsedMeaning(t: Table, o: Oracle, i: nat, v: Value)
    requires Wf(t) && i < |t| && t[i].body.UnionS? && Collapsed(t, t[i].body.options).Some?
    ensures ScalarOk(o, Collapsed(t, t[i].body.options).value, v) <==> Accepts(t, o, i, v)
  {
    hide *;
    var options := t[i].body.options;
    UnionSome(t, i);
    AcceptsCollapsed(t, o, i, v);
    CollapsedCases(t, options);
    if AllPlain(t, options) {
      PlainUnion(t, o, options, v);
    } else if AllLiterals(t, options) {
      LiteralUnion(t, o, options, v);
    } else {
      EnumUnion(t, o, options, v);
    }
  }

  lemma RequiredMeaning(t: Table, shape: seq<(string, nat)>, key: string)
    requires Wf(t) && Below(shape, |t|)
    ensures key in RequiredKeys(t, shape) <==> exists k | 0 <= k < |shape| :: shape[k].0 == key && !AcceptsUndefined(t, shape[k].1)
  {
    if shape != [] {
      RequiredMeaning(t, shape[1..], key);
      assert forall k | 0 < k < |shape| :: shape[k] == shape[1..][k - 1];
      assert forall k | 0 <= k < |shape[1..]| :: shape[1..][k] == shape[k + 1];
    }
  }

  lemma {:induction false} ValidRepr(t: Table, o: Oracle, e: Doc, i: nat, v: Value)
    requires Wf(t) && i < |t| && JsonData(v) && Repr(t, e, i, map[])
    ensures Valid(o, e, v) <==> Accepts(t, o, i, v)
    decreases i, 1
  {
    hide Valid, Accepts, Repr, ScalarOk, JsonData, LeafDoc;
    ReprOnly(t, e, i);
    match t[i].body
    case ArrayS(_, _, _) => ValidArray(t, o, e, i, v);
    case RecordS(_) => ValidRecord(t, o, e, i, v);
    case ObjectS(_, _) => ValidObject(t, o, e, i, v);
    case UnionS(_) => ValidUnion(t, o, e, i, v);
    case OptionalS(_) => ValidOptional(t, o, e, i, v);
    case NullableS(_) => ValidNullable(t, o, e, i, v);
    case RefinedS(inner, _, _) =>
      ValidRepr(t, o, e, inner, v);
      AcceptsInner(t, o, i, v);
    case _ => ValidLeaf(t, o, e, i, v);
  }

  /** Without a map of paths nothing stands for a schema but a body of it. */
  lemma ReprOnly(t: Table, e: Doc, i: nat)
    requires Wf(t) && i < |t| && Repr(t, e, i, map[])
    ensures ReprBody(t, e, i, map[])
  {
    hide ReprBody;
  }

  lemma AcceptsInner(t: Table, o: Oracle, i: nat, v: Value)
    requires Wf(t) && i < |t|
    ensures t[i].body.OptionalS? || t[i].body.RefinedS? ==> (Accepts(t, o, i, v) <==> Accepts(t, o, t[i].body.inner, v))
    ensures t[i].body.NullableS? ==> (Accepts(t, o, i, v) <==> v.Null? || Accepts(t, o, t[i].body.inner, v))
  {
  }

  lemma ValidLeaf(t: Table, o: Oracle, e: Doc, i: nat, v: Value)
    requires Wf(t) && i < |t| && IsLeaf(t[i].body) && ReprBody(t, e, i, map[])
    ensures Valid(o, e, v) <==> Accepts(t, o, i, v)
  {
    hide ScalarOk, Valid, LeafDoc;
    LeafChildless(t[i].body);
    ValidBare(o, e, v);
    ValidChildless(o, Bare(e), v);
  }

  lemma {:induction false} ValidArray(t: Table, o: Oracle, e: Doc, i: nat, v: Value)
    requires Wf(t) && i < |t| && JsonData(v) && t[i].body.ArrayS? && ReprBody(t, e, i, map[])
    ensures Valid(o, e, v) <==> Accepts(t, o, i, v)
    decreases i, 0
  {
    var body := t[i].body;
    var b := ArrayDoc(e.items, body.minItems, body.maxItems);
    ValidBare(o, e, v);
    assert b.types[0] == "array";
    if v.Arr? {
      forall k | 0 <= k < |v.items|
        ensures Valid(o, e.items.value, v.items[k]) <==> Accepts(t, o, body.item, v.items[k])
      {
        ValidRepr(t, o, e.items.value, body.item, v.items[k]);
      }
    }
  }

  lemma {:induction false} ValidRecord(t: Table, o: Oracle, e: Doc, i: nat, v: Value)
    requires Wf(t) && i < |t| && JsonData(v) && t[i].body.RecordS? && ReprBody(t, e, i, map[])
    ensures Valid(o, e, v) <==> Accepts(t, o, i, v)
    decreases i, 0
  {
    var item := t[i].body.valueSchema;
    var b := RecordDoc(Some(e.additional.doc));
    ValidBare(o, e, v);
    assert b.types[0] == "object";
    if v.Obj? {
      forall k | 0 <= k < |v.entries|
        ensures Valid(o, e.additional.doc, v.entries[k].1) <==> Accepts(t, o, item, v.entries[k].1)
      {
        ValidRepr(t, o, e.additional.doc, item, v.entries[k].1);
      }
    }
  }

  lemma GetJson(v: Value, key: string)
    requires JsonData(v) && v.Obj? && Has(v.entries, key)
    ensures JsonData(Get(v.entries, key))
  {
  }

  ghost predicate MembersAccepted(t: Table, o: Oracle, shape: seq<(string, nat)>, es: Entries)
    requires Wf(t) && Below(shape, |t|)
  {
    forall k | 0 <= k < |shape| :: shape[k].0 != "__proto__" && Has(es, shape[k].0) ==> Accepts(t, o, shape[k].1, Get(es, shape[k].0))
  }

  ghost predicate MissingAllowed(t: Table, shape: seq<(string, nat)>, es: Entries)
    requires Wf(t) && Below(shape, |t|)
  {
    forall k | 0 <= k < |shape| :: Has(es, shape[k].0) || AcceptsUndefined(t, shape[k].1)
  }

  ghost predicate AllDeclared(shape: seq<(string, nat)>, es: Entries) {
    forall k | 0 <= k < |es| :: Declared(shape, es[k].0) && es[k].0 != "__proto__"
  }

  lemma AcceptsArray(t: Table, o: Oracle, i: nat, v: Value)
    requires Wf(t) && i < |t| && t[i].body.ArrayS?
    ensures Accepts(t, o, i, v) <==>
      v.Arr? && SizeOk(Size(t[i].body.minItems, t[i].body.maxItems), |v.items|) && forall k | 0 <= k < |v.items| :: Accepts(t, o, t[i].body.item, v.items[k])
  {
  }

  lemma AcceptsRecord(t: Table, o: Oracle, i: nat, v: Value)
    requires Wf(t) && i < |t| && t[i].body.RecordS?
    ensures Accepts(t, o, i, v) <==> v.Obj? && forall k | 0 <= k < |v.entries| :: Accepts(t, o, t[i].body.valueSchema, v.entries[k].1)
  {
  }

  lemma AcceptsObject(t: Table, o: Oracle, i: nat, v: Value)
    requires Wf(t) && i < |t| && t[i].body.ObjectS?
    ensures Accepts(t, o, i, v) <==>
      v.Obj? && MembersAccepted(t, o, t[i].body.shape, v.entries) && MissingAllowed(t, t[i].body.shape, v.entries)
      && (t[i].body.unknownKeys == Loose || AllDeclared(t[i].body.shape, v.entries))
  {
  }

  lemma {:induction false} ValidMembers(t: Table, o: Oracle, e: Doc, i: nat, v: Value)
    requires Wf(t) && i < |t| && JsonData(v) && v.Obj? && t[i].body.ObjectS? && ReprBody(t, e, i, map[])
    ensures (forall k | 0 <= k < |e.properties| ::
        Has(v.entries, e.properties[k].key) ==> Valid(o, e.properties[k].doc, Get(v.entries, e.properties[k].key)))
      <==> MembersAccepted(t, o, t[i].body.shape, v.entries)
    decreases i, 0, 0
  {
    hide Valid, Accepts, Repr, JsonData, Has, Get, StoredMembers;
    var stored := StoredMembers(t[i].body.shape);
    StoredAccepted(t, o, t[i].body.shape, v.entries);
    forall k | 0 <= k < |stored| && Has(v.entries, stored[k].0)
      ensures Valid(o, e.properties[k].doc, Get(v.entries, stored[k].0)) <==> Accepts(t, o, stored[k].1, Get(v.entries, stored[k].0))
    {
      GetJson(v, stored[k].0);
      ValidRepr(t, o, e.properties[k].doc, stored[k].1, Get(v.entries, stored[k].0));
    }
    forall k | 0 <= k < |stored|
      ensures stored[k].0 != "__proto__"
    {
      assert stored[k] in stored;
    }
  }

  lemma StoredAccepted(t: Table, o: Oracle, shape: seq<(string, nat)>, es: Entries)
    requires Wf(t) && Below(shape, |t|)
    ensures MembersAccepted(t, o, StoredMembers(shape), es) <==> MembersAccepted(t, o, shape, es)
  {
    hide Accepts, Has, Get, Wf;
    var stored := StoredMembers(shape);
    forall k | 0 <= k < |stored|
      ensures exists j | 0 <= j < |shape| :: shape[j] == stored[k] && shape[j].0 != "__proto__"
    {
      assert stored[k] in stored;
    }
    forall k | 0 <= k < |shape| && shape[k].0 != "__proto__"
      ensures exists j | 0 <= j < |stored| :: stored[j] == shape[k]
    {
      assert shape[k] in stored;
    }
  }

  lemma StoredDeclared(shape: seq<(string, nat)>, key: string)
    ensures Declared(StoredMembers(shape), key) <==> Declared(shape, key) && key != "__proto__"
  {
    var stored := StoredMembers(shape);
    if k :| 0 <= k < |stored| && stored[k].0 == key {
      assert stored[k] in stored;
      var j :| 0 <= j < |shape| && shape[j] == stored[k];
      assert shape[j].0 == key;
    }
    if k :| 0 <= k < |shape| && shape[k].0 == key && key != "__proto__" {
      assert shape[k] in stored;
      var j :| 0 <= j < |stored| && stored[j] == shape[k];
      assert stored[j].0 == key;
    }
  }

  /** Every required key is there exactly when only members that may be missing are missing. */
  lemma RequiredHas(t: Table, shape: seq<(string, nat)>, es: Entries)
    requires Wf(t) && Below(shape, |t|)
    ensures (forall j | 0 <= j < |RequiredKeys(t, shape)| :: Has(es, RequiredKeys(t, shape)[j])) <==>
      MissingAllowed(t, shape, es)
  {
    var required := RequiredKeys(t, shape);
    forall j | 0 <= j < |required|
      ensures exists k | 0 <= k < |shape| :: shape[k].0 == required[j] && !AcceptsUndefined(t, shape[k].1)
    {
      assert required[j] in required;
      RequiredMeaning(t, shape, required[j]);
    }
    forall k | 0 <= k < |shape| && !AcceptsUndefined(t, shape[k].1)
      ensures exists j | 0 <= j < |required| :: required[j] == shape[k].0
    {
      RequiredMeaning(t, shape, shape[k].0);
    }
  }

  lemma {:induction false} ValidObject(t: Table, o: Oracle, e: Doc, i: nat, v: Value)
    requires Wf(t) && i < |t| && JsonData(v) && t[i].body.ObjectS? && ReprBody(t, e, i, map[])
    ensures Valid(o, e, v) <==> Accepts(t, o, i, v)
    decreases i, 0, 1
  {
    AcceptsObject(t, o, i, v);
    ValidBare(o, e, v);
    if v.Obj? {
      ValidMembers(t, o, e, i, v);
      ObjectMeaning(t, o, e.properties, i, v);
    } else {
      assert Bare(e).types == ["object"];
      assert !ScalarOk(o, Bare(e), v);
    }
  }

  lemma ObjectMeaning(t: Table, o: Oracle, props: seq<Prop>, i: nat, v: Value)
    requires Wf(t) && i < |t| && t[i].body.ObjectS? && v.Obj? && |props| == |StoredMembers(t[i].body.shape)|
    requires forall k | 0 <= k < |props| :: props[k].key == StoredMembers(t[i].body.shape)[k].0
    ensures Valid(o, ObjectDoc(props, RequiredKeys(t, t[i].body.shape), t[i].body.unknownKeys), v) <==>
      && (forall k | 0 <= k < |props| :: Has(v.entries, props[k].key) ==> Valid(o, props[k].doc, Get(v.entries, props[k].key)))
      && MissingAllowed(t, t[i].body.shape, v.entries)
      && (t[i].body.unknownKeys == Loose || AllDeclared(t[i].body.shape, v.entries))
  {
    hide Valid, StoredMembers, Has, Get, RequiredKeys;
    var shape := t[i].body.shape;
    RequiredHas(t, shape, v.entries);
    forall key
      ensures Declares(props, key) <==> Declared(shape, key) && key != "__proto__"
    {
      StoredDeclared(shape, key);
      assert Declares(props, key) <==> Declared(StoredMembers(shape), key);
    }
    ObjectKeywords(o, ObjectDoc(props, RequiredKeys(t, shape), t[i].body.unknownKeys), v);
  }

  /** An object document on an object, keyword by keyword. */
  lemma ObjectKeywords(o: Oracle, b: Doc, v: Value)
    requires v.Obj? && b.additional.Allowed? && b == TypeDoc(["object"]).(properties := b.properties, required := b.required, additional := b.additional)
    ensures Valid(o, b, v) <==>
      && (forall j | 0 <= j < |b.required| :: Has(v.entries, b.required[j]))
      && (forall k | 0 <= k < |b.properties| ::
            Has(v.entries, b.properties[k].key) ==> Valid(o, b.properties[k].doc, Get(v.entries, b.properties[k].key)))
      && (b.additional.allowed || forall k | 0 <= k < |v.entries| :: Declares(b.properties, v.entries[k].0))
  {
    assert b.types[0] == "object";
  }

  lemma {:induction false} ValidUnion(t: Table, o: Oracle, e: Doc, i: nat, v: Value)
    requires Wf(t) && i < |t| && JsonData(v) && t[i].body.UnionS? && ReprBody(t, e, i, map[])
    ensures Valid(o, e, v) <==> Accepts(t, o, i, v)
    decreases i, 0
  {
    hide Valid, Accepts, Repr, JsonData, Collapsed, KeptOptions, ScalarOk, Vacuous;
    var options := t[i].body.options;
    ValidBare(o, e, v);
    if Collapsed(t, options).Some? {
      CollapsedMeaning(t, o, i, v);
      CollapsedChildless(t, options);
      ValidChildless(o, Bare(e), v);
    } else {
      var kept := KeptOptions(t, options);
      ValidAnyOf(o, e.anyOf, v);
      KeptAccept(t, o, options, v);
      AcceptsUnion(t, o, i, v);
      forall k | 0 <= k < |kept|
        ensures Valid(o, e.anyOf[k], v) <==> Accepts(t, o, kept[k], v)
      {
        ValidRepr(t, o, e.anyOf[k], kept[k], v);
      }
    }
  }

  lemma ValidAnyOf(o: Oracle, docs: seq<Doc>, v: Value)
    requires docs != []
    ensures Valid(o, EMPTY.(anyOf := docs), v) <==> exists k | 0 <= k < |docs| :: Valid(o, docs[k], v)
  {
    var d := EMPTY.(anyOf := docs);
    assert d.anyOf == docs;
  }

  lemma ValidPair(o: Oracle, a: Doc, b: Doc, v: Value)
    ensures Valid(o, EMPTY.(anyOf := [a, b]), v) <==> Valid(o, a, v) || Valid(o, b, v)
  {
    var d := EMPTY.(anyOf := [a, b]);
    assert d.anyOf[0] == a && d.anyOf[1] == b;
  }

  lemma {:induction false} ValidOptional(t: Table, o: Oracle, e: Doc, i: nat, v: Value)
    requires Wf(t) && i < |t| && JsonData(v) && t[i].body.OptionalS? && ReprBody(t, e, i, map[])
    ensures Valid(o, e, v) <==> Accepts(t, o, i, v)
    decreases i, 0
  {
    hide Valid, Accepts, Repr, JsonData;
    var inner := t[i].body.inner;
    AcceptsInner(t, o, i, v);
    if Repr(t, e, inner, map[]) {
      ValidRepr(t, o, e, inner, v);
    } else {
      ValidBare(o, e, v);
      ValidPair(o, NEVER, e.anyOf[1], v);
      NeverValid(o, v);
      ValidRepr(t, o, e.anyOf[1], inner, v);
    }
  }

  lemma NeverValid(o: Oracle, v: Value)
    ensures !Valid(o, NEVER, v)
  {
  }

  lemma {:induction false} ValidNullable(t: Table, o: Oracle, e: Doc, i: nat, v: Value)
    requires Wf(t) && i < |t| && JsonData(v) && t[i].body.NullableS? && ReprBody(t, e, i, map[])
    ensures Valid(o, e, v) <==> Accepts(t, o, i, v)
    decreases i, 0
  {
    hide Valid, Accepts, Repr, JsonData, ScalarOk, HasType, LeafDoc, PlainType;
    var inner := t[i].body.inner;
    AcceptsInner(t, o, i, v);
    ValidBare(o, e, v);
    ValidNull(o, v);
    if PlainType(t[inner].body).Some? {
      var ty := PlainType(t[inner].body).value;
      ValidChildless(o, TypeDoc([ty, "null"]), v);
      TypesMeaning(o, [ty, "null"], v);
      EitherType(ty, "null", v);
      PlainMeaning(o, t[inner].body, v);
      PlainAccepts(t, o, inner, v);
    } else {
      ValidPair(o, e.anyOf[0], TypeDoc(["null"]), v);
      ValidRepr(t, o, e.anyOf[0], inner, v);
    }
  }

  lemma EitherType(a: string, b: string, v: Value)
    ensures AnyType([a, b], v) <==> HasType(v, a) || HasType(v, b)
  {
    hide HasType;
    assert a in [a, b] && b in [a, b];
  }

  lemma PlainAccepts(t: Table, o: Oracle, i: nat, v: Value)
    requires Wf(t) && i < |t| && PlainType(t[i].body).Some?
    ensures LeafDoc(t[i].body).Some? && (Accepts(t, o, i, v) <==> ScalarOk(o, LeafDoc(t[i].body).value, v))
  {
    hide ScalarOk;
  }

  lemma ValidNull(o: Oracle, v: Value)
    ensures Valid(o, TypeDoc(["null"]), v) <==> v.Null?
    ensures HasType(v, "null") <==> v.Null?
  {
    ValidChildless(o, TypeDoc(["null"]), v);
    TypesMeaning(o, ["null"], v);
    assert "null" in ["null"] && HasType(Null, "null");
    assert AnyType(["null"], v) ==> HasType(v, "null");
  }
}
