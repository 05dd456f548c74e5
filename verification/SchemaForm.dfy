/** What an emitted document looks like beyond what it admits: where a schema is spelled out and where it
    is referred to, its description, and the unions written without `anyOf` (src/schema.ts). */
module SchemaForm {
  import opened Common
  import opened SchemaNodes
  import opened JsonSchema
  import opened SchemaEmit
  import opened SchemaMeaning

  /** A schema met again is nothing but a reference to the path of its first use. One met for the first
      time is recorded at its path, to stay, and if there is a document carries its own description. */
  lemma FirstUse(t: Table, i: nat, path: Path, prop: Option<Path>, seen: Seen)
    requires Wf(t) && i < |t|
    ensures var e := Emit(t, true, i, path, prop, seen);
      if i in seen then e == Emitted(Some(EMPTY.(ref := Some(Join(seen[i], '/')))), seen)
      else
        && Sub(seen[i := path], e.seen)
        && (e.doc.Some? && t[i].description.Some? ==> e.doc.value.description == t[i].description)
  {
    hide EmitBody;
    if i !in seen {
      BodyRecords(t, i, path, prop, seen[i := path]);
    }
  }

  /** What is recorded stays recorded. */
  lemma {:induction false} Records(t: Table, i: nat, path: Path, prop: Option<Path>, seen: Seen)
    requires Wf(t) && i < |t|
    ensures Sub(seen, Emit(t, true, i, path, prop, seen).seen)
    decreases i, 2, 0
  {
    hide EmitBody;
    if i !in seen {
      BodyRecords(t, i, path, prop, seen[i := path]);
    }
  }

  lemma {:induction false} BodyRecords(t: Table, i: nat, path: Path, prop: Option<Path>, seen: Seen)
    requires Wf(t) && i < |t|
    ensures Sub(seen, EmitBody(t, true, i, path, prop, seen).seen)
    decreases i, 1, 0
  {
    hide Emit, AtProperty, Collapsed;
    match t[i].body
    case ArrayS(item, _, _) => Records(t, item, path + ["items"], prop, seen);
    case RecordS(item) => Records(t, item, path + ["additionalProperties"], prop, seen);
    case ObjectS(shape, _) => MembersRecord(t, i, shape, path, seen);
    case UnionS(options) => OptionsRecord(t, i, options, 0, path, prop, seen);
    case OptionalS(inner) =>
      Records(t, inner, path, prop, seen);
      Records(t, inner, path + ["anyOf", "1"], prop, seen);
    case NullableS(inner) => Records(t, inner, path + ["anyOf", "0"], prop, seen);
    case RefinedS(inner, _, _) => Records(t, inner, path, prop, seen);
    case _ =>
  }

  lemma {:induction false} MembersRecord(t: Table, bound: nat, shape: seq<(string, nat)>, path: Path, seen: Seen)
    requires Wf(t) && bound <= |t| && Below(shape, bound)
    ensures Sub(seen, EmitMembers(t, true, bound, shape, path, seen).seen)
    decreases bound, 0, |shape|
  {
    hide Emit;
    if shape != [] {
      var at := path + ["properties", shape[0].0];
      Records(t, shape[0].1, at, Some(at), seen);
      MembersRecord(t, bound, shape[1..], path, Emit(t, true, shape[0].1, at, Some(at), seen).seen);
    }
  }

  lemma {:induction false} OptionsRecord(t: Table, bound: nat, options: seq<nat>, index: nat, path: Path, prop: Option<Path>, seen: Seen)
    requires Wf(t) && bound <= |t| && forall k | 0 <= k < |options| :: options[k] < bound
    ensures Sub(seen, EmitOptions(t, true, bound, options, index, path, prop, seen).seen)
    decreases bound, 0, |options|
  {
    hide Emit;
    if options != [] {
      var at := path + ["anyOf", Dec(index)];
      Records(t, options[0], at, prop, seen);
      OptionsRecord(t, bound, options[1..], index + 1, path, prop, Emit(t, true, options[0], at, prop, seen).seen);
    }
  }

  /** The document a schema emits at a path when nothing is emitted for the schema inside it. */
  predicate Hollow(t: Table, i: nat, atProperty: bool, d: Option<Doc>)
    requires Wf(t) && i < |t|
  {
    match t[i].body
    case ArrayS(_, mn, mx) => d == Some(EMPTY.(types := ["array"], size := Size(mn, mx)))
    case RecordS(_) => d == Some(EMPTY.(types := ["object"], additional := Allowed(true)))
    case OptionalS(_) => d == if atProperty then None else Some(EMPTY)
    case NullableS(inner) => IsPlain(t[inner].body) || d == None
    case RefinedS(_, _, _) => d == None
    case _ => true
  }

  /** Where the schema inside is emitted. */
  function Inner(b: Body, atProperty: bool): Option<(nat, Path)> {
    match b
    case ArrayS(item, _, _) => Some((item, ["items"]))
    case RecordS(item) => Some((item, ["additionalProperties"]))
    case OptionalS(inner) => Some((inner, if atProperty then [] else ["anyOf", "1"]))
    case NullableS(inner) => Some((inner, ["anyOf", "0"]))
    case RefinedS(inner, _, _) => Some((inner, []))
    case _ => None
  }

  /** If the schema inside emits nothing, an array says nothing of its items, a record holds anything, an
      optional outside an object is `{}`, and whatever else wraps it emits nothing either. */
  lemma NothingInside(t: Table, i: nat, path: Path, prop: Option<Path>, seen: Seen)
    requires Wf(t) && i < |t|
    ensures var inner := Inner(t[i].body, AtProperty(path, prop));
      inner.Some? && Emit(t, true, inner.value.0, path + inner.value.1, prop, seen).doc.None? ==>
        Hollow(t, i, AtProperty(path, prop), EmitBody(t, true, i, path, prop, seen).doc)
  {
    hide Emit, AtProperty;
    assert path + [] == path;
  }

  // ---------------------------------------------------------------- unions without `anyOf`

  /** A schema whose `type` says all: a string, a number without checks, a boolean or null. */
  predicate IsPlain(b: Body) {
    b == StringS([]) || b == NumberS([]) || b == BooleanS || b == NullS
  }

  predicate TypeIs(b: Body, ty: string) {
    || (b == StringS([]) && ty == "string") || (b == NumberS([]) && ty == "number")
    || (b == BooleanS && ty == "boolean") || (b == NullS && ty == "null")
  }

  predicate Distinct<T(==)>(xs: seq<T>) {
    forall j, k | 0 <= j < k < |xs| :: xs[j] != xs[k]
  }

  lemma {:induction false} DedupDistinct<T(!new)>(xs: seq<T>)
    ensures Distinct(Dedup(xs))
    decreases |xs|
  {
    if xs != [] {
      var init, last := xs[..|xs| - 1], xs[|xs| - 1];
      DedupDistinct(init);
      assert last !in init ==> last !in Dedup(init);
    }
  }

  ghost predicate Plains(t: Table, options: seq<nat>)
    requires forall k | 0 <= k < |options| :: options[k] < |t|
  {
    forall k | 0 <= k < |options| :: IsPlain(t[options[k]].body)
  }

  ghost predicate BareLiterals(t: Table, options: seq<nat>)
    requires forall k | 0 <= k < |options| :: options[k] < |t|
  {
    forall k | 0 <= k < |options| :: t[options[k]].body.LiteralS? && t[options[k]].description == None
  }

  ghost predicate Enums(t: Table, options: seq<nat>)
    requires forall k | 0 <= k < |options| :: options[k] < |t|
  {
    forall k | 0 <= k < |options| :: t[options[k]].body.EnumS?
  }

  /** A union is written without `anyOf` exactly when its options are all plain, or all literals without
      a description, or all enums: with their types, their values and the types of these, or their
      values, each once. */
  lemma CollapsedIs(t: Table, options: seq<nat>)
    requires forall k | 0 <= k < |options| :: options[k] < |t|
    ensures Collapsed(t, options).Some? <==> Plains(t, options) || BareLiterals(t, options) || Enums(t, options)
    ensures Plains(t, options) ==> PlainWritten(t, options, Collapsed(t, options).value)
    ensures !Plains(t, options) && BareLiterals(t, options) ==> LiteralsWritten(t, options, Collapsed(t, options).value)
    ensures !Plains(t, options) && !BareLiterals(t, options) && Enums(t, options) ==> EnumsWritten(t, options, Collapsed(t, options).value)
  {
    forall k | 0 <= k < |options|
      ensures PlainType(t[options[k]].body).Some? <==> IsPlain(t[options[k]].body)
      ensures forall ty :: PlainType(t[options[k]].body) == Some(ty) <==> TypeIs(t[options[k]].body, ty)
    {
    }
    hide PlainType, IsPlain, TypeIs, PlainTypes, Literals, TypesOf, EnumValues, Dedup, PlainWritten, LiteralsWritten, EnumsWritten;
    if Plains(t, options) {
      WrittenPlain(t, options);
    } else if BareLiterals(t, options) {
      WrittenLiterals(t, options);
    } else if Enums(t, options) {
      WrittenEnums(t, options);
    }
  }

  ghost predicate PlainWritten(t: Table, options: seq<nat>, d: Doc)
    requires forall k | 0 <= k < |options| :: options[k] < |t|
  {
    && d == EMPTY.(types := d.types) && Distinct(d.types)
    && forall ty :: ty in d.types <==> exists k | 0 <= k < |options| :: TypeIs(t[options[k]].body, ty)
  }

  lemma WrittenPlain(t: Table, options: seq<nat>)
    requires forall k | 0 <= k < |options| :: options[k] < |t| && PlainType(t[options[k]].body).Some?
    requires forall k, ty | 0 <= k < |options| :: PlainType(t[options[k]].body) == Some(ty) <==> TypeIs(t[options[k]].body, ty)
    ensures PlainWritten(t, options, TypeDoc(Dedup(PlainTypes(t, options))))
  {
    hide PlainType, TypeIs, Dedup;
    var types := PlainTypes(t, options);
    DedupDistinct(types);
    forall ty
      ensures ty in types <==> exists k | 0 <= k < |options| :: TypeIs(t[options[k]].body, ty)
    {
      if k :| 0 <= k < |options| && TypeIs(t[options[k]].body, ty) {
        assert PlainType(t[options[k]].body) == Some(ty);
        assert types[k] == ty;
      }
      if ty in types {
        var k :| 0 <= k < |types| && types[k] == ty;
        assert PlainType(t[options[k]].body) == Some(ty);
      }
    }
  }

  ghost predicate LiteralsWritten(t: Table, options: seq<nat>, d: Doc)
    requires forall k | 0 <= k < |options| :: options[k] < |t|
  {
    && d.values.Some? && d == EMPTY.(types := d.types, values := d.values) && Distinct(d.types) && Distinct(d.values.value)
    && (forall x :: x in d.values.value <==> exists k | 0 <= k < |options| :: t[options[k]].body == LiteralS(x))
    && forall ty :: ty in d.types <==> exists x | x in d.values.value :: HasType(ScalarValue(x), ty) && ty != "integer"
  }

  lemma WrittenLiterals(t: Table, options: seq<nat>)
    requires forall k | 0 <= k < |options| :: options[k] < |t| && t[options[k]].body.LiteralS?
    ensures var xs := Literals(t, options);
      LiteralsWritten(t, options, TypeDoc(Dedup(TypesOf(xs))).(values := Some(Dedup(xs))))
  {
    hide Dedup, ScalarType, HasType;
    var xs := Literals(t, options);
    var types := TypesOf(xs);
    DedupDistinct(xs);
    DedupDistinct(types);
    forall x
      ensures x in xs <==> exists k | 0 <= k < |options| :: t[options[k]].body == LiteralS(x)
    {
      if k :| 0 <= k < |options| && t[options[k]].body == LiteralS(x) { assert xs[k] == x; }
    }
    forall ty
      ensures ty in types <==> exists x | x in xs :: HasType(ScalarValue(x), ty) && ty != "integer"
    {
      if x :| x in xs && HasType(ScalarValue(x), ty) && ty != "integer" {
        var k :| 0 <= k < |xs| && xs[k] == x;
        ScalarTyped(x, ty);
        assert types[k] == ty;
      }
      if ty in types {
        var k :| 0 <= k < |types| && types[k] == ty;
        ScalarTyped(xs[k], ty);
      }
    }
  }

  lemma ScalarTyped(x: Scalar, ty: string)
    ensures ScalarType(x) == ty <==> HasType(ScalarValue(x), ty) && ty != "integer"
  {
  }

  ghost predicate EnumsWritten(t: Table, options: seq<nat>, d: Doc)
    requires forall k | 0 <= k < |options| :: options[k] < |t|
  {
    && d.values.Some? && d == EMPTY.(types := ["string"], values := d.values) && Distinct(d.values.value)
    && forall x: Scalar :: x in d.values.value <==>
         exists k | 0 <= k < |options| :: t[options[k]].body.EnumS? && x.SStr? && x.s in t[options[k]].body.values
  }

  lemma WrittenEnums(t: Table, options: seq<nat>)
    requires forall k | 0 <= k < |options| :: options[k] < |t| && t[options[k]].body.EnumS?
    ensures EnumsWritten(t, options, EnumDoc(Dedup(EnumValues(t, options))))
  {
    hide Dedup, EnumValues;
    var values := Dedup(EnumValues(t, options));
    DedupDistinct(EnumValues(t, options));
    var xs := EnumDoc(values).values.value;
    assert forall k | 0 <= k < |values| :: xs[k] == SStr(values[k]);
    forall x: Scalar
      ensures x in xs <==> x.SStr? && x.s in values
    {
      if x.SStr? && x.s in values {
        var k :| 0 <= k < |values| && values[k] == x.s;
        assert xs[k] == x;
      }
    }
  }
}
