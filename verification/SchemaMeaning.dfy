/** What a schema means to a reader of its document (`Accepts`), which documents say exactly
    that (`Repr`), and that the emitter writes such documents with every `$ref` resolving
    (src/schema.ts). */
module SchemaMeaning {
  import opened Common
  import opened SchemaNodes
  import opened JsonSchema
  import opened SchemaEmit

  // ---------------------------------------------------------------- conditions

  /** Every key is one a `$ref` path can carry as it is. */
  predicate PlainKeys(t: Table) {
    forall i, k | 0 <= i < |t| && t[i].body.ObjectS? && 0 <= k < |t[i].body.shape| ::
      PlainToken(t[i].body.shape[k].0) && '%' !in t[i].body.shape[k].0
  }

  /** No key is `__proto__`, which plain assignment does not store. */
  predicate Storable(t: Table) {
    forall i, k | 0 <= i < |t| && t[i].body.ObjectS? && 0 <= k < |t[i].body.shape| :: t[i].body.shape[k].0 != "__proto__"
  }

  /** A path through a member called `__proto__`, which no document has. */
  predicate Lost(path: Path) {
    "__proto__" in path
  }

  /** A nonempty path; over plain keys, one that is read back from its joined text. */
  predicate SafePath(t: Table, path: Path) {
    && path != [] && path[0] == "#"
    && (PlainKeys(t) ==> forall k | 0 <= k < |path| :: PlainToken(path[k]))
    && (Storable(t) ==> !Lost(path))
  }

  /** A schema that emits `{}`: no description, and `unknown` under any number of refinements. */
  predicate Vacuous(t: Table, i: nat)
    requires Wf(t) && i < |t|
  {
    t[i].description.None? &&
    match t[i].body
    case UnknownS => true
    case RefinedS(inner, _, _) => Vacuous(t, inner)
    case _ => false
  }

  /** A union's options without those that emit `{}`. */
  function KeptOptions(t: Table, options: seq<nat>): (r: seq<nat>)
    requires Wf(t) && forall k | 0 <= k < |options| :: options[k] < |t|
    ensures forall x :: x in r <==> x in options && !Vacuous(t, x)
    ensures forall k | 0 <= k < |r| :: r[k] in options
  {
    if options == [] then []
    else (if Vacuous(t, options[0]) then [] else [options[0]]) + KeptOptions(t, options[1..])
  }

  /** No union loses all its options. */
  predicate KeepsOne(t: Table)
    requires Wf(t)
  {
    forall i | 0 <= i < |t| && t[i].body.UnionS? :: Collapsed(t, t[i].body.options).Some? || KeptOptions(t, t[i].body.options) != []
  }

  /** No union loses any option, so every option stays at its index. */
  predicate Placeable(t: Table)
    requires Wf(t)
  {
    && KeepsOne(t)
    && forall i | 0 <= i < |t| && t[i].body.UnionS? ::
         Collapsed(t, t[i].body.options).Some? || forall k | 0 <= k < |t[i].body.options| :: !Vacuous(t, t[i].body.options[k])
  }

  /** Besides, no member is lost. */
  predicate Whole(t: Table)
    requires Wf(t)
  {
    Placeable(t) && Storable(t)
  }

  /** What the builder's caller keeps to. */
  predicate Emittable(t: Table)
    requires Wf(t)
  {
    Whole(t) && PlainKeys(t)
  }

  // ---------------------------------------------------------------- meaning

  /** The values a reader of the document of schema `i` admits: of a union, those of the options
      that are not dropped; a member called `__proto__` may be required, but is not declared. */
  ghost predicate Accepts(t: Table, o: Oracle, i: nat, v: Value)
    requires Wf(t) && i < |t|
    decreases i
  {
    match t[i].body
    case ArrayS(item, mn, mx) =>
      v.Arr? && SizeOk(Size(mn, mx), |v.items|) && forall k | 0 <= k < |v.items| :: Accepts(t, o, item, v.items[k])
    case RecordS(item) => v.Obj? && forall k | 0 <= k < |v.entries| :: Accepts(t, o, item, v.entries[k].1)
    case ObjectS(shape, mode) =>
      && v.Obj?
      && (forall k | 0 <= k < |shape| ::
            if Has(v.entries, shape[k].0) then shape[k].0 == "__proto__" || Accepts(t, o, shape[k].1, Get(v.entries, shape[k].0))
            else AcceptsUndefined(t, shape[k].1))
      && (mode == Loose || forall k | 0 <= k < |v.entries| :: Declared(shape, v.entries[k].0) && v.entries[k].0 != "__proto__")
    case UnionS(options) => exists k | 0 <= k < |options| :: !Vacuous(t, options[k]) && Accepts(t, o, options[k], v)
    case OptionalS(inner) => Accepts(t, o, inner, v)
    case NullableS(inner) => v.Null? || Accepts(t, o, inner, v)
    case RefinedS(inner, _, _) => Accepts(t, o, inner, v)
    case _ => ScalarOk(o, LeafDoc(t[i].body).value, v)
  }

  predicate Declared(shape: seq<(string, nat)>, key: string) {
    exists k | 0 <= k < |shape| :: shape[k].0 == key
  }

  // ---------------------------------------------------------------- representation

  function Bare(d: Doc): Doc {
    d.(description := None)
  }

  function RequiredKeys(t: Table, shape: seq<(string, nat)>): (r: seq<string>)
    requires Wf(t) && Below(shape, |t|)
  {
    if shape == [] then []
    else (if AcceptsUndefined(t, shape[0].1) then [] else [shape[0].0]) + RequiredKeys(t, shape[1..])
  }

  /** The members that get a property. */
  function StoredMembers(shape: seq<(string, nat)>): (r: seq<(string, nat)>)
    ensures forall x :: x in r <==> x in shape && x.0 != "__proto__"
    ensures forall bound | Below(shape, bound) :: Below(r, bound)
  {
    if shape == [] then []
    else
      var rest := StoredMembers(shape[1..]);
      assert forall bound | Below(shape, bound) :: Below(shape[1..], bound);
      assert forall x :: x in shape <==> x == shape[0] || x in shape[1..];
      if shape[0].0 == "__proto__" then rest else [shape[0]] + rest
  }

  lemma {:induction false} StoredDistinct(shape: seq<(string, nat)>)
    requires DistinctKeys(shape)
    ensures DistinctKeys(StoredMembers(shape))
  {
    if shape != [] {
      StoredDistinct(shape[1..]);
      var rest := StoredMembers(shape[1..]);
      forall k | 0 <= k < |rest|
        ensures rest[k].0 != shape[0].0
      {
        assert rest[k] in shape[1..];
      }
    }
  }

  /** `d` stands for schema `i`: its body, or a `$ref` to where `seen` says it is. */
  ghost predicate Repr(t: Table, d: Doc, i: nat, seen: Seen)
    requires Wf(t) && i < |t|
    decreases i, 1
  {
    (i in seen && Bare(d) == RefDoc(seen[i])) || ReprBody(t, d, i, seen)
  }

  /** `d` is the body of schema `i`, its children standing for its parts. An optional in
      property position has the body of what it wraps; so does a refined schema. */
  ghost predicate ReprBody(t: Table, d: Doc, i: nat, seen: Seen)
    requires Wf(t) && i < |t|
    decreases i, 0
  {
    match t[i].body
    case ArrayS(item, mn, mx) =>
      d.items.Some? && Bare(d) == ArrayDoc(d.items, mn, mx) && Repr(t, d.items.value, item, seen)
    case RecordS(item) =>
      d.additional.Each? && Bare(d) == RecordDoc(Some(d.additional.doc)) && Repr(t, d.additional.doc, item, seen)
    case ObjectS(shape, mode) =>
      var stored := StoredMembers(shape);
      && Bare(d) == ObjectDoc(d.properties, RequiredKeys(t, shape), mode)
      && |d.properties| == |stored|
      && forall k | 0 <= k < |stored| ::
           d.properties[k].key == stored[k].0 && Repr(t, d.properties[k].doc, stored[k].1, seen)
    case UnionS(options) =>
      if Collapsed(t, options).Some? then Bare(d) == Collapsed(t, options).value
      else
        var kept := KeptOptions(t, options);
        && Bare(d) == EMPTY.(anyOf := d.anyOf) && kept != [] && |d.anyOf| == |kept|
        && forall k | 0 <= k < |kept| :: Repr(t, d.anyOf[k], kept[k], seen)
    case OptionalS(inner) =>
      || Repr(t, d, inner, seen)
      || (|d.anyOf| == 2 && Bare(d) == EMPTY.(anyOf := [NEVER, d.anyOf[1]]) && Repr(t, d.anyOf[1], inner, seen))
    case NullableS(inner) =>
      if PlainType(t[inner].body).Some? then Bare(d) == TypeDoc([PlainType(t[inner].body).value, "null"])
      else |d.anyOf| == 2 && Bare(d) == EMPTY.(anyOf := [d.anyOf[0], TypeDoc(["null"])]) && Repr(t, d.anyOf[0], inner, seen)
    case RefinedS(inner, _, _) => Repr(t, d, inner, seen)
    case _ => Bare(d) == LeafDoc(t[i].body).value
  }

  ghost predicate Sub(a: Seen, b: Seen) {
    forall s | s in a :: s in b && b[s] == a[s]
  }

  lemma {:induction false} ReprMono(t: Table, d: Doc, i: nat, a: Seen, b: Seen)
    requires Wf(t) && i < |t| && Sub(a, b) && Repr(t, d, i, a)
    ensures Repr(t, d, i, b)
    decreases i, 1
  {
    if ReprBody(t, d, i, a) {
      ReprBodyMono(t, d, i, a, b);
    }
  }

  lemma {:induction false} ReprBodyMono(t: Table, d: Doc, i: nat, a: Seen, b: Seen)
    requires Wf(t) && i < |t| && Sub(a, b) && ReprBody(t, d, i, a)
    ensures ReprBody(t, d, i, b)
    decreases i, 0
  {
    match t[i].body
    case ArrayS(item, _, _) => ReprMono(t, d.items.value, item, a, b);
    case RecordS(item) => ReprMono(t, d.additional.doc, item, a, b);
    case ObjectS(shape, _) =>
      var stored := StoredMembers(shape);
      forall k | 0 <= k < |stored|
        ensures Repr(t, d.properties[k].doc, stored[k].1, b)
      {
        ReprMono(t, d.properties[k].doc, stored[k].1, a, b);
      }
    case UnionS(options) =>
      if Collapsed(t, options).None? {
        var kept := KeptOptions(t, options);
        forall k | 0 <= k < |kept|
          ensures Repr(t, d.anyOf[k], kept[k], b)
        {
          ReprMono(t, d.anyOf[k], kept[k], a, b);
        }
      }
    case OptionalS(inner) =>
      if Repr(t, d, inner, a) { ReprMono(t, d, inner, a, b); } else { ReprMono(t, d.anyOf[1], inner, a, b); }
    case NullableS(inner) =>
      if PlainType(t[inner].body).None? { ReprMono(t, d.anyOf[0], inner, a, b); }
    case RefinedS(inner, _, _) => ReprMono(t, d, inner, a, b);
    case _ =>
  }

  // ---------------------------------------------------------------- expansion

  /** A reference through a member called `__proto__`. */
  predicate Through(ref: string) {
    Tokens(ref).Some? && "__proto__" in Tokens(ref).value
  }

  /** No reference goes through a member called `__proto__`. */
  ghost predicate Direct(d: Doc)
    decreases d
  {
    && (d.ref.Some? ==> !Through(d.ref.value))
    && (d.items.Some? ==> Direct(d.items.value))
    && (forall k | 0 <= k < |d.properties| :: Direct(d.properties[k].doc))
    && (d.additional.Each? ==> Direct(d.additional.doc))
    && (forall k | 0 <= k < |d.anyOf| :: Direct(d.anyOf[k]))
    && (d.not_.Some? ==> Direct(d.not_.value))
  }

  /** The path recorded for `s` leads, inside `root`, to a body of `s`. */
  ghost predicate ResolvedAt(t: Table, root: Doc, seen: Seen, s: nat)
    requires Wf(t) && s in seen
  {
    s < |t| && Resolve(root, Join(seen[s], '/')).Some? && ReprBody(t, Resolve(root, Join(seen[s], '/')).value, s, seen)
  }

  /** Every recorded path leads to a body of its schema, unless it is lost. */
  ghost predicate Resolved(t: Table, root: Doc, seen: Seen)
    requires Wf(t)
  {
    forall s | s in seen :: if Lost(seen[s]) then Through(Join(seen[s], '/')) else ResolvedAt(t, root, seen, s)
  }

  lemma {:induction false} LookUpDirect(props: seq<Prop>, key: string)
    requires forall k | 0 <= k < |props| :: Direct(props[k].doc)
    ensures LookUp(props, key).Some? ==> Direct(LookUp(props, key).value)
  {
    hide Direct;
    if props != [] && props[0].key != key {
      LookUpDirect(props[1..], key);
    }
  }

  /** Inside a direct document everything is. */
  lemma {:induction false} AtDirect(d: Doc, tokens: seq<string>)
    requires Direct(d) && At(d, tokens).Some?
    ensures Direct(At(d, tokens).value)
    decreases |tokens|
  {
    hide ParseDec, LookUp, Direct;
    DirectParts(d);
    if tokens != [] {
      if tokens[0] == "items" {
        AtDirect(d.items.value, tokens[1..]);
      } else if tokens[0] == "additionalProperties" {
        AtDirect(d.additional.doc, tokens[1..]);
      } else if tokens[0] == "not" {
        AtDirect(d.not_.value, tokens[1..]);
      } else if tokens[0] == "properties" {
        LookUpDirect(d.properties, tokens[1]);
        AtDirect(LookUp(d.properties, tokens[1]).value, tokens[2..]);
      } else {
        AtDirect(d.anyOf[ParseDec(tokens[1]).value], tokens[2..]);
      }
    }
  }

  lemma DirectParts(d: Doc)
    requires Direct(d)
    ensures d.ref.Some? ==> !Through(d.ref.value)
    ensures d.items.Some? ==> Direct(d.items.value)
    ensures forall k | 0 <= k < |d.properties| :: Direct(d.properties[k].doc)
    ensures d.additional.Each? ==> Direct(d.additional.doc)
    ensures forall k | 0 <= k < |d.anyOf| :: Direct(d.anyOf[k])
    ensures d.not_.Some? ==> Direct(d.not_.value)
  {
  }

  lemma ResolveDirect(root: Doc, ref: string)
    requires Direct(root) && Resolve(root, ref).Some?
    ensures Direct(Resolve(root, ref).value)
  {
    hide Direct, At, Tokens;
    AtDirect(root, Tokens(ref).value);
  }

  predicate Childless(d: Doc) {
    d.ref.None? && d.items.None? && d.properties == [] && !d.additional.Each? && d.anyOf == [] && d.not_.None?
  }

  lemma ExpandChildless(root: Doc, d: Doc, fuel: nat)
    requires Childless(d)
    ensures Expand(root, d, fuel) == Some(d)
  {
  }

  lemma ExpandPair(root: Doc, d: Doc, a: Doc, b: Doc, fuel: nat)
    requires Bare(d) == EMPTY.(anyOf := [a, b]) && Expand(root, a, fuel).Some? && Expand(root, b, fuel).Some?
    ensures Expand(root, d, fuel).Some?
    ensures var e := Expand(root, d, fuel).value;
      e.anyOf == [Expand(root, a, fuel).value, Expand(root, b, fuel).value] && Bare(e) == EMPTY.(anyOf := e.anyOf)
  {
    ExpandAllAt(root, d.anyOf, fuel);
    assert Bare(d).ref.None? && Bare(d).properties == [];
    assert d.anyOf == Bare(d).anyOf;
  }

  /** A document that stands for schema `i` expands, in no more than `i + 1` nested hops, to a
      reference-free one that still does. */
  lemma {:induction false} ExpandRepr(t: Table, root: Doc, seen: Seen, d: Doc, i: nat, fuel: nat)
    requires Wf(t) && i < |t| && Resolved(t, root, seen) && Direct(root) && Direct(d)
    requires Repr(t, d, i, seen)
    requires fuel > i || (fuel == i && ReprBody(t, d, i, seen))
    ensures Expand(root, d, fuel).Some? && Repr(t, Expand(root, d, fuel).value, i, map[])
    decreases i, fuel, 1
  {
    if !ReprBody(t, d, i, seen) {
      ExpandReprRef(t, root, seen, d, i, fuel);
    } else {
      ExpandReprBody(t, root, seen, d, i, fuel);
    }
  }

  lemma {:induction false} ExpandReprRef(t: Table, root: Doc, seen: Seen, d: Doc, i: nat, fuel: nat)
    requires Wf(t) && i < |t| && Resolved(t, root, seen) && Direct(root) && Direct(d)
    requires i in seen && Bare(d) == RefDoc(seen[i]) && fuel > i
    ensures Expand(root, d, fuel).Some? && Repr(t, Expand(root, d, fuel).value, i, map[])
    decreases i, fuel, 0, 1
  {
    hide ReprBody, Repr, Resolve, Join, Expand, Direct, Through, Lost;
    var target := Join(seen[i], '/');
    BareRef(d, seen[i]);
    DirectParts(d);
    assert ResolvedAt(t, root, seen, i);
    ExpandRef(root, d, target, fuel);
    ResolveDirect(root, target);
    ExpandReprBody(t, root, seen, Resolve(root, target).value, i, fuel - 1);
  }

  lemma BareRef(d: Doc, at: Path)
    requires Bare(d) == RefDoc(at)
    ensures d.ref == Some(Join(at, '/'))
  {
    hide Join;
    assert Bare(d).ref == Some(Join(at, '/'));
  }

  lemma ExpandRef(root: Doc, d: Doc, target: string, fuel: nat)
    requires d.ref == Some(target) && fuel > 0 && Resolve(root, target).Some?
    ensures Expand(root, d, fuel) == Expand(root, Resolve(root, target).value, fuel - 1)
  {
    hide Resolve;
  }

  lemma {:induction false} ExpandReprBody(t: Table, root: Doc, seen: Seen, d: Doc, i: nat, fuel: nat)
    requires Wf(t) && i < |t| && Resolved(t, root, seen) && Direct(root) && Direct(d)
    requires ReprBody(t, d, i, seen) && fuel >= i
    ensures Expand(root, d, fuel).Some? && Repr(t, Expand(root, d, fuel).value, i, map[])
    decreases i, fuel, 0, 1
  {
    hide Expand, Resolved, Collapsed, Direct;
    match t[i].body
    case ArrayS(_, _, _) => ExpandReprItem(t, root, seen, d, i, fuel);
    case RecordS(_) => ExpandReprItem(t, root, seen, d, i, fuel);
    case ObjectS(_, _) => ExpandReprObject(t, root, seen, d, i, fuel);
    case UnionS(options) =>
      if Collapsed(t, options).Some? {
        CollapsedChildless(t, options);
        BareChildless(d);
        ExpandChildless(root, d, fuel);
      } else {
        ExpandReprUnion(t, root, seen, d, i, fuel);
      }
    case OptionalS(_) => ExpandReprWrapper(t, root, seen, d, i, fuel);
    case NullableS(_) => ExpandReprWrapper(t, root, seen, d, i, fuel);
    case RefinedS(inner, _, _) => ExpandRepr(t, root, seen, d, inner, fuel);
    case _ =>
      LeafChildless(t[i].body);
      BareChildless(d);
      ExpandChildless(root, d, fuel);
  }

  lemma BareChildless(d: Doc)
    requires Childless(Bare(d))
    ensures Childless(d)
  {
    var b := Bare(d);
    assert b.ref == d.ref && b.items == d.items && b.properties == d.properties && b.additional == d.additional;
    assert b.anyOf == d.anyOf && b.not_ == d.not_;
  }

  predicate IsLeaf(b: Body) {
    b.StringS? || b.NumberS? || b.BooleanS? || b.NullS? || b.UnknownS? || b.LiteralS? || b.EnumS?
  }

  lemma LeafChildless(b: Body)
    requires IsLeaf(b)
    ensures LeafDoc(b).Some? && Childless(LeafDoc(b).value) && LeafDoc(b).value.additional.Unsaid?
  {
    hide TextOf, NumberOf;
  }

  lemma CollapsedChildless(t: Table, options: seq<nat>)
    requires (forall k | 0 <= k < |options| :: options[k] < |t|) && Collapsed(t, options).Some?
    ensures Childless(Collapsed(t, options).value) && Collapsed(t, options).value.additional.Unsaid?
  {
    hide PlainType, PlainTypes, Dedup, Literals, TypesOf, EnumValues;
  }

  lemma {:induction false} ExpandReprItem(t: Table, root: Doc, seen: Seen, d: Doc, i: nat, fuel: nat)
    requires Wf(t) && i < |t| && Resolved(t, root, seen) && Direct(root) && Direct(d)
    requires (t[i].body.ArrayS? || t[i].body.RecordS?) && ReprBody(t, d, i, seen) && fuel >= i
    ensures Expand(root, d, fuel).Some? && Repr(t, Expand(root, d, fuel).value, i, map[])
    decreases i, fuel, 0, 0
  {
    hide Direct, Resolved;
    DirectParts(d);
    ghost var bare := Bare(d);
    assert bare.ref.None? && bare.properties == [] && bare.anyOf == [] && bare.not_.None?;
    if t[i].body.ArrayS? {
      assert !bare.additional.Each?;
      ExpandRepr(t, root, seen, d.items.value, t[i].body.item, fuel);
    } else {
      assert bare.items.None?;
      ExpandRepr(t, root, seen, d.additional.doc, t[i].body.valueSchema, fuel);
    }
  }

  lemma {:induction false} ExpandReprWrapper(t: Table, root: Doc, seen: Seen, d: Doc, i: nat, fuel: nat)
    requires Wf(t) && i < |t| && Resolved(t, root, seen) && Direct(root) && Direct(d)
    requires (t[i].body.OptionalS? || t[i].body.NullableS?) && ReprBody(t, d, i, seen) && fuel >= i
    ensures Expand(root, d, fuel).Some? && Repr(t, Expand(root, d, fuel).value, i, map[])
    decreases i, fuel, 0, 0
  {
    hide Direct, Resolved;
    DirectParts(d);
    var inner := t[i].body.inner;
    if t[i].body.OptionalS? {
      if Repr(t, d, inner, seen) {
        ExpandRepr(t, root, seen, d, inner, fuel);
      } else {
        ExpandRepr(t, root, seen, d.anyOf[1], inner, fuel);
        ExpandChildless(root, EMPTY, fuel);
        assert Expand(root, NEVER, fuel) == Some(NEVER);
        ExpandPair(root, d, NEVER, d.anyOf[1], fuel);
      }
    } else if PlainType(t[inner].body).Some? {
      assert Childless(Bare(d));
      ExpandChildless(root, d, fuel);
    } else {
      ExpandRepr(t, root, seen, d.anyOf[0], inner, fuel);
      ExpandChildless(root, TypeDoc(["null"]), fuel);
      ExpandPair(root, d, d.anyOf[0], TypeDoc(["null"]), fuel);
    }
  }

  lemma {:induction false} ExpandReprObject(t: Table, root: Doc, seen: Seen, d: Doc, i: nat, fuel: nat)
    requires Wf(t) && i < |t| && Resolved(t, root, seen) && Direct(root) && Direct(d)
    requires t[i].body.ObjectS? && ReprBody(t, d, i, seen) && fuel >= i
    ensures Expand(root, d, fuel).Some? && Repr(t, Expand(root, d, fuel).value, i, map[])
    decreases i, fuel, 0, 0
  {
    hide Direct, Resolved;
    DirectParts(d);
    var shape := t[i].body.shape;
    var stored := StoredMembers(shape);
    ExpandPropsAt(root, d.properties, fuel);
    ExpandAllAt(root, d.anyOf, fuel);
    assert Bare(d).ref.None? && Bare(d).anyOf == [];
    forall k | 0 <= k < |stored|
      ensures Expand(root, d.properties[k].doc, fuel).Some?
      ensures Repr(t, Expand(root, d.properties[k].doc, fuel).value, stored[k].1, map[])
    {
      ExpandRepr(t, root, seen, d.properties[k].doc, stored[k].1, fuel);
    }
    var e := Expand(root, d, fuel).value;
    assert Bare(e) == ObjectDoc(e.properties, RequiredKeys(t, shape), t[i].body.unknownKeys);
  }

  lemma {:induction false} ExpandReprUnion(t: Table, root: Doc, seen: Seen, d: Doc, i: nat, fuel: nat)
    requires Wf(t) && i < |t| && Resolved(t, root, seen) && Direct(root) && Direct(d)
    requires t[i].body.UnionS? && Collapsed(t, t[i].body.options).None? && ReprBody(t, d, i, seen) && fuel >= i
    ensures Expand(root, d, fuel).Some? && Repr(t, Expand(root, d, fuel).value, i, map[])
    decreases i, fuel, 0, 0
  {
    hide Direct, Resolved;
    DirectParts(d);
    var kept := KeptOptions(t, t[i].body.options);
    ExpandPropsAt(root, d.properties, fuel);
    ExpandAllAt(root, d.anyOf, fuel);
    assert Bare(d).ref.None? && Bare(d).properties == [];
    forall k | 0 <= k < |kept|
      ensures Expand(root, d.anyOf[k], fuel).Some?
      ensures Repr(t, Expand(root, d.anyOf[k], fuel).value, kept[k], map[])
    {
      ExpandRepr(t, root, seen, d.anyOf[k], kept[k], fuel);
    }
    var e := Expand(root, d, fuel).value;
    assert Bare(e) == EMPTY.(anyOf := e.anyOf);
  }

  // ---------------------------------------------------------------- lost references

  /** What every emitted document is like: nothing beside a reference, and no property `__proto__`. */
  ghost predicate Tame(d: Doc)
    decreases d
  {
    && (d.ref.Some? ==> d.items.None? && d.properties == [] && !d.additional.Each? && d.anyOf == [] && d.not_.None?)
    && !Declares(d.properties, "__proto__")
    && (d.items.Some? ==> Tame(d.items.value))
    && (forall k | 0 <= k < |d.properties| :: Tame(d.properties[k].doc))
    && (d.additional.Each? ==> Tame(d.additional.doc))
    && (forall k | 0 <= k < |d.anyOf| :: Tame(d.anyOf[k]))
    && (d.not_.Some? ==> Tame(d.not_.value))
  }

  /** No recorded path goes through a member called `__proto__`. */
  ghost predicate NoneLost(seen: Seen) {
    forall s | s in seen :: !Through(Join(seen[s], '/'))
  }

  ghost predicate Straight(d: Doc, seen: Seen) {
    Tame(d) && (NoneLost(seen) ==> Direct(d))
  }

  lemma ChildlessStraight(d: Doc, seen: Seen)
    requires Childless(d)
    ensures Straight(d, seen)
  {
  }

  lemma RefStraight(d: Doc, i: nat, seen: Seen)
    requires i in seen && Bare(d) == RefDoc(seen[i])
    ensures Straight(d, seen)
  {
    hide Join, Through;
    BareRef(d, seen[i]);
    var b := Bare(d);
    assert b.items == d.items && b.properties == d.properties && b.additional == d.additional && b.anyOf == d.anyOf && b.not_ == d.not_;
  }

  lemma {:induction false} ReprStraight(t: Table, d: Doc, i: nat, seen: Seen)
    requires Wf(t) && i < |t| && Repr(t, d, i, seen)
    ensures Straight(d, seen)
    decreases i, 1
  {
    hide Straight, ReprBody, RefDoc, Bare;
    if ReprBody(t, d, i, seen) { ReprBodyStraight(t, d, i, seen); } else { RefStraight(d, i, seen); }
  }

  lemma {:induction false} ReprBodyStraight(t: Table, d: Doc, i: nat, seen: Seen)
    requires Wf(t) && i < |t| && ReprBody(t, d, i, seen)
    ensures Straight(d, seen)
    decreases i, 0
  {
    hide Straight, Repr, Collapsed, LeafDoc, NoneLost;
    match t[i].body
    case ArrayS(item, _, _) =>
      ReprStraight(t, d.items.value, item, seen);
      BareBack(d);
      StraightFrom(d, seen);
    case RecordS(item) =>
      ReprStraight(t, d.additional.doc, item, seen);
      BareBack(d);
      StraightFrom(d, seen);
    case ObjectS(shape, _) => ObjectStraight(t, d, i, seen);
    case UnionS(options) =>
      if Collapsed(t, options).Some? {
        CollapsedChildless(t, options);
        BareChildless(d);
        ChildlessStraight(d, seen);
      } else {
        var kept := KeptOptions(t, options);
        forall k | 0 <= k < |d.anyOf|
          ensures Straight(d.anyOf[k], seen)
        {
          ReprStraight(t, d.anyOf[k], kept[k], seen);
        }
        BareBack(d);
        StraightFrom(d, seen);
      }
    case OptionalS(inner) =>
      if Repr(t, d, inner, seen) {
        ReprStraight(t, d, inner, seen);
      } else {
        ReprStraight(t, d.anyOf[1], inner, seen);
        NeverStraight(seen);
        PairStraight(d, NEVER, d.anyOf[1], seen);
      }
    case NullableS(inner) =>
      if PlainType(t[inner].body).Some? {
        BareChildless(d);
        ChildlessStraight(d, seen);
      } else {
        ReprStraight(t, d.anyOf[0], inner, seen);
        ChildlessStraight(TypeDoc(["null"]), seen);
        PairStraight(d, d.anyOf[0], TypeDoc(["null"]), seen);
      }
    case RefinedS(inner, _, _) => ReprStraight(t, d, inner, seen);
    case _ =>
      LeafChildless(t[i].body);
      BareChildless(d);
      ChildlessStraight(d, seen);
  }

  lemma BareBack(d: Doc)
    ensures Bare(d).ref == d.ref && Bare(d).items == d.items && Bare(d).properties == d.properties && Bare(d).additional == d.additional
    ensures Bare(d).anyOf == d.anyOf && Bare(d).not_ == d.not_
  {
  }

  lemma NeverStraight(seen: Seen)
    ensures Straight(NEVER, seen)
  {
    ChildlessStraight(EMPTY, seen);
    hide NoneLost;
    assert NEVER.not_ == Some(EMPTY);
  }

  lemma PairStraight(d: Doc, a: Doc, b: Doc, seen: Seen)
    requires Bare(d) == EMPTY.(anyOf := [a, b]) && Straight(a, seen) && Straight(b, seen)
    ensures Straight(d, seen)
  {
    hide Straight;
    BareBack(d);
    assert d.anyOf == [a, b];
    StraightFrom(d, seen);
  }

  lemma StraightFrom(d: Doc, seen: Seen)
    requires d.ref.None? && !Declares(d.properties, "__proto__")
    requires d.items.Some? ==> Straight(d.items.value, seen)
    requires forall k | 0 <= k < |d.properties| :: Straight(d.properties[k].doc, seen)
    requires d.additional.Each? ==> Straight(d.additional.doc, seen)
    requires forall k | 0 <= k < |d.anyOf| :: Straight(d.anyOf[k], seen)
    requires d.not_.Some? ==> Straight(d.not_.value, seen)
    ensures Straight(d, seen)
  {
    hide NoneLost;
  }

  lemma {:induction false} ObjectStraight(t: Table, d: Doc, i: nat, seen: Seen)
    requires Wf(t) && i < |t| && t[i].body.ObjectS? && ReprBody(t, d, i, seen)
    ensures Straight(d, seen)
    decreases i, 0, 0
  {
    hide Straight, Repr;
    var stored := StoredMembers(t[i].body.shape);
    forall k | 0 <= k < |d.properties|
      ensures Straight(d.properties[k].doc, seen) && d.properties[k].key != "__proto__"
    {
      assert stored[k] in stored;
      ReprStraight(t, d.properties[k].doc, stored[k].1, seen);
    }
    BareBack(d);
    StraightFrom(d, seen);
  }

  lemma {:induction false} LookUpTame(props: seq<Prop>, key: string)
    requires forall k | 0 <= k < |props| :: Tame(props[k].doc)
    requires !Declares(props, "__proto__")
    ensures LookUp(props, key).Some? ==> key != "__proto__" && Tame(LookUp(props, key).value)
  {
    hide Tame;
    if props != [] {
      assert props[0].key != "__proto__";
      if props[0].key != key {
        assert forall k | 0 <= k < |props[1..]| :: props[1..][k] == props[k + 1];
        LookUpTame(props[1..], key);
      }
    }
  }

  lemma TameParts(d: Doc)
    requires Tame(d)
    ensures d.ref.Some? ==> d.items.None? && d.properties == [] && !d.additional.Each? && d.anyOf == [] && d.not_.None?
    ensures !Declares(d.properties, "__proto__")
    ensures d.items.Some? ==> Tame(d.items.value)
    ensures forall k | 0 <= k < |d.properties| :: Tame(d.properties[k].doc)
    ensures d.additional.Each? ==> Tame(d.additional.doc)
    ensures forall k | 0 <= k < |d.anyOf| :: Tame(d.anyOf[k])
    ensures d.not_.Some? ==> Tame(d.not_.value)
  {
  }

  /** In an emitted document a reference through a member called `__proto__` leads nowhere. */
  lemma {:induction false} AtLost(d: Doc, tokens: seq<string>)
    requires Tame(d) && "__proto__" in tokens
    ensures At(d, tokens).None?
    decreases |tokens|
  {
    hide ParseDec, LookUp, Tame, Declares;
    TameParts(d);
    if At(d, tokens).Some? {
      if tokens[0] == "items" {
        assert "__proto__" in tokens[1..];
        AtLost(d.items.value, tokens[1..]);
      } else if tokens[0] == "additionalProperties" {
        assert "__proto__" in tokens[1..];
        AtLost(d.additional.doc, tokens[1..]);
      } else if tokens[0] == "not" {
        assert "__proto__" in tokens[1..];
        AtLost(d.not_.value, tokens[1..]);
      } else if tokens[0] == "properties" {
        LookUpTame(d.properties, tokens[1]);
        assert "__proto__" in tokens[2..];
        AtLost(LookUp(d.properties, tokens[1]).value, tokens[2..]);
      } else {
        DigitsOnly(tokens[1]);
        assert "__proto__" in tokens[2..];
        AtLost(d.anyOf[ParseDec(tokens[1]).value], tokens[2..]);
      }
    }
  }

  lemma DigitsOnly(s: string)
    requires ParseDec(s).Some?
    ensures s != "__proto__"
  {
    hide DigitsValue;
    assert "__proto__"[0] == '_';
  }

  /** So the document around it does not expand, and admits nothing. */
  lemma {:induction false} LostDangles(root: Doc, d: Doc, fuel: nat)
    requires Tame(root) && Tame(d) && !Direct(d)
    ensures Expand(root, d, fuel).None?
    decreases d
  {
    hide Tame, Resolve;
    TameParts(d);
    if d.ref.Some? {
      if Through(d.ref.value) { ThroughDangles(root, d.ref.value); }
    } else {
      ExpandPropsAt(root, d.properties, fuel);
      ExpandAllAt(root, d.anyOf, fuel);
      if d.items.Some? && !Direct(d.items.value) {
        LostDangles(root, d.items.value, fuel);
      } else if d.additional.Each? && !Direct(d.additional.doc) {
        LostDangles(root, d.additional.doc, fuel);
      } else if d.not_.Some? && !Direct(d.not_.value) {
        LostDangles(root, d.not_.value, fuel);
      } else if k :| 0 <= k < |d.properties| && !Direct(d.properties[k].doc) {
        LostDangles(root, d.properties[k].doc, fuel);
      } else if k :| 0 <= k < |d.anyOf| && !Direct(d.anyOf[k]) {
        LostDangles(root, d.anyOf[k], fuel);
      }
    }
  }

  lemma ThroughDangles(root: Doc, ref: string)
    requires Tame(root) && Through(ref)
    ensures Resolve(root, ref).None?
  {
    hide Tame, At, Tokens;
    AtLost(root, Tokens(ref).value);
  }
}
