/** The conditions of the agreement are needed (src/schema.ts): for each of them a schema that
    meets all the others, and a value on which parser and document part. */
module SchemaLimits {
  import opened Common
  import opened SchemaNodes
  import opened SchemaParse
  import opened JsonSchema
  import opened SchemaEmit
  import opened SchemaMeaning
  import opened SchemaValid
  import opened SchemaEmitProof
  import opened SchemaTheorems
  import opened SchemaAgreement
  import opened SchemaReferences
  import opened SchemaPublished

  // ---------------------------------------------------------------- an option that emits {}

  /** `z.union([z.unknown(), z.string().min(1)])` */
  function Dropped(): Table {
    [Node(UnknownS, None), Node(StringS([MinLength(1)]), None), Node(UnionS([0, 1]), None)]
  }

  const SHORT_TEXT := TypeDoc(["string"]).(text := TextOf([MinLength(1)]))

  lemma DroppedNode(i: nat)
    requires i < 3
    ensures |Dropped()| == 3 && Dropped()[i] == if i == 0 then Node(UnknownS, None) else if i == 1 then Node(StringS([MinLength(1)]), None) else Node(UnionS([0, 1]), None)
    ensures Wf(Dropped())
  {
  }

  lemma DroppedCollapse()
    ensures Collapsed(Dropped(), [0, 1]).None?
  {
    DroppedNode(0);
    assert [0, 1][0] == 0;
  }

  lemma DroppedDocs(seen: Seen, path: Path)
    requires seen.Keys == {2}
    ensures Wf(Dropped()) && EmitOptions(Dropped(), true, 2, [0, 1], 0, path, None, seen).docs == [Some(EMPTY), Some(SHORT_TEXT)]
  {
    hide Emit, Dropped, TextOf;
    DroppedNode(0);
    DroppedNode(1);
    var p0, p1 := path + ["anyOf", Dec(0)], path + ["anyOf", Dec(1)];
    LeafEmitted(Dropped(), 0, p0, None, seen);
    LeafEmitted(Dropped(), 1, p1, None, seen[0 := p0]);
    OptionsNext(Dropped(), 2, [0, 1], 0, path, None, seen);
    OptionsNext(Dropped(), 2, [1], 1, path, None, seen[0 := p0]);
    assert [0, 1][1..] == [1] && [1][1..] == [];
  }

  lemma DroppedDocument()
    ensures Wf(Dropped()) && ToJsonSchema(Dropped(), 2) == EMPTY.(anyOf := [SHORT_TEXT])
  {
    hide Dropped, Collapsed, EmitOptions, Kept;
    DroppedNode(2);
    DroppedCollapse();
    DroppedKept();
    var seen: Seen := map[2 := ["#"]];
    DroppedDocs(seen, ["#"]);
    assert map[][2 := ["#"]] == seen;
    assert EmitBody(Dropped(), true, 2, ["#"], None, seen).doc == Some(EMPTY.(anyOf := [SHORT_TEXT]));
  }

  lemma DroppedKept()
    ensures Kept([Some(EMPTY), Some(SHORT_TEXT)]) == [SHORT_TEXT]
  {
    var docs := [Some(EMPTY), Some(SHORT_TEXT)];
    assert docs[1..] == [Some(SHORT_TEXT)] && [Some(SHORT_TEXT)][1..] == [];
    assert SHORT_TEXT.types == ["string"];
    assert Kept([Some(SHORT_TEXT)]) == [SHORT_TEXT];
  }

  lemma DroppedParses(o: Oracle)
    ensures Wf(Dropped()) && SafeParse(Dropped(), o, 2, Num(5.0)).value == Some(Num(5.0))
  {
    DroppedNode(0);
    DroppedNode(2);
    var ps := Attempts(Dropped(), o, 2, [0, 1], Num(5.0), []);
    assert ps[0] == Pass(Num(5.0));
  }

  lemma ShortTextOnly(o: Oracle, v: Value)
    requires !v.Str?
    ensures !Validates(o, EMPTY.(anyOf := [SHORT_TEXT]), v)
  {
    var root := EMPTY.(anyOf := [SHORT_TEXT]);
    ExpandChildless(root, SHORT_TEXT, 1);
    ExpandAllAt(root, [SHORT_TEXT], 1);
    ValidatesWith(o, root, v, 1);
    assert SHORT_TEXT.types == ["string"];
    assert !Valid(o, SHORT_TEXT, v);
  }

  /** The `{}` option is dropped from `anyOf`, so the document refuses a number that `safeParse` accepts. */
  lemma DroppedOption(o: Oracle)
    ensures Wf(Dropped()) && KeepsOne(Dropped()) && PlainKeys(Dropped()) && !Placeable(Dropped())
    ensures SafeParse(Dropped(), o, 2, Num(5.0)).value == Some(Num(5.0))
    ensures !Validates(o, ToJsonSchema(Dropped(), 2), Num(5.0))
  {
    hide *;
    DroppedFits();
    DroppedParses(o);
    DroppedDocument();
    ShortTextOnly(o, Num(5.0));
  }

  lemma DroppedFits()
    ensures Wf(Dropped()) && KeepsOne(Dropped()) && PlainKeys(Dropped()) && !Placeable(Dropped())
  {
    hide Collapsed, Dropped, KeptOptions, Vacuous, PlainToken;
    DroppedNode(0);
    DroppedNode(1);
    DroppedNode(2);
    DroppedCollapse();
    DroppedVacuous();
    DroppedKeeps();
    assert [0, 1][0] == 0;
  }

  lemma DroppedVacuous()
    ensures Wf(Dropped()) && Vacuous(Dropped(), 0) && !Vacuous(Dropped(), 1)
  {
    hide Dropped, Wf;
    DroppedNode(0);
    DroppedNode(1);
  }

  lemma DroppedKeeps()
    ensures Wf(Dropped()) && |Dropped()| == 3 && KeptOptions(Dropped(), [0, 1]) != []
  {
    hide Dropped, Vacuous, Wf;
    DroppedNode(0);
    DroppedVacuous();
    assert [0, 1][1] == 1 && 1 in [0, 1];
    assert 1 in KeptOptions(Dropped(), [0, 1]);
  }

  // ---------------------------------------------------------------- an option moved by dropping

  const A_OR_B: seq<(string, nat)> := [("a", 3), ("b", 1)]

  /** `{ a: z.union([z.unknown(), flag, z.null()]), b: flag }` with one boolean `flag`. */
  function Shifted(): Table {
    [Node(UnknownS, None), Node(BooleanS, None), Node(NullS, None),
     Node(UnionS([0, 1, 2]), None), Node(ObjectS(A_OR_B, Strict), None)]
  }

  const FLAG := TypeDoc(["boolean"])
  const NULL_DOC := TypeDoc(["null"])
  const AT_A: Path := ["#", "properties", "a"]
  const AT_FLAG: Path := ["#", "properties", "a", "anyOf", "1"]

  lemma ShiftedNodes()
    ensures Wf(Shifted()) && |Shifted()| == 5 && Shifted()[0] == Node(UnknownS, None) && Shifted()[1] == Node(BooleanS, None)
    ensures Shifted()[2] == Node(NullS, None) && Shifted()[3] == Node(UnionS([0, 1, 2]), None) && Shifted()[4] == Node(ObjectS(A_OR_B, Strict), None)
  {
  }

  lemma ShiftedOptions(seen: Seen)
    requires 0 !in seen && 1 !in seen && 2 !in seen
    ensures Wf(Shifted())
    ensures var m := EmitOptions(Shifted(), true, 3, [0, 1, 2], 0, AT_A, Some(AT_A), seen);
      m.docs == [Some(EMPTY), Some(FLAG), Some(NULL_DOC)] && 1 in m.seen && m.seen[1] == AT_FLAG
  {
    hide Emit, EmitOptions, Dec, Shifted;
    ShiftedNodes();
    var p0, p1, p2 := AT_A + ["anyOf", Dec(0)], AT_A + ["anyOf", Dec(1)], AT_A + ["anyOf", Dec(2)];
    var s0, s1, s2 := seen[0 := p0], seen[0 := p0][1 := p1], seen[0 := p0][1 := p1][2 := p2];
    LeafEmitted(Shifted(), 0, p0, Some(AT_A), seen);
    LeafEmitted(Shifted(), 1, p1, Some(AT_A), s0);
    LeafEmitted(Shifted(), 2, p2, Some(AT_A), s1);
    assert [0, 1, 2][1..] == [1, 2] && [1, 2][1..] == [2] && [2][1..] == [];
    OptionsNext(Shifted(), 3, [2], 2, AT_A, Some(AT_A), s1);
    OptionsNext(Shifted(), 3, [1, 2], 1, AT_A, Some(AT_A), s0);
    OptionsNext(Shifted(), 3, [0, 1, 2], 0, AT_A, Some(AT_A), seen);
    FlagPath();
  }

  lemma FlagPath()
    ensures AT_A + ["anyOf", Dec(1)] == AT_FLAG
  {
    assert Dec(1) == "1";
  }

  /** A union's options, one step. */
  lemma OptionsNext(t: Table, bound: nat, options: seq<nat>, index: nat, path: Path, prop: Option<Path>, seen: Seen)
    requires Wf(t) && bound <= |t| && options != [] && forall k | 0 <= k < |options| :: options[k] < bound
    ensures var e := Emit(t, true, options[0], path + ["anyOf", Dec(index)], prop, seen);
      var rest := EmitOptions(t, true, bound, options[1..], index + 1, path, prop, e.seen);
      EmitOptions(t, true, bound, options, index, path, prop, seen) == OptionsOut([e.doc] + rest.docs, rest.seen)
    ensures EmitOptions(t, true, bound, [], index, path, prop, seen) == OptionsOut([], seen)
    ensures EmitOptions(t, true, bound, [], index + 1, path, prop, Emit(t, true, options[0], path + ["anyOf", Dec(index)], prop, seen).seen)
      == OptionsOut([], Emit(t, true, options[0], path + ["anyOf", Dec(index)], prop, seen).seen)
  {
    hide Emit, Wf;
  }

  lemma ShiftedKept()
    ensures Kept([Some(EMPTY), Some(FLAG), Some(NULL_DOC)]) == [FLAG, NULL_DOC]
    ensures Wf(Shifted()) && Collapsed(Shifted(), [0, 1, 2]).None?
  {
    ShiftedNodes();
    assert [0, 1, 2][0] == 0;
    var docs := [Some(EMPTY), Some(FLAG), Some(NULL_DOC)];
    assert docs[1..] == [Some(FLAG), Some(NULL_DOC)] && docs[1..][1..] == [Some(NULL_DOC)] && docs[1..][1..][1..] == [];
    assert FLAG != EMPTY && NULL_DOC != EMPTY;
    assert Kept(docs[1..][1..]) == [NULL_DOC];
    assert Kept(docs[1..]) == [FLAG, NULL_DOC];
  }

  const FLAG_OR_NULL := EMPTY.(anyOf := [FLAG, NULL_DOC])

  lemma ShiftedMember(seen: Seen)
    requires seen.Keys == {4}
    ensures Wf(Shifted())
    ensures var e := Emit(Shifted(), true, 3, AT_A, Some(AT_A), seen);
      e.doc == Some(FLAG_OR_NULL) && 1 in e.seen && e.seen[1] == AT_FLAG
  {
    hide Shifted, EmitOptions, Kept, Collapsed;
    ShiftedNodes();
    ShiftedKept();
    ShiftedOptions(seen[3 := AT_A]);
    assert EmitBody(Shifted(), true, 3, AT_A, Some(AT_A), seen[3 := AT_A]).doc == Some(FLAG_OR_NULL);
  }

  lemma StoredShort(key: string, d: Doc)
    requires |key| < 9
    ensures Stored(key, d) == [Prop(key, d)]
  {
    assert |"__proto__"| == 9;
  }

  lemma ShiftedDocument()
    ensures Wf(Shifted()) && |Shifted()| == 5
    ensures ToJsonSchema(Shifted(), 4) == ObjectDoc([Prop("a", FLAG_OR_NULL), Prop("b", RefDoc(AT_FLAG))], ["b"], Strict)
  {
    hide Shifted, Emit, AcceptsUndefined, RefDoc, Stored, ToJsonSchema;
    ShiftedNodes();
    var start: Seen := map[4 := ["#"]];
    ShiftedMember(start);
    ShiftedUndefined();
    TwoMembers(Shifted(), 4, "a", 3, "b", 1, Emit(Shifted(), true, 3, AT_A, Some(AT_A), start));
    StoredShort("a", FLAG_OR_NULL);
    StoredShort("b", RefDoc(AT_FLAG));
    assert [Prop("a", FLAG_OR_NULL)] + [Prop("b", RefDoc(AT_FLAG))] == [Prop("a", FLAG_OR_NULL), Prop("b", RefDoc(AT_FLAG))] && [] + ["b"] == ["b"];
  }

  lemma ShiftedUndefined()
    ensures Wf(Shifted()) && AcceptsUndefined(Shifted(), 3) && !AcceptsUndefined(Shifted(), 1)
  {
    hide Shifted;
    ShiftedNodes();
    assert [0, 1, 2][0] == 0 && AcceptsUndefined(Shifted(), 0);
  }

  /** The `$ref` recorded for the boolean leads to the null that dropping has moved to its index. */
  lemma ShiftedResolves(root: Doc)
    requires root.properties == [Prop("a", FLAG_OR_NULL), Prop("b", RefDoc(AT_FLAG))]
    ensures Resolve(root, Join(AT_FLAG, '/')) == Some(NULL_DOC)
  {
    hide Join, Tokens, Unescape;
    forall k | 0 <= k < |AT_FLAG|
      ensures PlainToken(AT_FLAG[k])
    {
      PlainWord(AT_FLAG[k]);
    }
    TokensExactly(AT_FLAG);
    assert AT_FLAG[1..] == ["properties", root.properties[0].key] + ["anyOf", "1"];
    AtProperties(root, 0, ["anyOf", "1"]);
    assert Dec(1) == "1" && ["anyOf", "1"] + [] == ["anyOf", "1"];
    AtAnyOf(FLAG_OR_NULL, 1, []);
  }

  lemma ShiftedRef(root: Doc)
    requires root.properties == [Prop("a", FLAG_OR_NULL), Prop("b", RefDoc(AT_FLAG))]
    ensures Expand(root, RefDoc(AT_FLAG), 1) == Some(NULL_DOC)
  {
    hide Resolve, Join;
    ShiftedResolves(root);
    ExpandChildless(root, NULL_DOC, 0);
  }

  /** The expansion of an object whose two members expand. */
  lemma ExpandTwo(root: Doc, d: Doc, a: Doc, b: Doc, fuel: nat)
    requires d.ref.None? && d.items.None? && !d.additional.Each? && d.anyOf == [] && d.not_.None? && |d.properties| == 2
    requires Expand(root, d.properties[0].doc, fuel) == Some(a) && Expand(root, d.properties[1].doc, fuel) == Some(b)
    ensures Expand(root, d, fuel) == Some(d.(properties := [Prop(d.properties[0].key, a), Prop(d.properties[1].key, b)]))
  {
    ExpandPropsAt(root, d.properties, fuel);
    assert ExpandProps(root, d.properties, fuel).value == [Prop(d.properties[0].key, a), Prop(d.properties[1].key, b)];
    ExpandAllAt(root, [], fuel);
  }

  lemma ShiftedExpands(root: Doc)
    requires root == ObjectDoc([Prop("a", FLAG_OR_NULL), Prop("b", RefDoc(AT_FLAG))], ["b"], Strict)
    ensures Expand(root, root, 1) == Some(ObjectDoc([Prop("a", FLAG_OR_NULL), Prop("b", NULL_DOC)], ["b"], Strict))
  {
    hide Expand, RefDoc;
    ShiftedRef(root);
    ExpandKeeps(root);
    ExpandTwo(root, root, FLAG_OR_NULL, NULL_DOC, 1);
  }

  lemma ExpandKeeps(root: Doc)
    ensures Expand(root, FLAG_OR_NULL, 1) == Some(FLAG_OR_NULL)
  {
    ExpandChildless(root, FLAG, 1);
    ExpandChildless(root, NULL_DOC, 1);
    ExpandAllAt(root, [FLAG, NULL_DOC], 1);
    assert ExpandAll(root, [FLAG, NULL_DOC], 1).value == [FLAG, NULL_DOC];
  }

  lemma ShiftedValid(o: Oracle, x: Value)
    requires x.Bool? || x.Null?
    ensures Wf(Shifted()) && |Shifted()| == 5 && (Validates(o, ToJsonSchema(Shifted(), 4), Obj([("b", x)])) <==> x.Null?)
  {
    hide *;
    ShiftedNodes();
    ShiftedDocument();
    var root := ToJsonSchema(Shifted(), 4);
    ShiftedExpands(root);
    ValidatesWith(o, root, Obj([("b", x)]), 1);
    ShiftedMeaning(o, x);
  }

  lemma ShiftedMeaning(o: Oracle, x: Value)
    requires x.Bool? || x.Null?
    ensures Valid(o, ObjectDoc([Prop("a", FLAG_OR_NULL), Prop("b", NULL_DOC)], ["b"], Strict), Obj([("b", x)])) <==> x.Null?
  {
    hide Valid, HasType, Has, Get;
    var v, e := Obj([("b", x)]), ObjectDoc([Prop("a", FLAG_OR_NULL), Prop("b", NULL_DOC)], ["b"], Strict);
    ObjectKeywords(o, e, v);
    ValidNull(o, x);
    SingleEntry("b", x);
    assert e.properties[1].key == "b" && e.properties[1].doc == NULL_DOC && e.properties[0].key == "a" && "a" != "b";
    assert Declares(e.properties, "b");
    assert e.required == ["b"] && v.entries[0].0 == "b";
  }

  lemma SingleEntry(key: string, x: Value)
    ensures var es := [(key, x)]; Has(es, key) && Get(es, key) == x && (forall other :: other != key ==> !Has(es, other))
  {
    var es := [(key, x)];
    assert es[0].0 == key;
  }

  lemma ShiftedParses(o: Oracle)
    ensures Wf(Shifted()) && SafeParse(Shifted(), o, 4, Obj([("b", Bool(true))])).value.Some?
    ensures SafeParse(Shifted(), o, 4, Obj([("b", Null)])).value.None?
  {
    hide *;
    ShiftedNodes();
    ShiftedRefuses(o);
    ShiftedAdmits(o);
  }

  lemma ShiftedRefuses(o: Oracle)
    ensures Wf(Shifted()) && SafeParse(Shifted(), o, 4, Obj([("b", Null)])).value.None?
  {
    hide Shifted, Gather, UndeclaredEntries, AcceptsUndefined, Wf;
    ShiftedNodes();
    var no := [("b", Null)];
    SingleEntry("b", Null);
    var ps := MemberPieces(Shifted(), o, 4, A_OR_B, no, []);
    assert A_OR_B[1] == ("b", 1);
    assert ps[1].issues != [];
    GatherIssues(ps);
  }

  lemma ShiftedAdmits(o: Oracle)
    ensures Wf(Shifted()) && SafeParse(Shifted(), o, 4, Obj([("b", Bool(true))])).value.Some?
  {
    hide Shifted, AcceptsUndefined, Wf, SafeParse;
    ShiftedNodes();
    var es := [("b", Bool(true))];
    SingleEntry("b", Bool(true));
    var ps := MemberPieces(Shifted(), o, 4, A_OR_B, es, []);
    assert A_OR_B[0] == ("a", 3) && A_OR_B[1] == ("b", 1) && "a" != "b";
    ShiftedMissing(o, [] + [Key("a")]);
    assert ps[0].issues == [];
    BooleanParses(Shifted(), o, 4, es, 1);
    assert Declared(A_OR_B, "b");
    ObjectParses(Shifted(), o, 4, es);
  }

  lemma ShiftedMissing(o: Oracle, path: seq<Step>)
    ensures Wf(Shifted()) && ParseAt(Shifted(), o, 3, Undefined, path).issues == []
  {
    hide Shifted, Wf;
    ShiftedNodes();
    assert [0, 1, 2][0] == 0 && [0, 1, 2][1] == 1 && [0, 1, 2][2] == 2;
    var ps := Attempts(Shifted(), o, 3, [0, 1, 2], Undefined, path);
    assert ps[0] == Pass(Undefined);
  }

  /** Dropping an option moves the later ones, while a `$ref` keeps the index it had: here the
      reference to a boolean finds a null. The document refuses what the parser accepts, and
      admits what it refuses. */
  lemma ShiftedReference(o: Oracle)
    ensures Wf(Shifted())
    ensures SafeParse(Shifted(), o, 4, Obj([("b", Bool(true))])).value.Some? && !Validates(o, ToJsonSchema(Shifted(), 4), Obj([("b", Bool(true))]))
    ensures SafeParse(Shifted(), o, 4, Obj([("b", Null)])).value.None? && Validates(o, ToJsonSchema(Shifted(), 4), Obj([("b", Null)]))
  {
    hide Validates, ParseAt;
    ShiftedParses(o);
    ShiftedValid(o, Bool(true));
    ShiftedValid(o, Null);
  }

  // ---------------------------------------------------------------- a slash inside a key

  const SLASH_SHAPE: seq<(string, nat)> := [("a/b", 0), ("c", 0)]

  /** One boolean schema under the keys `a/b` and `c`. */
  function Slashed(): Table {
    [Node(BooleanS, None), Node(ObjectS(SLASH_SHAPE, Strict), None)]
  }

  const SLASH_ENTRIES: Entries := [("a/b", Bool(true)), ("c", Bool(true))]

  lemma SlashedNodes()
    ensures Wf(Slashed()) && Slashed()[0].body == BooleanS && Slashed()[1].body == ObjectS(SLASH_SHAPE, Strict)
    ensures |Slashed()| == 2 && Slashed()[0] == Node(BooleanS, None) && Slashed()[1].description.None?
    ensures SLASH_SHAPE[0] == ("a/b", 0) && SLASH_SHAPE[1] == ("c", 0) && |SLASH_SHAPE| == 2
  {
  }

  lemma SlashParses(o: Oracle)
    ensures Wf(Slashed()) && SafeParse(Slashed(), o, 1, Obj(SLASH_ENTRIES)).value.Some?
  {
    hide Slashed, SafeParse, Get, Has;
    SlashedNodes();
    var es := SLASH_ENTRIES;
    assert DistinctKeys(es) by { assert |"a/b"| != |"c"|; }
    GetAt(es, 0);
    GetAt(es, 1);
    BooleanParses(Slashed(), o, 1, es, 0);
    BooleanParses(Slashed(), o, 1, es, 1);
    assert Declared(SLASH_SHAPE, SLASH_SHAPE[0].0) && Declared(SLASH_SHAPE, SLASH_SHAPE[1].0);
    ObjectParses(Slashed(), o, 1, es);
  }

  const SLASH_PATH: Path := ["#", "properties", "a/b"]

  lemma SlashDocument()
    ensures Wf(Slashed()) && |Slashed()| == 2 && ToJsonSchema(Slashed(), 1).ref.None?
    ensures ToJsonSchema(Slashed(), 1).properties == [Prop("a/b", TypeDoc(["boolean"])), Prop("c", RefDoc(SLASH_PATH))]
  {
    hide Slashed, AcceptsUndefined, RefDoc, Stored, ToJsonSchema;
    SlashedNodes();
    var start: Seen := map[1 := ["#"]];
    LeafEmitted(Slashed(), 0, SLASH_PATH, Some(SLASH_PATH), start);
    TwoMembers(Slashed(), 1, "a/b", 0, "c", 0, Emit(Slashed(), true, 0, SLASH_PATH, Some(SLASH_PATH), start));
    StoredShort("a/b", TypeDoc(["boolean"]));
    StoredShort("c", RefDoc(SLASH_PATH));
    assert [Prop("a/b", TypeDoc(["boolean"]))] + [Prop("c", RefDoc(SLASH_PATH))] == [Prop("a/b", TypeDoc(["boolean"])), Prop("c", RefDoc(SLASH_PATH))];
  }

  lemma SlashText()
    ensures Join(SLASH_PATH, '/') == Join(["#", "properties", "a", "b"], '/')
  {
    assert SLASH_PATH[1..] == ["properties", "a/b"] && ["properties", "a/b"][1..] == ["a/b"];
    var parts := ["#", "properties", "a", "b"];
    assert parts[1..] == ["properties", "a", "b"] && ["properties", "a", "b"][1..] == ["a", "b"] && ["a", "b"][1..] == ["b"];
    assert Join(["a", "b"], '/') == "a/b" == Join(["a/b"], '/');
    assert Join(["properties", "a", "b"], '/') == Join(["properties", "a/b"], '/');
  }

  lemma AtMissing(root: Doc, tokens: Path)
    requires |tokens| >= 2 && tokens[0] == "properties" && LookUp(root.properties, tokens[1]).None?
    ensures At(root, tokens).None?
  {
  }

  lemma SlashDangles(root: Doc)
    requires LookUp(root.properties, "a").None?
    ensures Resolve(root, Join(SLASH_PATH, '/')).None?
  {
    SlashText();
    var parts := ["#", "properties", "a", "b"];
    forall k | 0 <= k < |parts|
      ensures PlainToken(parts[k])
    {
      PlainWord(parts[k]);
    }
    TokensExactly(parts);
    AtMissing(root, parts[1..]);
  }

  lemma SlashLookUp(props: seq<Prop>)
    requires |props| == 2 && props[0].key == "a/b" && props[1].key == "c"
    ensures LookUp(props, "a").None?
  {
    assert |"a/b"| != |"a"| && "c"[0] != "a"[0];
    assert props[1..][0] == props[1] && props[1..][1..] == [];
    assert LookUp(props[1..][1..], "a").None?;
    assert LookUp(props[1..], "a").None?;
  }

  lemma SlashUnexpanded(root: Doc, fuel: nat)
    requires root.ref.None? && |root.properties| == 2 && root.properties[1].doc == RefDoc(SLASH_PATH)
    requires Resolve(root, Join(SLASH_PATH, '/')).None?
    ensures Expand(root, root, fuel).None?
  {
    ExpandPropsAt(root, root.properties, fuel);
    assert Expand(root, root.properties[1].doc, fuel).None?;
  }

  lemma SlashFits()
    ensures Wf(Slashed()) && |Slashed()| == 2 && Placeable(Slashed()) && !PlainKeys(Slashed())
  {
    SlashedNodes();
    assert "a/b"[1] == '/';
    assert Slashed()[1].body.shape[0].0 == "a/b";
  }

  /** The second use becomes a `$ref` whose path is cut at the slash inside the key: it leads
      nowhere, and the document admits no value at all. */
  lemma SlashInKey(o: Oracle, v: Value)
    ensures Wf(Slashed()) && Placeable(Slashed()) && !PlainKeys(Slashed())
    ensures SafeParse(Slashed(), o, 1, Obj(SLASH_ENTRIES)).value.Some?
    ensures !Validates(o, ToJsonSchema(Slashed(), 1), v)
  {
    hide PlainKeys, Placeable, Slashed, Expand, ToJsonSchema, Resolve, LookUp;
    SlashFits();
    SlashParses(o);
    SlashDocument();
    var root := ToJsonSchema(Slashed(), 1);
    SlashLookUp(root.properties);
    SlashDangles(root);
    forall fuel: nat
      ensures Expand(root, root, fuel).None?
    {
      SlashUnexpanded(root, fuel);
    }
  }

  // ---------------------------------------------------------------- strip mode

  function Stripped(): Table {
    [Node(ObjectS([], Strip), None)]
  }

  lemma StrippedTable()
    ensures |Stripped()| == 1 && Stripped()[0].body == ObjectS([], Strip)
    ensures Wf(Stripped()) && Emittable(Stripped()) && RefineFree(Stripped()) && ChecksKept(Stripped()) && !StripFree(Stripped())
  {
    assert Stripped()[0].body == ObjectS([], Strip);
  }

  lemma StripParses(o: Oracle, es: Entries)
    requires Wf(Stripped())
    ensures SafeParse(Stripped(), o, 0, Obj(es)).value == Some(Obj([]))
  {
    assert Stripped()[0].body == ObjectS([], Strip);
    assert Gather(MemberPieces(Stripped(), o, 0, [], es, [])) == Piece([], []);
  }

  /** Strip mode: an undeclared member is accepted and dropped, while the document refuses it. */
  lemma StripAcceptsMore(o: Oracle)
    ensures Wf(Stripped()) && Emittable(Stripped()) && RefineFree(Stripped()) && ChecksKept(Stripped()) && !StripFree(Stripped())
    ensures SafeParse(Stripped(), o, 0, Obj([("x", Null)])).value == Some(Obj([]))
    ensures !Validates(o, ToJsonSchema(Stripped(), 0), Obj([("x", Null)]))
  {
    hide Emittable, RefineFree, ChecksKept, StripFree, Stripped, Validates, Accepts, SafeParse;
    StrippedTable();
    var es := [("x", Null)];
    StripParses(o, es);
    SingleJson("x");
    DocumentMeaning(Stripped(), o, 0, Obj(es));
    UndeclaredRefused(Stripped(), o, 0, es);
  }

  lemma SingleJson(key: string)
    ensures JsonData(Obj([(key, Null)]))
  {
  }

  lemma UndeclaredRefused(t: Table, o: Oracle, i: nat, es: Entries)
    requires Wf(t) && i < |t| && t[i].body == ObjectS([], Strip) && es != []
    ensures !Accepts(t, o, i, Obj(es))
  {
    assert !Declared([], es[0].0);
  }

  // ---------------------------------------------------------------- lost checks and refinements

  /** A string or number schema on its own. */
  function Single(b: Body): Table {
    [Node(b, None)]
  }

  lemma SingleFits(b: Body)
    requires b.StringS? || b.NumberS?
    ensures |Single(b)| == 1 && Single(b)[0].body == b && Wf(Single(b))
    ensures Emittable(Single(b)) && RefineFree(Single(b)) && StripFree(Single(b))
    ensures ChecksKept(Single(b)) <==> if b.StringS? then TextKept(b.textChecks) else NumberKept(b.numberChecks)
    ensures PatternsPrinted(Single(b)) <==> (b.StringS? ==> TextPrinted(b.textChecks))
  {
    hide TextKept, NumberKept, TextPrinted;
    assert Single(b)[0] == Node(b, None);
  }

  /** What its document and its parser say. */
  lemma SingleMeaning(o: Oracle, b: Body, v: Value)
    requires (b.StringS? || b.NumberS?) && JsonData(v) && Wf(Single(b))
    ensures Validates(o, ToJsonSchema(Single(b), 0), v) <==> LeafPasses(o, b, v)
    ensures SafeParse(Single(b), o, 0, v).value.Some? <==>
      if b.StringS? then v.Str? && forall k | 0 <= k < |b.textChecks| :: StringOk(o, b.textChecks[k], v.s)
      else v.Num? && forall k | 0 <= k < |b.numberChecks| :: NumberOk(b.numberChecks[k], v.n)
  {
    hide Single, LeafPasses, Validates, Accepts, Placeable, PlainKeys, Storable, RefineFree, StripFree, ChecksKept, PatternsPrinted, Direct, ToJsonSchema, StringOk, NumberOk, LeafDoc;
    SingleFits(b);
    LeafChildless(b);
    DocumentMeaning(Single(b), o, 0, v);
    if Accepts(Single(b), o, 0, v) { LeafParses(Single(b), o, 0, v); }
    if LeafPasses(o, b, v) { LeafAccepts(Single(b), o, 0, v); }
  }

  const LOWERED := NumberS([Min(5.0), Min(3.0)])

  /** `z.number().min(5).min(3)`: the document says 3, the parser also asks for 5. */
  lemma LostMinimum(o: Oracle)
    ensures Wf(Single(LOWERED)) && Emittable(Single(LOWERED)) && RefineFree(Single(LOWERED)) && StripFree(Single(LOWERED)) && !ChecksKept(Single(LOWERED))
    ensures SafeParse(Single(LOWERED), o, 0, Num(4.0)).value.None?
    ensures Validates(o, ToJsonSchema(Single(LOWERED), 0), Num(4.0))
  {
    hide Validates, NumberOf, NumberKept, Emittable, RefineFree, StripFree, ChecksKept, PatternsPrinted, SafeParse, Single;
    LostRules();
    SingleFits(LOWERED);
    SingleMeaning(o, LOWERED, Num(4.0));
    assert LOWERED.numberChecks[0] == Min(5.0) && !NumberOk(LOWERED.numberChecks[0], 4.0);
  }

  lemma LostRules()
    ensures NumberOf([Min(5.0), Min(3.0)]) == NumberRules("number", NO_RANGE.(minimum := Some(3.0)))
    ensures !NumberKept([Min(5.0), Min(3.0)])
  {
    var one: seq<NumberCheck> := [Min(5.0)];
    NumberOfNone();
    NumberOfSnoc([], Min(5.0));
    NumberOfSnoc(one, Min(3.0));
    assert [] + [Min(5.0)] == one && one + [Min(3.0)] == [Min(5.0), Min(3.0)];
    hide NumberOf;
    assert [Min(5.0), Min(3.0)][0] == Min(5.0);
  }

  const REPLACED := StringS([Regex("x", ""), Regex("y", "")])

  /** Of two different patterns only the last is printed: a string that matches it, and not the first. */
  lemma LostPattern(o: Oracle, s: string)
    requires o.matches("y", "", s) && !o.matches("x", "", s)
    ensures Wf(Single(REPLACED)) && Emittable(Single(REPLACED)) && RefineFree(Single(REPLACED)) && StripFree(Single(REPLACED)) && !ChecksKept(Single(REPLACED))
    ensures SafeParse(Single(REPLACED), o, 0, Str(s)).value.None?
    ensures Validates(o, ToJsonSchema(Single(REPLACED), 0), Str(s))
  {
    hide Validates, TextOf, TextKept, TextPrinted, Emittable, RefineFree, StripFree, ChecksKept, PatternsPrinted, SafeParse, Single;
    LostKeywords();
    SingleFits(REPLACED);
    SingleMeaning(o, REPLACED, Str(s));
    assert REPLACED.textChecks[0] == Regex("x", "") && !StringOk(o, REPLACED.textChecks[0], s);
  }

  lemma LostKeywords()
    ensures TextOf([Regex("x", ""), Regex("y", "")]) == NO_TEXT.(pattern := Some("y"))
    ensures !TextKept([Regex("x", ""), Regex("y", "")])
  {
    var one: seq<StringCheck> := [Regex("x", "")];
    TextOfNone();
    TextOfSnoc([], Regex("x", ""));
    TextOfSnoc(one, Regex("y", ""));
    assert [] + [Regex("x", "")] == one && one + [Regex("y", "")] == [Regex("x", ""), Regex("y", "")];
    hide TextOf;
    assert [Regex("x", ""), Regex("y", "")][0] == Regex("x", "");
    assert "x"[0] != "y"[0];
  }

  const CASELESS := StringS([Regex("^a$", "i")])

  /** `z.string().regex(/^a$/i)`: the flag is not printed, so the document refuses a string that
      matches with it only. */
  lemma LostFlags(o: Oracle, s: string)
    requires o.matches("^a$", "i", s) && !o.matches("^a$", "", s)
    ensures Wf(Single(CASELESS)) && Emittable(Single(CASELESS)) && RefineFree(Single(CASELESS)) && StripFree(Single(CASELESS)) && !PatternsPrinted(Single(CASELESS))
    ensures SafeParse(Single(CASELESS), o, 0, Str(s)).value == Some(Str(s))
    ensures !Validates(o, ToJsonSchema(Single(CASELESS), 0), Str(s))
  {
    hide Validates, TextOf, TextKept, TextPrinted, Emittable, RefineFree, StripFree, ChecksKept, PatternsPrinted, Single;
    FlagKeywords();
    SingleFits(CASELESS);
    SingleMeaning(o, CASELESS, Str(s));
  }

  lemma FlagKeywords()
    ensures TextOf([Regex("^a$", "i")]) == NO_TEXT.(pattern := Some("^a$"))
    ensures !TextPrinted([Regex("^a$", "i")])
  {
    TextOfNone();
    TextOfSnoc([], Regex("^a$", "i"));
    var none: seq<StringCheck> := [];
    assert none + [Regex("^a$", "i")] == [Regex("^a$", "i")];
    hide TextOf;
    assert |"i"| != |""|;
  }

  function Refined(): Table {
    [Node(BooleanS, None), Node(RefinedS(0, v => v == Bool(true), []), None)]
  }

  /** `z.boolean().refine((b) => b)`: the document knows nothing of the refinement. */
  lemma Refinement(o: Oracle)
    ensures Wf(Refined()) && Emittable(Refined()) && ChecksKept(Refined()) && StripFree(Refined()) && !RefineFree(Refined())
    ensures SafeParse(Refined(), o, 1, Bool(false)).value.None?
    ensures Validates(o, ToJsonSchema(Refined(), 1), Bool(false))
  {
    hide *;
    RefinedTable();
    RefinedParses(o);
    RefinedAccepts(o);
    FalseJson();
    EmittableParts(Refined());
    DocumentMeaning(Refined(), o, 1, Bool(false));
  }

  lemma EmittableParts(t: Table)
    requires Wf(t) && Emittable(t)
    ensures Placeable(t) && PlainKeys(t) && Storable(t)
  {
  }

  lemma FalseJson()
    ensures JsonData(Bool(false))
  {
  }

  lemma RefinedParses(o: Oracle)
    ensures Wf(Refined()) && |Refined()| == 2 && SafeParse(Refined(), o, 1, Bool(false)).value.None?
  {
    hide Refined;
    RefinedTable();
  }

  lemma RefinedAccepts(o: Oracle)
    ensures Wf(Refined()) && |Refined()| == 2 && Accepts(Refined(), o, 1, Bool(false))
  {
    hide Refined, Accepts;
    RefinedTable();
    LeafAccepts(Refined(), o, 0, Bool(false));
    AcceptsInner(Refined(), o, 1, Bool(false));
  }

  lemma RefinedTable()
    ensures Wf(Refined()) && |Refined()| == 2 && Refined()[0].body == BooleanS && Refined()[1].body.RefinedS? && Refined()[1].body.inner == 0
    ensures Emittable(Refined()) && ChecksKept(Refined()) && StripFree(Refined()) && !RefineFree(Refined())
    ensures !Refined()[1].body.check(Bool(false))
  {
    hide KeptOptions, Collapsed, TextKept, NumberKept, PlainToken;
    assert !Refined()[1].body.check(Bool(false));
  }
}
