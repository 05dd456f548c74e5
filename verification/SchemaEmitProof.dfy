/** What `emit` guarantees: the document stands for the schema, and every schema it recorded
    in `seen` is found, by its path, where its body was written (src/schema.ts). */
module SchemaEmitProof {
  import opened Common
  import opened SchemaNodes
  import opened JsonSchema
  import opened SchemaEmit
  import opened SchemaMeaning

  /** Below the document `d` that starts at path `base`, the path recorded for `s` leads to a body
      of `s`, unless it is lost. */
  ghost predicate Spot(t: Table, d: Doc, base: Path, s: nat, seen: Seen)
    requires Wf(t)
  {
    && s < |t| && s in seen && SafePath(t, seen[s]) && base <= seen[s]
    && (Lost(seen[s]) || (At(d, seen[s][|base|..]).Some? && ReprBody(t, At(d, seen[s][|base|..]).value, s, seen)))
  }

  ghost predicate Placed(t: Table, d: Doc, base: Path, before: Seen, after: Seen)
    requires Wf(t)
  {
    forall s | s in after && s !in before :: Spot(t, d, base, s, after)
  }

  /** The property path of an emission is none, or a prefix of where it is. */
  predicate PropOf(prop: Option<Path>, path: Path) {
    prop.Some? ==> prop.value != [] && prop.value <= path
  }

  ghost predicate Emits(t: Table, share: bool, i: nat, path: Path, seen: Seen, e: Emitted)
    requires Wf(t) && i < |t|
  {
    && e.doc.Some?
    && Sub(seen, e.seen) && (!share ==> e.seen == seen)
    && Repr(t, e.doc.value, i, e.seen)
    && Placed(t, e.doc.value, path, seen, e.seen)
  }

  lemma EmitsSome(t: Table, share: bool, i: nat, path: Path, seen: Seen, e: Emitted)
    requires Wf(t) && i < |t| && Emits(t, share, i, path, seen, e)
    ensures e.doc.Some? && (!share ==> e.seen == seen)
  {
  }

  // ---------------------------------------------------------------- moving spots

  lemma SpotMono(t: Table, d: Doc, base: Path, s: nat, a: Seen, b: Seen)
    requires Wf(t) && Spot(t, d, base, s, a) && Sub(a, b)
    ensures Spot(t, d, base, s, b)
  {
    if !Lost(a[s]) { ReprBodyMono(t, At(d, a[s][|base|..]).value, s, a, b); }
  }

  lemma SpotLift(t: Table, d: Doc, child: Doc, base: Path, step: Path, s: nat, seen: Seen)
    requires Wf(t) && Spot(t, child, base + step, s, seen)
    requires var rest := seen[s][|base + step|..]; At(d, step + rest) == At(child, rest)
    ensures Spot(t, d, base, s, seen)
  {
    hide ReprBody, At, SafePath, Lost;
    Suffix(base, step, seen[s]);
  }

  lemma Suffix(base: Path, step: Path, path: Path)
    requires base + step <= path
    ensures base <= path && path[|base|..] == step + path[|base + step|..]
  {
    var rest := path[|base + step|..];
    assert path == base + step + rest;
  }

  lemma AtItems(d: Doc, rest: Path)
    requires d.items.Some?
    ensures At(d, ["items"] + rest) == At(d.items.value, rest)
  {
    assert (["items"] + rest)[1..] == rest;
  }

  lemma AtAdditional(d: Doc, rest: Path)
    requires d.additional.Each?
    ensures At(d, ["additionalProperties"] + rest) == At(d.additional.doc, rest)
  {
    assert (["additionalProperties"] + rest)[1..] == rest;
  }

  lemma AtProperties(d: Doc, k: nat, rest: Path)
    requires k < |d.properties| && forall j | 0 <= j < k :: d.properties[j].key != d.properties[k].key
    ensures At(d, ["properties", d.properties[k].key] + rest) == At(d.properties[k].doc, rest)
  {
    LookUpAt(d.properties, k);
    assert (["properties", d.properties[k].key] + rest)[2..] == rest;
  }

  lemma AtAnyOf(d: Doc, k: nat, rest: Path)
    requires k < |d.anyOf|
    ensures At(d, ["anyOf", Dec(k)] + rest) == At(d.anyOf[k], rest)
  {
    ParseDecInverts(k);
    assert (["anyOf", Dec(k)] + rest)[2..] == rest;
  }

  lemma LiftItems(t: Table, d: Doc, path: Path, s: nat, seen: Seen)
    requires Wf(t) && d.items.Some? && Spot(t, d.items.value, path + ["items"], s, seen)
    ensures Spot(t, d, path, s, seen)
  {
    hide ReprBody, SafePath, Wf;
    AtItems(d, seen[s][|path + ["items"]|..]);
    SpotLift(t, d, d.items.value, path, ["items"], s, seen);
  }

  lemma LiftAdditional(t: Table, d: Doc, path: Path, s: nat, seen: Seen)
    requires Wf(t) && d.additional.Each? && Spot(t, d.additional.doc, path + ["additionalProperties"], s, seen)
    ensures Spot(t, d, path, s, seen)
  {
    hide ReprBody, SafePath, Wf;
    AtAdditional(d, seen[s][|path + ["additionalProperties"]|..]);
    SpotLift(t, d, d.additional.doc, path, ["additionalProperties"], s, seen);
  }

  lemma LiftOption(t: Table, d: Doc, option: Doc, k: nat, path: Path, s: nat, seen: Seen)
    requires Wf(t) && k < |d.anyOf| && d.anyOf[k] == option && Spot(t, option, path + ["anyOf", Dec(k)], s, seen)
    ensures Spot(t, d, path, s, seen)
  {
    hide ReprBody, SafePath, Wf, Dec;
    var step := ["anyOf", Dec(k)];
    AtAnyOf(d, k, seen[s][|path + step|..]);
    SpotLift(t, d, option, path, step, s, seen);
  }

  // ---------------------------------------------------------------- descriptions

  lemma {:induction false} ReprDescribed(t: Table, d: Doc, text: Option<string>, i: nat, seen: Seen)
    requires Wf(t) && i < |t|
    ensures ReprBody(t, d, i, seen) ==> ReprBody(t, d.(description := text), i, seen)
    ensures Repr(t, d, i, seen) ==> Repr(t, d.(description := text), i, seen)
    decreases i
  {
    var e := d.(description := text);
    assert Bare(e) == Bare(d) && e.items == d.items && e.additional == d.additional && e.properties == d.properties && e.anyOf == d.anyOf;
    hide Bare, LeafDoc, Collapsed, KeptOptions, RequiredKeys, RefDoc, PlainType, Wf;
    match t[i].body
    case OptionalS(inner) => ReprDescribed(t, d, text, inner, seen);
    case RefinedS(inner, _, _) => ReprDescribed(t, d, text, inner, seen);
    case ArrayS(_, _, _) => assert ReprBody(t, d, i, seen) ==> ReprBody(t, e, i, seen);
    case RecordS(_) => assert ReprBody(t, d, i, seen) ==> ReprBody(t, e, i, seen);
    case ObjectS(_, _) => assert ReprBody(t, d, i, seen) ==> ReprBody(t, e, i, seen);
    case UnionS(_) => assert ReprBody(t, d, i, seen) ==> ReprBody(t, e, i, seen);
    case NullableS(_) => assert ReprBody(t, d, i, seen) ==> ReprBody(t, e, i, seen);
    case _ => assert ReprBody(t, d, i, seen) ==> ReprBody(t, e, i, seen);
  }

  lemma SpotDescribed(t: Table, d: Doc, text: Option<string>, base: Path, s: nat, seen: Seen)
    requires Wf(t) && Spot(t, d, base, s, seen)
    ensures Spot(t, d.(description := text), base, s, seen)
  {
    hide ReprBody, SafePath, Wf;
    AtDescribed(d, text, seen[s][|base|..]);
    if seen[s][|base|..] == [] {
      ReprDescribed(t, d, text, s, seen);
    }
  }

  lemma AtDescribed(d: Doc, text: Option<string>, tokens: Path)
    ensures tokens != [] ==> At(d.(description := text), tokens) == At(d, tokens)
  {
  }

  // ---------------------------------------------------------------- emission

  lemma NotAtProperty(path: Path, step: Path, prop: Option<Path>)
    requires PropOf(prop, path) && step != []
    ensures !AtProperty(path + step, prop) && PropOf(prop, path + step)
  {
    if prop.Some? {
      var more := (path + step)[|prop.value|..];
      assert path + step == prop.value + more;
      JoinGrows(prop.value, more, ',');
    }
  }

  lemma SafeStep(t: Table, path: Path, step: Path)
    requires SafePath(t, path) && (PlainKeys(t) ==> forall k | 0 <= k < |step| :: PlainToken(step[k])) && (Storable(t) ==> !Lost(step))
    ensures SafePath(t, path + step)
  {
    hide PlainToken, PlainKeys, Storable;
  }

  /** The keywords and indices a path is made of mean themselves. */
  lemma PlainWord(word: string)
    requires '/' !in word && '~' !in word && '_' !in word
    ensures PlainToken(word) && word != "__proto__"
  {
    UnescapePlain(word);
    assert "__proto__"[0] == '_';
  }

  lemma WordStep(t: Table, path: Path, step: Path, prop: Option<Path>)
    requires SafePath(t, path) && PropOf(prop, path) && step != []
    requires forall k | 0 <= k < |step| :: '/' !in step[k] && '~' !in step[k] && '_' !in step[k]
    ensures !AtProperty(path + step, prop) && PropOf(prop, path + step) && SafePath(t, path + step)
  {
    hide PlainToken, PlainKeys, Storable, AtProperty, PropOf, SafePath;
    NotAtProperty(path, step, prop);
    forall k | 0 <= k < |step|
      ensures PlainToken(step[k]) && step[k] != "__proto__"
    {
      PlainWord(step[k]);
    }
    SafeStep(t, path, step);
  }

  predicate VacuousBody(t: Table, i: nat)
    requires Wf(t) && i < |t|
  {
    t[i].body.UnknownS? || (t[i].body.RefinedS? && Vacuous(t, t[i].body.inner))
  }

  /** Without sharing a union may lose options, as no path says where one is. */
  predicate Fits(t: Table, share: bool)
    requires Wf(t)
  {
    KeepsOne(t) && (share ==> Placeable(t))
  }

  /** What is dropped from a union is what is vacuous. */
  lemma {:induction false} VacuousEmits(t: Table, i: nat, path: Path, prop: Option<Path>)
    requires Wf(t) && i < |t| && Vacuous(t, i)
    ensures Emit(t, false, i, path, prop, map[]) == Emitted(Some(EMPTY), map[])
    decreases i
  {
    if t[i].body.RefinedS? { VacuousEmits(t, t[i].body.inner, path, prop); }
  }

  lemma {:induction false} EmitOk(t: Table, share: bool, i: nat, path: Path, prop: Option<Path>, seen: Seen)
    requires Wf(t) && Fits(t, share) && i < |t| && SafePath(t, path) && PropOf(prop, path) && (share || seen == map[])
    ensures Emits(t, share, i, path, seen, Emit(t, share, i, path, prop, seen))
    ensures !AtProperty(path, prop) && !Vacuous(t, i) ==> Emit(t, share, i, path, prop, seen).doc.value != EMPTY
    decreases i, 2
  {
    hide Fits, SafePath, ReprBody, EmitBody, PropOf, AtProperty, RefDoc;
    if share && i in seen {
      RefEmits(t, i, path, prop, seen);
    } else {
      var start := if share then seen[i := path] else seen;
      EmitBodyOk(t, share, i, path, prop, start);
      var b := EmitBody(t, share, i, path, prop, start);
      var d := b.doc.value;
      var text := if t[i].description.Some? then t[i].description else d.description;
      EmitDescribed(t, share, i, path, prop, seen, b, text);
      ReprDescribed(t, d, text, i, b.seen);
      VacuousIs(t, i, d, text);
      forall s | s in b.seen && s !in seen
        ensures Spot(t, d.(description := text), path, s, b.seen)
      {
        if s == i {
          SpotHere(t, d.(description := text), path, i, b.seen);
        } else {
          SpotDescribed(t, d, text, path, s, b.seen);
        }
      }
    }
  }

  lemma RefEmits(t: Table, i: nat, path: Path, prop: Option<Path>, seen: Seen)
    requires Wf(t) && i < |t| && i in seen
    ensures var e := Emit(t, true, i, path, prop, seen); Emits(t, true, i, path, seen, e) && e.doc.value != EMPTY
  {
    hide ReprBody;
    assert Bare(RefDoc(seen[i])) == RefDoc(seen[i]);
  }

  /** The description replaces none, or the body's own stays. */
  lemma EmitDescribed(t: Table, share: bool, i: nat, path: Path, prop: Option<Path>, seen: Seen, b: Emitted, text: Option<string>)
    requires Wf(t) && i < |t| && !(share && i in seen)
    requires b == EmitBody(t, share, i, path, prop, if share then seen[i := path] else seen) && b.doc.Some?
    requires text == if t[i].description.Some? then t[i].description else b.doc.value.description
    ensures Emit(t, share, i, path, prop, seen) == Emitted(Some(b.doc.value.(description := text)), b.seen)
  {
    hide EmitBody;
    if t[i].description.None? { assert b.doc.value.(description := text) == b.doc.value; }
  }

  lemma VacuousIs(t: Table, i: nat, d: Doc, text: Option<string>)
    requires Wf(t) && i < |t| && text == if t[i].description.Some? then t[i].description else d.description
    ensures !Vacuous(t, i) && (!VacuousBody(t, i) ==> d != EMPTY) ==> d.(description := text) != EMPTY
  {
    if d != EMPTY && text == d.description { assert d.(description := text) == d; }
  }

  /** A schema's own path leads to its body. */
  lemma SpotHere(t: Table, e: Doc, path: Path, i: nat, seen: Seen)
    requires Wf(t) && i < |t| && i in seen && seen[i] == path && SafePath(t, path) && ReprBody(t, e, i, seen)
    ensures Spot(t, e, path, i, seen)
  {
    hide ReprBody, SafePath;
    assert path[|path|..] == [];
  }

  ghost predicate EmitsBody(t: Table, share: bool, i: nat, path: Path, prop: Option<Path>, seen: Seen, e: Emitted)
    requires Wf(t) && i < |t|
  {
    && e.doc.Some?
    && Sub(seen, e.seen) && (!share ==> e.seen == seen)
    && ReprBody(t, e.doc.value, i, e.seen)
    && Placed(t, e.doc.value, path, seen, e.seen)
    && (!AtProperty(path, prop) && !VacuousBody(t, i) ==> e.doc.value != EMPTY)
  }

  lemma {:induction false} EmitBodyOk(t: Table, share: bool, i: nat, path: Path, prop: Option<Path>, seen: Seen)
    requires Wf(t) && Fits(t, share) && i < |t| && SafePath(t, path) && PropOf(prop, path) && (share || seen == map[])
    ensures EmitsBody(t, share, i, path, prop, seen, EmitBody(t, share, i, path, prop, seen))
    decreases i, 1, 1
  {
    hide EmitsBody, Emits, Fits, SafePath, PropOf, EmitBody, Emit;
    match t[i].body
    case ArrayS(_, _, _) => ArrayOk(t, share, i, path, prop, seen);
    case RecordS(_) => RecordOk(t, share, i, path, prop, seen);
    case ObjectS(_, _) => ObjectOk(t, share, i, path, prop, seen);
    case UnionS(_) => UnionOk(t, share, i, path, prop, seen);
    case OptionalS(_) => OptionalOk(t, share, i, path, prop, seen);
    case NullableS(_) => NullableOk(t, share, i, path, prop, seen);
    case RefinedS(inner, _, _) =>
      EmitOk(t, share, inner, path, prop, seen);
      RefinedEmits(t, share, i, path, prop, seen);
    case _ => LeafEmits(t, share, i, path, prop, seen);
  }

  lemma RefinedEmits(t: Table, share: bool, i: nat, path: Path, prop: Option<Path>, seen: Seen)
    requires Wf(t) && i < |t| && t[i].body.RefinedS? && Emits(t, share, t[i].body.inner, path, seen, Emit(t, share, t[i].body.inner, path, prop, seen))
    requires !AtProperty(path, prop) && !Vacuous(t, t[i].body.inner) ==> Emit(t, share, t[i].body.inner, path, prop, seen).doc.value != EMPTY
    ensures EmitsBody(t, share, i, path, prop, seen, EmitBody(t, share, i, path, prop, seen))
  {
    hide Emit, Placed, AtProperty, Vacuous, Repr;
  }

  lemma LeafEmits(t: Table, share: bool, i: nat, path: Path, prop: Option<Path>, seen: Seen)
    requires Wf(t) && i < |t| && IsLeaf(t[i].body)
    ensures EmitsBody(t, share, i, path, prop, seen, EmitBody(t, share, i, path, prop, seen))
  {
    hide AtProperty;
    assert Bare(LeafDoc(t[i].body).value) == LeafDoc(t[i].body).value;
  }

  lemma {:induction false} ArrayOk(t: Table, share: bool, i: nat, path: Path, prop: Option<Path>, seen: Seen)
    requires Wf(t) && Fits(t, share) && i < |t| && SafePath(t, path) && PropOf(prop, path) && (share || seen == map[])
    requires t[i].body.ArrayS?
    ensures EmitsBody(t, share, i, path, prop, seen, EmitBody(t, share, i, path, prop, seen))
    decreases i, 1, 0
  {
    hide Fits, SafePath, PropOf, Spot, Repr, At;
    var item := t[i].body.item;
    var step := ["items"];
    WordStep(t, path, step, prop);
    EmitOk(t, share, item, path + step, prop, seen);
    var e := Emit(t, share, item, path + step, prop, seen);
    var d := ArrayDoc(e.doc, t[i].body.minItems, t[i].body.maxItems);
    assert Bare(d) == d;
    forall s | s in e.seen && s !in seen
      ensures Spot(t, d, path, s, e.seen)
    {
      LiftItems(t, d, path, s, e.seen);
    }
  }

  lemma {:induction false} RecordOk(t: Table, share: bool, i: nat, path: Path, prop: Option<Path>, seen: Seen)
    requires Wf(t) && Fits(t, share) && i < |t| && SafePath(t, path) && PropOf(prop, path) && (share || seen == map[])
    requires t[i].body.RecordS?
    ensures EmitsBody(t, share, i, path, prop, seen, EmitBody(t, share, i, path, prop, seen))
    decreases i, 1, 0
  {
    hide Fits, SafePath, PropOf, Spot, Repr, At;
    var item := t[i].body.valueSchema;
    var step := ["additionalProperties"];
    WordStep(t, path, step, prop);
    EmitOk(t, share, item, path + step, prop, seen);
    var e := Emit(t, share, item, path + step, prop, seen);
    var d := RecordDoc(e.doc);
    assert Bare(d) == d;
    forall s | s in e.seen && s !in seen
      ensures Spot(t, d, path, s, e.seen)
    {
      LiftAdditional(t, d, path, s, e.seen);
    }
  }

  lemma {:induction false} NullableOk(t: Table, share: bool, i: nat, path: Path, prop: Option<Path>, seen: Seen)
    requires Wf(t) && Fits(t, share) && i < |t| && SafePath(t, path) && PropOf(prop, path) && (share || seen == map[])
    requires t[i].body.NullableS?
    ensures EmitsBody(t, share, i, path, prop, seen, EmitBody(t, share, i, path, prop, seen))
    decreases i, 1, 0
  {
    hide Fits, SafePath, PropOf, Spot, Repr, At;
    var inner := t[i].body.inner;
    if PlainType(t[inner].body).None? {
      var step := ["anyOf", "0"];
      assert Dec(0) == "0";
      WordStep(t, path, step, prop);
      EmitOk(t, share, inner, path + step, prop, seen);
      var e := Emit(t, share, inner, path + step, prop, seen);
      var d := NullableDoc(e.doc).value;
      assert Bare(d) == d;
      forall s | s in e.seen && s !in seen
        ensures Spot(t, d, path, s, e.seen)
      {
        LiftOption(t, d, e.doc.value, 0, path, s, e.seen);
      }
    } else {
      assert Bare(TypeDoc([PlainType(t[inner].body).value, "null"])) == TypeDoc([PlainType(t[inner].body).value, "null"]);
    }
  }

  lemma {:induction false} OptionalOk(t: Table, share: bool, i: nat, path: Path, prop: Option<Path>, seen: Seen)
    requires Wf(t) && Fits(t, share) && i < |t| && SafePath(t, path) && PropOf(prop, path) && (share || seen == map[])
    requires t[i].body.OptionalS?
    ensures EmitsBody(t, share, i, path, prop, seen, EmitBody(t, share, i, path, prop, seen))
    decreases i, 1, 0
  {
    hide Fits, SafePath, PropOf, Spot, Repr, At;
    var inner := t[i].body.inner;
    if AtProperty(path, prop) {
      EmitOk(t, share, inner, path, prop, seen);
    } else {
      var step := ["anyOf", "1"];
      assert Dec(1) == "1";
      WordStep(t, path, step, prop);
      EmitOk(t, share, inner, path + step, prop, seen);
      var e := Emit(t, share, inner, path + step, prop, seen);
      var d := OptionalDoc(e.doc);
      assert Bare(d) == d;
      forall s | s in e.seen && s !in seen
        ensures Spot(t, d, path, s, e.seen)
      {
        LiftOption(t, d, e.doc.value, 1, path, s, e.seen);
      }
    }
  }

  // ---------------------------------------------------------------- unions

  /** An option's document: `{}` for one to drop, otherwise one that stands for it. */
  ghost predicate OptionDoc(t: Table, d: Option<Doc>, option: nat, seen: Seen)
    requires Wf(t) && option < |t|
  {
    d.Some? && (if Vacuous(t, option) then d.value == EMPTY else d.value != EMPTY && Repr(t, d.value, option, seen))
  }

  ghost predicate OptionsEmitted(t: Table, share: bool, options: seq<nat>, index: nat, path: Path, seen: Seen, m: OptionsOut)
    requires Wf(t) && forall k | 0 <= k < |options| :: options[k] < |t|
  {
    && |m.docs| == |options|
    && Sub(seen, m.seen) && (!share ==> m.seen == seen)
    && (forall k | 0 <= k < |options| :: OptionDoc(t, m.docs[k], options[k], m.seen))
    && (forall s | s in m.seen && s !in seen :: OptionHolds(t, m, index, path, s))
  }

  ghost predicate OptionHolds(t: Table, m: OptionsOut, index: nat, path: Path, s: nat)
    requires Wf(t)
  {
    exists k | 0 <= k < |m.docs| :: m.docs[k].Some? && Spot(t, m.docs[k].value, path + ["anyOf", Dec(index + k)], s, m.seen)
  }

  lemma OptionShift(t: Table, m: OptionsOut, rest: OptionsOut, first: Option<Doc>, index: nat, path: Path, s: nat)
    requires Wf(t) && m == OptionsOut([first] + rest.docs, rest.seen) && OptionHolds(t, rest, index + 1, path, s)
    ensures OptionHolds(t, m, index, path, s)
  {
    hide Spot;
    var k :| 0 <= k < |rest.docs| && rest.docs[k].Some? && Spot(t, rest.docs[k].value, path + ["anyOf", Dec(index + 1 + k)], s, rest.seen);
    assert m.docs[k + 1] == rest.docs[k] && index + (k + 1) == index + 1 + k;
  }

  lemma OptionDocMono(t: Table, d: Option<Doc>, option: nat, a: Seen, b: Seen)
    requires Wf(t) && option < |t| && OptionDoc(t, d, option, a) && Sub(a, b)
    ensures OptionDoc(t, d, option, b)
  {
    if !Vacuous(t, option) { ReprMono(t, d.value, option, a, b); }
  }

  /** One option's emission followed by the others'. */
  lemma OptionsCons(t: Table, share: bool, options: seq<nat>, index: nat, path: Path, seen: Seen, e: Emitted, rest: OptionsOut)
    requires Wf(t) && options != [] && forall k | 0 <= k < |options| :: options[k] < |t|
    requires Emits(t, share, options[0], path + ["anyOf", Dec(index)], seen, e) && OptionDoc(t, e.doc, options[0], e.seen)
    requires OptionsEmitted(t, share, options[1..], index + 1, path, e.seen, rest)
    ensures OptionsEmitted(t, share, options, index, path, seen, OptionsOut([e.doc] + rest.docs, rest.seen))
  {
    hide Spot, OptionDoc, OptionHolds, Repr, Vacuous;
    var m := OptionsOut([e.doc] + rest.docs, rest.seen);
    OptionDocMono(t, e.doc, options[0], e.seen, m.seen);
    forall k | 0 <= k < |options|
      ensures OptionDoc(t, m.docs[k], options[k], m.seen)
    {
      if k > 0 { assert m.docs[k] == rest.docs[k - 1] && options[k] == options[1..][k - 1]; }
    }
    forall s | s in m.seen && s !in seen
      ensures OptionHolds(t, m, index, path, s)
    {
      if s in e.seen {
        SpotMono(t, e.doc.value, path + ["anyOf", Dec(index)], s, e.seen, m.seen);
        OptionFirst(t, m, index, path, s);
      } else {
        OptionShift(t, m, rest, e.doc, index, path, s);
      }
    }
  }

  lemma OptionFirst(t: Table, m: OptionsOut, index: nat, path: Path, s: nat)
    requires Wf(t) && m.docs != [] && m.docs[0].Some? && Spot(t, m.docs[0].value, path + ["anyOf", Dec(index)], s, m.seen)
    ensures OptionHolds(t, m, index, path, s)
  {
    hide Spot;
    assert index + 0 == index;
  }

  lemma OptionsNone(t: Table, share: bool, index: nat, path: Path, seen: Seen)
    requires Wf(t)
    ensures OptionsEmitted(t, share, [], index, path, seen, OptionsOut([], seen))
  {
  }

  lemma {:induction false} OptionsOk(t: Table, share: bool, bound: nat, options: seq<nat>, index: nat, path: Path, prop: Option<Path>, seen: Seen)
    requires Wf(t) && Fits(t, share) && bound <= |t| && SafePath(t, path) && PropOf(prop, path) && (share || seen == map[])
    requires forall k | 0 <= k < |options| :: options[k] < bound && (share ==> !Vacuous(t, options[k]))
    ensures OptionsEmitted(t, share, options, index, path, seen, EmitOptions(t, share, bound, options, index, path, prop, seen))
    decreases bound, 0, |options|
  {
    hide SafePath, PropOf, Fits, OptionsEmitted, Repr, Vacuous;
    if options != [] {
      var step := ["anyOf", Dec(index)];
      WordStep(t, path, step, prop);
      OptionOk(t, share, bound, options[0], path + step, prop, seen);
      var e := Emit(t, share, options[0], path + step, prop, seen);
      OptionsOk(t, share, bound, options[1..], index + 1, path, prop, e.seen);
      OptionsCons(t, share, options, index, path, seen, e, EmitOptions(t, share, bound, options[1..], index + 1, path, prop, e.seen));
    } else {
      OptionsNone(t, share, index, path, seen);
    }
  }

  lemma {:induction false} OptionOk(t: Table, share: bool, bound: nat, option: nat, path: Path, prop: Option<Path>, seen: Seen)
    requires Wf(t) && Fits(t, share) && option < bound <= |t| && SafePath(t, path) && PropOf(prop, path) && (share || seen == map[])
    requires !AtProperty(path, prop) && (share ==> !Vacuous(t, option))
    ensures var e := Emit(t, share, option, path, prop, seen);
      Emits(t, share, option, path, seen, e) && OptionDoc(t, e.doc, option, e.seen) && (!share ==> e.seen == seen)
    decreases bound, 0, 0
  {
    hide SafePath, PropOf, Fits, Emit, Repr, Vacuous, AtProperty;
    EmitOk(t, share, option, path, prop, seen);
    if Vacuous(t, option) { VacuousEmits(t, option, path, prop); }
  }

  /** The documents that are kept are those of the options that are. */
  lemma {:induction false} KeptAligned(t: Table, docs: seq<Option<Doc>>, options: seq<nat>, seen: Seen)
    requires Wf(t) && |docs| == |options| && forall k | 0 <= k < |options| :: options[k] < |t| && OptionDoc(t, docs[k], options[k], seen)
    ensures |Kept(docs)| == |KeptOptions(t, options)|
    ensures forall k | 0 <= k < |Kept(docs)| :: Repr(t, Kept(docs)[k], KeptOptions(t, options)[k], seen)
    decreases |docs|
  {
    hide *;
    KeptUnfold(t, docs, options);
    if docs != [] {
      var more, others := docs[1..], options[1..];
      forall k | 0 <= k < |more|
        ensures OptionDoc(t, more[k], others[k], seen)
      {
        assert more[k] == docs[k + 1] && others[k] == options[k + 1];
      }
      KeptAligned(t, more, others, seen);
      OptionKept(t, docs[0], options[0], seen);
    }
  }

  lemma KeptUnfold(t: Table, docs: seq<Option<Doc>>, options: seq<nat>)
    requires Wf(t) && |docs| == |options| && forall k | 0 <= k < |options| :: options[k] < |t|
    ensures docs == [] ==> Kept(docs) == [] && KeptOptions(t, options) == []
    ensures docs != [] ==> Kept(docs) == (if docs[0].Some? && docs[0].value != EMPTY then [docs[0].value] + Kept(docs[1..]) else Kept(docs[1..]))
    ensures docs != [] ==> KeptOptions(t, options) == if Vacuous(t, options[0]) then KeptOptions(t, options[1..]) else [options[0]] + KeptOptions(t, options[1..])
  {
    hide Vacuous;
  }

  lemma OptionKept(t: Table, d: Option<Doc>, option: nat, seen: Seen)
    requires Wf(t) && option < |t| && OptionDoc(t, d, option, seen)
    ensures (d.Some? && d.value != EMPTY) <==> !Vacuous(t, option)
    ensures !Vacuous(t, option) ==> Repr(t, d.value, option, seen)
  {
    hide Repr, Vacuous;
  }

  lemma {:induction false} KeptAll(docs: seq<Option<Doc>>)
    requires forall k | 0 <= k < |docs| :: docs[k].Some? && docs[k].value != EMPTY
    ensures |Kept(docs)| == |docs| && forall k | 0 <= k < |docs| :: Kept(docs)[k] == docs[k].value
  {
    if docs != [] {
      KeptAll(docs[1..]);
    }
  }

  lemma {:induction false} UnionOk(t: Table, share: bool, i: nat, path: Path, prop: Option<Path>, seen: Seen)
    requires Wf(t) && Fits(t, share) && i < |t| && SafePath(t, path) && PropOf(prop, path) && (share || seen == map[])
    requires t[i].body.UnionS?
    ensures EmitsBody(t, share, i, path, prop, seen, EmitBody(t, share, i, path, prop, seen))
    decreases i, 1, 0
  {
    hide Fits, SafePath, PropOf, Spot, Repr, At, Collapsed, OptionsEmitted, EmitOptions, UnionDoc, KeptOptions, AtProperty;
    UnionFits(t, share, i);
    var options := t[i].body.options;
    var c := Collapsed(t, options);
    if c.Some? {
      CollapsedBare(t, options);
    } else {
      OptionsOk(t, share, i, options, 0, path, prop, seen);
      var m := EmitOptions(t, share, i, options, 0, path, prop, seen);
      UnionAssembled(t, share, i, path, seen, m);
    }
  }

  lemma UnionFits(t: Table, share: bool, i: nat)
    requires Wf(t) && Fits(t, share) && i < |t| && t[i].body.UnionS?
    ensures var options := t[i].body.options;
      options != [] && (forall k | 0 <= k < |options| :: options[k] < i)
      && (Collapsed(t, options).None? && share ==> forall k | 0 <= k < |options| :: !Vacuous(t, options[k]))
  {
    hide Vacuous, Collapsed, KeptOptions;
  }

  lemma UnionAssembled(t: Table, share: bool, i: nat, path: Path, seen: Seen, m: OptionsOut)
    requires Wf(t) && Fits(t, share) && i < |t| && t[i].body.UnionS? && Collapsed(t, t[i].body.options).None?
    requires OptionsEmitted(t, share, t[i].body.options, 0, path, seen, m)
    ensures Sub(seen, m.seen) && (!share ==> m.seen == seen)
    ensures var d := UnionDoc(m.docs); d.Some? && d.value != EMPTY && ReprBody(t, d.value, i, m.seen) && Placed(t, d.value, path, seen, m.seen)
  {
    hide Spot, OptionDoc, OptionHolds, ReprBody, UnionDoc, KeptOptions, Collapsed;
    UnionRepr(t, i, m.docs, m.seen);
    if share { UnionPlaced(t, t[i].body.options, path, seen, m); }
  }

  lemma UnionRepr(t: Table, i: nat, docs: seq<Option<Doc>>, seen: Seen)
    requires Wf(t) && KeepsOne(t) && i < |t| && t[i].body.UnionS? && Collapsed(t, t[i].body.options).None?
    requires |docs| == |t[i].body.options| && forall k | 0 <= k < |docs| :: OptionDoc(t, docs[k], t[i].body.options[k], seen)
    ensures var d := UnionDoc(docs); d.Some? && d.value != EMPTY && ReprBody(t, d.value, i, seen)
  {
    hide OptionDoc, Repr, KeptOptions, Collapsed, Kept;
    KeptAligned(t, docs, t[i].body.options, seen);
    AnyOfBare(Kept(docs));
  }

  lemma AnyOfBare(docs: seq<Doc>)
    requires docs != []
    ensures var d := EMPTY.(anyOf := docs); d != EMPTY && Bare(d) == d && d.anyOf == docs
  {
  }

  lemma UnionPlaced(t: Table, options: seq<nat>, path: Path, seen: Seen, m: OptionsOut)
    requires Wf(t) && (forall k | 0 <= k < |options| :: options[k] < |t| && !Vacuous(t, options[k])) && options != []
    requires OptionsEmitted(t, true, options, 0, path, seen, m)
    ensures UnionDoc(m.docs).Some? && Placed(t, UnionDoc(m.docs).value, path, seen, m.seen)
  {
    hide Spot, OptionHolds, Vacuous, Repr, Kept;
    KeptAll(m.docs);
    forall s | s in m.seen && s !in seen
      ensures Spot(t, UnionDoc(m.docs).value, path, s, m.seen)
    {
      OptionSpot(t, UnionDoc(m.docs).value, m, path, s);
    }
  }

  /** What lies inside an option lies inside the union, at the option's index. */
  lemma OptionSpot(t: Table, d: Doc, m: OptionsOut, path: Path, s: nat)
    requires Wf(t) && OptionHolds(t, m, 0, path, s)
    requires |d.anyOf| == |m.docs| && forall k | 0 <= k < |m.docs| :: m.docs[k].Some? && d.anyOf[k] == m.docs[k].value
    ensures Spot(t, d, path, s, m.seen)
  {
    hide Spot;
    var k :| 0 <= k < |m.docs| && m.docs[k].Some? && Spot(t, m.docs[k].value, path + ["anyOf", Dec(0 + k)], s, m.seen);
    assert 0 + k == k;
    LiftOption(t, d, m.docs[k].value, k, path, s, m.seen);
  }

  lemma CollapsedBare(t: Table, options: seq<nat>)
    requires options != [] && forall k | 0 <= k < |options| :: options[k] < |t|
    requires Collapsed(t, options).Some?
    ensures var d := Collapsed(t, options).value; Bare(d) == d && d != EMPTY
  {
    if forall k | 0 <= k < |options| :: PlainType(t[options[k]].body).Some? {
      var all := PlainTypes(t, options);
      assert all[0] in Dedup(all);
    } else if forall k | 0 <= k < |options| :: t[options[k]].body.LiteralS? && t[options[k]].description.None? {
      var all := TypesOf(Literals(t, options));
      assert all[0] in Dedup(all);
    }
  }

  // ---------------------------------------------------------------- objects

  ghost predicate MembersEmitted(t: Table, share: bool, shape: seq<(string, nat)>, path: Path, seen: Seen, m: MembersOut)
    requires Wf(t) && Below(shape, |t|)
  {
    && StoredRepr(t, m.props, StoredMembers(shape), m.seen)
    && m.required == RequiredKeys(t, shape)
    && Sub(seen, m.seen) && (!share ==> m.seen == seen)
    && (forall s | s in m.seen && s !in seen :: MemberHolds(t, m, path, s))
  }

  ghost predicate StoredRepr(t: Table, props: seq<Prop>, stored: seq<(string, nat)>, seen: Seen)
    requires Wf(t) && Below(stored, |t|)
  {
    |props| == |stored| && forall k | 0 <= k < |stored| :: props[k].key == stored[k].0 && Repr(t, props[k].doc, stored[k].1, seen)
  }

  /** What was recorded on the way to `path` and below is lost. */
  ghost predicate Astray(t: Table, path: Path, s: nat, seen: Seen) {
    s < |t| && s in seen && SafePath(t, seen[s]) && path <= seen[s] && Lost(seen[s])
  }

  ghost predicate MemberHolds(t: Table, m: MembersOut, path: Path, s: nat)
    requires Wf(t)
  {
    || Astray(t, path, s, m.seen)
    || exists k | 0 <= k < |m.props| :: Spot(t, m.props[k].doc, path + ["properties", m.props[k].key], s, m.seen)
  }

  lemma MemberFirst(t: Table, m: MembersOut, path: Path, s: nat)
    requires Wf(t) && m.props != [] && Spot(t, m.props[0].doc, path + ["properties", m.props[0].key], s, m.seen)
    ensures MemberHolds(t, m, path, s)
  {
    hide Spot, Astray;
  }

  lemma MemberShift(t: Table, m: MembersOut, rest: MembersOut, path: Path, s: nat)
    requires Wf(t) && m.props != [] && m.props[1..] == rest.props && m.seen == rest.seen && MemberHolds(t, rest, path, s)
    ensures MemberHolds(t, m, path, s)
  {
    hide Spot, Astray;
    if !Astray(t, path, s, m.seen) {
      var k :| 0 <= k < |rest.props| && Spot(t, rest.props[k].doc, path + ["properties", rest.props[k].key], s, rest.seen);
      assert m.props[k + 1] == rest.props[k];
    }
  }

  lemma MembersRepr(t: Table, shape: seq<(string, nat)>, first: Doc, rest: seq<Prop>, seen: Seen)
    requires Wf(t) && shape != [] && Below(shape, |t|) && shape[0].0 != "__proto__" && Repr(t, first, shape[0].1, seen)
    requires StoredRepr(t, rest, StoredMembers(shape[1..]), seen)
    ensures StoredRepr(t, [Prop(shape[0].0, first)] + rest, StoredMembers(shape), seen)
  {
    hide Repr, Wf, StoredMembers;
    StoredSplit(shape);
    var props, stored, others := [Prop(shape[0].0, first)] + rest, StoredMembers(shape), StoredMembers(shape[1..]);
    forall k | 0 <= k < |stored|
      ensures props[k].key == stored[k].0 && Repr(t, props[k].doc, stored[k].1, seen)
    {
      if k > 0 { assert stored[k] == others[k - 1] && props[k] == rest[k - 1]; }
    }
  }

  lemma StoredSplit(shape: seq<(string, nat)>)
    requires shape != [] && shape[0].0 != "__proto__"
    ensures StoredMembers(shape) == [shape[0]] + StoredMembers(shape[1..])
  {
  }

  lemma StoredMono(t: Table, props: seq<Prop>, stored: seq<(string, nat)>, a: Seen, b: Seen)
    requires Wf(t) && Below(stored, |t|) && StoredRepr(t, props, stored, a) && Sub(a, b)
    ensures StoredRepr(t, props, stored, b)
  {
    hide Repr;
    forall k | 0 <= k < |stored|
      ensures Repr(t, props[k].doc, stored[k].1, b)
    {
      ReprMono(t, props[k].doc, stored[k].1, a, b);
    }
  }

  /** One member's emission followed by the others'. */
  lemma MembersCons(t: Table, share: bool, shape: seq<(string, nat)>, path: Path, seen: Seen, e: Emitted, rest: MembersOut)
    requires Wf(t) && shape != [] && Below(shape, |t|) && shape[0].0 != "__proto__"
    requires Emits(t, share, shape[0].1, path + ["properties", shape[0].0], seen, e)
    requires MembersEmitted(t, share, shape[1..], path, e.seen, rest)
    ensures MembersEmitted(t, share, shape, path, seen,
      MembersOut([Prop(shape[0].0, e.doc.value)] + rest.props, RequiredKeys(t, shape), rest.seen))
  {
    hide Spot, Repr, Wf, RequiredKeys, MemberHolds, StoredRepr, StoredMembers;
    var m := MembersOut([Prop(shape[0].0, e.doc.value)] + rest.props, RequiredKeys(t, shape), rest.seen);
    ReprMono(t, e.doc.value, shape[0].1, e.seen, m.seen);
    MembersRepr(t, shape, e.doc.value, rest.props, m.seen);
    forall s | s in m.seen && s !in seen
      ensures MemberHolds(t, m, path, s)
    {
      if s in e.seen {
        SpotMono(t, e.doc.value, path + ["properties", shape[0].0], s, e.seen, m.seen);
        MemberFirst(t, m, path, s);
      } else {
        MemberShift(t, m, rest, path, s);
      }
    }
  }

  /** A member called `__proto__` is emitted and not stored: what it recorded is lost. */
  lemma MembersLose(t: Table, share: bool, shape: seq<(string, nat)>, path: Path, seen: Seen, e: Emitted, rest: MembersOut)
    requires Wf(t) && shape != [] && Below(shape, |t|) && shape[0].0 == "__proto__"
    requires Emits(t, share, shape[0].1, path + ["properties", "__proto__"], seen, e)
    requires MembersEmitted(t, share, shape[1..], path, e.seen, rest)
    ensures MembersEmitted(t, share, shape, path, seen, MembersOut(rest.props, RequiredKeys(t, shape), rest.seen))
  {
    hide Spot, Repr, Wf, RequiredKeys, MemberHolds, StoredRepr;
    var m := MembersOut(rest.props, RequiredKeys(t, shape), rest.seen);
    forall s | s in m.seen && s !in seen
      ensures MemberHolds(t, m, path, s)
    {
      if s in e.seen {
        SpotAstray(t, e.doc.value, path, s, e.seen);
        HoldsAstray(t, m, path, s);
      } else {
        HoldsSame(t, m, rest, path, s);
      }
    }
  }

  lemma SpotAstray(t: Table, d: Doc, path: Path, s: nat, seen: Seen)
    requires Wf(t) && Spot(t, d, path + ["properties", "__proto__"], s, seen)
    ensures Astray(t, path, s, seen)
  {
    hide SafePath;
    Suffix(path, ["properties", "__proto__"], seen[s]);
    assert seen[s][|path| + 1] == "__proto__";
  }

  lemma HoldsAstray(t: Table, m: MembersOut, path: Path, s: nat)
    requires Wf(t) && Astray(t, path, s, m.seen)
    ensures MemberHolds(t, m, path, s)
  {
  }

  lemma HoldsSame(t: Table, m: MembersOut, rest: MembersOut, path: Path, s: nat)
    requires Wf(t) && m.props == rest.props && m.seen == rest.seen && MemberHolds(t, rest, path, s)
    ensures MemberHolds(t, m, path, s)
  {
  }

  lemma MembersNone(t: Table, share: bool, path: Path, seen: Seen)
    requires Wf(t)
    ensures MembersEmitted(t, share, [], path, seen, MembersOut([], [], seen))
  {
  }

  lemma MembersRequired(t: Table, share: bool, shape: seq<(string, nat)>, path: Path, seen: Seen, m: MembersOut)
    requires Wf(t) && Below(shape, |t|) && MembersEmitted(t, share, shape, path, seen, m)
    ensures m.required == RequiredKeys(t, shape)
  {
    hide Repr;
  }

  lemma MemberStep(t: Table, path: Path, key: string)
    requires SafePath(t, path) && (PlainKeys(t) ==> PlainToken(key)) && (Storable(t) ==> key != "__proto__")
    ensures var p := path + ["properties", key]; SafePath(t, p) && PropOf(Some(p), p)
  {
    hide PlainKeys, PlainToken, SafePath, Storable;
    PlainWord("properties");
    SafeStep(t, path, ["properties", key]);
  }

  lemma {:induction false} MembersOk(t: Table, share: bool, bound: nat, shape: seq<(string, nat)>, path: Path, seen: Seen)
    requires Wf(t) && Fits(t, share) && bound <= |t| && SafePath(t, path) && (share || seen == map[])
    requires Below(shape, bound) && (PlainKeys(t) ==> forall k | 0 <= k < |shape| :: PlainToken(shape[k].0))
    requires Storable(t) ==> forall k | 0 <= k < |shape| :: shape[k].0 != "__proto__"
    ensures MembersEmitted(t, share, shape, path, seen, EmitMembers(t, share, bound, shape, path, seen))
    decreases bound, 0, |shape|
  {
    hide PlainKeys, PlainToken, SafePath, Placeable, PropOf, Emits, MembersEmitted, Repr, AcceptsUndefined, Stored, Storable;
    if shape != [] {
      var memberPath := path + ["properties", shape[0].0];
      MemberStep(t, path, shape[0].0);
      EmitOk(t, share, shape[0].1, memberPath, Some(memberPath), seen);
      EmitsSome(t, share, shape[0].1, memberPath, seen, Emit(t, share, shape[0].1, memberPath, Some(memberPath), seen));
      var e := Emit(t, share, shape[0].1, memberPath, Some(memberPath), seen);
      MembersOk(t, share, bound, shape[1..], path, e.seen);
      MembersRequired(t, share, shape[1..], path, e.seen, EmitMembers(t, share, bound, shape[1..], path, e.seen));
      if shape[0].0 == "__proto__" {
        var rest := EmitMembers(t, share, bound, shape[1..], path, e.seen);
        StoredNot(e.doc.value);
        assert [] + rest.props == rest.props;
        MembersLose(t, share, shape, path, seen, e, rest);
      } else {
        StoredPlain(shape[0].0, e.doc.value);
        MembersCons(t, share, shape, path, seen, e, EmitMembers(t, share, bound, shape[1..], path, e.seen));
      }
    } else {
      MembersNone(t, share, path, seen);
    }
  }

  lemma {:induction false} ObjectOk(t: Table, share: bool, i: nat, path: Path, prop: Option<Path>, seen: Seen)
    requires Wf(t) && Fits(t, share) && i < |t| && SafePath(t, path) && PropOf(prop, path) && (share || seen == map[])
    requires t[i].body.ObjectS?
    ensures EmitsBody(t, share, i, path, prop, seen, EmitBody(t, share, i, path, prop, seen))
    decreases i, 1, 0
  {
    var shape, mode := t[i].body.shape, t[i].body.unknownKeys;
    ShapeFits(t, i);
    hide Fits, SafePath, PlainKeys, PlainToken, MembersEmitted, EmitMembers, Repr, Storable;
    MembersOk(t, share, i, shape, path, seen);
    ObjectAssembled(t, share, i, path, seen, EmitMembers(t, share, i, shape, path, seen));
  }

  lemma ShapeFits(t: Table, i: nat)
    requires Wf(t) && i < |t| && t[i].body.ObjectS?
    ensures var shape := t[i].body.shape;
      Below(shape, i) && DistinctKeys(shape) && (PlainKeys(t) ==> forall k | 0 <= k < |shape| :: PlainToken(shape[k].0))
    ensures Storable(t) ==> forall k | 0 <= k < |t[i].body.shape| :: t[i].body.shape[k].0 != "__proto__"
  {
    hide PlainToken;
  }

  lemma ObjectAssembled(t: Table, share: bool, i: nat, path: Path, seen: Seen, m: MembersOut)
    requires Wf(t) && i < |t| && t[i].body.ObjectS? && DistinctKeys(t[i].body.shape)
    requires MembersEmitted(t, share, t[i].body.shape, path, seen, m)
    ensures var d := ObjectDoc(m.props, m.required, t[i].body.unknownKeys);
      && Sub(seen, m.seen) && (!share ==> m.seen == seen)
      && d != EMPTY && ReprBody(t, d, i, m.seen) && Placed(t, d, path, seen, m.seen)
  {
    hide Repr, Spot, MemberHolds, Wf, StoredMembers;
    var d := ObjectDoc(m.props, m.required, t[i].body.unknownKeys);
    assert Bare(d) == d && d.properties == m.props;
    StoredDistinct(t[i].body.shape);
    forall s | s in m.seen && s !in seen
      ensures Spot(t, d, path, s, m.seen)
    {
      MemberSpot(t, d, m, path, s);
    }
  }

  /** What lies inside a member lies inside the object, at the member's key. */
  lemma MemberSpot(t: Table, d: Doc, m: MembersOut, path: Path, s: nat)
    requires Wf(t) && MemberHolds(t, m, path, s) && d.properties == m.props
    requires forall j, k | 0 <= j < k < |m.props| :: m.props[j].key != m.props[k].key
    ensures Spot(t, d, path, s, m.seen)
  {
    hide Spot, Wf, Astray;
    if Astray(t, path, s, m.seen) {
      AstraySpot(t, d, path, s, m.seen);
    } else {
      var k :| 0 <= k < |m.props| && Spot(t, m.props[k].doc, path + ["properties", m.props[k].key], s, m.seen);
      LiftMember(t, d, k, path, s, m.seen);
    }
  }

  lemma AstraySpot(t: Table, d: Doc, path: Path, s: nat, seen: Seen)
    requires Wf(t) && Astray(t, path, s, seen)
    ensures Spot(t, d, path, s, seen)
  {
  }

  lemma LiftMember(t: Table, d: Doc, k: nat, path: Path, s: nat, seen: Seen)
    requires Wf(t) && k < |d.properties| && Spot(t, d.properties[k].doc, path + ["properties", d.properties[k].key], s, seen)
    requires forall j | 0 <= j < k :: d.properties[j].key != d.properties[k].key
    ensures Spot(t, d, path, s, seen)
  {
    hide ReprBody, Wf, SafePath;
    var step := ["properties", d.properties[k].key];
    AtProperties(d, k, seen[s][|path + step|..]);
    SpotLift(t, d, d.properties[k].doc, path, step, s, seen);
  }
}
