/** What `$ref` does to a document (src/schema.ts): one without references is the document
    emitted without sharing, whatever its keys and dropped options; where dropping an option
    leaves the recorded paths of the others; and how a small document is made up. */
module SchemaReferences {
  import opened Common
  import opened SchemaNodes
  import opened JsonSchema
  import opened SchemaEmit
  import opened SchemaMeaning
  import opened SchemaEmitProof
  import opened SchemaTheorems

  // ---------------------------------------------------------------- what must be there

  predicate Speaks(d: Option<Doc>) {
    d.Some? && d.value != EMPTY
  }

  lemma SpeaksDescribed(d: Option<Doc>, text: Option<string>)
    requires Speaks(d)
    ensures Speaks(WithDescription(d, text))
  {
  }

  /** A schema that must be there always emits something, and not `{}`. */
  lemma {:induction false} NeededSpeaks(t: Table, share: bool, i: nat, path: Path, prop: Option<Path>, seen: Seen)
    requires Wf(t) && i < |t| && !AcceptsUndefined(t, i)
    ensures Speaks(Emit(t, share, i, path, prop, seen).doc)
    decreases i, 1
  {
    hide EmitBody, AcceptsUndefined, Wf;
    if !(share && i in seen) {
      var start := if share then seen[i := path] else seen;
      NeededBodySpeaks(t, share, i, path, prop, start);
      SpeaksDescribed(EmitBody(t, share, i, path, prop, start).doc, t[i].description);
    }
  }

  lemma {:induction false} NeededBodySpeaks(t: Table, share: bool, i: nat, path: Path, prop: Option<Path>, seen: Seen)
    requires Wf(t) && i < |t| && !AcceptsUndefined(t, i)
    ensures Speaks(EmitBody(t, share, i, path, prop, seen).doc)
    decreases i, 0
  {
    hide Emit, EmitMembers, EmitOptions, Collapsed;
    match t[i].body
    case UnionS(options) =>
      assert !AcceptsUndefined(t, options[0]);
      if Collapsed(t, options).Some? {
        CollapsedSpeaks(t, options);
      } else {
        NeededSpeaks(t, share, options[0], path + ["anyOf", Dec(0)], prop, seen);
        FirstKept(t, share, i, options, path, prop, seen);
      }
    case NullableS(inner) =>
      if PlainType(t[inner].body).None? { NeededSpeaks(t, share, inner, path + ["anyOf", "0"], prop, seen); }
    case RefinedS(inner, _, _) => NeededSpeaks(t, share, inner, path, prop, seen);
    case _ =>
  }

  lemma FirstKept(t: Table, share: bool, bound: nat, options: seq<nat>, path: Path, prop: Option<Path>, seen: Seen)
    requires Wf(t) && bound <= |t| && options != [] && forall k | 0 <= k < |options| :: options[k] < bound
    requires Speaks(Emit(t, share, options[0], path + ["anyOf", Dec(0)], prop, seen).doc)
    ensures Speaks(UnionDoc(EmitOptions(t, share, bound, options, 0, path, prop, seen).docs))
  {
    hide Emit;
    var docs := EmitOptions(t, share, bound, options, 0, path, prop, seen).docs;
    assert docs[0] == Emit(t, share, options[0], path + ["anyOf", Dec(0)], prop, seen).doc;
    assert Kept(docs) != [];
  }

  lemma CollapsedSpeaks(t: Table, options: seq<nat>)
    requires options != [] && (forall k | 0 <= k < |options| :: options[k] < |t|) && Collapsed(t, options).Some?
    ensures Speaks(Collapsed(t, options))
  {
  }

  // ---------------------------------------------------------------- documents without references

  ghost predicate RefFree(d: Doc)
    decreases d
  {
    && d.ref.None?
    && (d.items.Some? ==> RefFree(d.items.value))
    && (forall k | 0 <= k < |d.properties| :: RefFree(d.properties[k].doc))
    && (d.additional.Each? ==> RefFree(d.additional.doc))
    && (forall k | 0 <= k < |d.anyOf| :: RefFree(d.anyOf[k]))
    && (d.not_.Some? ==> RefFree(d.not_.value))
  }

  ghost predicate Free(d: Option<Doc>) {
    d.Some? ==> RefFree(d.value)
  }

  lemma FreeDescribed(d: Option<Doc>, text: Option<string>)
    ensures Free(WithDescription(d, text)) <==> Free(d)
  {
    if d.Some? && text.Some? {
      var e := d.value.(description := text);
      assert e.items == d.value.items && e.properties == d.value.properties && e.additional == d.value.additional;
    }
  }

  /** A document emitted without any reference is the one emitted without a `seen` map. */
  lemma {:induction false} EmitSame(t: Table, i: nat, path: Path, prop: Option<Path>, seen: Seen)
    requires Wf(t) && i < |t| && Free(Emit(t, true, i, path, prop, seen).doc)
    ensures Emit(t, false, i, path, prop, map[]) == Emitted(Emit(t, true, i, path, prop, seen).doc, map[])
    decreases i, 2, 0
  {
    hide EmitBody, RefFree;
    if i in seen {
      RefNotFree(seen[i]);
    } else {
      FreeDescribed(EmitBody(t, true, i, path, prop, seen[i := path]).doc, t[i].description);
      EmitBodySame(t, i, path, prop, seen[i := path]);
    }
  }

  lemma RefNotFree(at: Path)
    ensures !RefFree(RefDoc(at))
  {
  }

  lemma {:induction false} EmitBodySame(t: Table, i: nat, path: Path, prop: Option<Path>, seen: Seen)
    requires Wf(t) && i < |t| && Free(EmitBody(t, true, i, path, prop, seen).doc)
    ensures EmitBody(t, false, i, path, prop, map[]) == Emitted(EmitBody(t, true, i, path, prop, seen).doc, map[])
    decreases i, 1, 0
  {
    hide Emit, EmitMembers, EmitOptions, RefFree, Collapsed, AtProperty, Kept;
    match t[i].body
    case ArrayS(item, mn, mx) =>
      ArrayFree(Emit(t, true, item, path + ["items"], prop, seen).doc, mn, mx);
      EmitSame(t, item, path + ["items"], prop, seen);
    case RecordS(item) =>
      RecordFree(Emit(t, true, item, path + ["additionalProperties"], prop, seen).doc);
      EmitSame(t, item, path + ["additionalProperties"], prop, seen);
    case ObjectS(shape, mode) =>
      var m := EmitMembers(t, true, i, shape, path, seen);
      ObjectFree(m.props, m.required, mode);
      MembersSame(t, i, shape, path, seen);
    case UnionS(options) =>
      if Collapsed(t, options).None? {
        UnionFree(EmitOptions(t, true, i, options, 0, path, prop, seen).docs);
        OptionsSame(t, i, options, 0, path, prop, seen);
      }
    case OptionalS(inner) =>
      if AtProperty(path, prop) {
        EmitSame(t, inner, path, prop, seen);
      } else {
        OptionalFree(Emit(t, true, inner, path + ["anyOf", "1"], prop, seen).doc);
        EmitSame(t, inner, path + ["anyOf", "1"], prop, seen);
      }
    case NullableS(inner) =>
      if PlainType(t[inner].body).None? {
        NullableFree(Emit(t, true, inner, path + ["anyOf", "0"], prop, seen).doc);
        EmitSame(t, inner, path + ["anyOf", "0"], prop, seen);
      }
    case RefinedS(inner, _, _) => EmitSame(t, inner, path, prop, seen);
    case _ =>
  }

  lemma ArrayFree(item: Option<Doc>, mn: Option<nat>, mx: Option<nat>)
    requires RefFree(ArrayDoc(item, mn, mx))
    ensures Free(item)
  {
    assert ArrayDoc(item, mn, mx).items == item;
  }

  lemma RecordFree(item: Option<Doc>)
    requires RefFree(RecordDoc(item))
    ensures Free(item)
  {
    assert item.Some? ==> RecordDoc(item).additional == Each(item.value);
  }

  lemma ObjectFree(props: seq<Prop>, required: seq<string>, mode: UnknownKeys)
    requires RefFree(ObjectDoc(props, required, mode))
    ensures forall k | 0 <= k < |props| :: RefFree(props[k].doc)
  {
    assert ObjectDoc(props, required, mode).properties == props;
  }

  lemma OptionalFree(inner: Option<Doc>)
    requires RefFree(OptionalDoc(inner))
    ensures Free(inner)
  {
    if inner.Some? { assert OptionalDoc(inner).anyOf[1] == inner.value; }
  }

  lemma NullableFree(base: Option<Doc>)
    requires Free(NullableDoc(base))
    ensures Free(base)
  {
    if base.Some? { assert NullableDoc(base).value.anyOf[0] == base.value; }
  }

  lemma UnionFree(docs: seq<Option<Doc>>)
    requires Free(UnionDoc(docs))
    ensures forall k | 0 <= k < |docs| :: Free(docs[k])
  {
    if Kept(docs) != [] {
      assert UnionDoc(docs).value.anyOf == Kept(docs);
    }
    KeptFree(docs);
  }

  lemma {:induction false} KeptFree(docs: seq<Option<Doc>>)
    requires forall k | 0 <= k < |Kept(docs)| :: RefFree(Kept(docs)[k])
    ensures forall k | 0 <= k < |docs| :: Free(docs[k])
  {
    if docs != [] {
      var rest := Kept(docs[1..]);
      assert Kept(docs) == rest || (docs[0].Some? && Kept(docs) == [docs[0].value] + rest);
      if Kept(docs) != rest { assert Kept(docs)[0] == docs[0].value && forall k | 0 <= k < |rest| :: rest[k] == Kept(docs)[k + 1]; }
      KeptFree(docs[1..]);
      EmptyFree();
      assert Free(docs[0]);
      assert forall k | 0 < k < |docs| :: docs[k] == docs[1..][k - 1];
    }
  }

  lemma EmptyFree()
    ensures RefFree(EMPTY)
  {
  }

  lemma {:induction false} MembersSame(t: Table, bound: nat, shape: seq<(string, nat)>, path: Path, seen: Seen)
    requires Wf(t) && bound <= |t| && Below(shape, bound)
    requires forall k | 0 <= k < |EmitMembers(t, true, bound, shape, path, seen).props| :: RefFree(EmitMembers(t, true, bound, shape, path, seen).props[k].doc)
    ensures var m := EmitMembers(t, true, bound, shape, path, seen);
      EmitMembers(t, false, bound, shape, path, map[]) == MembersOut(m.props, m.required, map[])
    decreases bound, 0, |shape|
  {
    hide Emit, RefFree, AcceptsUndefined, Wf, Stored;
    if shape != [] {
      var memberPath := path + ["properties", shape[0].0];
      var e := Emit(t, true, shape[0].1, memberPath, Some(memberPath), seen);
      var m, rest := EmitMembers(t, true, bound, shape, path, seen), EmitMembers(t, true, bound, shape[1..], path, e.seen);
      if shape[0].0 == "__proto__" {
        MembersWithout(t, true, bound, shape, path, seen);
        MembersWithout(t, false, bound, shape, path, map[]);
        UnsharedSeen(t, shape[0].1, memberPath, Some(memberPath));
      } else {
        if e.doc.Some? {
          StoredPlain(shape[0].0, e.doc.value);
          assert m.props[0].doc == e.doc.value && forall k | 0 <= k < |rest.props| :: rest.props[k] == m.props[k + 1];
        }
        EmitSame(t, shape[0].1, memberPath, Some(memberPath), seen);
      }
      MembersSame(t, bound, shape[1..], path, e.seen);
    }
  }

  /** Of a member called `__proto__` only the requirement is left. */
  lemma MembersWithout(t: Table, share: bool, bound: nat, shape: seq<(string, nat)>, path: Path, seen: Seen)
    requires Wf(t) && bound <= |t| && Below(shape, bound) && shape != [] && shape[0].0 == "__proto__"
    ensures var memberPath := path + ["properties", "__proto__"];
      var rest := EmitMembers(t, share, bound, shape[1..], path, Emit(t, share, shape[0].1, memberPath, Some(memberPath), seen).seen);
      EmitMembers(t, share, bound, shape, path, seen) ==
        MembersOut(rest.props, (if AcceptsUndefined(t, shape[0].1) then [] else ["__proto__"]) + rest.required, rest.seen)
  {
    hide Emit, AcceptsUndefined, Wf, Stored;
    var memberPath := path + ["properties", "__proto__"];
    var e := Emit(t, share, shape[0].1, memberPath, Some(memberPath), seen);
    var rest := EmitMembers(t, share, bound, shape[1..], path, e.seen);
    assert [] + rest.required == rest.required && [] + rest.props == rest.props;
    if e.doc.Some? { StoredNot(e.doc.value); }
    if !AcceptsUndefined(t, shape[0].1) { NeededSpeaks(t, share, shape[0].1, memberPath, Some(memberPath), seen); }
  }

  lemma {:induction false} UnsharedSeen(t: Table, i: nat, path: Path, prop: Option<Path>)
    requires Wf(t) && i < |t|
    ensures Emit(t, false, i, path, prop, map[]).seen == map[]
    decreases i, 1
  {
    hide EmitMembers, EmitOptions, Collapsed, AtProperty;
    match t[i].body
    case ArrayS(item, _, _) => UnsharedSeen(t, item, path + ["items"], prop);
    case RecordS(item) => UnsharedSeen(t, item, path + ["additionalProperties"], prop);
    case ObjectS(shape, _) => UnsharedMembers(t, i, shape, path);
    case UnionS(options) => UnsharedOptions(t, i, options, 0, path, prop);
    case OptionalS(inner) =>
      UnsharedSeen(t, inner, path, prop);
      UnsharedSeen(t, inner, path + ["anyOf", "1"], prop);
    case NullableS(inner) => UnsharedSeen(t, inner, path + ["anyOf", "0"], prop);
    case RefinedS(inner, _, _) => UnsharedSeen(t, inner, path, prop);
    case _ =>
  }

  lemma {:induction false} UnsharedMembers(t: Table, bound: nat, shape: seq<(string, nat)>, path: Path)
    requires Wf(t) && bound <= |t| && Below(shape, bound)
    ensures EmitMembers(t, false, bound, shape, path, map[]).seen == map[]
    decreases bound, 0, |shape|
  {
    hide Emit, AcceptsUndefined, Stored;
    if shape != [] {
      var memberPath := path + ["properties", shape[0].0];
      UnsharedSeen(t, shape[0].1, memberPath, Some(memberPath));
      UnsharedMembers(t, bound, shape[1..], path);
    }
  }

  lemma {:induction false} UnsharedOptions(t: Table, bound: nat, options: seq<nat>, index: nat, path: Path, prop: Option<Path>)
    requires Wf(t) && bound <= |t| && forall k | 0 <= k < |options| :: options[k] < bound
    ensures EmitOptions(t, false, bound, options, index, path, prop, map[]).seen == map[]
    decreases bound, 0, |options|
  {
    hide Emit;
    if options != [] {
      UnsharedSeen(t, options[0], path + ["anyOf", Dec(index)], prop);
      UnsharedOptions(t, bound, options[1..], index + 1, path, prop);
    }
  }

  lemma {:induction false} OptionsSame(t: Table, bound: nat, options: seq<nat>, index: nat, path: Path, prop: Option<Path>, seen: Seen)
    requires Wf(t) && bound <= |t| && forall k | 0 <= k < |options| :: options[k] < bound
    requires forall k | 0 <= k < |EmitOptions(t, true, bound, options, index, path, prop, seen).docs| ::
      Free(EmitOptions(t, true, bound, options, index, path, prop, seen).docs[k])
    ensures EmitOptions(t, false, bound, options, index, path, prop, map[]) ==
      OptionsOut(EmitOptions(t, true, bound, options, index, path, prop, seen).docs, map[])
    decreases bound, 0, |options|
  {
    hide Emit, RefFree, Free, Wf;
    if options != [] {
      var step := path + ["anyOf", Dec(index)];
      var e := Emit(t, true, options[0], step, prop, seen);
      var m, rest := EmitOptions(t, true, bound, options, index, path, prop, seen), EmitOptions(t, true, bound, options[1..], index + 1, path, prop, e.seen);
      assert m.docs[0] == e.doc && forall k | 0 <= k < |rest.docs| :: rest.docs[k] == m.docs[k + 1];
      EmitSame(t, options[0], step, prop, seen);
      OptionsSame(t, bound, options[1..], index + 1, path, prop, e.seen);
    }
  }

  /** A published document without references validates exactly what the schema's reader admits:
      of each union, what the options that are not dropped admit. Keys are of no concern. */
  lemma RefFreeMeaning(t: Table, o: Oracle, i: nat, v: Value)
    requires Wf(t) && KeepsOne(t) && i < |t| && RefFree(ToJsonSchema(t, i)) && JsonData(v)
    ensures ToJsonSchema(t, i) == ToUnsharedJsonSchema(t, i)
    ensures Validates(o, ToJsonSchema(t, i), v) <==> Accepts(t, o, i, v)
  {
    hide KeepsOne, RefFree, Emit, Accepts, Validates;
    EmitSame(t, i, ["#"], None, map[]);
    UnsharedMeaning(t, o, i, v);
  }

  // ---------------------------------------------------------------- small documents

  lemma ObjectRoot(t: Table, i: nat)
    requires Wf(t) && i < |t| && t[i].body.ObjectS?
    ensures var m := EmitMembers(t, true, i, t[i].body.shape, ["#"], map[][i := ["#"]]);
      ToJsonSchema(t, i) == ObjectDoc(m.props, m.required, t[i].body.unknownKeys).(description := t[i].description)
  {
    hide EmitMembers;
    var m := EmitMembers(t, true, i, t[i].body.shape, ["#"], map[][i := ["#"]]);
    assert EmitBody(t, true, i, ["#"], None, map[][i := ["#"]]).doc == Some(ObjectDoc(m.props, m.required, t[i].body.unknownKeys));
    assert Emit(t, true, i, ["#"], None, map[]).doc.Some?;
  }

  lemma LeafEmitted(t: Table, i: nat, path: Path, prop: Option<Path>, seen: Seen)
    requires Wf(t) && i < |t| && IsLeaf(t[i].body) && t[i].description.None? && i !in seen
    ensures Emit(t, true, i, path, prop, seen) == Emitted(LeafDoc(t[i].body), seen[i := path])
  {
    hide LeafDoc, Wf;
  }

  function Needed(t: Table, key: string, member: nat): seq<string>
    requires Wf(t) && member < |t|
  {
    if AcceptsUndefined(t, member) then [] else [key]
  }

  /** The document of an object of two members, the second of them emitted before. */
  lemma TwoMembers(t: Table, i: nat, a: string, m: nat, b: string, n: nat, first: Emitted)
    requires Wf(t) && m < i < |t| && n < i && t[i].body.ObjectS? && t[i].body.shape == [(a, m), (b, n)] && t[i].description.None?
    requires var p := ["#", "properties", a]; first == Emit(t, true, m, p, Some(p), map[i := ["#"]]) && first.doc.Some? && n in first.seen
    ensures ToJsonSchema(t, i) ==
      ObjectDoc(Stored(a, first.doc.value) + Stored(b, RefDoc(first.seen[n])), Needed(t, a, m) + Needed(t, b, n), t[i].body.unknownKeys)
  {
    hide EmitMembers, AcceptsUndefined, Wf, RefDoc, Stored, ToJsonSchema, Emit;
    ObjectRoot(t, i);
    var start: Seen := map[i := ["#"]];
    assert map[][i := ["#"]] == start;
    assert ["#"] + ["properties", a] == ["#", "properties", a];
    assert [(a, m), (b, n)][1..] == [(b, n)];
    TwoSteps(t, i, a, m, b, n, start);
  }

  lemma TwoSteps(t: Table, bound: nat, a: string, m: nat, b: string, n: nat, seen: Seen)
    requires Wf(t) && m < bound <= |t| && n < bound
    requires var p := ["#"] + ["properties", a]; var first := Emit(t, true, m, p, Some(p), seen); first.doc.Some? && n in first.seen
    ensures var p := ["#"] + ["properties", a];
      var first := Emit(t, true, m, p, Some(p), seen);
      EmitMembers(t, true, bound, [(a, m), (b, n)], ["#"], seen) ==
        MembersOut(Stored(a, first.doc.value) + Stored(b, RefDoc(first.seen[n])), Needed(t, a, m) + Needed(t, b, n), first.seen)
  {
    hide AcceptsUndefined, Wf, RefDoc, Stored, EmitBody;
    var p, q := ["#"] + ["properties", a], ["#"] + ["properties", b];
    var first := Emit(t, true, m, p, Some(p), seen);
    assert [(a, m), (b, n)][1..] == [(b, n)] && [(b, n)][1..] == [];
    assert Emit(t, true, n, q, Some(q), first.seen) == Emitted(Some(RefDoc(first.seen[n])), first.seen);
    hide Emit;
    OneStep(t, bound, b, n, first.seen);
  }

  lemma OneStep(t: Table, bound: nat, b: string, n: nat, seen: Seen)
    requires Wf(t) && n < bound <= |t| && n in seen
    ensures EmitMembers(t, true, bound, [(b, n)], ["#"], seen) == MembersOut(Stored(b, RefDoc(seen[n])), Needed(t, b, n), seen)
  {
    hide AcceptsUndefined, Wf, RefDoc, Stored, EmitBody;
    assert [(b, n)][1..] == [];
    var none: seq<Prop> := [];
    assert Stored(b, RefDoc(seen[n])) + none == Stored(b, RefDoc(seen[n]));
    assert Needed(t, b, n) + [] == Needed(t, b, n);
  }

  // ---------------------------------------------------------------- dropped options and paths

  predicate IsKept(d: Option<Doc>) {
    d.Some? && d.value != EMPTY
  }

  /** A kept option stands where the number of kept options before it says. */
  lemma {:induction false} OptionStands(docs: seq<Option<Doc>>, k: nat)
    requires k < |docs| && IsKept(docs[k])
    ensures var r := |Kept(docs[..k])|; r <= k && r < |Kept(docs)| && Kept(docs)[r] == docs[k].value
    ensures |Kept(docs[..k])| == k <==> forall j | 0 <= j < k :: IsKept(docs[j])
  {
    if k > 0 {
      OptionStands(docs[1..], k - 1);
      assert docs[1..][..k - 1] == docs[..k][1..] && docs[..k][0] == docs[0];
      assert forall j | 0 < j < k :: docs[j] == docs[1..][j - 1];
      assert forall j | 0 <= j < k - 1 :: docs[1..][j] == docs[j + 1];
      KeptShorter(docs[1..][..k - 1]);
    }
  }

  lemma {:induction false} KeptShorter(docs: seq<Option<Doc>>)
    ensures |Kept(docs)| <= |docs|
  {
    if docs != [] { KeptShorter(docs[1..]); }
  }

  /** Inside a union, the path recorded for option `k` names its index among all options, while
      the option stands at its index among the kept ones. What the path leads to is whatever
      option the dropping has moved to index `k`, or nothing; it is the option itself when no
      option before it was dropped. */
  lemma ShiftedPath(docs: seq<Option<Doc>>, k: nat, rest: Path)
    requires k < |docs| && IsKept(docs[k])
    ensures UnionDoc(docs).Some?
    ensures At(UnionDoc(docs).value, ["anyOf", Dec(|Kept(docs[..k])|)] + rest) == At(docs[k].value, rest)
    ensures At(UnionDoc(docs).value, ["anyOf", Dec(k)] + rest) == if k < |Kept(docs)| then At(Kept(docs)[k], rest) else None
    ensures (forall j | 0 <= j < k :: IsKept(docs[j])) ==> At(UnionDoc(docs).value, ["anyOf", Dec(k)] + rest) == At(docs[k].value, rest)
  {
    hide Kept, At, IsKept;
    OptionStands(docs, k);
    var d := UnionDoc(docs).value;
    assert d.anyOf == Kept(docs);
    AtAnyOf(d, |Kept(docs[..k])|, rest);
    if k < |Kept(docs)| { AtAnyOf(d, k, rest); } else { AtBeyond(d, k, rest); }
  }

  lemma AtBeyond(d: Doc, k: nat, rest: Path)
    requires k >= |d.anyOf|
    ensures At(d, ["anyOf", Dec(k)] + rest).None?
  {
    hide ParseDec, Dec;
    ParseDecInverts(k);
    assert (["anyOf", Dec(k)] + rest)[0] == "anyOf" && (["anyOf", Dec(k)] + rest)[1] == Dec(k);
  }
}
