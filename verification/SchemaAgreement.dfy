/** `safeParse` against the published document (src/schema.ts): soundness for every schema,
    exactness for refine-free ones, and where each fails. */
module SchemaAgreement {
  import opened Common
  import opened SchemaNodes
  import opened SchemaParse
  import opened JsonSchema
  import opened SchemaEmit
  import opened SchemaMeaning
  import opened SchemaValid
  import opened SchemaTheorems

  // ---------------------------------------------------------------- conditions

  /** No refinement ever refuses a value. */
  ghost predicate RefineFree(t: Table) {
    forall i | 0 <= i < |t| :: t[i].body.RefinedS? ==> forall w :: t[i].body.check(w)
  }

  /** No object in strip mode. */
  predicate StripFree(t: Table) {
    forall i | 0 <= i < |t| :: t[i].body.ObjectS? ==> t[i].body.unknownKeys != Strip
  }

  /** No option, no member and no flag is lost. */
  predicate Printable(t: Table)
    requires Wf(t)
  {
    Whole(t) && PatternsPrinted(t)
  }

  // ---------------------------------------------------------------- soundness

  /** What a successful parse returns: nothing for `undefined`, and only where `undefined` may
      stand; for a JSON value, a JSON value the document's reader admits. */
  ghost predicate Faithful(t: Table, o: Oracle, i: nat, v: Value, w: Value)
    requires Wf(t) && i < |t|
  {
    && (v == Undefined ==> w == Undefined && AcceptsUndefined(t, i))
    && (JsonData(v) ==> JsonData(w) && Accepts(t, o, i, w))
  }

  lemma {:induction false} ParseFaithful(t: Table, o: Oracle, i: nat, v: Value, path: seq<Step>)
    requires Wf(t) && Printable(t) && i < |t| && (v == Undefined || JsonData(v)) && ParseAt(t, o, i, v, path).value.Some?
    ensures Faithful(t, o, i, v, ParseAt(t, o, i, v, path).value.value)
    decreases i, 1
  {
    hide Faithful, JsonData, Printable, Vacuous, Collapsed, LeafPasses;
    match t[i].body
    case ArrayS(_, _, _) => ArrayFaithful(t, o, i, v, path);
    case RecordS(_) => RecordFaithful(t, o, i, v, path);
    case ObjectS(_, _) => ObjectFaithful(t, o, i, v, path);
    case UnionS(options) =>
      var k := UnionParsed(t, o, i, v, path);
      ParseFaithful(t, o, options[k], v, path);
      UnionFaithful(t, o, i, v, ParseAt(t, o, i, v, path).value.value, k);
    case OptionalS(inner) =>
      if v != Undefined { ParseFaithful(t, o, inner, v, path); }
      WrapperFaithful(t, o, i, v, path);
    case NullableS(inner) =>
      if !v.Null? { ParseFaithful(t, o, inner, v, path); }
      WrapperFaithful(t, o, i, v, path);
    case RefinedS(inner, _, _) =>
      ParseFaithful(t, o, inner, v, path);
      WrapperFaithful(t, o, i, v, path);
    case _ =>
      PrintableHas(t);
      LeafFaithful(t, o, i, v, path);
  }

  lemma PrintableHas(t: Table)
    requires Wf(t) && Printable(t)
    ensures PatternsPrinted(t)
  {
  }

  /** Which option of a union a successful parse took. */
  lemma UnionParsed(t: Table, o: Oracle, i: nat, v: Value, path: seq<Step>) returns (k: nat)
    requires Wf(t) && Printable(t) && i < |t| && t[i].body.UnionS? && ParseAt(t, o, i, v, path).value.Some?
    ensures k < |t[i].body.options| && !Vacuous(t, t[i].body.options[k])
    ensures ParseAt(t, o, t[i].body.options[k], v, path).value == ParseAt(t, o, i, v, path).value
  {
    hide Placeable, Storable, PatternsPrinted, Vacuous;
    k := FirstSome(Attempts(t, o, i, t[i].body.options, v, path));
    NothingDropped(t, i, k);
  }

  lemma UnionFaithful(t: Table, o: Oracle, i: nat, v: Value, w: Value, k: nat)
    requires Wf(t) && i < |t| && t[i].body.UnionS? && k < |t[i].body.options|
    requires !Vacuous(t, t[i].body.options[k]) && Faithful(t, o, t[i].body.options[k], v, w)
    ensures Faithful(t, o, i, v, w)
  {
    hide JsonData, Vacuous;
  }

  lemma WrapperFaithful(t: Table, o: Oracle, i: nat, v: Value, path: seq<Step>)
    requires Wf(t) && i < |t| && (t[i].body.OptionalS? || t[i].body.NullableS? || t[i].body.RefinedS?) && ParseAt(t, o, i, v, path).value.Some?
    requires (v == Undefined && t[i].body.OptionalS?) || (v == Null && t[i].body.NullableS?)
      || Faithful(t, o, t[i].body.inner, v, ParseAt(t, o, t[i].body.inner, v, path).value.value)
    ensures Faithful(t, o, i, v, ParseAt(t, o, i, v, path).value.value)
  {
  }

  lemma LeafFaithful(t: Table, o: Oracle, i: nat, v: Value, path: seq<Step>)
    requires Wf(t) && PatternsPrinted(t) && i < |t| && IsLeaf(t[i].body) && (v == Undefined || JsonData(v)) && ParseAt(t, o, i, v, path).value.Some?
    ensures Faithful(t, o, i, v, ParseAt(t, o, i, v, path).value.value)
  {
    hide Accepts, StringOk, NumberOk, TextOf, NumberOf, TextOk, RangeOk, HasType, LeafDoc, TextPrinted;
    LeafChildless(t[i].body);
    match t[i].body
    case StringS(checks) => TextForward(o, checks, v.s); LeafAccepts(t, o, i, v);
    case NumberS(checks) => NumberForward(checks, v.n); LeafAccepts(t, o, i, v);
    case UnknownS => UnknownAccepts(t, o, i, v);
    case _ => LeafAccepts(t, o, i, v);
  }

  lemma UnknownAccepts(t: Table, o: Oracle, i: nat, v: Value)
    requires Wf(t) && i < |t| && t[i].body.UnknownS?
    ensures Accepts(t, o, i, v) && AcceptsUndefined(t, i)
  {
  }

  lemma NothingDropped(t: Table, i: nat, k: nat)
    requires Wf(t) && Placeable(t) && i < |t| && t[i].body.UnionS? && k < |t[i].body.options|
    ensures !Vacuous(t, t[i].body.options[k])
  {
    hide KeepsOne, Vacuous, Collapsed;
    if Collapsed(t, t[i].body.options).Some? { CollapsedKeepsAll(t, t[i].body.options); }
  }

  predicate LeafPasses(o: Oracle, b: Body, v: Value) {
    match b
    case StringS(checks) => v.Str? && TextOk(o, TextOf(checks), v.s)
    case NumberS(checks) => v.Num? && HasType(v, NumberOf(checks).ty) && RangeOk(NumberOf(checks).range, v.n)
    case BooleanS => v.Bool?
    case NullS => v.Null?
    case LiteralS(x) => v == ScalarValue(x)
    case EnumS(values) => v.Str? && v.s in values
    case _ => true
  }

  /** The scalar schemas: passing the checks is satisfying the keywords, when the checks are kept. */
  lemma LeafAccepts(t: Table, o: Oracle, i: nat, v: Value)
    requires Wf(t) && i < |t| && LeafDoc(t[i].body).Some?
    requires LeafPasses(o, t[i].body, v)
    ensures Accepts(t, o, i, v)
  {
    var d := LeafDoc(t[i].body).value;
    if d.types != [] { assert HasType(v, d.types[0]); }
    if t[i].body.EnumS? {
      var k :| 0 <= k < |t[i].body.values| && t[i].body.values[k] == v.s;
      assert v == ScalarValue(d.values.value[k]);
    }
  }

  lemma {:induction false} FirstSome(ps: seq<Parsed>) returns (k: nat)
    requires First(ps).Some?
    ensures k < |ps| && ps[k].value == First(ps)
  {
    if ps[0].value.Some? {
      k := 0;
    } else {
      k := FirstSome(ps[1..]);
      k := k + 1;
    }
  }

  lemma {:induction false} ArrayFaithful(t: Table, o: Oracle, i: nat, v: Value, path: seq<Step>)
    requires Wf(t) && Printable(t) && i < |t| && t[i].body.ArrayS? && (v == Undefined || JsonData(v)) && ParseAt(t, o, i, v, path).value.Some?
    ensures Faithful(t, o, i, v, ParseAt(t, o, i, v, path).value.value)
    decreases i, 0
  {
    hide Accepts, Printable, AcceptsUndefined;
    var item := t[i].body.item;
    var ps := ItemPieces(t, o, item, v.items, path);
    GatherIssues(ps);
    forall k | 0 <= k < |ps|
      ensures |ps[k].out| == 1 && JsonData(ps[k].out[0]) && Accepts(t, o, item, ps[k].out[0])
    {
      ParseFaithful(t, o, item, v.items[k], path + [Index(k)]);
    }
    ItemsFaithful(t, o, i, ps);
  }

  lemma ItemsFaithful(t: Table, o: Oracle, i: nat, ps: seq<Piece<Value>>)
    requires Wf(t) && i < |t| && t[i].body.ArrayS? && SizeOk(Size(t[i].body.minItems, t[i].body.maxItems), |ps|)
    requires forall k | 0 <= k < |ps| :: |ps[k].out| == 1 && JsonData(ps[k].out[0]) && Accepts(t, o, t[i].body.item, ps[k].out[0])
    ensures JsonData(Arr(Gather(ps).out)) && Accepts(t, o, i, Arr(Gather(ps).out))
  {
    hide Accepts, Gather;
    GatherSingles(ps);
    AcceptsArray(t, o, i, Arr(Gather(ps).out));
  }

  lemma {:induction false} RecordFaithful(t: Table, o: Oracle, i: nat, v: Value, path: seq<Step>)
    requires Wf(t) && Printable(t) && i < |t| && t[i].body.RecordS? && (v == Undefined || JsonData(v)) && ParseAt(t, o, i, v, path).value.Some?
    ensures Faithful(t, o, i, v, ParseAt(t, o, i, v, path).value.value)
    decreases i, 0
  {
    hide Accepts, Printable;
    var item := t[i].body.valueSchema;
    var ps := EntryPieces(t, o, item, v.entries, path);
    GatherIssues(ps);
    forall k | 0 <= k < |ps|
      ensures FaithfulEntry(t, o, item, v.entries[k].0, ps[k])
    {
      assert ps[k].issues == [];
      ParseFaithful(t, o, item, v.entries[k].1, path + [Key(v.entries[k].0)]);
    }
    EntriesFaithful(t, o, item, v.entries, ps);
    AcceptsRecord(t, o, i, Obj(Gather(ps).out));
  }

  ghost predicate FaithfulEntry(t: Table, o: Oracle, item: nat, key: string, p: Piece<(string, Value)>)
    requires Wf(t) && item < |t|
  {
    |p.out| == 1 && p.out[0].0 == key && JsonData(p.out[0].1) && Accepts(t, o, item, p.out[0].1)
  }

  lemma EntriesFaithful(t: Table, o: Oracle, item: nat, es: Entries, ps: seq<Piece<(string, Value)>>)
    requires Wf(t) && item < |t| && |ps| == |es| && DistinctKeys(es)
    requires forall k | 0 <= k < |ps| :: FaithfulEntry(t, o, item, es[k].0, ps[k])
    ensures var out := Gather(ps).out;
      |out| == |es| && JsonData(Obj(out)) && forall k | 0 <= k < |out| :: Accepts(t, o, item, out[k].1)
  {
    GatherSingles(ps);
    hide Accepts;
  }

  /** A member's piece: kept with a faithful value, or left out where it may be missing. */
  ghost predicate FaithfulPiece(t: Table, o: Oracle, member: nat, key: string, p: Piece<(string, Value)>)
    requires Wf(t) && member < |t|
  {
    if p.out == [] then AcceptsUndefined(t, member)
    else |p.out| == 1 && p.out[0].0 == key && JsonData(p.out[0].1) && Accepts(t, o, member, p.out[0].1)
  }

  lemma {:induction false} MemberFaithful(t: Table, o: Oracle, i: nat, es: Entries, path: seq<Step>, k: nat)
    requires Wf(t) && Printable(t) && i < |t| && t[i].body.ObjectS? && JsonData(Obj(es)) && k < |t[i].body.shape|
    requires MemberPieces(t, o, i, t[i].body.shape, es, path)[k].issues == []
    ensures FaithfulPiece(t, o, t[i].body.shape[k].1, t[i].body.shape[k].0, MemberPieces(t, o, i, t[i].body.shape, es, path)[k])
    decreases i, 0, 0
  {
    var (key, member) := t[i].body.shape[k];
    if Has(es, key) {
      assert JsonData(Get(es, key));
    }
    ParseFaithful(t, o, member, Get(es, key), path + [Key(key)]);
  }

  lemma {:induction false} ObjectFaithful(t: Table, o: Oracle, i: nat, v: Value, path: seq<Step>)
    requires Wf(t) && Printable(t) && i < |t| && t[i].body.ObjectS? && (v == Undefined || JsonData(v)) && ParseAt(t, o, i, v, path).value.Some?
    ensures Faithful(t, o, i, v, ParseAt(t, o, i, v, path).value.value)
    decreases i, 0, 1
  {
    hide Accepts, Placeable, Storable, PatternsPrinted, FaithfulPiece, Has, Get;
    var shape, mode := t[i].body.shape, t[i].body.unknownKeys;
    var ps := MemberPieces(t, o, i, shape, v.entries, path);
    GatherIssues(ps);
    forall k | 0 <= k < |ps|
      ensures FaithfulPiece(t, o, shape[k].1, shape[k].0, ps[k])
    {
      MemberFaithful(t, o, i, v.entries, path, k);
    }
    var extra := if mode == Loose then UndeclaredEntries(shape, v.entries) else [];
    UndeclaredDistinct(shape, v.entries);
    ObjectAssembled(t, o, i, ps, extra);
  }

  /** Faithful pieces and undeclared JSON members make a JSON object the schema accepts. */
  lemma ObjectAssembled(t: Table, o: Oracle, i: nat, ps: seq<Piece<(string, Value)>>, extra: Entries)
    requires Wf(t) && Storable(t) && i < |t| && t[i].body.ObjectS? && |ps| == |t[i].body.shape|
    requires forall k | 0 <= k < |ps| :: FaithfulPiece(t, o, t[i].body.shape[k].1, t[i].body.shape[k].0, ps[k])
    requires DistinctKeys(extra) && forall j | 0 <= j < |extra| :: Undeclared(t[i].body.shape, extra[j].0) && JsonData(extra[j].1)
    requires t[i].body.unknownKeys != Loose ==> extra == []
    ensures JsonData(Obj(Gather(ps).out + extra)) && Accepts(t, o, i, Obj(Gather(ps).out + extra))
  {
    var shape := t[i].body.shape;
    var out := Gather(ps).out;
    GatherKeyed(shape, ps);
    hide Gather, Reflects, FaithfulPiece, Accepts, AcceptsUndefined, Undeclared, Declared;
    forall k | 0 <= k < |shape|
      ensures if Has(out + extra, shape[k].0) then Accepts(t, o, shape[k].1, Get(out + extra, shape[k].0))
              else AcceptsUndefined(t, shape[k].1)
    {
      MemberAssembled(t, o, shape, k, ps[k], out, extra);
    }
    forall j | 0 <= j < |out|
      ensures JsonData(out[j].1)
    {
      OutJson(t, o, shape, ps, out, j);
    }
    JsonObject(shape, out, extra);
    DeclaredStored(t, i, out);
    AcceptsAssembled(t, o, i, out, extra);
  }

  lemma MemberAssembled(t: Table, o: Oracle, shape: seq<(string, nat)>, k: nat, p: Piece<(string, Value)>, out: Entries, extra: Entries)
    requires Wf(t) && Below(shape, |t|) && k < |shape| && FaithfulPiece(t, o, shape[k].1, shape[k].0, p) && Reflects(out, shape[k].0, p)
    requires forall j | 0 <= j < |extra| :: Undeclared(shape, extra[j].0)
    ensures if Has(out + extra, shape[k].0) then Accepts(t, o, shape[k].1, Get(out + extra, shape[k].0))
            else AcceptsUndefined(t, shape[k].1)
  {
    hide Accepts, AcceptsUndefined, Get;
    GetConcat(out, extra, shape[k].0);
  }

  lemma OutJson(t: Table, o: Oracle, shape: seq<(string, nat)>, ps: seq<Piece<(string, Value)>>, out: Entries, j: nat)
    requires Wf(t) && Below(shape, |t|) && |ps| == |shape| && DistinctKeys(out) && j < |out| && Declared(shape, out[j].0)
    requires forall k | 0 <= k < |ps| :: FaithfulPiece(t, o, shape[k].1, shape[k].0, ps[k]) && Reflects(out, shape[k].0, ps[k])
    ensures JsonData(out[j].1)
  {
    hide Accepts, AcceptsUndefined;
    var k :| 0 <= k < |shape| && shape[k].0 == out[j].0;
    assert Reflects(out, shape[k].0, ps[k]);
    GetAt(out, j);
  }

  lemma JsonObject(shape: seq<(string, nat)>, out: Entries, extra: Entries)
    requires DistinctKeys(out) && forall j | 0 <= j < |out| :: Declared(shape, out[j].0) && JsonData(out[j].1)
    requires DistinctKeys(extra) && forall j | 0 <= j < |extra| :: Undeclared(shape, extra[j].0) && JsonData(extra[j].1)
    ensures JsonData(Obj(out + extra))
  {
  }

  lemma DeclaredStored(t: Table, i: nat, out: Entries)
    requires Storable(t) && i < |t| && t[i].body.ObjectS?
    requires forall j | 0 <= j < |out| :: Declared(t[i].body.shape, out[j].0)
    ensures forall j | 0 <= j < |out| :: out[j].0 != "__proto__"
  {
  }

  lemma AcceptsAssembled(t: Table, o: Oracle, i: nat, out: Entries, extra: Entries)
    requires Wf(t) && i < |t| && t[i].body.ObjectS? && (t[i].body.unknownKeys != Loose ==> extra == [])
    requires forall k | 0 <= k < |t[i].body.shape| :: var (key, member) := t[i].body.shape[k];
      if Has(out + extra, key) then Accepts(t, o, member, Get(out + extra, key)) else AcceptsUndefined(t, member)
    requires forall j | 0 <= j < |out| :: Declared(t[i].body.shape, out[j].0) && out[j].0 != "__proto__"
    ensures Accepts(t, o, i, Obj(out + extra))
  {
    hide Has, Get, AcceptsUndefined, Declared;
    if t[i].body.unknownKeys != Loose { assert out + extra == out; }
  }

  /** Soundness: whatever `safeParse` returns for a JSON value satisfies the published document,
      as long as the printed patterns are checks, which those with flags are not. */
  lemma Soundness(t: Table, o: Oracle, i: nat, v: Value)
    requires Wf(t) && Emittable(t) && PatternsPrinted(t) && i < |t| && JsonData(v) && SafeParse(t, o, i, v).value.Some?
    ensures JsonData(SafeParse(t, o, i, v).value.value)
    ensures Validates(o, ToJsonSchema(t, i), SafeParse(t, o, i, v).value.value)
  {
    hide PatternsPrinted, Placeable, PlainKeys, Storable, Direct;
    ParseFaithful(t, o, i, v, []);
    DocumentMeaning(t, o, i, SafeParse(t, o, i, v).value.value);
  }

  // ---------------------------------------------------------------- completeness

  lemma {:induction false} ParseComplete(t: Table, o: Oracle, i: nat, v: Value, path: seq<Step>)
    requires Wf(t) && i < |t| && RefineFree(t) && ChecksKept(t) && Storable(t)
    requires (v == Undefined && AcceptsUndefined(t, i)) || (JsonData(v) && Accepts(t, o, i, v))
    ensures ParseAt(t, o, i, v, path).value.Some?
    decreases i, 1
  {
    hide JsonData, RefineFree, ChecksKept, Storable, Vacuous, LeafDoc, ScalarOk;
    match t[i].body
    case ArrayS(_, _, _) => ArrayComplete(t, o, i, v, path);
    case RecordS(_) => RecordComplete(t, o, i, v, path);
    case ObjectS(_, _) => ObjectComplete(t, o, i, v, path);
    case UnionS(options) =>
      var k :| 0 <= k < |options| && ((v == Undefined && AcceptsUndefined(t, options[k])) || (JsonData(v) && Accepts(t, o, options[k], v)));
      ParseComplete(t, o, options[k], v, path);
      FirstExists(Attempts(t, o, i, options, v, path), k);
    case OptionalS(inner) => if v != Undefined { ParseComplete(t, o, inner, v, path); }
    case NullableS(inner) => if !v.Null? { ParseComplete(t, o, inner, v, path); }
    case RefinedS(inner, check, _) =>
      ParseComplete(t, o, inner, v, path);
      NeverRefuses(t, i, ParseAt(t, o, inner, v, path).value.value);
    case _ => LeafComplete(t, o, i, v, path);
  }

  lemma NeverRefuses(t: Table, i: nat, w: Value)
    requires RefineFree(t) && i < |t| && t[i].body.RefinedS?
    ensures t[i].body.check(w)
  {
  }

  lemma LeafComplete(t: Table, o: Oracle, i: nat, v: Value, path: seq<Step>)
    requires Wf(t) && i < |t| && IsLeaf(t[i].body) && ChecksKept(t)
    requires (v == Undefined && AcceptsUndefined(t, i)) || Accepts(t, o, i, v)
    ensures ParseAt(t, o, i, v, path).value.Some?
  {
    hide Accepts, StringOk, NumberOk, TextOf, NumberOf, TextOk, RangeOk, HasType, TextKept, NumberKept, LeafDoc;
    LeafChildless(t[i].body);
    if !t[i].body.UnknownS? { LeafParses(t, o, i, v); }
    if t[i].body.StringS? { TextBackward(o, t[i].body.textChecks, v.s); }
    if t[i].body.NumberS? { NumberBackward(t[i].body.numberChecks, v.n); }
  }

  lemma {:induction false} ArrayComplete(t: Table, o: Oracle, i: nat, v: Value, path: seq<Step>)
    requires Wf(t) && i < |t| && RefineFree(t) && ChecksKept(t) && Storable(t) && t[i].body.ArrayS? && JsonData(v) && Accepts(t, o, i, v)
    ensures ParseAt(t, o, i, v, path).value.Some?
    decreases i, 0
  {
    hide Accepts, RefineFree, ChecksKept, Storable;
    AcceptsArray(t, o, i, v);
    var item := t[i].body.item;
    var ps := ItemPieces(t, o, item, v.items, path);
    forall k | 0 <= k < |ps|
      ensures ps[k].issues == []
    {
      ParseComplete(t, o, item, v.items[k], path + [Index(k)]);
    }
    GatherIssues(ps);
  }

  lemma {:induction false} RecordComplete(t: Table, o: Oracle, i: nat, v: Value, path: seq<Step>)
    requires Wf(t) && i < |t| && RefineFree(t) && ChecksKept(t) && Storable(t) && t[i].body.RecordS? && JsonData(v) && Accepts(t, o, i, v)
    ensures ParseAt(t, o, i, v, path).value.Some?
    decreases i, 0
  {
    hide Accepts, RefineFree, ChecksKept, Storable, DistinctKeys;
    AcceptsRecord(t, o, i, v);
    var item := t[i].body.valueSchema;
    var ps := EntryPieces(t, o, item, v.entries, path);
    forall k | 0 <= k < |ps|
      ensures ps[k].issues == []
    {
      ParseComplete(t, o, item, v.entries[k].1, path + [Key(v.entries[k].0)]);
    }
    GatherIssues(ps);
  }

  lemma LeafParses(t: Table, o: Oracle, i: nat, v: Value)
    requires Wf(t) && i < |t| && LeafDoc(t[i].body).Some? && Accepts(t, o, i, v)
    ensures LeafPasses(o, t[i].body, v)
  {
    var d := LeafDoc(t[i].body).value;
    assert ScalarOk(o, d, v);
    if t[i].body.NumberS? { NumberType(t[i].body.numberChecks); }
    if d.types != [] {
      assert |d.types| == 1;
      assert HasType(v, d.types[0]);
    }
  }

  lemma {:induction false} NumberType(checks: seq<NumberCheck>)
    ensures NumberOf(checks).ty == "number" || NumberOf(checks).ty == "integer"
  {
    if checks != [] { NumberType(checks[..|checks| - 1]); }
  }

  lemma {:induction false} FirstExists(ps: seq<Parsed>, k: nat)
    requires k < |ps| && ps[k].value.Some?
    ensures First(ps).Some?
  {
    if ps[0].value.None? { FirstExists(ps[1..], k - 1); }
  }

  lemma {:induction false} UndeclaredNone(shape: seq<(string, nat)>, es: Entries)
    ensures UndeclaredEntries(shape, es) == [] <==> forall k | 0 <= k < |es| :: Declared(shape, es[k].0)
  {
    if es != [] {
      UndeclaredNone(shape, es[1..]);
      assert forall k | 0 < k < |es| :: es[k] == es[1..][k - 1];
      assert forall k | 0 <= k < |es[1..]| :: es[1..][k] == es[k + 1];
      assert Undeclared(shape, es[0].0) <==> !Declared(shape, es[0].0);
    }
  }

  lemma {:induction false} ObjectComplete(t: Table, o: Oracle, i: nat, v: Value, path: seq<Step>)
    requires Wf(t) && i < |t| && RefineFree(t) && ChecksKept(t) && Storable(t) && t[i].body.ObjectS?
    requires JsonData(v) && Accepts(t, o, i, v)
    ensures ParseAt(t, o, i, v, path).value.Some?
    decreases i, 0
  {
    var shape, mode := t[i].body.shape, t[i].body.unknownKeys;
    var ps := MemberPieces(t, o, i, shape, v.entries, path);
    forall k | 0 <= k < |ps|
      ensures ps[k].issues == []
    {
      if Has(v.entries, shape[k].0) {
        assert JsonData(Get(v.entries, shape[k].0));
      }
      ParseComplete(t, o, shape[k].1, Get(v.entries, shape[k].0), path + [Key(shape[k].0)]);
    }
    GatherIssues(ps);
    UndeclaredNone(shape, v.entries);
  }

  /** Members that parse, and nothing besides, make an object that does. */
  lemma ObjectParses(t: Table, o: Oracle, i: nat, es: Entries)
    requires Wf(t) && i < |t| && t[i].body.ObjectS?
    requires forall k | 0 <= k < |t[i].body.shape| :: MemberPieces(t, o, i, t[i].body.shape, es, [])[k].issues == []
    requires forall k | 0 <= k < |es| :: Declared(t[i].body.shape, es[k].0)
    ensures SafeParse(t, o, i, Obj(es)).value.Some?
  {
    hide Gather, UndeclaredEntries, Declared;
    var shape := t[i].body.shape;
    var ps := MemberPieces(t, o, i, shape, es, []);
    GatherIssues(ps);
    UndeclaredNone(shape, es);
    assert ParseAt(t, o, i, Obj(es), []) == ObjectResult(shape, t[i].body.unknownKeys, es, [], Gather(ps));
  }

  lemma BooleanParses(t: Table, o: Oracle, i: nat, es: Entries, k: nat)
    requires Wf(t) && i < |t| && t[i].body.ObjectS? && k < |t[i].body.shape|
    requires var (key, member) := t[i].body.shape[k]; t[member].body.BooleanS? && Has(es, key) && Get(es, key).Bool?
    ensures MemberPieces(t, o, i, t[i].body.shape, es, [])[k].issues == []
  {
    hide Has, Get;
  }

  /** Completeness: for refine-free schemas whose checks are kept, every JSON value the document
      admits is accepted. */
  lemma Completeness(t: Table, o: Oracle, i: nat, v: Value)
    requires Wf(t) && Emittable(t) && RefineFree(t) && ChecksKept(t) && i < |t| && JsonData(v)
    requires Validates(o, ToJsonSchema(t, i), v)
    ensures SafeParse(t, o, i, v).value.Some?
  {
    DocumentMeaning(t, o, i, v);
    ParseComplete(t, o, i, v, []);
  }

  // ---------------------------------------------------------------- without strip mode

  lemma {:induction false} SameRefl(v: Value)
    requires JsonData(v) || v == Undefined
    ensures SameAsMap(v, v)
  {
    match v
    case Arr(items) =>
      forall k | 0 <= k < |items|
        ensures SameAsMap(items[k], items[k])
      {
        SameRefl(items[k]);
      }
    case Obj(es) =>
      forall k | 0 <= k < |es|
        ensures Has(es, es[k].0) && SameAsMap(es[k].1, Get(es, es[k].0))
      {
        GetAt(es, k);
        SameRefl(es[k].1);
      }
    case _ =>
  }

  /** Without strip mode a successful parse admits what the document's reader does, and gives
      the input back. */
  ghost predicate Unchanged(t: Table, o: Oracle, i: nat, v: Value, w: Value)
    requires Wf(t) && i < |t|
  {
    SameAsMap(v, w) && (if v == Undefined then AcceptsUndefined(t, i) else Accepts(t, o, i, v))
  }

  lemma {:induction false} ParseUnchanged(t: Table, o: Oracle, i: nat, v: Value, path: seq<Step>)
    requires Wf(t) && Printable(t) && i < |t| && StripFree(t) && (v == Undefined || JsonData(v)) && ParseAt(t, o, i, v, path).value.Some?
    ensures Unchanged(t, o, i, v, ParseAt(t, o, i, v, path).value.value)
    decreases i, 1
  {
    hide Unchanged, JsonData, Printable, StripFree, Vacuous, SameAsMap;
    match t[i].body
    case ArrayS(_, _, _) => ArrayUnchanged(t, o, i, v, path);
    case RecordS(_) => RecordUnchanged(t, o, i, v, path);
    case ObjectS(_, _) => ObjectUnchanged(t, o, i, v, path);
    case UnionS(options) =>
      var k := UnionParsed(t, o, i, v, path);
      ParseUnchanged(t, o, options[k], v, path);
      UnionUnchanged(t, o, i, v, ParseAt(t, o, i, v, path).value.value, k);
    case OptionalS(inner) =>
      if v != Undefined { ParseUnchanged(t, o, inner, v, path); }
      WrapperUnchanged(t, o, i, v, path);
    case NullableS(inner) =>
      if !v.Null? { ParseUnchanged(t, o, inner, v, path); }
      WrapperUnchanged(t, o, i, v, path);
    case RefinedS(inner, _, _) =>
      ParseUnchanged(t, o, inner, v, path);
      WrapperUnchanged(t, o, i, v, path);
    case _ =>
      PrintableHas(t);
      LeafFaithful(t, o, i, v, path);
      LeafUnchanged(t, o, i, v, path);
  }

  lemma StripFreeAt(t: Table, i: nat)
    requires StripFree(t) && i < |t| && t[i].body.ObjectS?
    ensures t[i].body.unknownKeys != Strip
  {
  }

  lemma UnionUnchanged(t: Table, o: Oracle, i: nat, v: Value, w: Value, k: nat)
    requires Wf(t) && i < |t| && t[i].body.UnionS? && k < |t[i].body.options|
    requires !Vacuous(t, t[i].body.options[k]) && Unchanged(t, o, t[i].body.options[k], v, w)
    ensures Unchanged(t, o, i, v, w)
  {
    hide SameAsMap, Vacuous;
  }

  lemma WrapperUnchanged(t: Table, o: Oracle, i: nat, v: Value, path: seq<Step>)
    requires Wf(t) && i < |t| && (t[i].body.OptionalS? || t[i].body.NullableS? || t[i].body.RefinedS?) && ParseAt(t, o, i, v, path).value.Some?
    requires (v == Undefined && t[i].body.OptionalS?) || (v == Null && t[i].body.NullableS?)
      || Unchanged(t, o, t[i].body.inner, v, ParseAt(t, o, t[i].body.inner, v, path).value.value)
    ensures Unchanged(t, o, i, v, ParseAt(t, o, i, v, path).value.value)
  {
    if v == Undefined || v == Null { SameRefl(v); }
    hide SameAsMap;
  }

  lemma LeafUnchanged(t: Table, o: Oracle, i: nat, v: Value, path: seq<Step>)
    requires Wf(t) && i < |t| && IsLeaf(t[i].body) && (v == Undefined || JsonData(v)) && ParseAt(t, o, i, v, path).value.Some?
    requires Faithful(t, o, i, v, ParseAt(t, o, i, v, path).value.value)
    ensures Unchanged(t, o, i, v, ParseAt(t, o, i, v, path).value.value)
  {
    hide SameAsMap, Accepts, StringOk, NumberOk, JsonData;
    SameRefl(v);
    JsonDefined(v);
  }

  lemma JsonDefined(v: Value)
    ensures JsonData(v) ==> v != Undefined
  {
  }

  lemma {:induction false} ArrayUnchanged(t: Table, o: Oracle, i: nat, v: Value, path: seq<Step>)
    requires Wf(t) && Printable(t) && i < |t| && StripFree(t) && t[i].body.ArrayS? && (v == Undefined || JsonData(v)) && ParseAt(t, o, i, v, path).value.Some?
    ensures Unchanged(t, o, i, v, ParseAt(t, o, i, v, path).value.value)
    decreases i, 0
  {
    hide Accepts, Printable, StripFree;
    if v != Undefined { AcceptsArray(t, o, i, v); }
    var item := t[i].body.item;
    var ps := ItemPieces(t, o, item, v.items, path);
    GatherIssues(ps);
    forall k | 0 <= k < |ps|
      ensures |ps[k].out| == 1 && SameAsMap(v.items[k], ps[k].out[0]) && Accepts(t, o, item, v.items[k])
    {
      assert ps[k].issues == [];
      ParseUnchanged(t, o, item, v.items[k], path + [Index(k)]);
    }
    GatherSingles(ps);
  }

  lemma {:induction false} RecordUnchanged(t: Table, o: Oracle, i: nat, v: Value, path: seq<Step>)
    requires Wf(t) && Printable(t) && i < |t| && StripFree(t) && t[i].body.RecordS? && (v == Undefined || JsonData(v)) && ParseAt(t, o, i, v, path).value.Some?
    ensures Unchanged(t, o, i, v, ParseAt(t, o, i, v, path).value.value)
    decreases i, 0
  {
    hide Accepts, Printable, StripFree, SameAsMap, DistinctKeys;
    if v != Undefined { AcceptsRecord(t, o, i, v); }
    var item := t[i].body.valueSchema;
    var ps := EntryPieces(t, o, item, v.entries, path);
    GatherIssues(ps);
    forall k | 0 <= k < |ps|
      ensures |ps[k].out| == 1 && ps[k].out[0].0 == v.entries[k].0
      ensures SameAsMap(v.entries[k].1, ps[k].out[0].1) && Accepts(t, o, item, v.entries[k].1)
    {
      assert ps[k].issues == [];
      ParseUnchanged(t, o, item, v.entries[k].1, path + [Key(v.entries[k].0)]);
    }
    GatherSingles(ps);
    SameEntries(v.entries, Gather(ps).out);
  }

  lemma SameEntries(es: Entries, out: Entries)
    requires DistinctKeys(es) && |out| == |es|
    requires forall k | 0 <= k < |es| :: out[k].0 == es[k].0 && SameAsMap(es[k].1, out[k].1)
    ensures SameAsMap(Obj(es), Obj(out))
  {
    forall k | 0 <= k < |es|
      ensures Has(out, es[k].0) && Get(out, es[k].0) == out[k].1 && Has(es, out[k].0)
    {
      GetAt(out, k);
    }
  }

  /** A member's piece: the value's own member, unchanged, or nothing where there is none. */
  ghost predicate UnchangedPiece(t: Table, o: Oracle, member: nat, key: string, es: Entries, p: Piece<(string, Value)>)
    requires Wf(t) && member < |t|
  {
    if Has(es, key) then |p.out| == 1 && p.out[0].0 == key && SameAsMap(Get(es, key), p.out[0].1) && Accepts(t, o, member, Get(es, key))
    else p.out == [] && AcceptsUndefined(t, member)
  }

  lemma {:induction false} MemberUnchanged(t: Table, o: Oracle, i: nat, es: Entries, path: seq<Step>, k: nat)
    requires Wf(t) && Printable(t) && i < |t| && StripFree(t) && t[i].body.ObjectS? && JsonData(Obj(es)) && k < |t[i].body.shape|
    requires MemberPieces(t, o, i, t[i].body.shape, es, path)[k].issues == []
    ensures UnchangedPiece(t, o, t[i].body.shape[k].1, t[i].body.shape[k].0, es, MemberPieces(t, o, i, t[i].body.shape, es, path)[k])
    decreases i, 0, 0
  {
    var (key, member) := t[i].body.shape[k];
    if Has(es, key) {
      assert JsonData(Get(es, key));
    } else {
      ParseFaithful(t, o, member, Undefined, path + [Key(key)]);
    }
    ParseUnchanged(t, o, member, Get(es, key), path + [Key(key)]);
  }

  lemma {:induction false} ObjectUnchanged(t: Table, o: Oracle, i: nat, v: Value, path: seq<Step>)
    requires Wf(t) && Printable(t) && i < |t| && StripFree(t) && t[i].body.ObjectS? && (v == Undefined || JsonData(v)) && ParseAt(t, o, i, v, path).value.Some?
    ensures Unchanged(t, o, i, v, ParseAt(t, o, i, v, path).value.value)
    decreases i, 0, 1
  {
    hide Accepts, Placeable, Storable, PatternsPrinted, StripFree, UnchangedPiece, SameAsMap;
    StripFreeAt(t, i);
    var shape, mode := t[i].body.shape, t[i].body.unknownKeys;
    var es := v.entries;
    var ps := MemberPieces(t, o, i, shape, es, path);
    GatherIssues(ps);
    forall k | 0 <= k < |ps|
      ensures UnchangedPiece(t, o, shape[k].1, shape[k].0, es, ps[k])
    {
      MemberUnchanged(t, o, i, es, path, k);
    }
    ObjectReassembled(t, o, i, es, ps, if mode == Loose then UndeclaredEntries(shape, es) else []);
  }

  lemma DeclaredMember(t: Table, o: Oracle, shape: seq<(string, nat)>, es: Entries, ps: seq<Piece<(string, Value)>>, j: nat)
    requires Wf(t) && DistinctKeys(shape) && Below(shape, |t|) && DistinctKeys(es) && |ps| == |shape|
    requires forall k | 0 <= k < |ps| :: UnchangedPiece(t, o, shape[k].1, shape[k].0, es, ps[k]) && Reflects(Gather(ps).out, shape[k].0, ps[k])
    requires j < |es| && Declared(shape, es[j].0)
    ensures Has(Gather(ps).out, es[j].0) && SameAsMap(es[j].1, Get(Gather(ps).out, es[j].0))
  {
    hide SameAsMap;
    GetAt(es, j);
    var k :| 0 <= k < |shape| && shape[k].0 == es[j].0;
    assert Reflects(Gather(ps).out, shape[k].0, ps[k]);
  }

  lemma UndeclaredMember(shape: seq<(string, nat)>, es: Entries, out: Entries, j: nat)
    requires DistinctKeys(es) && j < |es| && !Declared(shape, es[j].0) && JsonData(es[j].1)
    requires forall q | 0 <= q < |out| :: Declared(shape, out[q].0)
    ensures !Has(out, es[j].0)
    ensures var all := UndeclaredEntries(shape, es); Has(all, es[j].0) && SameAsMap(es[j].1, Get(all, es[j].0))
  {
    var all := UndeclaredEntries(shape, es);
    UndeclaredDistinct(shape, es);
    assert es[j] in all;
    var m :| 0 <= m < |all| && all[m] == es[j];
    GetAt(all, m);
    SameRefl(es[j].1);
    hide SameAsMap;
  }

  /** Unchanged pieces and all undeclared members make up the object they came from. */
  lemma ObjectReassembled(t: Table, o: Oracle, i: nat, es: Entries, ps: seq<Piece<(string, Value)>>, extra: Entries)
    requires Wf(t) && Storable(t) && i < |t| && t[i].body.ObjectS? && JsonData(Obj(es)) && |ps| == |t[i].body.shape|
    requires forall k | 0 <= k < |ps| :: UnchangedPiece(t, o, t[i].body.shape[k].1, t[i].body.shape[k].0, es, ps[k])
    requires extra == if t[i].body.unknownKeys == Loose then UndeclaredEntries(t[i].body.shape, es) else []
    requires t[i].body.unknownKeys != Loose ==> UndeclaredEntries(t[i].body.shape, es) == []
    ensures SameAsMap(Obj(es), Obj(Gather(ps).out + extra)) && Accepts(t, o, i, Obj(es))
  {
    var shape := t[i].body.shape;
    var out := Gather(ps).out;
    GatherKeyed(shape, ps);
    UndeclaredDistinct(shape, es);
    hide Gather, Reflects, UnchangedPiece, Accepts, AcceptsUndefined, SameAsMap, Has, Get, Declared, UndeclaredEntries, Storable;
    forall j | 0 <= j < |es|
      ensures Has(out + extra, es[j].0) && SameAsMap(es[j].1, Get(out + extra, es[j].0))
    {
      EntryBack(t, o, shape, es, ps, j);
    }
    forall j | 0 <= j < |out + extra|
      ensures Has(es, (out + extra)[j].0)
    {
      OutBack(t, o, shape, es, ps, j);
    }
    SameObject(es, out + extra);
    UnchangedAccepts(t, o, i, es, ps);
  }

  lemma EntryBack(t: Table, o: Oracle, shape: seq<(string, nat)>, es: Entries, ps: seq<Piece<(string, Value)>>, j: nat)
    requires Wf(t) && DistinctKeys(shape) && Below(shape, |t|) && JsonData(Obj(es)) && |ps| == |shape| && j < |es|
    requires forall k | 0 <= k < |ps| :: UnchangedPiece(t, o, shape[k].1, shape[k].0, es, ps[k]) && Reflects(Gather(ps).out, shape[k].0, ps[k])
    requires forall q | 0 <= q < |Gather(ps).out| :: Declared(shape, Gather(ps).out[q].0)
    ensures var all := Gather(ps).out + UndeclaredEntries(shape, es); Has(all, es[j].0) && SameAsMap(es[j].1, Get(all, es[j].0))
  {
    hide Gather, Reflects, UnchangedPiece, SameAsMap, Has, Get, Declared, UndeclaredEntries;
    GetConcat(Gather(ps).out, UndeclaredEntries(shape, es), es[j].0);
    if Declared(shape, es[j].0) {
      DeclaredMember(t, o, shape, es, ps, j);
    } else {
      UndeclaredMember(shape, es, Gather(ps).out, j);
    }
  }

  lemma OutBack(t: Table, o: Oracle, shape: seq<(string, nat)>, es: Entries, ps: seq<Piece<(string, Value)>>, j: nat)
    requires Wf(t) && Below(shape, |t|) && |ps| == |shape| && j < |Gather(ps).out + UndeclaredEntries(shape, es)|
    requires forall k | 0 <= k < |ps| :: UnchangedPiece(t, o, shape[k].1, shape[k].0, es, ps[k]) && Reflects(Gather(ps).out, shape[k].0, ps[k])
    requires forall q | 0 <= q < |Gather(ps).out| :: Declared(shape, Gather(ps).out[q].0)
    ensures Has(es, (Gather(ps).out + UndeclaredEntries(shape, es))[j].0)
  {
    hide Gather, Accepts, AcceptsUndefined, SameAsMap, Get;
    var out, all := Gather(ps).out, UndeclaredEntries(shape, es);
    if j < |out| {
      assert Declared(shape, out[j].0);
      var k :| 0 <= k < |shape| && shape[k].0 == out[j].0;
      assert Reflects(out, shape[k].0, ps[k]);
    } else {
      assert all[j - |out|] in es;
    }
  }

  lemma SameObject(es: Entries, all: Entries)
    requires forall j | 0 <= j < |es| :: Has(all, es[j].0) && SameAsMap(es[j].1, Get(all, es[j].0))
    requires forall j | 0 <= j < |all| :: Has(es, all[j].0)
    ensures SameAsMap(Obj(es), Obj(all))
  {
    hide Has, Get;
  }

  lemma UnchangedAccepts(t: Table, o: Oracle, i: nat, es: Entries, ps: seq<Piece<(string, Value)>>)
    requires Wf(t) && Storable(t) && i < |t| && t[i].body.ObjectS? && |ps| == |t[i].body.shape|
    requires forall k | 0 <= k < |ps| :: UnchangedPiece(t, o, t[i].body.shape[k].1, t[i].body.shape[k].0, es, ps[k])
    requires t[i].body.unknownKeys != Loose ==> UndeclaredEntries(t[i].body.shape, es) == []
    ensures Accepts(t, o, i, Obj(es))
  {
    hide AcceptsUndefined, SameAsMap, Has, Get, UndeclaredEntries;
    UndeclaredNone(t[i].body.shape, es);
  }

  /** Exactness: without refinements or strip mode, acceptance and validation coincide, and a
      successful parse returns the input unchanged as a map. */
  lemma Exactness(t: Table, o: Oracle, i: nat, v: Value)
    requires Wf(t) && Emittable(t) && RefineFree(t) && ChecksKept(t) && StripFree(t) && i < |t| && JsonData(v)
    ensures SafeParse(t, o, i, v).value.Some? <==> Validates(o, ToJsonSchema(t, i), v)
    ensures SafeParse(t, o, i, v).value.Some? ==> SameAsMap(v, SafeParse(t, o, i, v).value.value)
  {
    DocumentMeaning(t, o, i, v);
    if SafeParse(t, o, i, v).value.Some? {
      ChecksPrinted(t);
      ParseUnchanged(t, o, i, v, []);
    }
    if Validates(o, ToJsonSchema(t, i), v) {
      ParseComplete(t, o, i, v, []);
    }
  }
}
