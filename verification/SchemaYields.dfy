/** What `safeParse` gives for a value, said of the schema and the value alone (src/schema.ts), and
    which issues it lists for the others. */
module SchemaYields {
  import opened Common
  import opened SchemaNodes
  import opened SchemaParse
  import opened SchemaMeaning
  import opened SchemaTheorems

  // ---------------------------------------------------------------- what a parse gives

  /** An object has each key once, at every depth. */
  ghost predicate Real(v: Value) {
    match v
    case Arr(items) => forall k | 0 <= k < |items| :: Real(items[k])
    case Obj(es) => DistinctKeys(es) && forall k | 0 <= k < |es| :: Real(es[k].1)
    case _ => true
  }

  /** The declared members `es` has, in the order of their declaration, with the values of `out`. */
  function Listed(shape: seq<(string, nat)>, es: Entries, out: Entries): Entries
    decreases |shape|
  {
    if shape == [] then []
    else
      var key := shape[|shape| - 1].0;
      Listed(shape[..|shape| - 1], es, out) + if Has(es, key) then [(key, Get(out, key))] else []
  }

  /** The members of `es` that are not declared, in order. */
  function Others(shape: seq<(string, nat)>, es: Entries): Entries {
    if es == [] then [] else (if Declared(shape, es[0].0) then [] else [es[0]]) + Others(shape, es[1..])
  }

  /** Schema `i` gives `w` for `v`. Scalars come back as they are. Arrays and records come back
      element by element. Of an object, the declared members it has come back, each as its own schema
      gives it, and the others as they are in loose mode alone; strict mode allows none. A union gives
      what its first option that takes the value gives; a refined schema what its inner schema gives,
      if the check passes on that. */
  ghost predicate Yields(t: Table, o: Oracle, i: nat, v: Value, w: Value)
    requires Wf(t) && i < |t|
    decreases i, 1
  {
    match t[i].body
    case StringS(checks) => v.Str? && w == v && forall k | 0 <= k < |checks| :: StringOk(o, checks[k], v.s)
    case NumberS(checks) => v.Num? && w == v && forall k | 0 <= k < |checks| :: NumberOk(checks[k], v.n)
    case BooleanS => v.Bool? && w == v
    case NullS => v.Null? && w == v
    case UnknownS => w == v
    case LiteralS(x) => v == ScalarValue(x) && w == v
    case EnumS(values) => v.Str? && v.s in values && w == v
    case ArrayS(item, mn, mx) =>
      && v.Arr? && w.Arr? && |w.items| == |v.items|
      && (mn.Some? ==> |v.items| >= mn.value) && (mx.Some? ==> |v.items| <= mx.value)
      && forall k | 0 <= k < |v.items| :: Yields(t, o, item, v.items[k], w.items[k])
    case RecordS(item) =>
      && v.Obj? && w.Obj? && |w.entries| == |v.entries|
      && forall k | 0 <= k < |v.entries| :: w.entries[k].0 == v.entries[k].0 && Yields(t, o, item, v.entries[k].1, w.entries[k].1)
    case ObjectS(shape, mode) =>
      && v.Obj? && w.Obj? && w.entries == Listed(shape, v.entries, w.entries) + (if mode == Loose then Others(shape, v.entries) else [])
      && (mode == Strict ==> Others(shape, v.entries) == [])
      && forall k | 0 <= k < |shape| ::
           if Has(v.entries, shape[k].0) then Yields(t, o, shape[k].1, Get(v.entries, shape[k].0), Get(w.entries, shape[k].0))
           else Yields(t, o, shape[k].1, Undefined, Undefined)
    case UnionS(options) => FirstYields(t, o, i, options, v, w)
    case OptionalS(inner) => if v == Undefined then w == Undefined else Yields(t, o, inner, v, w)
    case NullableS(inner) => if v == Null then w == Null else Yields(t, o, inner, v, w)
    case RefinedS(inner, check, _) => Yields(t, o, inner, v, w) && check(w)
  }

  ghost predicate FirstYields(t: Table, o: Oracle, bound: nat, options: seq<nat>, v: Value, w: Value)
    requires Wf(t) && bound <= |t| && forall k | 0 <= k < |options| :: options[k] < bound
    decreases bound, 0
  {
    exists k | 0 <= k < |options| :: Yields(t, o, options[k], v, w) && forall j | 0 <= j < k :: !Takes(t, o, options[j], v)
  }

  ghost predicate Takes(t: Table, o: Oracle, i: nat, v: Value)
    requires Wf(t) && i < |t|
    decreases i, 2
  {
    exists w :: Yields(t, o, i, v, w)
  }

  // ---------------------------------------------------------------- the proof

  lemma {:induction false} UndefinedYields(t: Table, o: Oracle, i: nat, w: Value)
    requires Wf(t) && i < |t| && Yields(t, o, i, Undefined, w)
    ensures w == Undefined
    decreases i
  {
    match t[i].body
    case UnionS(options) =>
      var k :| 0 <= k < |options| && Yields(t, o, options[k], Undefined, w);
      UndefinedYields(t, o, options[k], w);
    case OptionalS(inner) =>
    case NullableS(inner) => UndefinedYields(t, o, inner, w);
    case RefinedS(inner, _, _) => UndefinedYields(t, o, inner, w);
    case _ =>
  }

  /** `ParseAt` gives a value exactly when the schema does, and that value. */
  lemma {:induction false} ParseYields(t: Table, o: Oracle, i: nat, v: Value, path: seq<Step>, w: Value)
    requires Wf(t) && i < |t| && Real(v)
    ensures ParseAt(t, o, i, v, path).value == Some(w) <==> Yields(t, o, i, v, w)
    decreases i, 1
  {
    hide Real, ParseAt, Yields;
    match t[i].body
    case ArrayS(_, _, _) => ArrayYields(t, o, i, v, path, w);
    case RecordS(_) => RecordYields(t, o, i, v, path, w);
    case ObjectS(_, _) => ObjectYields(t, o, i, v, path, w);
    case UnionS(_) => UnionYields(t, o, i, v, path, w);
    case OptionalS(inner) =>
      ParseYields(t, o, inner, v, path, w);
      WrapperYields(t, o, i, v, path, w);
    case NullableS(inner) =>
      ParseYields(t, o, inner, v, path, w);
      WrapperYields(t, o, i, v, path, w);
    case RefinedS(inner, _, _) => RefinedYields(t, o, i, v, path, w);
    case _ => LeafYields(t, o, i, v, path, w);
  }

  lemma LeafYields(t: Table, o: Oracle, i: nat, v: Value, path: seq<Step>, w: Value)
    requires Wf(t) && i < |t| && IsLeaf(t[i].body)
    ensures ParseAt(t, o, i, v, path).value == Some(w) <==> Yields(t, o, i, v, w)
  {
    hide StringOk, NumberOk;
  }

  lemma WrapperYields(t: Table, o: Oracle, i: nat, v: Value, path: seq<Step>, w: Value)
    requires Wf(t) && i < |t| && (t[i].body.OptionalS? || t[i].body.NullableS?)
    requires ParseAt(t, o, t[i].body.inner, v, path).value == Some(w) <==> Yields(t, o, t[i].body.inner, v, w)
    ensures ParseAt(t, o, i, v, path).value == Some(w) <==> Yields(t, o, i, v, w)
  {
  }

  lemma {:induction false} RefinedYields(t: Table, o: Oracle, i: nat, v: Value, path: seq<Step>, w: Value)
    requires Wf(t) && i < |t| && Real(v) && t[i].body.RefinedS?
    ensures ParseAt(t, o, i, v, path).value == Some(w) <==> Yields(t, o, i, v, w)
    decreases i, 0
  {
    hide ParseAt, Yields;
    RefinedUnfolds(t, o, i, v, path, w);
    ParseYields(t, o, t[i].body.inner, v, path, w);
  }

  lemma RefinedUnfolds(t: Table, o: Oracle, i: nat, v: Value, path: seq<Step>, w: Value)
    requires Wf(t) && i < |t| && t[i].body.RefinedS?
    ensures var (inner, check) := (t[i].body.inner, t[i].body.check);
      && (ParseAt(t, o, i, v, path).value == Some(w) <==> ParseAt(t, o, inner, v, path).value == Some(w) && check(w))
      && (Yields(t, o, i, v, w) <==> Yields(t, o, inner, v, w) && check(w))
  {
  }

  lemma {:induction false} UnionYields(t: Table, o: Oracle, i: nat, v: Value, path: seq<Step>, w: Value)
    requires Wf(t) && i < |t| && Real(v) && t[i].body.UnionS?
    ensures ParseAt(t, o, i, v, path).value == Some(w) <==> Yields(t, o, i, v, w)
    decreases i, 0
  {
    hide Real, ParseAt, Yields, Takes;
    UnionUnfolds(t, o, i, v, path, w);
    var options := t[i].body.options;
    var ps := Attempts(t, o, i, options, v, path);
    forall k | 0 <= k < |options|
      ensures ps[k].value == Some(w) <==> Yields(t, o, options[k], v, w)
      ensures ps[k].value.Some? <==> Takes(t, o, options[k], v)
    {
      ParseYields(t, o, options[k], v, path, w);
      TakesParsed(t, o, options[k], v, path);
    }
    FirstIs(ps, w);
  }

  lemma UnionUnfolds(t: Table, o: Oracle, i: nat, v: Value, path: seq<Step>, w: Value)
    requires Wf(t) && i < |t| && t[i].body.UnionS?
    ensures ParseAt(t, o, i, v, path).value == First(Attempts(t, o, i, t[i].body.options, v, path))
    ensures Yields(t, o, i, v, w) <==> FirstYields(t, o, i, t[i].body.options, v, w)
  {
    hide FirstYields, First, Attempts;
  }

  lemma {:induction false} TakesParsed(t: Table, o: Oracle, i: nat, v: Value, path: seq<Step>)
    requires Wf(t) && i < |t| && Real(v)
    ensures ParseAt(t, o, i, v, path).value.Some? <==> Takes(t, o, i, v)
    decreases i, 2
  {
    hide ParseAt, Yields, Real;
    var p := ParseAt(t, o, i, v, path);
    if p.value.Some? { ParseYields(t, o, i, v, path, p.value.value); }
    if w :| Yields(t, o, i, v, w) { ParseYields(t, o, i, v, path, w); }
  }

  lemma {:induction false} FirstIs(ps: seq<Parsed>, w: Value)
    ensures First(ps) == Some(w) <==> exists k | 0 <= k < |ps| :: ps[k].value == Some(w) && forall j | 0 <= j < k :: ps[j].value.None?
  {
    if ps != [] {
      FirstIs(ps[1..], w);
      assert forall k | 0 <= k < |ps[1..]| :: ps[1..][k] == ps[k + 1];
      if ps[0].value.None? && First(ps[1..]) == Some(w) {
        var k :| 0 <= k < |ps[1..]| && ps[1..][k].value == Some(w) && forall j | 0 <= j < k :: ps[1..][j].value.None?;
        assert ps[k + 1].value == Some(w) && forall j | 0 < j < k + 1 :: ps[j] == ps[1..][j - 1];
      }
      if k :| 0 <= k < |ps| && ps[k].value == Some(w) && forall j | 0 <= j < k :: ps[j].value.None? {
        if k > 0 { assert ps[1..][k - 1].value == Some(w) && forall j | 0 <= j < k - 1 :: ps[1..][j] == ps[j + 1]; }
      }
    }
  }

  lemma {:induction false} ArrayYields(t: Table, o: Oracle, i: nat, v: Value, path: seq<Step>, w: Value)
    requires Wf(t) && i < |t| && Real(v) && t[i].body.ArrayS?
    ensures ParseAt(t, o, i, v, path).value == Some(w) <==> Yields(t, o, i, v, w)
    decreases i, 0
  {
    hide ParseAt, Yields, Gather;
    ArrayUnfolds(t, o, i, v, path, w);
    if v.Arr? {
      var item := t[i].body.item;
      var ps := ItemPieces(t, o, item, v.items, path);
      GatherIssues(ps);
      forall k | 0 <= k < |ps|
        ensures ps[k].issues == [] <==> |ps[k].out| == 1
        ensures forall x :: ps[k].out == [x] <==> Yields(t, o, item, v.items[k], x)
      {
        forall x
          ensures ps[k].out == [x] <==> Yields(t, o, item, v.items[k], x)
        {
          ParseYields(t, o, item, v.items[k], path + [Index(k)], x);
        }
      }
      if forall k | 0 <= k < |ps| :: ps[k].issues == [] {
        GatherSingles(ps);
        ItemsAre(ps, w);
      }
    }
  }

  lemma ArrayUnfolds(t: Table, o: Oracle, i: nat, v: Value, path: seq<Step>, w: Value)
    requires Wf(t) && i < |t| && t[i].body.ArrayS?
    ensures var (item, mn, mx) := (t[i].body.item, t[i].body.minItems, t[i].body.maxItems);
      var fits := v.Arr? && (mn.Some? ==> |v.items| >= mn.value) && (mx.Some? ==> |v.items| <= mx.value);
      && (!fits ==> ParseAt(t, o, i, v, path).value.None?)
      && (fits ==> var r := Gather(ItemPieces(t, o, item, v.items, path));
            ParseAt(t, o, i, v, path).value == if r.issues == [] then Some(Arr(r.out)) else None)
      && (Yields(t, o, i, v, w) <==>
            fits && w.Arr? && |w.items| == |v.items| && forall k | 0 <= k < |v.items| :: Yields(t, o, item, v.items[k], w.items[k]))
  {
    hide Gather, ItemPieces;
  }

  lemma ItemsAre(ps: seq<Piece<Value>>, w: Value)
    requires forall k | 0 <= k < |ps| :: |ps[k].out| == 1
    requires |Gather(ps).out| == |ps| && forall k | 0 <= k < |ps| :: Gather(ps).out[k] == ps[k].out[0]
    ensures Arr(Gather(ps).out) == w <==> w.Arr? && |w.items| == |ps| && forall k | 0 <= k < |ps| :: ps[k].out == [w.items[k]]
  {
    hide Gather;
    if w.Arr? && |w.items| == |ps| && forall k | 0 <= k < |ps| :: ps[k].out == [w.items[k]] {
      assert Gather(ps).out == w.items;
    }
  }

  lemma {:induction false} RecordYields(t: Table, o: Oracle, i: nat, v: Value, path: seq<Step>, w: Value)
    requires Wf(t) && i < |t| && Real(v) && t[i].body.RecordS?
    ensures ParseAt(t, o, i, v, path).value == Some(w) <==> Yields(t, o, i, v, w)
    decreases i, 0
  {
    hide ParseAt, Yields, DistinctKeys, Gather;
    RecordUnfolds(t, o, i, v, path, w);
    if v.Obj? {
      var item := t[i].body.valueSchema;
      var ps := EntryPieces(t, o, item, v.entries, path);
      GatherIssues(ps);
      forall k | 0 <= k < |ps|
        ensures ps[k].issues == [] <==> |ps[k].out| == 1
        ensures forall x :: ps[k].out == [(v.entries[k].0, x)] <==> Yields(t, o, item, v.entries[k].1, x)
        ensures |ps[k].out| == 1 ==> ps[k].out[0].0 == v.entries[k].0
      {
        forall x
          ensures ps[k].out == [(v.entries[k].0, x)] <==> Yields(t, o, item, v.entries[k].1, x)
        {
          ParseYields(t, o, item, v.entries[k].1, path + [Key(v.entries[k].0)], x);
        }
      }
      if forall k | 0 <= k < |ps| :: ps[k].issues == [] {
        GatherSingles(ps);
        EntriesAre(v.entries, ps, w);
      }
    }
  }

  lemma RecordUnfolds(t: Table, o: Oracle, i: nat, v: Value, path: seq<Step>, w: Value)
    requires Wf(t) && i < |t| && t[i].body.RecordS?
    ensures !v.Obj? ==> ParseAt(t, o, i, v, path).value.None?
    ensures v.Obj? ==> var r := Gather(EntryPieces(t, o, t[i].body.valueSchema, v.entries, path));
      ParseAt(t, o, i, v, path).value == if r.issues == [] then Some(Obj(r.out)) else None
    ensures Yields(t, o, i, v, w) <==>
      && v.Obj? && w.Obj? && |w.entries| == |v.entries|
      && forall k | 0 <= k < |v.entries| :: w.entries[k].0 == v.entries[k].0 && Yields(t, o, t[i].body.valueSchema, v.entries[k].1, w.entries[k].1)
  {
    hide Gather, EntryPieces;
  }

  lemma EntriesAre(es: Entries, ps: seq<Piece<(string, Value)>>, w: Value)
    requires |ps| == |es| && forall k | 0 <= k < |ps| :: |ps[k].out| == 1 && ps[k].out[0].0 == es[k].0
    requires |Gather(ps).out| == |ps| && forall k | 0 <= k < |ps| :: Gather(ps).out[k] == ps[k].out[0]
    ensures Obj(Gather(ps).out) == w <==>
      w.Obj? && |w.entries| == |ps| && forall k | 0 <= k < |ps| :: w.entries[k].0 == es[k].0 && ps[k].out == [(es[k].0, w.entries[k].1)]
  {
    hide Gather;
    if w.Obj? && |w.entries| == |ps| && forall k | 0 <= k < |ps| :: w.entries[k].0 == es[k].0 && ps[k].out == [(es[k].0, w.entries[k].1)] {
      assert Gather(ps).out == w.entries;
    }
  }

  // ---------------------------------------------------------------- objects

  lemma {:induction false} OthersAre(shape: seq<(string, nat)>, es: Entries)
    ensures Others(shape, es) == UndeclaredEntries(shape, es)
  {
    if es != [] {
      OthersAre(shape, es[1..]);
      assert Undeclared(shape, es[0].0) <==> !Declared(shape, es[0].0);
    }
  }

  /** The pieces of the declared members, each with the value `out` has for it. */
  lemma {:induction false} GatherListed(shape: seq<(string, nat)>, es: Entries, ps: seq<Piece<(string, Value)>>, out: Entries)
    requires |ps| == |shape|
    requires forall k | 0 <= k < |ps| :: ps[k].out == if Has(es, shape[k].0) then [(shape[k].0, Get(out, shape[k].0))] else []
    ensures Gather(ps).out == Listed(shape, es, out)
    decreases |shape|
  {
    hide Has, Get;
    if shape != [] {
      var n := |shape| - 1;
      GatherListed(shape[..n], es, ps[..n], out);
    }
  }

  /** Every declared member parses, or is missing and may be. */
  ghost predicate MembersYield(t: Table, o: Oracle, shape: seq<(string, nat)>, es: Entries, out: Entries)
    requires Wf(t) && Below(shape, |t|)
  {
    forall k | 0 <= k < |shape| ::
      if Has(es, shape[k].0) then Yields(t, o, shape[k].1, Get(es, shape[k].0), Get(out, shape[k].0))
      else Yields(t, o, shape[k].1, Undefined, Undefined)
  }

  lemma RealMember(es: Entries, key: string)
    requires Real(Obj(es))
    ensures Real(Get(es, key))
  {
  }

  lemma {:induction false} PieceYields(t: Table, o: Oracle, i: nat, es: Entries, path: seq<Step>, k: nat, x: Value)
    requires Wf(t) && i < |t| && t[i].body.ObjectS? && k < |t[i].body.shape| && Real(Obj(es))
    ensures var (key, member) := t[i].body.shape[k];
      var p := MemberPieces(t, o, i, t[i].body.shape, es, path)[k];
      if Has(es, key) then p.out == [(key, x)] && p.issues == [] <==> Yields(t, o, member, Get(es, key), x)
      else p.out == [] && (p.issues == [] <==> Yields(t, o, member, Undefined, Undefined))
    decreases i, 0, 0
  {
    hide Real, Has, Get;
    var (key, member) := t[i].body.shape[k];
    var at := path + [Key(key)];
    if Has(es, key) {
      RealMember(es, key);
      ParseYields(t, o, member, Get(es, key), at, x);
    } else {
      AbsentUndefined(es, key);
      ParseYields(t, o, member, Undefined, at, Undefined);
      var p := ParseAt(t, o, member, Undefined, at);
      if p.value.Some? {
        ParseYields(t, o, member, Undefined, at, p.value.value);
        UndefinedYields(t, o, member, p.value.value);
      }
    }
  }

  lemma AbsentUndefined(es: Entries, key: string)
    ensures !Has(es, key) ==> Get(es, key) == Undefined
    ensures Real(Undefined)
  {
  }

  lemma {:induction false} ObjectYields(t: Table, o: Oracle, i: nat, v: Value, path: seq<Step>, w: Value)
    requires Wf(t) && i < |t| && Real(v) && t[i].body.ObjectS?
    ensures ParseAt(t, o, i, v, path).value == Some(w) <==> Yields(t, o, i, v, w)
    decreases i, 0, 2
  {
    hide Real, Yields, ParseAt;
    YieldsObject(t, o, i, v, w);
    if v.Obj? {
      ParsedObject(t, o, i, v.entries, path);
      if ParseAt(t, o, i, v, path).value == Some(w) { ObjectForward(t, o, i, v.entries, path, w); }
      if Yields(t, o, i, v, w) { ObjectBackward(t, o, i, v.entries, path, w); }
    } else {
      ParsedOther(t, o, i, v, path);
    }
  }

  lemma YieldsObject(t: Table, o: Oracle, i: nat, v: Value, w: Value)
    requires Wf(t) && i < |t| && t[i].body.ObjectS?
    ensures var shape, mode := t[i].body.shape, t[i].body.unknownKeys;
      Yields(t, o, i, v, w) <==>
      && v.Obj? && w.Obj? && w.entries == Listed(shape, v.entries, w.entries) + (if mode == Loose then Others(shape, v.entries) else [])
      && (mode == Strict ==> Others(shape, v.entries) == []) && MembersYield(t, o, shape, v.entries, w.entries)
  {
  }

  lemma ParsedOther(t: Table, o: Oracle, i: nat, v: Value, path: seq<Step>)
    requires Wf(t) && i < |t| && t[i].body.ObjectS? && !v.Obj?
    ensures ParseAt(t, o, i, v, path).value.None?
  {
  }

  lemma ParsedObject(t: Table, o: Oracle, i: nat, es: Entries, path: seq<Step>)
    requires Wf(t) && i < |t| && t[i].body.ObjectS?
    ensures var shape, mode := t[i].body.shape, t[i].body.unknownKeys;
      var r := Gather(MemberPieces(t, o, i, shape, es, path));
      ParseAt(t, o, i, Obj(es), path).value ==
        if r.issues == [] && (mode == Strict ==> Others(shape, es) == []) then Some(Obj(r.out + if mode == Loose then Others(shape, es) else []))
        else None
  {
    hide Gather, Others;
    OthersAre(t[i].body.shape, es);
  }

  lemma {:induction false} ObjectForward(t: Table, o: Oracle, i: nat, es: Entries, path: seq<Step>, w: Value)
    requires Wf(t) && i < |t| && t[i].body.ObjectS? && Real(Obj(es)) && ParseAt(t, o, i, Obj(es), path).value == Some(w)
    ensures Yields(t, o, i, Obj(es), w)
    decreases i, 0, 1
  {
    hide Real, Yields, ParseAt, Gather, Others, Has, Get, Reflects, Declared;
    var shape, mode := t[i].body.shape, t[i].body.unknownKeys;
    var ps := MemberPieces(t, o, i, shape, es, path);
    ParsedObject(t, o, i, es, path);
    GatherIssues(ps);
    var extra := if mode == Loose then Others(shape, es) else [];
    var out := Gather(ps).out;
    forall k | 0 <= k < |ps|
      ensures ps[k].issues == [] && (ps[k].out == [] <==> !Has(es, shape[k].0)) && (ps[k].out != [] ==> |ps[k].out| == 1 && ps[k].out[0].0 == shape[k].0)
    {
      PieceYields(t, o, i, es, path, k, if ps[k].out == [] then Undefined else ps[k].out[0].1);
      PieceShape(t, o, i, es, path, k);
    }
    GatherKeyed(shape, ps);
    forall k | 0 <= k < |ps|
      ensures ps[k].out == if Has(es, shape[k].0) then [(shape[k].0, Get(out + extra, shape[k].0))] else []
      ensures if Has(es, shape[k].0) then Yields(t, o, shape[k].1, Get(es, shape[k].0), Get(out + extra, shape[k].0))
              else Yields(t, o, shape[k].1, Undefined, Undefined)
    {
      PieceKept(out, extra, shape[k].0, ps[k]);
      PieceYields(t, o, i, es, path, k, Get(out + extra, shape[k].0));
    }
    GatherListed(shape, es, ps, out + extra);
    YieldsObject(t, o, i, Obj(es), w);
  }

  /** A piece's member is in the output as it is. */
  lemma PieceKept(out: Entries, extra: Entries, key: string, p: Piece<(string, Value)>)
    requires Reflects(out, key, p)
    ensures p.out != [] ==> Get(out + extra, key) == p.out[0].1
  {
    hide Has, Get;
    GetConcat(out, extra, key);
  }

  lemma PieceShape(t: Table, o: Oracle, i: nat, es: Entries, path: seq<Step>, k: nat)
    requires Wf(t) && i < |t| && t[i].body.ObjectS? && k < |t[i].body.shape|
    ensures var p := MemberPieces(t, o, i, t[i].body.shape, es, path)[k];
      && (p.out != [] ==> |p.out| == 1 && p.out[0].0 == t[i].body.shape[k].0)
      && (Has(es, t[i].body.shape[k].0) && p.issues == [] ==> p.out != [])
  {
    hide Has, Get;
  }

  lemma {:induction false} ObjectBackward(t: Table, o: Oracle, i: nat, es: Entries, path: seq<Step>, w: Value)
    requires Wf(t) && i < |t| && t[i].body.ObjectS? && Real(Obj(es)) && Yields(t, o, i, Obj(es), w)
    ensures ParseAt(t, o, i, Obj(es), path).value == Some(w)
    decreases i, 0, 1
  {
    hide Real, Yields, ParseAt, Gather, Others, Has, Get;
    YieldsObject(t, o, i, Obj(es), w);
    var shape := t[i].body.shape;
    var ps := MemberPieces(t, o, i, shape, es, path);
    forall k | 0 <= k < |ps|
      ensures ps[k].issues == [] && ps[k].out == if Has(es, shape[k].0) then [(shape[k].0, Get(w.entries, shape[k].0))] else []
    {
      PieceYields(t, o, i, es, path, k, Get(w.entries, shape[k].0));
    }
    GatherIssues(ps);
    GatherListed(shape, es, ps, w.entries);
    ParsedObject(t, o, i, es, path);
  }

  // ---------------------------------------------------------------- what comes back

  lemma {:induction false} JsonReal(v: Value)
    requires JsonData(v)
    ensures Real(v)
  {
    match v
    case Arr(items) => forall k | 0 <= k < |items| ensures Real(items[k]) { JsonReal(items[k]); }
    case Obj(es) => forall k | 0 <= k < |es| ensures Real(es[k].1) { JsonReal(es[k].1); }
    case _ =>
  }

  /** `safeParse` on any JSON value. */
  lemma SafeParseExactly(t: Table, o: Oracle, i: nat, v: Value, w: Value)
    requires Wf(t) && i < |t| && JsonData(v)
    ensures SafeParse(t, o, i, v).value == Some(w) <==> Yields(t, o, i, v, w)
    ensures SafeParse(t, o, i, v).value.None? <==> !Takes(t, o, i, v)
  {
    hide Yields, ParseAt;
    JsonReal(v);
    ParseYields(t, o, i, v, [], w);
    TakesParsed(t, o, i, v, []);
  }

  lemma {:induction false} HasListed(shape: seq<(string, nat)>, es: Entries, out: Entries, key: string)
    ensures Has(Listed(shape, es, out), key) <==> Declared(shape, key) && Has(es, key)
    decreases |shape|
  {
    hide Has, Get;
    if shape == [] {
      NoneHas(key);
    } else {
      var n := |shape| - 1;
      HasListed(shape[..n], es, out, key);
      DeclaredSnoc(shape, key);
      var last := if Has(es, shape[n].0) then [(shape[n].0, Get(out, shape[n].0))] else [];
      GetConcat(Listed(shape[..n], es, out), last, key);
      if Has(es, shape[n].0) { OneHas(shape[n].0, Get(out, shape[n].0), key); } else { NoneHas(key); }
    }
  }

  lemma NoneHas(key: string)
    ensures !Has([], key)
  {
  }

  lemma OneHas(k: string, x: Value, key: string)
    ensures Has([(k, x)], key) <==> key == k
  {
    assert [(k, x)][0].0 == k;
  }

  lemma DeclaredSnoc(shape: seq<(string, nat)>, key: string)
    requires shape != []
    ensures var n := |shape| - 1; Declared(shape, key) <==> Declared(shape[..n], key) || shape[n].0 == key
  {
    var n := |shape| - 1;
    assert forall k | 0 <= k < n :: shape[..n][k] == shape[k];
  }

  lemma {:induction false} HasOthers(shape: seq<(string, nat)>, es: Entries, key: string)
    ensures Has(Others(shape, es), key) <==> Has(es, key) && !Declared(shape, key)
    ensures !Declared(shape, key) ==> Get(Others(shape, es), key) == Get(es, key)
  {
    hide Declared;
    if es == [] {
      NoneHas(key);
    } else {
      HasOthers(shape, es[1..], key);
      HasCons(es, key);
      var rest := Others(shape, es[1..]);
      if Declared(shape, es[0].0) {
        assert [] + rest == rest;
      } else {
        var all := [es[0]] + rest;
        assert all[1..] == rest;
        HasCons(all, key);
      }
    }
  }

  /** Key by key: a declared member comes back exactly when it is there, as its schema gives it; any
      other exactly in loose mode, as it is. */
  lemma MembersBack(t: Table, o: Oracle, i: nat, es: Entries, w: Value, key: string)
    requires Wf(t) && i < |t| && t[i].body.ObjectS? && Yields(t, o, i, Obj(es), w)
    ensures w.Obj?
    ensures Declared(t[i].body.shape, key) ==> (Has(w.entries, key) <==> Has(es, key))
    ensures forall k | 0 <= k < |t[i].body.shape| && t[i].body.shape[k].0 == key && Has(es, key) ::
      Yields(t, o, t[i].body.shape[k].1, Get(es, key), Get(w.entries, key))
    ensures !Declared(t[i].body.shape, key) ==> (Has(w.entries, key) <==> t[i].body.unknownKeys == Loose && Has(es, key))
    ensures !Declared(t[i].body.shape, key) && Has(w.entries, key) ==> Get(w.entries, key) == Get(es, key)
  {
    hide Yields, Has, Get, Declared, Listed, Others;
    YieldsObject(t, o, i, Obj(es), w);
    var shape := t[i].body.shape;
    var extra := if t[i].body.unknownKeys == Loose then Others(shape, es) else [];
    HasListed(shape, es, w.entries, key);
    HasOthers(shape, es, key);
    NoneHas(key);
    GetConcat(Listed(shape, es, w.entries), extra, key);
  }

  /** The members that are declared, in order. */
  function Only(shape: seq<(string, nat)>, es: Entries): Entries {
    if es == [] then [] else (if Declared(shape, es[0].0) then [es[0]] else []) + Only(shape, es[1..])
  }

  lemma {:induction false} HasOnly(shape: seq<(string, nat)>, es: Entries, key: string)
    ensures Has(Only(shape, es), key) <==> Has(es, key) && Declared(shape, key)
    ensures Declared(shape, key) ==> Get(Only(shape, es), key) == Get(es, key)
    ensures Others(shape, Only(shape, es)) == []
  {
    hide Declared;
    if es == [] {
      NoneHas(key);
    } else {
      HasOnly(shape, es[1..], key);
      HasCons(es, key);
      var rest := Only(shape, es[1..]);
      if Declared(shape, es[0].0) {
        var all := [es[0]] + rest;
        assert all[1..] == rest;
        HasCons(all, key);
      } else {
        assert [] + rest == rest;
      }
    }
  }

  lemma {:induction false} OnlyReal(shape: seq<(string, nat)>, es: Entries)
    requires Real(Obj(es))
    ensures Real(Obj(Only(shape, es))) && forall e | e in Only(shape, es) :: e in es
  {
    hide Declared;
    if es != [] {
      var rest := Only(shape, es[1..]);
      RealTail(es);
      OnlyReal(shape, es[1..]);
      forall k | 0 <= k < |rest|
        ensures rest[k].0 != es[0].0
      {
        assert rest[k] in es[1..];
      }
    }
  }

  lemma RealTail(es: Entries)
    requires Real(Obj(es)) && es != []
    ensures Real(Obj(es[1..]))
  {
  }

  lemma {:induction false} ListedOnly(shape: seq<(string, nat)>, all: seq<(string, nat)>, es: Entries, out: Entries)
    requires forall k | 0 <= k < |shape| :: Declared(all, shape[k].0)
    ensures Listed(shape, Only(all, es), out) == Listed(shape, es, out)
    decreases |shape|
  {
    hide Has, Get, Declared, Only;
    if shape != [] {
      var n := |shape| - 1;
      ListedOnly(shape[..n], all, es, out);
      HasOnly(all, es, shape[n].0);
    }
  }

  /** A strip object gives for a value what it gives for its declared members alone; so it accepts
      exactly the values it accepts once the others are taken away. */
  lemma StripIgnores(t: Table, o: Oracle, i: nat, es: Entries)
    requires Wf(t) && i < |t| && t[i].body.ObjectS? && t[i].body.unknownKeys == Strip && Real(Obj(es))
    ensures SafeParse(t, o, i, Obj(es)).value == SafeParse(t, o, i, Obj(Only(t[i].body.shape, es))).value
    ensures Others(t[i].body.shape, Only(t[i].body.shape, es)) == []
  {
    hide Yields, ParseAt, Real, Only, Others;
    var shape := t[i].body.shape;
    var v, u := Obj(es), Obj(Only(shape, es));
    OnlyReal(shape, es);
    HasOnly(shape, es, "");
    forall w
      ensures Yields(t, o, i, v, w) <==> Yields(t, o, i, u, w)
    {
      StripSame(t, o, i, es, w);
    }
    var p, q := SafeParse(t, o, i, v).value, SafeParse(t, o, i, u).value;
    if p.Some? { ParseYields(t, o, i, v, [], p.value); ParseYields(t, o, i, u, [], p.value); }
    if q.Some? { ParseYields(t, o, i, v, [], q.value); ParseYields(t, o, i, u, [], q.value); }
  }

  lemma StripSame(t: Table, o: Oracle, i: nat, es: Entries, w: Value)
    requires Wf(t) && i < |t| && t[i].body.ObjectS? && t[i].body.unknownKeys == Strip
    ensures Yields(t, o, i, Obj(es), w) <==> Yields(t, o, i, Obj(Only(t[i].body.shape, es)), w)
  {
    hide Yields, Has, Get, Only, Others, Declared, Listed;
    var shape := t[i].body.shape;
    YieldsObject(t, o, i, Obj(es), w);
    YieldsObject(t, o, i, Obj(Only(shape, es)), w);
    AllThere(shape);
    if w.Obj? {
      ListedOnly(shape, shape, es, w.entries);
      forall k | 0 <= k < |shape|
        ensures Has(Only(shape, es), shape[k].0) == Has(es, shape[k].0) && Get(Only(shape, es), shape[k].0) == Get(es, shape[k].0)
      {
        HasOnly(shape, es, shape[k].0);
      }
    }
  }

  lemma AllThere(shape: seq<(string, nat)>)
    ensures forall k | 0 <= k < |shape| :: Declared(shape, shape[k].0)
  {
  }

  // ---------------------------------------------------------------- issues

  /** Schema `i` objects to `v` at `rest` below it. A scalar, or a union none of whose options takes
      the value, is objected to where it stands; arrays and records where they are none or of the wrong
      size, and otherwise wherever one of their elements is; objects also for the keys strict mode does
      not know; a refined value at the path its check names. */
  ghost predicate Blamed(t: Table, o: Oracle, i: nat, v: Value, rest: seq<Step>, code: Code)
    requires Wf(t) && i < |t|
    decreases i
  {
    match t[i].body
    case ArrayS(item, mn, mx) =>
      if !v.Arr? || (mn.Some? && |v.items| < mn.value) || (mx.Some? && |v.items| > mx.value) then rest == [] && code == Invalid
      else rest != [] && rest[0].Index? && rest[0].index < |v.items| && Blamed(t, o, item, v.items[rest[0].index], rest[1..], code)
    case RecordS(item) =>
      if !v.Obj? then rest == [] && code == Invalid
      else rest != [] && rest[0].Key? && Has(v.entries, rest[0].key) && Blamed(t, o, item, Get(v.entries, rest[0].key), rest[1..], code)
    case ObjectS(shape, mode) =>
      if !v.Obj? then rest == [] && code == Invalid
      else
        || (rest == [] && mode == Strict && Unknown(code, Others(shape, v.entries)))
        || (rest != [] && rest[0].Key? && exists k | 0 <= k < |shape| ::
              shape[k].0 == rest[0].key && Blamed(t, o, shape[k].1, Get(v.entries, rest[0].key), rest[1..], code))
    case OptionalS(inner) => v != Undefined && Blamed(t, o, inner, v, rest, code)
    case NullableS(inner) => v != Null && Blamed(t, o, inner, v, rest, code)
    case RefinedS(inner, check, at) =>
      if Takes(t, o, inner, v) then rest == at && code == Invalid && exists w :: Yields(t, o, inner, v, w) && !check(w)
      else Blamed(t, o, inner, v, rest, code)
    case _ => rest == [] && code == Invalid && !Takes(t, o, i, v)
  }

  /** The code names the keys of all these members, of which there are some. */
  predicate Unknown(code: Code, others: Entries) {
    others != [] && code.UnrecognizedKeys? && |code.keys| == |others| && forall k | 0 <= k < |others| :: code.keys[k] == others[k].0
  }

  ghost predicate BlamedAt(t: Table, o: Oracle, i: nat, v: Value, path: seq<Step>, issue: Issue)
    requires Wf(t) && i < |t|
  {
    path <= issue.path && Blamed(t, o, i, v, issue.path[|path|..], issue.code)
  }

  /** The issues of a parse are exactly the objections, each at its place. */
  lemma {:induction false} IssuesExactly(t: Table, o: Oracle, i: nat, v: Value, path: seq<Step>, issue: Issue)
    requires Wf(t) && i < |t| && Real(v)
    ensures issue in ParseAt(t, o, i, v, path).issues <==> BlamedAt(t, o, i, v, path, issue)
    decreases i, 1
  {
    hide Real, ParseAt, Yields, Takes, BlamedAt, Blamed;
    match t[i].body
    case ArrayS(_, _, _) => ArrayIssues(t, o, i, v, path, issue);
    case RecordS(_) => RecordIssues(t, o, i, v, path, issue);
    case ObjectS(_, _) => ObjectIssues(t, o, i, v, path, issue);
    case OptionalS(inner) =>
      IssuesExactly(t, o, inner, v, path, issue);
      WrapperIssues(t, o, i, v, path, issue);
    case NullableS(inner) =>
      IssuesExactly(t, o, inner, v, path, issue);
      WrapperIssues(t, o, i, v, path, issue);
    case RefinedS(inner, _, _) =>
      IssuesExactly(t, o, inner, v, path, issue);
      RefinedIssues(t, o, i, v, path, issue);
    case _ =>
      TakesParsed(t, o, i, v, path);
      HereIssues(t, o, i, v, path, issue);
  }

  lemma HereIssues(t: Table, o: Oracle, i: nat, v: Value, path: seq<Step>, issue: Issue)
    requires Wf(t) && i < |t| && (IsLeaf(t[i].body) || t[i].body.UnionS?)
    requires ParseAt(t, o, i, v, path).value.Some? <==> Takes(t, o, i, v)
    ensures issue in ParseAt(t, o, i, v, path).issues <==> BlamedAt(t, o, i, v, path, issue)
  {
    hide Takes, StringOk, NumberOk, First, Attempts;
    SameEnd(path, issue.path);
    assert ParseAt(t, o, i, v, path).value.None? ==> ParseAt(t, o, i, v, path).issues == [Issue(path, Invalid)];
  }

  lemma SameEnd(path: seq<Step>, q: seq<Step>)
    ensures path <= q && q[|path|..] == [] <==> q == path
  {
  }

  lemma WrapperIssues(t: Table, o: Oracle, i: nat, v: Value, path: seq<Step>, issue: Issue)
    requires Wf(t) && i < |t| && (t[i].body.OptionalS? || t[i].body.NullableS?)
    requires issue in ParseAt(t, o, t[i].body.inner, v, path).issues <==> BlamedAt(t, o, t[i].body.inner, v, path, issue)
    ensures issue in ParseAt(t, o, i, v, path).issues <==> BlamedAt(t, o, i, v, path, issue)
  {
  }

  lemma RefinedIssues(t: Table, o: Oracle, i: nat, v: Value, path: seq<Step>, issue: Issue)
    requires Wf(t) && i < |t| && t[i].body.RefinedS? && Real(v)
    requires issue in ParseAt(t, o, t[i].body.inner, v, path).issues <==> BlamedAt(t, o, t[i].body.inner, v, path, issue)
    ensures issue in ParseAt(t, o, i, v, path).issues <==> BlamedAt(t, o, i, v, path, issue)
  {
    hide Real, Yields, Takes;
    var (inner, at) := (t[i].body.inner, t[i].body.at);
    TakesParsed(t, o, inner, v, path);
    var p := ParseAt(t, o, inner, v, path);
    assert path <= issue.path && issue.path[|path|..] == at <==> issue.path == path + at;
    if p.value.Some? {
      ParseYields(t, o, inner, v, path, p.value.value);
      forall w | Yields(t, o, inner, v, w)
        ensures w == p.value.value
      {
        ParseYields(t, o, inner, v, path, w);
      }
    }
  }

  lemma {:induction false} GatherMembers<T>(ps: seq<Piece<T>>, issue: Issue)
    ensures issue in Gather(ps).issues <==> exists k | 0 <= k < |ps| :: issue in ps[k].issues
    decreases |ps|
  {
    if ps != [] {
      var n := |ps| - 1;
      GatherMembers(ps[..n], issue);
      assert forall k | 0 <= k < n :: ps[..n][k] == ps[k];
      if k :| 0 <= k < |ps| && issue in ps[k].issues { if k < n { assert issue in ps[..n][k].issues; } }
    }
  }

  predicate Inside(path: seq<Step>, step: Step, q: seq<Step>) {
    path <= q && q[|path|..] != [] && q[|path|..][0] == step
  }

  lemma StepDown(path: seq<Step>, step: Step, q: seq<Step>)
    ensures path + [step] <= q <==> Inside(path, step, q)
    ensures path + [step] <= q ==> q[|path + [step]|..] == q[|path|..][1..]
  {
    if Inside(path, step, q) {
      assert q == path + q[|path|..];
      assert q[|path|] == step;
    }
  }

  lemma {:induction false} ArrayIssues(t: Table, o: Oracle, i: nat, v: Value, path: seq<Step>, issue: Issue)
    requires Wf(t) && i < |t| && Real(v) && t[i].body.ArrayS?
    ensures issue in ParseAt(t, o, i, v, path).issues <==> BlamedAt(t, o, i, v, path, issue)
    decreases i, 0
  {
    hide Gather;
    var body := t[i].body;
    SameEnd(path, issue.path);
    if v.Arr? && !(body.minItems.Some? && |v.items| < body.minItems.value) && !(body.maxItems.Some? && |v.items| > body.maxItems.value) {
      var ps := ItemPieces(t, o, body.item, v.items, path);
      GatherMembers(ps, issue);
      forall k | 0 <= k < |ps|
        ensures issue in ps[k].issues <==> Inside(path, Index(k), issue.path) && Blamed(t, o, body.item, v.items[k], issue.path[|path|..][1..], issue.code)
      {
        IssuesExactly(t, o, body.item, v.items[k], path + [Index(k)], issue);
        StepDown(path, Index(k), issue.path);
      }
    }
  }

  lemma {:induction false} RecordIssues(t: Table, o: Oracle, i: nat, v: Value, path: seq<Step>, issue: Issue)
    requires Wf(t) && i < |t| && Real(v) && t[i].body.RecordS?
    ensures issue in ParseAt(t, o, i, v, path).issues <==> BlamedAt(t, o, i, v, path, issue)
    decreases i, 0
  {
    hide Gather, Get;
    SameEnd(path, issue.path);
    if v.Obj? {
      var es := v.entries;
      var item := t[i].body.valueSchema;
      var ps := EntryPieces(t, o, item, es, path);
      GatherMembers(ps, issue);
      forall k | 0 <= k < |ps|
        ensures Has(es, es[k].0)
        ensures issue in ps[k].issues <==> Inside(path, Key(es[k].0), issue.path) && Blamed(t, o, item, Get(es, es[k].0), issue.path[|path|..][1..], issue.code)
      {
        GetAt(es, k);
        IssuesExactly(t, o, item, es[k].1, path + [Key(es[k].0)], issue);
        StepDown(path, Key(es[k].0), issue.path);
      }
    }
  }

  lemma {:induction false} ObjectIssues(t: Table, o: Oracle, i: nat, v: Value, path: seq<Step>, issue: Issue)
    requires Wf(t) && i < |t| && Real(v) && t[i].body.ObjectS?
    ensures issue in ParseAt(t, o, i, v, path).issues <==> BlamedAt(t, o, i, v, path, issue)
    decreases i, 0
  {
    hide Gather, Get, Has, Others, Real;
    SameEnd(path, issue.path);
    if v.Obj? {
      var shape, es := t[i].body.shape, v.entries;
      var ps := MemberPieces(t, o, i, shape, es, path);
      GatherMembers(ps, issue);
      OthersAre(shape, es);
      forall k | 0 <= k < |ps|
        ensures issue in ps[k].issues <==> Inside(path, Key(shape[k].0), issue.path) && Blamed(t, o, shape[k].1, Get(es, shape[k].0), issue.path[|path|..][1..], issue.code)
      {
        RealMember(es, shape[k].0);
        IssuesExactly(t, o, shape[k].1, Get(es, shape[k].0), path + [Key(shape[k].0)], issue);
        StepDown(path, Key(shape[k].0), issue.path);
      }
      UnknownIs(issue.code, UndeclaredEntries(shape, es));
    }
  }

  lemma UnknownIs(code: Code, others: Entries)
    ensures Unknown(code, others) <==> others != [] && code == UnrecognizedKeys(Keys(others))
  {
    if Unknown(code, others) { assert code.keys == Keys(others); }
  }
}
