/** The two semantics of a schema agree (src/schema.ts): what `safeParse` returns satisfies
    the document `toJsonSchema` publishes, and what the document admits, `safeParse` accepts. */
module SchemaTheorems {
  import opened Common
  import opened SchemaNodes
  import opened SchemaParse
  import opened JsonSchema
  import opened SchemaEmit
  import opened SchemaMeaning
  import opened SchemaValid
  import opened SchemaEmitProof

  // ---------------------------------------------------------------- the document's meaning

  /** Whatever the keys are: where a recorded path is read back from its `$ref` text, the text
      resolves, inside the finished document, to a body of that very schema, unless it goes
      through a member called `__proto__`: then it leads nowhere. */
  lemma RefResolves(t: Table, i: nat, s: nat)
    requires Wf(t) && Placeable(t) && i < |t| && s in Emit(t, true, i, ["#"], None, map[]).seen
    ensures var path := Emit(t, true, i, ["#"], None, map[]).seen[s];
      && path != [] && path[0] == "#"
      && (Tokens(Join(path, '/')) == Some(path[1..]) <==> forall k | 0 <= k < |path| :: PlainToken(path[k]))
      && ((forall k | 0 <= k < |path| :: PlainToken(path[k])) ==>
            if Lost(path) then Through(Join(path, '/')) && Resolve(ToJsonSchema(t, i), Join(path, '/')).None?
            else ResolvedAt(t, ToJsonSchema(t, i), Emit(t, true, i, ["#"], None, map[]).seen, s))
  {
    hide Placeable, PlainToken, Tokens, ReprBody, Emit, Emits, Lost, Straight, Storable, PlainKeys;
    RootOk(t, i);
    var e := Emit(t, true, i, ["#"], None, map[]);
    var path := e.seen[s];
    assert Spot(t, e.doc.value, ["#"], s, e.seen);
    TokensExactly(path);
    if (forall k | 0 <= k < |path| :: PlainToken(path[k])) && Lost(path) {
      LostThrough(path);
      ReprStraight(t, e.doc.value, i, e.seen);
      StraightTame(e.doc.value, e.seen);
      ThroughDangles(e.doc.value, Join(path, '/'));
    }
  }

  lemma StraightTame(d: Doc, seen: Seen)
    requires Straight(d, seen)
    ensures Tame(d) && (NoneLost(seen) ==> Direct(d))
  {
  }

  lemma LostThrough(path: Path)
    requires path != [] && path[0] == "#" && Tokens(Join(path, '/')) == Some(path[1..])
    ensures Through(Join(path, '/')) <==> Lost(path)
  {
    hide Tokens, Join;
    assert path == [path[0]] + path[1..];
    assert "#" != "__proto__" by { assert |"#"| != |"__proto__"|; }
  }

  /** The emission of the whole document, with every recorded path leading to its body. */
  lemma RootOk(t: Table, i: nat)
    requires Wf(t) && Placeable(t) && i < |t|
    ensures var e := Emit(t, true, i, ["#"], None, map[]);
      && e.doc.Some? && ToJsonSchema(t, i) == e.doc.value && Repr(t, e.doc.value, i, e.seen)
      && forall s | s in e.seen :: Spot(t, e.doc.value, ["#"], s, e.seen)
  {
    hide Placeable, Fits, SafePath, Repr, Spot, Emit;
    RootStart(t, true);
    EmitOk(t, true, i, ["#"], None, map[]);
  }

  lemma RootStart(t: Table, share: bool)
    requires Wf(t) && if share then Placeable(t) else KeepsOne(t)
    ensures SafePath(t, ["#"]) && PropOf(None, ["#"]) && Fits(t, share)
  {
    hide KeepsOne, PlainKeys, PlainToken, Storable;
    PlainWord("#");
  }

  /** Over plain keys, every schema `toJsonSchema` records is found by the `$ref` text for its
      path, unless the text goes through a member called `__proto__`. */
  lemma RefsResolve(t: Table, i: nat)
    requires Wf(t) && Placeable(t) && PlainKeys(t) && i < |t|
    ensures Resolved(t, ToJsonSchema(t, i), Emit(t, true, i, ["#"], None, map[]).seen)
    ensures Repr(t, ToJsonSchema(t, i), i, Emit(t, true, i, ["#"], None, map[]).seen)
    ensures Tame(ToJsonSchema(t, i)) && (Storable(t) ==> Direct(ToJsonSchema(t, i)))
  {
    hide Placeable, PlainKeys, PlainToken, Tokens, Repr, ResolvedAt, Emit, Lost, Through, Storable, ToJsonSchema;
    RootOk(t, i);
    var e := Emit(t, true, i, ["#"], None, map[]);
    forall s | s in e.seen
      ensures if Lost(e.seen[s]) then Through(Join(e.seen[s], '/')) else ResolvedAt(t, e.doc.value, e.seen, s)
      ensures Storable(t) ==> !Through(Join(e.seen[s], '/'))
    {
      assert Spot(t, e.doc.value, ["#"], s, e.seen);
      RefResolves(t, i, s);
      LostThrough(e.seen[s]);
    }
    ReprStraight(t, e.doc.value, i, e.seen);
    StraightTame(e.doc.value, e.seen);
  }

  /** References terminate: the published document expands within `i + 1` nested hops, and the
      expansion stands for the same schema without any reference. */
  lemma RefsTerminate(t: Table, i: nat)
    requires Wf(t) && Placeable(t) && PlainKeys(t) && i < |t| && Direct(ToJsonSchema(t, i))
    ensures Expand(ToJsonSchema(t, i), ToJsonSchema(t, i), i + 1).Some?
    ensures Repr(t, Expand(ToJsonSchema(t, i), ToJsonSchema(t, i), i + 1).value, i, map[])
  {
    RefsResolve(t, i);
    hide *;
    ExpandRepr(t, ToJsonSchema(t, i), Emit(t, true, i, ["#"], None, map[]).seen, ToJsonSchema(t, i), i, i + 1);
  }

  /** The published document validates exactly the values the schema admits, and none at all when
      one of its references goes through a member called `__proto__`. */
  lemma DocumentMeaning(t: Table, o: Oracle, i: nat, v: Value)
    requires Wf(t) && Placeable(t) && PlainKeys(t) && i < |t| && JsonData(v)
    ensures Validates(o, ToJsonSchema(t, i), v) <==> Direct(ToJsonSchema(t, i)) && Accepts(t, o, i, v)
    ensures Storable(t) ==> Direct(ToJsonSchema(t, i))
  {
    hide Placeable, PlainKeys, Storable, Direct, Accepts, ToJsonSchema, Expand, Valid, Repr, Tame;
    RefsResolve(t, i);
    var root := ToJsonSchema(t, i);
    if Direct(root) {
      RefsTerminate(t, i);
      ValidatesWith(o, root, v, i + 1);
      ValidRepr(t, o, Expand(root, root, i + 1).value, i, v);
    } else {
      forall fuel: nat
        ensures Expand(root, root, fuel).None?
      {
        LostDangles(root, root, fuel);
      }
    }
  }

  /** Sharing by `$ref` changes nothing a validator can see, as long as no reference is lost. */
  lemma SharingPreservesMeaning(t: Table, o: Oracle, i: nat, v: Value)
    requires Wf(t) && Placeable(t) && PlainKeys(t) && i < |t| && JsonData(v)
    ensures Validates(o, ToJsonSchema(t, i), v) <==> Direct(ToJsonSchema(t, i)) && Validates(o, ToUnsharedJsonSchema(t, i), v)
    ensures Storable(t) ==> Direct(ToJsonSchema(t, i))
  {
    hide KeepsOne, PlainKeys, Storable, Direct, Accepts, ToJsonSchema, ToUnsharedJsonSchema, Validates;
    DocumentMeaning(t, o, i, v);
    UnsharedMeaning(t, o, i, v);
  }

  /** Without sharing, keys do not matter, nor do dropped options as long as every union keeps one. */
  lemma UnsharedMeaning(t: Table, o: Oracle, i: nat, v: Value)
    requires Wf(t) && KeepsOne(t) && i < |t| && JsonData(v)
    ensures Validates(o, ToUnsharedJsonSchema(t, i), v) <==> Accepts(t, o, i, v)
  {
    hide KeepsOne, Fits, SafePath, Repr, Emit, Valid, Accepts, Expand, Validates, Straight, Direct, Tame;
    RootStart(t, false);
    EmitOk(t, false, i, ["#"], None, map[]);
    var root := ToUnsharedJsonSchema(t, i);
    ReprStraight(t, root, i, map[]);
    StraightTame(root, map[]);
    ExpandRepr(t, root, map[], root, i, i + 1);
    ValidatesWith(o, root, v, i + 1);
    ValidRepr(t, o, Expand(root, root, i + 1).value, i, v);
  }

  // ---------------------------------------------------------------- checks

  /** The printed pattern, which has no flags, is among the checks. */
  predicate TextPrinted(checks: seq<StringCheck>) {
    TextOf(checks).pattern.Some? ==> Regex(TextOf(checks).pattern.value, "") in checks
  }

  lemma {:induction false} TextForwardBut(o: Oracle, checks: seq<StringCheck>, s: string)
    requires forall k | 0 <= k < |checks| :: StringOk(o, checks[k], s)
    ensures TextOk(o, TextOf(checks).(pattern := None), s)
  {
    if checks != [] {
      TextForwardBut(o, checks[..|checks| - 1], s);
      assert StringOk(o, checks[|checks| - 1], s);
    }
  }

  lemma TextForward(o: Oracle, checks: seq<StringCheck>, s: string)
    requires TextPrinted(checks) && forall k | 0 <= k < |checks| :: StringOk(o, checks[k], s)
    ensures TextOk(o, TextOf(checks), s)
  {
    hide TextOf;
    TextForwardBut(o, checks, s);
    if TextOf(checks).pattern.Some? {
      var k :| 0 <= k < |checks| && checks[k] == Regex(TextOf(checks).pattern.value, "");
      assert StringOk(o, checks[k], s);
    }
  }

  /** The document keeps every check: every pattern is the one it prints, without flags. */
  predicate TextKept(checks: seq<StringCheck>) {
    forall k | 0 <= k < |checks| && checks[k].Regex? :: TextOf(checks).pattern == Some(checks[k].source) && checks[k].flags == ""
  }

  /** A pattern that is printed is that of some check. */
  lemma {:induction false} PatternFrom(checks: seq<StringCheck>)
    ensures TextOf(checks).pattern.Some? ==> exists k | 0 <= k < |checks| :: checks[k].Regex? && TextOf(checks).pattern == Some(checks[k].source)
  {
    if checks != [] {
      var init := checks[..|checks| - 1];
      PatternFrom(init);
      if checks[|checks| - 1].Regex? {
        assert TextOf(checks).pattern == Some(checks[|checks| - 1].source);
      } else if TextOf(init).pattern.Some? {
        var k :| 0 <= k < |init| && init[k].Regex? && TextOf(init).pattern == Some(init[k].source);
        assert checks[k] == init[k];
      }
    }
  }

  lemma KeptPrinted(checks: seq<StringCheck>)
    requires TextKept(checks)
    ensures TextPrinted(checks)
  {
    hide TextOf;
    PatternFrom(checks);
  }

  /** The keywords ask for at least what the check does; of a pattern, that there is one. */
  predicate TextCovered(x: Text, check: StringCheck) {
    match check
    case MinLength(m) => x.minLength.Some? && x.minLength.value >= m
    case MaxLength(m) => x.maxLength.Some? && x.maxLength.value <= m
    case Url => x.format == Some("uri")
    case Regex(_, _) => x.pattern.Some?
  }

  lemma {:induction false} TextCovers(checks: seq<StringCheck>, k: nat)
    requires k < |checks|
    ensures TextCovered(TextOf(checks), checks[k])
  {
    var n := |checks| - 1;
    if k < n {
      TextCovers(checks[..n], k);
    }
  }

  lemma TextBackward(o: Oracle, checks: seq<StringCheck>, s: string)
    requires TextKept(checks) && TextOk(o, TextOf(checks), s)
    ensures forall k | 0 <= k < |checks| :: StringOk(o, checks[k], s)
  {
    forall k | 0 <= k < |checks|
      ensures StringOk(o, checks[k], s)
    {
      TextCovers(checks, k);
    }
  }

  lemma {:induction false} NumberForward(checks: seq<NumberCheck>, n: real)
    requires forall k | 0 <= k < |checks| :: NumberOk(checks[k], n)
    ensures HasType(Num(n), NumberOf(checks).ty) && RangeOk(NumberOf(checks).range, n)
  {
    if checks != [] {
      NumberForward(checks[..|checks| - 1], n);
      assert NumberOk(checks[|checks| - 1], n);
    }
  }

  /** The document keeps every check: the last minimum is the greatest, the last maximum the least. */
  predicate NumberKept(checks: seq<NumberCheck>) {
    forall k | 0 <= k < |checks| ::
      match checks[k]
      case Int => true
      case Min(m) => NumberOf(checks).range.minimum.Some? ==> m <= NumberOf(checks).range.minimum.value
      case Max(m) => NumberOf(checks).range.maximum.Some? ==> m >= NumberOf(checks).range.maximum.value
  }

  /** The check has its keyword. */
  predicate NumberCovered(rules: NumberRules, check: NumberCheck) {
    match check
    case Int => rules.ty == "integer"
    case Min(_) => rules.range.minimum.Some?
    case Max(_) => rules.range.maximum.Some?
  }

  lemma {:induction false} NumberCovers(checks: seq<NumberCheck>, k: nat)
    requires k < |checks|
    ensures NumberCovered(NumberOf(checks), checks[k])
  {
    var n := |checks| - 1;
    if k < n {
      NumberCovers(checks[..n], k);
    }
  }

  lemma NumberBackward(checks: seq<NumberCheck>, n: real)
    requires NumberKept(checks) && HasType(Num(n), NumberOf(checks).ty) && RangeOk(NumberOf(checks).range, n)
    ensures forall k | 0 <= k < |checks| :: NumberOk(checks[k], n)
  {
    forall k | 0 <= k < |checks|
      ensures NumberOk(checks[k], n)
    {
      NumberCovers(checks, k);
    }
  }

  predicate ChecksKept(t: Table) {
    forall i | 0 <= i < |t| ::
      match t[i].body
      case StringS(checks) => TextKept(checks)
      case NumberS(checks) => NumberKept(checks)
      case _ => true
  }

  /** In every string schema the printed pattern is among the checks. */
  predicate PatternsPrinted(t: Table) {
    forall i | 0 <= i < |t| && t[i].body.StringS? :: TextPrinted(t[i].body.textChecks)
  }

  lemma ChecksPrinted(t: Table)
    requires ChecksKept(t)
    ensures PatternsPrinted(t)
  {
    hide TextKept, NumberKept, TextPrinted;
    forall i | 0 <= i < |t| && t[i].body.StringS?
      ensures TextPrinted(t[i].body.textChecks)
    {
      KeptPrinted(t[i].body.textChecks);
    }
  }

  predicate SameKind(c: NumberCheck, d: NumberCheck) {
    (c.Int? && d.Int?) || (c.Min? && d.Min?) || (c.Max? && d.Max?)
  }

  /** One check of each kind is always kept. */
  lemma {:induction false} OneOfEachKept(checks: seq<NumberCheck>)
    requires forall j, k | 0 <= j < k < |checks| :: !SameKind(checks[j], checks[k])
    ensures forall k | 0 <= k < |checks| && checks[k].Min? :: NumberOf(checks).range.minimum == Some(checks[k].value)
    ensures forall k | 0 <= k < |checks| && checks[k].Max? :: NumberOf(checks).range.maximum == Some(checks[k].value)
    ensures NumberKept(checks)
  {
    if checks != [] {
      OneOfEachKept(checks[..|checks| - 1]);
    }
  }

  /** So is a single pattern without flags. */
  lemma {:induction false} OnePatternKept(checks: seq<StringCheck>)
    requires forall j, k | 0 <= j < k < |checks| :: !(checks[j].Regex? && checks[k].Regex?)
    requires forall k | 0 <= k < |checks| && checks[k].Regex? :: checks[k].flags == ""
    ensures forall k | 0 <= k < |checks| && checks[k].Regex? :: TextOf(checks).pattern == Some(checks[k].source)
    ensures TextKept(checks)
  {
    if checks != [] {
      OnePatternKept(checks[..|checks| - 1]);
    }
  }

  // ---------------------------------------------------------------- pieces

  lemma {:induction false} GatherIssues<T>(ps: seq<Piece<T>>)
    ensures Gather(ps).issues == [] <==> forall k | 0 <= k < |ps| :: ps[k].issues == []
  {
    if ps != [] {
      GatherIssues(ps[..|ps| - 1]);
      assert forall k | 0 <= k < |ps| - 1 :: ps[k] == ps[..|ps| - 1][k];
    }
  }

  lemma {:induction false} GatherSingles<T>(ps: seq<Piece<T>>)
    requires forall k | 0 <= k < |ps| :: |ps[k].out| == 1
    ensures |Gather(ps).out| == |ps| && forall k | 0 <= k < |ps| :: Gather(ps).out[k] == ps[k].out[0]
  {
    if ps != [] {
      GatherSingles(ps[..|ps| - 1]);
    }
  }

  lemma HasCons(es: Entries, key: string)
    requires es != []
    ensures Has(es, key) <==> es[0].0 == key || Has(es[1..], key)
  {
    if Has(es, key) {
      var k :| 0 <= k < |es| && es[k].0 == key;
      if k > 0 { assert es[1..][k - 1] == es[k]; }
    }
    if Has(es[1..], key) {
      var k :| 0 <= k < |es[1..]| && es[1..][k].0 == key;
      assert es[k + 1] == es[1..][k];
    }
  }

  lemma {:induction false} GetConcat(a: Entries, b: Entries, key: string)
    ensures Has(a + b, key) <==> Has(a, key) || Has(b, key)
    ensures Get(a + b, key) == if Has(a, key) then Get(a, key) else Get(b, key)
  {
    if a == [] {
      assert a + b == b;
    } else {
      GetConcat(a[1..], b, key);
      assert (a + b)[0] == a[0] && (a + b)[1..] == a[1..] + b;
      HasCons(a, key);
      HasCons(a + b, key);
    }
  }

  /** Each piece adds the member of its own key, or nothing. */
  ghost predicate KeyedPieces(shape: seq<(string, nat)>, ps: seq<Piece<(string, Value)>>) {
    |ps| == |shape| && forall k | 0 <= k < |ps| :: ps[k].out == [] || (|ps[k].out| == 1 && ps[k].out[0].0 == shape[k].0)
  }

  /** The member a piece speaks of is in `out` exactly as the piece says. */
  ghost predicate Reflects(out: Entries, key: string, p: Piece<(string, Value)>) {
    if p.out == [] then !Has(out, key) else Has(out, key) && Get(out, key) == p.out[0].1
  }

  lemma ReflectsLonger(out: Entries, more: Entries, key: string, p: Piece<(string, Value)>)
    requires Reflects(out, key, p) && forall j | 0 <= j < |more| :: more[j].0 != key
    ensures Reflects(out + more, key, p)
  {
    GetConcat(out, more, key);
  }

  lemma {:induction false} GatherKeyed(shape: seq<(string, nat)>, ps: seq<Piece<(string, Value)>>)
    requires DistinctKeys(shape) && KeyedPieces(shape, ps)
    ensures DistinctKeys(Gather(ps).out)
    ensures forall k | 0 <= k < |ps| :: Reflects(Gather(ps).out, shape[k].0, ps[k])
    ensures forall j | 0 <= j < |Gather(ps).out| :: Declared(shape, Gather(ps).out[j].0)
  {
    hide Reflects, Declared, Get, Has;
    if ps != [] {
      var n := |ps| - 1;
      var out := Gather(ps[..n]).out;
      GatherKeyed(shape[..n], ps[..n]);
      GatherKeyedStep(shape, out, ps[n], n);
      forall k | 0 <= k < n
        ensures Reflects(out + ps[n].out, shape[k].0, ps[k])
      {
        assert Reflects(out, shape[..n][k].0, ps[..n][k]);
        ReflectsLonger(out, ps[n].out, shape[k].0, ps[k]);
      }
    }
  }

  lemma GatherKeyedStep(shape: seq<(string, nat)>, out: Entries, p: Piece<(string, Value)>, n: nat)
    requires DistinctKeys(shape) && n < |shape| && DistinctKeys(out)
    requires p.out == [] || (|p.out| == 1 && p.out[0].0 == shape[n].0)
    requires forall j | 0 <= j < |out| :: Declared(shape[..n], out[j].0)
    ensures DistinctKeys(out + p.out)
    ensures Reflects(out + p.out, shape[n].0, p)
    ensures forall j | 0 <= j < |out + p.out| :: Declared(shape, (out + p.out)[j].0)
  {
    forall j | 0 <= j < |out|
      ensures out[j].0 != shape[n].0 && Declared(shape, out[j].0)
    {
      var k :| 0 <= k < n && shape[..n][k].0 == out[j].0;
      assert shape[k].0 == out[j].0;
    }
    GetConcat(out, p.out, shape[n].0);
    if p.out != [] { GetAt(p.out, 0); }
  }

  lemma {:induction false} UndeclaredDistinct(shape: seq<(string, nat)>, es: Entries)
    requires DistinctKeys(es)
    ensures DistinctKeys(UndeclaredEntries(shape, es))
  {
    if es != [] {
      UndeclaredDistinct(shape, es[1..]);
      var rest := UndeclaredEntries(shape, es[1..]);
      forall k | 0 <= k < |rest|
        ensures rest[k].0 != es[0].0
      {
        assert rest[k] in es[1..];
      }
    }
  }
}
