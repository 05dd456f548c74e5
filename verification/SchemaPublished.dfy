/** Where the parser and the published document part (src/schema.ts), exactly: the document
    validates what the parser of the *published* schema accepts, in which strip mode is strict,
    refinements are gone, and of the checks those are left that the document prints. */
module SchemaPublished {
  import opened Common
  import opened SchemaNodes
  import opened SchemaParse
  import opened JsonSchema
  import opened SchemaEmit
  import opened SchemaMeaning
  import opened SchemaValid
  import opened SchemaTheorems
  import opened SchemaAgreement
  import opened SchemaReferences

  // ---------------------------------------------------------------- the published schema

  function PublishedText(x: Text): seq<StringCheck> {
    (if x.minLength.Some? then [MinLength(x.minLength.value)] else [])
    + (if x.maxLength.Some? then [MaxLength(x.maxLength.value)] else [])
    + (if x.pattern.Some? then [Regex(x.pattern.value, "")] else [])
    + (if x.format.Some? then [Url] else [])
  }

  function PublishedNumber(x: NumberRules): seq<NumberCheck> {
    (if x.ty == "integer" then [Int] else [])
    + (if x.range.minimum.Some? then [Min(x.range.minimum.value)] else [])
    + (if x.range.maximum.Some? then [Max(x.range.maximum.value)] else [])
  }

  function PublishedBody(b: Body): Body {
    match b
    case StringS(checks) => StringS(PublishedText(TextOf(checks)))
    case NumberS(checks) => NumberS(PublishedNumber(NumberOf(checks)))
    case ObjectS(shape, mode) => ObjectS(shape, if mode == Strip then Strict else mode)
    case RefinedS(inner, _, at) => RefinedS(inner, _ => true, at)
    case _ => b
  }

  function Published(t: Table): Table {
    seq(|t|, i requires 0 <= i < |t| => Node(PublishedBody(t[i].body), t[i].description))
  }

  lemma {:induction false} FormatIs(checks: seq<StringCheck>)
    ensures TextOf(checks).format.Some? ==> TextOf(checks).format == Some("uri")
  {
    if checks != [] { FormatIs(checks[..|checks| - 1]); }
  }

  lemma TextOfSnoc(checks: seq<StringCheck>, c: StringCheck)
    ensures TextOf(checks + [c]) == AddText(TextOf(checks), c)
  {
    assert (checks + [c])[..|checks|] == checks;
  }

  lemma NumberOfSnoc(checks: seq<NumberCheck>, c: NumberCheck)
    ensures NumberOf(checks + [c]) == AddNumber(NumberOf(checks), c)
  {
    assert (checks + [c])[..|checks|] == checks;
  }

  /** The published checks print the same keywords, and none of them is lost. */
  lemma TextPublished(x: Text)
    requires x.format.Some? ==> x.format == Some("uri")
    ensures TextOf(PublishedText(x)) == x && TextKept(PublishedText(x))
  {
    hide TextOf;
    TextOfNone();
    var a: seq<StringCheck> := if x.minLength.Some? then [MinLength(x.minLength.value)] else [];
    if x.minLength.Some? { TextOfSnoc([], MinLength(x.minLength.value)); assert [] + [MinLength(x.minLength.value)] == a; }
    var b := a + if x.maxLength.Some? then [MaxLength(x.maxLength.value)] else [];
    if x.maxLength.Some? { TextOfSnoc(a, MaxLength(x.maxLength.value)); } else { assert b == a; }
    var c := b + if x.pattern.Some? then [Regex(x.pattern.value, "")] else [];
    if x.pattern.Some? { TextOfSnoc(b, Regex(x.pattern.value, "")); } else { assert c == b; }
    var p := c + if x.format.Some? then [Url] else [];
    if x.format.Some? { TextOfSnoc(c, Url); } else { assert p == c; }
    assert PublishedText(x) == p;
  }

  lemma TextOfNone()
    ensures TextOf([]) == NO_TEXT
  {
  }

  lemma {:induction false} TypeIs(checks: seq<NumberCheck>)
    ensures NumberOf(checks).ty == "integer" || NumberOf(checks).ty == "number"
  {
    if checks != [] { TypeIs(checks[..|checks| - 1]); }
  }

  lemma NumberPublished(x: NumberRules)
    requires x.ty == "integer" || x.ty == "number"
    ensures NumberOf(PublishedNumber(x)) == x && NumberKept(PublishedNumber(x))
  {
    hide NumberOf;
    NumberOfNone();
    var a: seq<NumberCheck> := if x.ty == "integer" then [Int] else [];
    if x.ty == "integer" { NumberOfSnoc([], Int); assert [] + [Int] == a; }
    var b := a + if x.range.minimum.Some? then [Min(x.range.minimum.value)] else [];
    if x.range.minimum.Some? { NumberOfSnoc(a, Min(x.range.minimum.value)); } else { assert b == a; }
    var p := b + if x.range.maximum.Some? then [Max(x.range.maximum.value)] else [];
    if x.range.maximum.Some? { NumberOfSnoc(b, Max(x.range.maximum.value)); } else { assert p == b; }
    assert PublishedNumber(x) == p;
  }

  lemma NumberOfNone()
    ensures NumberOf([]) == NumberRules("number", NO_RANGE)
  {
  }

  lemma PublishedNode(t: Table, i: nat)
    requires i < |t|
    ensures |Published(t)| == |t| && Published(t)[i] == Node(PublishedBody(t[i].body), t[i].description)
  {
  }

  /** The published schema meets every condition of `Exactness` on its own. */
  lemma PublishedFits(t: Table)
    requires Wf(t)
    ensures Wf(Published(t)) && RefineFree(Published(t)) && ChecksKept(Published(t)) && StripFree(Published(t))
  {
    hide Wf, TextKept, NumberKept;
    var p := Published(t);
    forall i | 0 <= i < |p|
      ensures WfBody(p[i].body, i)
      ensures p[i].body.RefinedS? ==> forall w :: p[i].body.check(w)
      ensures p[i].body.StringS? ==> TextKept(p[i].body.textChecks)
      ensures p[i].body.NumberS? ==> NumberKept(p[i].body.numberChecks)
      ensures p[i].body.ObjectS? ==> p[i].body.unknownKeys != Strip
    {
      WfAt(t, i);
      PublishedNode(t, i);
      if t[i].body.StringS? { FormatIs(t[i].body.textChecks); TextPublished(TextOf(t[i].body.textChecks)); }
      if t[i].body.NumberS? { TypeIs(t[i].body.numberChecks); NumberPublished(NumberOf(t[i].body.numberChecks)); }
    }
    WfAll(p);
  }

  lemma WfAt(t: Table, i: nat)
    requires Wf(t) && i < |t|
    ensures WfBody(t[i].body, i)
  {
  }

  lemma WfAll(t: Table)
    requires forall i | 0 <= i < |t| :: WfBody(t[i].body, i)
    ensures Wf(t)
  {
  }

  lemma {:induction false} PublishedUndefined(t: Table, i: nat)
    requires Wf(t) && i < |t| && Wf(Published(t))
    ensures AcceptsUndefined(Published(t), i) == AcceptsUndefined(t, i)
    decreases i
  {
    PublishedNode(t, i);
    match t[i].body
    case UnionS(options) =>
      forall k | 0 <= k < |options|
        ensures AcceptsUndefined(Published(t), options[k]) == AcceptsUndefined(t, options[k])
      {
        PublishedUndefined(t, options[k]);
      }
    case NullableS(inner) => PublishedUndefined(t, inner);
    case RefinedS(inner, _, _) => PublishedUndefined(t, inner);
    case _ =>
  }

  lemma {:induction false} PublishedVacuous(t: Table, i: nat)
    requires Wf(t) && i < |t| && Wf(Published(t))
    ensures Vacuous(Published(t), i) == Vacuous(t, i)
    decreases i
  {
    PublishedNode(t, i);
    if t[i].body.RefinedS? { PublishedVacuous(t, t[i].body.inner); }
  }

  lemma PublishedLeaf(b: Body)
    requires LeafDoc(b).Some?
    ensures LeafDoc(PublishedBody(b)) == LeafDoc(b)
  {
    if b.StringS? { FormatIs(b.textChecks); TextPublished(TextOf(b.textChecks)); }
    if b.NumberS? { TypeIs(b.numberChecks); NumberPublished(NumberOf(b.numberChecks)); }
  }

  /** A reader of the document cannot tell a schema from its published form. */
  lemma {:induction false} PublishedMeaning(t: Table, o: Oracle, i: nat, v: Value)
    requires Wf(t) && i < |t| && Wf(Published(t))
    ensures Accepts(Published(t), o, i, v) <==> Accepts(t, o, i, v)
    decreases i
  {
    hide Accepts, ScalarOk, LeafDoc, Published, Get, Wf, Vacuous, SizeOk;
    PublishedNode(t, i);
    WfAt(t, i);
    match t[i].body
    case ArrayS(item, _, _) =>
      AcceptsArray(t, o, i, v);
      AcceptsArray(Published(t), o, i, v);
      if v.Arr? {
        forall k | 0 <= k < |v.items|
          ensures Accepts(Published(t), o, item, v.items[k]) <==> Accepts(t, o, item, v.items[k])
        {
          PublishedMeaning(t, o, item, v.items[k]);
        }
      }
    case RecordS(item) =>
      AcceptsRecord(t, o, i, v);
      AcceptsRecord(Published(t), o, i, v);
      if v.Obj? {
        forall k | 0 <= k < |v.entries|
          ensures Accepts(Published(t), o, item, v.entries[k].1) <==> Accepts(t, o, item, v.entries[k].1)
        {
          PublishedMeaning(t, o, item, v.entries[k].1);
        }
      }
    case ObjectS(_, _) => PublishedObject(t, o, i, v);
    case UnionS(options) =>
      AcceptsUnion(t, o, i, v);
      AcceptsUnion(Published(t), o, i, v);
      forall k | 0 <= k < |options|
        ensures Accepts(Published(t), o, options[k], v) <==> Accepts(t, o, options[k], v)
        ensures Vacuous(Published(t), options[k]) == Vacuous(t, options[k])
      {
        PublishedMeaning(t, o, options[k], v);
        PublishedVacuous(t, options[k]);
      }
    case OptionalS(inner) => PublishedInner(t, o, i, v);
    case NullableS(inner) => PublishedInner(t, o, i, v);
    case RefinedS(inner, _, _) => PublishedInner(t, o, i, v);
    case _ =>
      LeafChildless(t[i].body);
      PublishedLeaf(t[i].body);
      LeafMeaning(t, o, i, v);
      LeafMeaning(Published(t), o, i, v);
  }

  lemma {:induction false} PublishedInner(t: Table, o: Oracle, i: nat, v: Value)
    requires Wf(t) && i < |t| && Wf(Published(t)) && (t[i].body.OptionalS? || t[i].body.NullableS? || t[i].body.RefinedS?)
    ensures Accepts(Published(t), o, i, v) <==> Accepts(t, o, i, v)
    decreases i, 0
  {
    hide Accepts, Published, Wf;
    PublishedNode(t, i);
    WfAt(t, i);
    AcceptsInner(t, o, i, v);
    AcceptsInner(Published(t), o, i, v);
    PublishedMeaning(t, o, t[i].body.inner, v);
  }

  lemma LeafMeaning(t: Table, o: Oracle, i: nat, v: Value)
    requires Wf(t) && i < |t| && IsLeaf(t[i].body)
    ensures LeafDoc(t[i].body).Some? && (Accepts(t, o, i, v) <==> ScalarOk(o, LeafDoc(t[i].body).value, v))
  {
    hide ScalarOk, TextOf, NumberOf;
  }

  lemma {:induction false} PublishedObject(t: Table, o: Oracle, i: nat, v: Value)
    requires Wf(t) && i < |t| && Wf(Published(t)) && t[i].body.ObjectS?
    ensures Accepts(Published(t), o, i, v) <==> Accepts(t, o, i, v)
    decreases i, 0
  {
    hide Published, Get, Wf, AcceptsUndefined, Accepts, Has, Declared;
    PublishedNode(t, i);
    WfAt(t, i);
    AcceptsObject(t, o, i, v);
    AcceptsObject(Published(t), o, i, v);
    if v.Obj? {
      var shape := t[i].body.shape;
      forall k | 0 <= k < |shape|
        ensures AcceptsUndefined(Published(t), shape[k].1) == AcceptsUndefined(t, shape[k].1)
        ensures Accepts(Published(t), o, shape[k].1, Get(v.entries, shape[k].0)) <==> Accepts(t, o, shape[k].1, Get(v.entries, shape[k].0))
      {
        PublishedUndefined(t, shape[k].1);
        PublishedMeaning(t, o, shape[k].1, Get(v.entries, shape[k].0));
      }
    }
  }

  lemma PublishedPlaceable(t: Table)
    requires Wf(t) && Placeable(t) && Wf(Published(t))
    ensures Placeable(Published(t))
  {
    hide Vacuous, Collapsed, Published, KeptOptions;
    var p := Published(t);
    assert |p| == |t| by { if t != [] { PublishedNode(t, 0); } else { PublishedNone(t); } }
    forall i | 0 <= i < |p|
      ensures p[i].body.UnionS? ==> (forall k | 0 <= k < |p[i].body.options| :: !Vacuous(p, p[i].body.options[k])) && KeptOptions(p, p[i].body.options) != []
    {
      PublishedNode(t, i);
      if t[i].body.UnionS? {
        var options := t[i].body.options;
        forall k | 0 <= k < |options|
          ensures !Vacuous(p, options[k])
        {
          NothingDropped(t, i, k);
          PublishedVacuous(t, options[k]);
        }
        assert options[0] in KeptOptions(p, options);
      }
    }
  }

  lemma PublishedStorable(t: Table)
    requires Storable(t)
    ensures Storable(Published(t))
  {
    hide Published;
    var p := Published(t);
    assert |p| == |t| by { if t != [] { PublishedNode(t, 0); } else { PublishedNone(t); } }
    forall i | 0 <= i < |p| && p[i].body.ObjectS?
      ensures forall k | 0 <= k < |p[i].body.shape| :: p[i].body.shape[k].0 != "__proto__"
    {
      PublishedNode(t, i);
    }
  }

  lemma PublishedNone(t: Table)
    requires t == []
    ensures Published(t) == []
  {
  }

  /** The document is the published schema: it validates exactly what that schema's parser
      accepts. So parser and document agree on a value exactly when the two parsers do. */
  lemma DocumentAsParser(t: Table, o: Oracle, i: nat, v: Value)
    requires Wf(t) && Emittable(t) && i < |t| && JsonData(v)
    ensures Wf(Published(t)) && i < |Published(t)|
    ensures Validates(o, ToJsonSchema(t, i), v) <==> SafeParse(Published(t), o, i, v).value.Some?
    ensures SafeParse(Published(t), o, i, v).value.Some? ==> SameAsMap(v, SafeParse(Published(t), o, i, v).value.value)
  {
    hide RefineFree, ChecksKept, StripFree, Placeable, Storable, PatternsPrinted, Published, Accepts, Validates, JsonData, SameAsMap;
    PublishedFits(t);
    PublishedNode(t, i);
    PublishedPlaceable(t);
    PublishedStorable(t);
    JsonDefined(v);
    DocumentMeaning(t, o, i, v);
    PublishedMeaning(t, o, i, v);
    ChecksPrinted(Published(t));
    if SafeParse(Published(t), o, i, v).value.Some? { ParseUnchanged(Published(t), o, i, v, []); }
    if Accepts(Published(t), o, i, v) { ParseComplete(Published(t), o, i, v, []); }
  }

  // ---------------------------------------------------------------- numbers

  function Ceil(x: real): int {
    -((-x).Floor)
  }

  /** The least and the greatest number the keywords admit, where they set a bound. */
  function Least(x: NumberRules): Option<real> {
    if x.range.minimum.None? then None
    else if x.ty == "integer" then Some(Ceil(x.range.minimum.value) as real) else x.range.minimum
  }

  function Greatest(x: NumberRules): Option<real> {
    if x.range.maximum.None? then None
    else if x.ty == "integer" then Some(x.range.maximum.value.Floor as real) else x.range.maximum
  }

  /** The bounds leave no number between them. */
  predicate NoNumber(x: NumberRules) {
    Least(x).Some? && Greatest(x).Some? && Least(x).value > Greatest(x).value
  }

  /** Every bound among the checks is met by all numbers between the published ones. */
  predicate BoundsMet(checks: seq<NumberCheck>) {
    forall k | 0 <= k < |checks| :: BoundMet(NumberOf(checks), checks[k])
  }

  predicate BoundMet(x: NumberRules, c: NumberCheck) {
    match c
    case Int => true
    case Min(m) => Least(x).Some? ==> m <= Least(x).value
    case Max(m) => Greatest(x).Some? ==> m >= Greatest(x).value
  }

  ghost predicate NumberAgrees(checks: seq<NumberCheck>, n: real) {
    (forall k | 0 <= k < |checks| :: NumberOk(checks[k], n)) <==> HasType(Num(n), NumberOf(checks).ty) && RangeOk(NumberOf(checks).range, n)
  }

  /** The keywords admit the numbers of their type between the bounds, the bounds included. */
  lemma Between(x: NumberRules, n: real)
    requires x.ty == "integer" || x.ty == "number"
    ensures HasType(Num(n), x.ty) && RangeOk(x.range, n) <==>
      && (x.ty == "integer" ==> n.Floor as real == n)
      && (Least(x).Some? ==> n >= Least(x).value) && (Greatest(x).Some? ==> n <= Greatest(x).value)
    ensures Least(x).Some? && x.ty == "integer" ==> Least(x).value.Floor as real == Least(x).value
    ensures Greatest(x).Some? && x.ty == "integer" ==> Greatest(x).value.Floor as real == Greatest(x).value
  {
    hide Ceil;
    if x.ty == "integer" && n.Floor as real == n {
      if x.range.minimum.Some? { CeilBelow(x.range.minimum.value, n); }
      if x.range.maximum.Some? { FloorAbove(x.range.maximum.value, n); }
    }
  }

  lemma CeilBelow(x: real, n: real)
    requires n.Floor as real == n
    ensures n >= Ceil(x) as real <==> n >= x
  {
    FloorNegated(n);
    FloorAbove(-x, -n);
    assert Ceil(x) as real == -((-x).Floor as real);
  }

  lemma FloorNegated(n: real)
    requires n.Floor as real == n
    ensures (-n).Floor as real == -n
  {
    var m := n.Floor;
    assert -n == (-m) as real;
  }

  lemma FloorAbove(x: real, n: real)
    requires n.Floor as real == n
    ensures n <= x.Floor as real <==> n <= x
  {
  }

  /** Parser and document agree on all numbers exactly when the document admits none, or every
      bound among the checks is met between the published ones. */
  lemma NumbersExactly(checks: seq<NumberCheck>)
    ensures (forall n :: NumberAgrees(checks, n)) <==> NoNumber(NumberOf(checks)) || BoundsMet(checks)
  {
    hide NumberOf, HasType, RangeOk, Least, Greatest;
    var x := NumberOf(checks);
    TypeIs(checks);
    if NoNumber(x) || BoundsMet(checks) {
      forall n
        ensures NumberAgrees(checks, n)
      {
        Between(x, n);
        if forall k | 0 <= k < |checks| :: NumberOk(checks[k], n) { NumberForward(checks, n); }
        if HasType(Num(n), x.ty) && RangeOk(x.range, n) { BoundsAgree(checks, n); }
      }
    } else {
      var k :| 0 <= k < |checks| && !BoundMet(x, checks[k]);
      var n := if checks[k].Min? then Least(x).value else Greatest(x).value;
      Between(x, n);
      assert !NumberOk(checks[k], n);
      assert !NumberAgrees(checks, n);
    }
  }

  lemma BoundsAgree(checks: seq<NumberCheck>, n: real)
    requires NoNumber(NumberOf(checks)) || BoundsMet(checks)
    requires HasType(Num(n), NumberOf(checks).ty) && RangeOk(NumberOf(checks).range, n)
    ensures forall k | 0 <= k < |checks| :: NumberOk(checks[k], n)
  {
    hide NumberOf, HasType, RangeOk, Least, Greatest;
    var x := NumberOf(checks);
    TypeIs(checks);
    Between(x, n);
    forall k | 0 <= k < |checks|
      ensures NumberOk(checks[k], n)
    {
      NumberCovers(checks, k);
      assert BoundMet(x, checks[k]);
      BoundKept(x, checks[k], n);
    }
  }

  lemma BoundKept(x: NumberRules, c: NumberCheck, n: real)
    requires BoundMet(x, c) && NumberCovered(x, c) && (x.ty == "integer" ==> n.Floor as real == n)
    requires (Least(x).Some? ==> n >= Least(x).value) && (Greatest(x).Some? ==> n <= Greatest(x).value)
    ensures NumberOk(c, n)
  {
  }

  // ---------------------------------------------------------------- strings

  ghost predicate TextAgrees(o: Oracle, checks: seq<StringCheck>, s: string) {
    (forall k | 0 <= k < |checks| :: StringOk(o, checks[k], s)) <==> TextOk(o, TextOf(checks), s)
  }

  /** No length is left. */
  predicate NoText(x: Text) {
    x.minLength.Some? && x.maxLength.Some? && x.minLength.value > x.maxLength.value
  }

  /** Whatever the patterns match, parser and document agree on all strings exactly when the
      document admits none, or all patterns are the one it prints, without flags. */
  lemma TextsExactly(checks: seq<StringCheck>)
    ensures (forall o: Oracle, s :: TextAgrees(o, checks, s)) <==> NoText(TextOf(checks)) || TextKept(checks)
  {
    hide TextOf, TextOk, StringOk, TextPrinted;
    if NoText(TextOf(checks)) || TextKept(checks) {
      forall o: Oracle, s
        ensures TextAgrees(o, checks, s)
      {
        if forall k | 0 <= k < |checks| :: StringOk(o, checks[k], s) { TextNarrows(o, checks, s); }
        if TextOk(o, TextOf(checks), s) { TextLength(o, TextOf(checks), s); TextBackward(o, checks, s); }
      }
    } else {
      var k :| 0 <= k < |checks| && checks[k].Regex? && (TextOf(checks).pattern != Some(checks[k].source) || checks[k].flags != "");
      var o, s := AllBut(checks[k].source, checks[k].flags), Sample(TextOf(checks));
      SampleOk(o, TextOf(checks));
      assert !StringOk(o, checks[k], s) by { Refuses(o, checks[k].source, checks[k].flags, s); }
      assert !TextAgrees(o, checks, s);
    }
  }

  ghost predicate TextSound(o: Oracle, checks: seq<StringCheck>, s: string) {
    (forall k | 0 <= k < |checks| :: StringOk(o, checks[k], s)) ==> TextOk(o, TextOf(checks), s)
  }

  /** Whatever the patterns match, the document admits all strings the parser accepts exactly when
      the lengths leave none, or the printed pattern, which has no flags, is among the checks. */
  lemma FlagsExactly(checks: seq<StringCheck>)
    ensures (forall o: Oracle, s :: TextSound(o, checks, s)) <==> NoText(TextOf(checks)) || TextPrinted(checks)
  {
    hide TextOf, TextOk, StringOk;
    var x := TextOf(checks);
    if NoText(x) || TextPrinted(checks) {
      forall o: Oracle, s
        ensures TextSound(o, checks, s)
      {
        if forall k | 0 <= k < |checks| :: StringOk(o, checks[k], s) {
          LengthsLeft(o, checks, s);
          TextForward(o, checks, s);
        }
      }
    } else {
      var o, s := AllBut(x.pattern.value, ""), Sample(x);
      assert !TextOk(o, x, s) by { Unprinted(o, x, s); }
      forall k | 0 <= k < |checks|
        ensures StringOk(o, checks[k], s)
      {
        assert checks[k] in checks;
        TextCovers(checks, k);
        SampleChecks(o, x, checks[k]);
      }
      assert !TextSound(o, checks, s);
    }
  }

  /** An oracle to which every string is a URL and matches every pattern but one. */
  function AllBut(source: string, flags: string): Oracle {
    Oracle((p, f, s) => p != source || f != flags, s => true)
  }

  lemma TextNarrows(o: Oracle, checks: seq<StringCheck>, s: string)
    requires NoText(TextOf(checks)) || TextKept(checks)
    requires forall k | 0 <= k < |checks| :: StringOk(o, checks[k], s)
    ensures TextOk(o, TextOf(checks), s)
  {
    hide TextOf, TextOk, StringOk, TextPrinted;
    LengthsLeft(o, checks, s);
    KeptPrinted(checks);
    TextForward(o, checks, s);
  }

  lemma LengthsLeft(o: Oracle, checks: seq<StringCheck>, s: string)
    requires forall k | 0 <= k < |checks| :: StringOk(o, checks[k], s)
    ensures !NoText(TextOf(checks))
  {
    hide TextOf, StringOk;
    TextForwardBut(o, checks, s);
    TextLength(o, TextOf(checks).(pattern := None), s);
  }

  lemma TextLength(o: Oracle, x: Text, s: string)
    requires TextOk(o, x, s)
    ensures !NoText(x)
  {
  }

  lemma Refuses(o: Oracle, source: string, flags: string, s: string)
    requires !o.matches(source, flags, s)
    ensures !StringOk(o, Regex(source, flags), s)
  {
  }

  lemma Unprinted(o: Oracle, x: Text, s: string)
    requires x.pattern.Some? && !o.matches(x.pattern.value, "", s)
    ensures !TextOk(o, x, s)
  {
  }

  /** A string of an admitted length. */
  function Sample(x: Text): string {
    seq(if x.minLength.Some? then x.minLength.value else 0, _ => 'a')
  }

  lemma SampleOk(o: Oracle, x: Text)
    requires !NoText(x) && (x.pattern.Some? ==> forall s :: o.matches(x.pattern.value, "", s)) && forall s :: o.isUri(s)
    ensures TextOk(o, x, Sample(x))
  {
  }

  lemma SampleChecks(o: Oracle, x: Text, c: StringCheck)
    requires !NoText(x) && TextCovered(x, c) && (c.Regex? ==> forall s :: o.matches(c.source, c.flags, s)) && forall s :: o.isUri(s)
    ensures StringOk(o, c, Sample(x))
  {
  }

  // ---------------------------------------------------------------- dropped options

  lemma {:induction false} VacuousParses(t: Table, o: Oracle, i: nat, v: Value, path: seq<Step>)
    requires Wf(t) && i < |t| && RefineFree(t) && Vacuous(t, i)
    ensures ParseAt(t, o, i, v, path).value == Some(v)
    decreases i
  {
    if t[i].body.RefinedS? {
      VacuousParses(t, o, t[i].body.inner, v, path);
      assert t[i].body.check(v);
    }
  }

  /** A union with an option that emits `{}`, in a document without references: the parser
      accepts everything, the document what the other options admit. They agree on a value
      exactly when one of those admits it. */
  lemma DroppedExactly(t: Table, o: Oracle, i: nat, v: Value)
    requires Wf(t) && KeepsOne(t) && RefineFree(t) && i < |t| && RefFree(ToJsonSchema(t, i)) && JsonData(v)
    requires t[i].body.UnionS? && exists k | 0 <= k < |t[i].body.options| :: Vacuous(t, t[i].body.options[k])
    ensures SafeParse(t, o, i, v).value.Some?
    ensures Validates(o, ToJsonSchema(t, i), v) <==>
      exists k | 0 <= k < |t[i].body.options| :: !Vacuous(t, t[i].body.options[k]) && Accepts(t, o, t[i].body.options[k], v)
  {
    hide KeepsOne, RefineFree, RefFree, Validates, Accepts, Vacuous, JsonData;
    RefFreeMeaning(t, o, i, v);
    AcceptsUnion(t, o, i, v);
    var options := t[i].body.options;
    var k :| 0 <= k < |options| && Vacuous(t, options[k]);
    VacuousParses(t, o, options[k], v, []);
    FirstExists(Attempts(t, o, i, options, v, []), k);
  }
}
