/** Compilation of a schema to a draft-07 document: `emit`, every `emitBody`, and
    `toJsonSchema` (src/schema.ts). `Emit` threads the `seen` map; `EmitNode` is the
    code's own form, over one shared mutable map. */
module SchemaEmit {
  import opened Common
  import opened SchemaNodes
  import opened JsonSchema

  type Path = seq<string>
  type Seen = map<nat, Path>

  function RefDoc(at: Path): Doc {
    EMPTY.(ref := Some(Join(at, '/')))
  }

  // ---------------------------------------------------------------- scalar bodies

  function OptMax(a: Option<nat>, b: nat): Option<nat> {
    if a.Some? && a.value > b then a else Some(b)
  }

  function OptMin(a: Option<nat>, b: nat): Option<nat> {
    if a.Some? && a.value < b then a else Some(b)
  }

  function AddText(x: Text, c: StringCheck): Text {
    match c
    case MinLength(m) => x.(minLength := OptMax(x.minLength, m))
    case MaxLength(m) => x.(maxLength := OptMin(x.maxLength, m))
    case Url => x.(format := Some("uri"))
    case Regex(source, _) => x.(pattern := Some(source))
  }

  function TextOf(checks: seq<StringCheck>): Text {
    if checks == [] then NO_TEXT else AddText(TextOf(checks[..|checks| - 1]), checks[|checks| - 1])
  }

  datatype NumberRules = NumberRules(ty: string, range: Range)

  function AddNumber(x: NumberRules, c: NumberCheck): NumberRules {
    match c
    case Int => x.(ty := "integer")
    case Min(m) => x.(range := x.range.(minimum := Some(m)))
    case Max(m) => x.(range := x.range.(maximum := Some(m)))
  }

  function NumberOf(checks: seq<NumberCheck>): NumberRules {
    if checks == [] then NumberRules("number", NO_RANGE) else AddNumber(NumberOf(checks[..|checks| - 1]), checks[|checks| - 1])
  }

  function TypeDoc(types: seq<string>): Doc {
    EMPTY.(types := types)
  }

  /** The body of a schema without children, or of a union that collapses to one. */
  function LeafDoc(b: Body): Option<Doc> {
    match b
    case StringS(checks) => Some(TypeDoc(["string"]).(text := TextOf(checks)))
    case NumberS(checks) => var r := NumberOf(checks); Some(TypeDoc([r.ty]).(range := r.range))
    case BooleanS => Some(TypeDoc(["boolean"]))
    case NullS => Some(TypeDoc(["null"]))
    case UnknownS => Some(EMPTY)
    case LiteralS(x) => Some(TypeDoc([ScalarType(x)]).(constant := Some(x)))
    case EnumS(values) => Some(EnumDoc(values))
    case _ => None
  }

  function EnumDoc(values: seq<string>): Doc {
    TypeDoc(["string"]).(values := Some(seq(|values|, k requires 0 <= k < |values| => SStr(values[k]))))
  }

  /** The `type` keyword that says all there is to say about a schema, if one does. */
  function PlainType(b: Body): Option<string> {
    match b
    case StringS(checks) => if checks == [] then Some("string") else None
    case NumberS(checks) => if checks == [] then Some("number") else None
    case BooleanS => Some("boolean")
    case NullS => Some("null")
    case _ => None
  }

  function PlainTypes(t: Table, options: seq<nat>): (r: seq<string>)
    requires forall k | 0 <= k < |options| :: options[k] < |t| && PlainType(t[options[k]].body).Some?
  {
    seq(|options|, k requires 0 <= k < |options| => PlainType(t[options[k]].body).value)
  }

  function Literals(t: Table, options: seq<nat>): (r: seq<Scalar>)
    requires forall k | 0 <= k < |options| :: options[k] < |t| && t[options[k]].body.LiteralS?
  {
    seq(|options|, k requires 0 <= k < |options| => t[options[k]].body.literal)
  }

  function TypesOf(xs: seq<Scalar>): seq<string> {
    seq(|xs|, k requires 0 <= k < |xs| => ScalarType(xs[k]))
  }

  function EnumValues(t: Table, options: seq<nat>): (r: seq<string>)
    requires forall k | 0 <= k < |options| :: options[k] < |t| && t[options[k]].body.EnumS?
    ensures forall x :: x in r <==> exists k | 0 <= k < |options| :: x in t[options[k]].body.values
  {
    if options == [] then []
    else
      assert options == [options[0]] + options[1..];
      assert forall k | 0 < k < |options| :: options[k] == options[1..][k - 1];
      t[options[0]].body.values + EnumValues(t, options[1..])
  }

  /** The three unions that collapse: plain primitives, undescribed literals, enums. */
  function Collapsed(t: Table, options: seq<nat>): Option<Doc>
    requires forall k | 0 <= k < |options| :: options[k] < |t|
  {
    if forall k | 0 <= k < |options| :: PlainType(t[options[k]].body).Some? then
      Some(TypeDoc(Dedup(PlainTypes(t, options))))
    else if forall k | 0 <= k < |options| :: t[options[k]].body.LiteralS? && t[options[k]].description.None? then
      var xs := Literals(t, options);
      Some(TypeDoc(Dedup(TypesOf(xs))).(values := Some(Dedup(xs))))
    else if forall k | 0 <= k < |options| :: t[options[k]].body.EnumS? then
      Some(EnumDoc(Dedup(EnumValues(t, options))))
    else None
  }

  // ---------------------------------------------------------------- emission

  /** A document (`None` for `undefined`) and the `seen` map afterwards. */
  datatype Emitted = Emitted(doc: Option<Doc>, seen: Seen)

  /** Is this the very place where a member of an object is emitted? The paths are compared as joined texts. */
  predicate AtProperty(path: Path, prop: Option<Path>) {
    prop.Some? && Join(path, ',') == Join(prop.value, ',')
  }

  function WithDescription(d: Option<Doc>, description: Option<string>): Option<Doc> {
    if d.Some? && description.Some? then Some(d.value.(description := description)) else d
  }

  /** `emit`. With `share` off, nothing is recorded or referenced: the emission the sharing
      is measured against. */
  function Emit(t: Table, share: bool, i: nat, path: Path, prop: Option<Path>, seen: Seen): Emitted
    requires Wf(t) && i < |t|
    decreases i, 2, 0
  {
    if share && i in seen then Emitted(Some(RefDoc(seen[i])), seen)
    else
      var e := EmitBody(t, share, i, path, prop, if share then seen[i := path] else seen);
      Emitted(WithDescription(e.doc, t[i].description), e.seen)
  }

  function EmitBody(t: Table, share: bool, i: nat, path: Path, prop: Option<Path>, seen: Seen): Emitted
    requires Wf(t) && i < |t|
    decreases i, 1, 0
  {
    match t[i].body
    case ArrayS(item, mn, mx) =>
      var e := Emit(t, share, item, path + ["items"], prop, seen);
      Emitted(Some(ArrayDoc(e.doc, mn, mx)), e.seen)
    case RecordS(item) =>
      var e := Emit(t, share, item, path + ["additionalProperties"], prop, seen);
      Emitted(Some(RecordDoc(e.doc)), e.seen)
    case ObjectS(shape, mode) =>
      var m := EmitMembers(t, share, i, shape, path, seen);
      Emitted(Some(ObjectDoc(m.props, m.required, mode)), m.seen)
    case UnionS(options) =>
      var c := Collapsed(t, options);
      if c.Some? then Emitted(c, seen)
      else
        var m := EmitOptions(t, share, i, options, 0, path, prop, seen);
        Emitted(UnionDoc(m.docs), m.seen)
    case OptionalS(inner) =>
      if AtProperty(path, prop) then Emit(t, share, inner, path, prop, seen)
      else
        var e := Emit(t, share, inner, path + ["anyOf", "1"], prop, seen);
        Emitted(Some(OptionalDoc(e.doc)), e.seen)
    case NullableS(inner) =>
      var ty := PlainType(t[inner].body);
      if ty.Some? then Emitted(Some(TypeDoc([ty.value, "null"])), seen)
      else
        var e := Emit(t, share, inner, path + ["anyOf", "0"], prop, seen);
        Emitted(NullableDoc(e.doc), e.seen)
    case RefinedS(inner, _, _) => Emit(t, share, inner, path, prop, seen)
    case _ => Emitted(LeafDoc(t[i].body), seen)
  }

  function ArrayDoc(item: Option<Doc>, mn: Option<nat>, mx: Option<nat>): Doc {
    TypeDoc(["array"]).(items := item, size := Size(mn, mx))
  }

  function RecordDoc(item: Option<Doc>): Doc {
    TypeDoc(["object"]).(additional := if item.Some? then Each(item.value) else Allowed(true))
  }

  function ObjectDoc(props: seq<Prop>, required: seq<string>, mode: UnknownKeys): Doc {
    TypeDoc(["object"]).(properties := props, required := required, additional := Allowed(mode == Loose))
  }

  /** The options' documents that are there and say something. */
  function Kept(docs: seq<Option<Doc>>): (r: seq<Doc>) {
    if docs == [] then []
    else (if docs[0].Some? && docs[0].value != EMPTY then [docs[0].value] else []) + Kept(docs[1..])
  }

  function UnionDoc(docs: seq<Option<Doc>>): Option<Doc> {
    if Kept(docs) != [] then Some(EMPTY.(anyOf := Kept(docs))) else None
  }

  /** `{ not: {} }` */
  const NEVER := EMPTY.(not_ := Some(EMPTY))

  function OptionalDoc(inner: Option<Doc>): Doc {
    if inner.Some? then EMPTY.(anyOf := [NEVER, inner.value]) else EMPTY
  }

  function NullableDoc(base: Option<Doc>): Option<Doc> {
    if base.Some? then Some(EMPTY.(anyOf := [base.value, TypeDoc(["null"])])) else None
  }

  /** `properties[key] = doc`; assigning to `__proto__` sets a prototype and adds no member. */
  function Stored(key: string, d: Doc): seq<Prop> {
    if key == "__proto__" then [] else [Prop(key, d)]
  }

  lemma StoredPlain(key: string, d: Doc)
    requires key != "__proto__"
    ensures Stored(key, d) == [Prop(key, d)]
  {
  }

  lemma StoredNot(d: Doc)
    ensures Stored("__proto__", d) == []
  {
  }

  datatype MembersOut = MembersOut(props: seq<Prop>, required: seq<string>, seen: Seen)

  function EmitMembers(t: Table, share: bool, bound: nat, shape: seq<(string, nat)>, path: Path, seen: Seen): MembersOut
    requires Wf(t) && bound <= |t| && Below(shape, bound)
    decreases bound, 0, |shape|
  {
    if shape == [] then MembersOut([], [], seen)
    else
      var (key, member) := shape[0];
      var memberPath := path + ["properties", key];
      var e := Emit(t, share, member, memberPath, Some(memberPath), seen);
      var rest := EmitMembers(t, share, bound, shape[1..], path, e.seen);
      if e.doc.None? then rest
      else MembersOut(Stored(key, e.doc.value) + rest.props,
                      (if AcceptsUndefined(t, member) then [] else [key]) + rest.required, rest.seen)
  }

  datatype OptionsOut = OptionsOut(docs: seq<Option<Doc>>, seen: Seen)

  function EmitOptions(t: Table, share: bool, bound: nat, options: seq<nat>, index: nat, path: Path, prop: Option<Path>, seen: Seen): OptionsOut
    requires Wf(t) && bound <= |t| && forall k | 0 <= k < |options| :: options[k] < bound
    decreases bound, 0, |options|
  {
    if options == [] then OptionsOut([], seen)
    else
      var e := Emit(t, share, options[0], path + ["anyOf", Dec(index)], prop, seen);
      var rest := EmitOptions(t, share, bound, options[1..], index + 1, path, prop, e.seen);
      OptionsOut([e.doc] + rest.docs, rest.seen)
  }

  /** `toJsonSchema`, `$schema` aside. */
  function ToJsonSchema(t: Table, i: nat): Doc
    requires Wf(t) && i < |t|
  {
    var e := Emit(t, true, i, ["#"], None, map[]);
    if e.doc.Some? then e.doc.value else EMPTY
  }

  /** The same without a `seen` map: every use of a schema spelled out. */
  function ToUnsharedJsonSchema(t: Table, i: nat): Doc
    requires Wf(t) && i < |t|
  {
    var e := Emit(t, false, i, ["#"], None, map[]);
    if e.doc.Some? then e.doc.value else EMPTY
  }

  // ---------------------------------------------------------------- the code's own form

  /** The `Map` all of one document's `EmitRefs` share. */
  class SeenMap {
    var paths: Seen

    constructor ()
      ensures paths == map[]
    {
      paths := map[];
    }
  }

  method EmitNode(t: Table, i: nat, path: Path, prop: Option<Path>, seen: SeenMap) returns (doc: Option<Doc>)
    requires Wf(t) && i < |t|
    modifies seen
    ensures Emitted(doc, seen.paths) == Emit(t, true, i, path, prop, old(seen.paths))
    decreases i, 2
  {
    if i in seen.paths {
      doc := Some(RefDoc(seen.paths[i]));
      return;
    }
    seen.paths := seen.paths[i := path];
    doc := EmitNodeBody(t, i, path, prop, seen);
    if doc.Some? && t[i].description.Some? {
      doc := Some(doc.value.(description := t[i].description));
    }
  }

  method EmitNodeBody(t: Table, i: nat, path: Path, prop: Option<Path>, seen: SeenMap) returns (doc: Option<Doc>)
    requires Wf(t) && i < |t|
    modifies seen
    ensures Emitted(doc, seen.paths) == EmitBody(t, true, i, path, prop, old(seen.paths))
    decreases i, 1
  {
    match t[i].body {
      case StringS(checks) =>
        var text := EmitText(checks);
        doc := Some(TypeDoc(["string"]).(text := text));
      case NumberS(checks) =>
        var rules := EmitNumber(checks);
        doc := Some(TypeDoc([rules.ty]).(range := rules.range));
      case ArrayS(item, mn, mx) =>
        var e := EmitNode(t, item, path + ["items"], prop, seen);
        doc := Some(ArrayDoc(e, mn, mx));
      case RecordS(item) =>
        var e := EmitNode(t, item, path + ["additionalProperties"], prop, seen);
        doc := Some(RecordDoc(e));
      case ObjectS(shape, mode) =>
        var props, required := EmitShape(t, i, shape, path, seen);
        doc := Some(ObjectDoc(props, required, mode));
      case UnionS(options) =>
        if Collapsed(t, options).Some? {
          doc := Collapsed(t, options);
        } else {
          var docs := EmitUnion(t, i, options, path, prop, seen);
          doc := UnionDoc(docs);
        }
      case OptionalS(inner) =>
        if AtProperty(path, prop) {
          doc := EmitNode(t, inner, path, prop, seen);
        } else {
          var e := EmitNode(t, inner, path + ["anyOf", "1"], prop, seen);
          doc := Some(OptionalDoc(e));
        }
      case NullableS(inner) =>
        var ty := PlainType(t[inner].body);
        if ty.Some? {
          doc := Some(TypeDoc([ty.value, "null"]));
        } else {
          var e := EmitNode(t, inner, path + ["anyOf", "0"], prop, seen);
          doc := NullableDoc(e);
        }
      case RefinedS(inner, _, _) =>
        doc := EmitNode(t, inner, path, prop, seen);
      case _ =>
        doc := LeafDoc(t[i].body);
    }
  }

  method EmitText(checks: seq<StringCheck>) returns (text: Text)
    ensures text == TextOf(checks)
  {
    text := NO_TEXT;
    for k := 0 to |checks|
      invariant text == TextOf(checks[..k])
    {
      assert checks[..k + 1][..k] == checks[..k];
      text := AddText(text, checks[k]);
    }
    assert checks[..|checks|] == checks;
  }

  method EmitNumber(checks: seq<NumberCheck>) returns (rules: NumberRules)
    ensures rules == NumberOf(checks)
  {
    rules := NumberRules("number", NO_RANGE);
    for k := 0 to |checks|
      invariant rules == NumberOf(checks[..k])
    {
      assert checks[..k + 1][..k] == checks[..k];
      rules := AddNumber(rules, checks[k]);
    }
    assert checks[..|checks|] == checks;
  }

  method EmitShape(t: Table, bound: nat, shape: seq<(string, nat)>, path: Path, seen: SeenMap) returns (props: seq<Prop>, required: seq<string>)
    requires Wf(t) && bound <= |t| && Below(shape, bound)
    modifies seen
    ensures MembersOut(props, required, seen.paths) == EmitMembers(t, true, bound, shape, path, old(seen.paths))
    decreases bound, 0
  {
    props, required := [], [];
    ghost var all := EmitMembers(t, true, bound, shape, path, seen.paths);
    for k := 0 to |shape|
      invariant var rest := EmitMembers(t, true, bound, shape[k..], path, seen.paths);
        all == MembersOut(props + rest.props, required + rest.required, rest.seen)
    {
      assert shape[k..][0] == shape[k] && shape[k..][1..] == shape[k + 1..];
      var key, member := shape[k].0, shape[k].1;
      var memberPath := path + ["properties", key];
      var emitted := EmitNode(t, member, memberPath, Some(memberPath), seen);
      ghost var rest := EmitMembers(t, true, bound, shape[k + 1..], path, seen.paths);
      if emitted.Some? {
        var need := if AcceptsUndefined(t, member) then [] else [key];
        Regroup(props, Stored(key, emitted.value), rest.props);
        Regroup(required, need, rest.required);
        props := props + Stored(key, emitted.value);
        required := required + need;
      }
    }
    assert shape[|shape|..] == [];
    assert props + [] == props && required + [] == required;
  }

  method EmitUnion(t: Table, bound: nat, options: seq<nat>, path: Path, prop: Option<Path>, seen: SeenMap) returns (docs: seq<Option<Doc>>)
    requires Wf(t) && bound <= |t| && forall k | 0 <= k < |options| :: options[k] < bound
    modifies seen
    ensures OptionsOut(docs, seen.paths) == EmitOptions(t, true, bound, options, 0, path, prop, old(seen.paths))
    decreases bound, 0
  {
    docs := [];
    ghost var all := EmitOptions(t, true, bound, options, 0, path, prop, seen.paths);
    for k := 0 to |options|
      invariant var rest := EmitOptions(t, true, bound, options[k..], k, path, prop, seen.paths);
        all == OptionsOut(docs + rest.docs, rest.seen)
    {
      assert options[k..][0] == options[k] && options[k..][1..] == options[k + 1..];
      var e := EmitNode(t, options[k], path + ["anyOf", Dec(k)], prop, seen);
      ghost var rest := EmitOptions(t, true, bound, options[k + 1..], k + 1, path, prop, seen.paths);
      Regroup(docs, [e], rest.docs);
      docs := docs + [e];
    }
    assert options[|options|..] == [];
    assert docs + [] == docs;
  }

  method RunToJsonSchema(t: Table, i: nat) returns (doc: Doc)
    requires Wf(t) && i < |t|
    ensures doc == ToJsonSchema(t, i)
  {
    var seen := new SeenMap();
    var main := EmitNode(t, i, ["#"], None, seen);
    doc := if main.Some? then main.value else EMPTY;
  }
}
