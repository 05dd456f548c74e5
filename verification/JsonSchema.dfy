/** A draft-07 JSON Schema validator: the reference meaning of an emitted document.
    Keywords as in sections 6.1 to 6.7 of draft-handrews-json-schema-validation-01,
    `$ref` as in section 8.3 of draft-handrews-json-schema-01, pointers as in section 4
    of RFC 6901. Instances are JSON values (`JsonData`). */
module JsonSchema {
  import opened Common
  import opened SchemaNodes

  datatype Text = Text(minLength: Option<nat>, maxLength: Option<nat>, pattern: Option<string>, format: Option<string>)
  datatype Range = Range(minimum: Option<real>, maximum: Option<real>)
  datatype Size = Size(minItems: Option<nat>, maxItems: Option<nat>)

  /** `additionalProperties`: absent, a boolean, or a schema. */
  datatype Additional = Unsaid | Allowed(allowed: bool) | Each(doc: Doc)

  /** One member of `properties`. */
  datatype Prop = Prop(key: string, doc: Doc)

  /** A schema object. `types == []` stands for no `type` keyword, `anyOf == []` for no `anyOf`. */
  datatype Doc = Doc(
    ref: Option<string>,
    description: Option<string>,
    types: seq<string>,
    constant: Option<Scalar>,
    values: Option<seq<Scalar>>,
    text: Text,
    range: Range,
    items: Option<Doc>,
    size: Size,
    properties: seq<Prop>,
    required: seq<string>,
    additional: Additional,
    anyOf: seq<Doc>,
    not_: Option<Doc>)

  const NO_TEXT := Text(None, None, None, None)
  const NO_RANGE := Range(None, None)
  const NO_SIZE := Size(None, None)

  /** `{}` */
  const EMPTY := Doc(None, None, [], None, None, NO_TEXT, NO_RANGE, None, NO_SIZE, [], [], Unsaid, [], None)

  predicate HasType(v: Value, ty: string) {
    match v
    case Null => ty == "null"
    case Bool(_) => ty == "boolean"
    case Num(n) => ty == "number" || (ty == "integer" && n.Floor as real == n)
    case Str(_) => ty == "string"
    case Arr(_) => ty == "array"
    case Obj(_) => ty == "object"
    case Undefined => false
  }

  predicate TextOk(o: Oracle, x: Text, s: string) {
    && (x.minLength.Some? ==> |s| >= x.minLength.value)
    && (x.maxLength.Some? ==> |s| <= x.maxLength.value)
    && (x.pattern.Some? ==> o.matches(x.pattern.value, "", s))
    && (x.format == Some("uri") ==> o.isUri(s))
  }

  predicate RangeOk(x: Range, n: real) {
    && (x.minimum.Some? ==> n >= x.minimum.value)
    && (x.maximum.Some? ==> n <= x.maximum.value)
  }

  predicate SizeOk(x: Size, n: nat) {
    && (x.minItems.Some? ==> n >= x.minItems.value)
    && (x.maxItems.Some? ==> n <= x.maxItems.value)
  }

  predicate Declares(props: seq<Prop>, key: string) {
    exists k | 0 <= k < |props| :: props[k].key == key
  }

  /** The keywords that look no further than the value itself. */
  predicate ScalarOk(o: Oracle, d: Doc, v: Value) {
    && (d.types == [] || exists k | 0 <= k < |d.types| :: HasType(v, d.types[k]))
    && (d.constant.Some? ==> v == ScalarValue(d.constant.value))
    && (d.values.Some? ==> exists k | 0 <= k < |d.values.value| :: v == ScalarValue(d.values.value[k]))
    && (v.Str? ==> TextOk(o, d.text, v.s))
    && (v.Num? ==> RangeOk(d.range, v.n))
    && (v.Arr? ==> SizeOk(d.size, |v.items|))
    && (v.Obj? ==> forall k | 0 <= k < |d.required| :: Has(v.entries, d.required[k]))
  }

  /** Does `v` satisfy `d`? For documents whose references have been resolved; a `$ref` that
      is still there cannot be satisfied. */
  ghost predicate Valid(o: Oracle, d: Doc, v: Value)
    decreases d
  {
    && d.ref.None?
    && ScalarOk(o, d, v)
    && (v.Arr? && d.items.Some? ==> forall k | 0 <= k < |v.items| :: Valid(o, d.items.value, v.items[k]))
    && (v.Obj? ==> forall k | 0 <= k < |d.properties| ::
         Has(v.entries, d.properties[k].key) ==> Valid(o, d.properties[k].doc, Get(v.entries, d.properties[k].key)))
    && (v.Obj? ==> forall k | 0 <= k < |v.entries| && !Declares(d.properties, v.entries[k].0) ::
         match d.additional
         case Unsaid => true
         case Allowed(b) => b
         case Each(e) => Valid(o, e, v.entries[k].1))
    && (d.anyOf != [] ==> exists k | 0 <= k < |d.anyOf| :: Valid(o, d.anyOf[k], v))
    && (d.not_.Some? ==> !Valid(o, d.not_.value, v))
  }

  // ------------------------------------------------------------------ references

  /** Section 4 of RFC 6901: `~1` is `/`, `~0` is `~`. */
  function Unescape(token: string): string {
    if |token| >= 2 && token[0] == '~' && token[1] == '1' then "/" + Unescape(token[2..])
    else if |token| >= 2 && token[0] == '~' && token[1] == '0' then "~" + Unescape(token[2..])
    else if token == "" then ""
    else [token[0]] + Unescape(token[1..])
  }

  function LookUp(props: seq<Prop>, key: string): Option<Doc> {
    if props == [] then None
    else if props[0].key == key then Some(props[0].doc)
    else LookUp(props[1..], key)
  }

  /** The schema a pointer's tokens lead to. */
  function At(d: Doc, tokens: seq<string>): Option<Doc>
    decreases |tokens|
  {
    if tokens == [] then Some(d)
    else if tokens[0] == "items" then
      if d.items.None? then None else At(d.items.value, tokens[1..])
    else if tokens[0] == "additionalProperties" then
      if !d.additional.Each? then None else At(d.additional.doc, tokens[1..])
    else if tokens[0] == "not" then
      if d.not_.None? then None else At(d.not_.value, tokens[1..])
    else if |tokens| == 1 then None
    else if tokens[0] == "properties" then
      var e := LookUp(d.properties, tokens[1]);
      if e.None? then None else At(e.value, tokens[2..])
    else if tokens[0] == "anyOf" then
      var n := ParseDec(tokens[1]);
      if n.None? || n.value >= |d.anyOf| then None
      else At(d.anyOf[n.value], tokens[2..])
    else None
  }

  /** A `$ref` of the form `#/…` against its document. */
  function Resolve(root: Doc, ref: string): Option<Doc> {
    var tokens := Tokens(ref);
    if tokens.None? then None else At(root, tokens.value)
  }

  /** The tokens of a pointer in a fragment: after `#`, cut at each slash, then unescaped. */
  function Tokens(ref: string): Option<seq<string>> {
    var parts := Split(ref, '/');
    if parts == [] || parts[0] != "#" then None
    else Some(seq(|parts| - 1, k requires 0 <= k < |parts| - 1 => Unescape(parts[k + 1])))
  }

  /** `d` with every reference replaced by what it refers to, in at most `fuel` nested hops;
      `None` when a reference dangles or the hops run out. Keywords beside a `$ref` are ignored. */
  function Expand(root: Doc, d: Doc, fuel: nat): Option<Doc>
    decreases fuel, d, 1
  {
    if d.ref.Some? then
      if fuel == 0 then None
      else
        var e := Resolve(root, d.ref.value);
        if e.None? then None else Expand(root, e.value, fuel - 1)
    else
      var items := if d.items.None? then Some(EMPTY) else Expand(root, d.items.value, fuel);
      var props := ExpandProps(root, d.properties, fuel);
      var extra := if !d.additional.Each? then Some(EMPTY) else Expand(root, d.additional.doc, fuel);
      var anyOf := ExpandAll(root, d.anyOf, fuel);
      var not_ := if d.not_.None? then Some(EMPTY) else Expand(root, d.not_.value, fuel);
      if items.None? || props.None? || extra.None? || anyOf.None? || not_.None? then None
      else Some(d.(
        items := if d.items.None? then None else items,
        properties := props.value,
        additional := if !d.additional.Each? then d.additional else Each(extra.value),
        anyOf := anyOf.value,
        not_ := if d.not_.None? then None else not_))
  }

  function ExpandProps(root: Doc, props: seq<Prop>, fuel: nat): (r: Option<seq<Prop>>)
    decreases fuel, props, 0
  {
    if props == [] then Some([])
    else
      var first := Expand(root, props[0].doc, fuel);
      var rest := ExpandProps(root, props[1..], fuel);
      if first.None? || rest.None? then None else Some([Prop(props[0].key, first.value)] + rest.value)
  }

  function ExpandAll(root: Doc, docs: seq<Doc>, fuel: nat): (r: Option<seq<Doc>>)
    decreases fuel, docs, 0
  {
    if docs == [] then Some([])
    else
      var first := Expand(root, docs[0], fuel);
      var rest := ExpandAll(root, docs[1..], fuel);
      if first.None? || rest.None? then None else Some([first.value] + rest.value)
  }

  /** Does `v` satisfy the document `root`, its references resolved within it? */
  ghost predicate Validates(o: Oracle, root: Doc, v: Value) {
    exists fuel: nat :: Expand(root, root, fuel).Some? && Valid(o, Expand(root, root, fuel).value, v)
  }

  // ------------------------------------------------------------------ lemmas

  lemma {:induction false} UnescapePlain(token: string)
    requires '~' !in token
    ensures Unescape(token) == token
  {
    if token != "" {
      UnescapePlain(token[1..]);
    }
  }

  /** A token that means itself: no slash to cut it at, and unescaping leaves it alone. */
  predicate PlainToken(token: string) {
    '/' !in token && Unescape(token) == token
  }

  /** A path is read back from its joined text exactly when every token means itself. */
  lemma TokensExactly(parts: seq<string>)
    requires parts != [] && parts[0] == "#"
    ensures Tokens(Join(parts, '/')) == Some(parts[1..]) <==> forall k | 0 <= k < |parts| :: PlainToken(parts[k])
  {
    hide Unescape, Split, Join, Tokens;
    UnescapePlain("#");
    SplitJoinLength(parts, '/');
    var text := Join(parts, '/');
    TokensLength(text);
    if forall k | 0 <= k < |parts| :: '/' !in parts[k] {
      SplitJoin(parts, '/');
      TokensAre(text);
      SameUnescaped(parts, Tokens(text).value);
    }
  }

  lemma TokensLength(text: string)
    ensures Tokens(text).Some? ==> |Tokens(text).value| + 1 == |Split(text, '/')|
  {
    hide Unescape, Split;
  }

  lemma TokensAre(text: string)
    requires Split(text, '/') != [] && Split(text, '/')[0] == "#"
    ensures Tokens(text).Some? && |Tokens(text).value| + 1 == |Split(text, '/')|
    ensures forall k | 0 <= k < |Tokens(text).value| :: Tokens(text).value[k] == Unescape(Split(text, '/')[k + 1])
  {
    hide Unescape, Split;
  }

  lemma SameUnescaped(parts: seq<string>, tokens: seq<string>)
    requires |parts| == |tokens| + 1 && Unescape(parts[0]) == parts[0]
    requires forall k | 0 <= k < |tokens| :: tokens[k] == Unescape(parts[k + 1])
    ensures tokens == parts[1..] <==> forall k | 0 <= k < |parts| :: Unescape(parts[k]) == parts[k]
  {
    hide *;
    assert forall k | 0 <= k < |tokens| :: parts[1..][k] == parts[k + 1];
    forall k | 0 <= k < |parts| && tokens == parts[1..]
      ensures Unescape(parts[k]) == parts[k]
    {
      if k > 0 { assert tokens[k - 1] == parts[1..][k - 1]; }
    }
  }

  lemma {:induction false} LookUpAt(props: seq<Prop>, k: nat)
    requires k < |props| && forall j | 0 <= j < k :: props[j].key != props[k].key
    ensures LookUp(props, props[k].key) == Some(props[k].doc)
  {
    if k > 0 {
      LookUpAt(props[1..], k - 1);
    }
  }

  lemma {:induction false} ExpandPropsAt(root: Doc, props: seq<Prop>, fuel: nat)
    ensures var r := ExpandProps(root, props, fuel);
      && (r.Some? <==> forall k | 0 <= k < |props| :: Expand(root, props[k].doc, fuel).Some?)
      && (r.Some? ==> |r.value| == |props| && forall k | 0 <= k < |props| ::
            r.value[k] == Prop(props[k].key, Expand(root, props[k].doc, fuel).value))
    decreases |props|
  {
    if props != [] {
      ExpandPropsAt(root, props[1..], fuel);
      assert forall k | 0 < k < |props| :: props[k] == props[1..][k - 1];
      assert forall k | 0 <= k < |props[1..]| :: props[1..][k] == props[k + 1];
    }
  }

  lemma {:induction false} ExpandAllAt(root: Doc, docs: seq<Doc>, fuel: nat)
    ensures var r := ExpandAll(root, docs, fuel);
      && (r.Some? <==> forall k | 0 <= k < |docs| :: Expand(root, docs[k], fuel).Some?)
      && (r.Some? ==> |r.value| == |docs| && forall k | 0 <= k < |docs| :: r.value[k] == Expand(root, docs[k], fuel).value)
    decreases |docs|
  {
    if docs != [] {
      ExpandAllAt(root, docs[1..], fuel);
      assert forall k | 0 < k < |docs| :: docs[k] == docs[1..][k - 1];
      assert forall k | 0 <= k < |docs[1..]| :: docs[1..][k] == docs[k + 1];
    }
  }

  /** More fuel never changes an expansion that succeeded. */
  lemma {:induction false} ExpandMore(root: Doc, d: Doc, fuel: nat, more: nat)
    requires fuel <= more && Expand(root, d, fuel).Some?
    ensures Expand(root, d, more) == Expand(root, d, fuel)
    decreases fuel, d
  {
    if d.ref.Some? {
      ExpandMore(root, Resolve(root, d.ref.value).value, fuel - 1, more - 1);
    } else {
      if d.items.Some? { ExpandMore(root, d.items.value, fuel, more); }
      if d.additional.Each? { ExpandMore(root, d.additional.doc, fuel, more); }
      if d.not_.Some? { ExpandMore(root, d.not_.value, fuel, more); }
      ExpandPropsAt(root, d.properties, fuel);
      ExpandPropsAt(root, d.properties, more);
      forall k | 0 <= k < |d.properties|
        ensures Expand(root, d.properties[k].doc, more) == Expand(root, d.properties[k].doc, fuel)
      {
        ExpandMore(root, d.properties[k].doc, fuel, more);
      }
      assert ExpandProps(root, d.properties, more).value == ExpandProps(root, d.properties, fuel).value;
      ExpandAllAt(root, d.anyOf, fuel);
      ExpandAllAt(root, d.anyOf, more);
      forall k | 0 <= k < |d.anyOf|
        ensures Expand(root, d.anyOf[k], more) == Expand(root, d.anyOf[k], fuel)
      {
        ExpandMore(root, d.anyOf[k], fuel, more);
      }
      assert ExpandAll(root, d.anyOf, more).value == ExpandAll(root, d.anyOf, fuel).value;
    }
  }

  /** Whatever fuel resolves a document, it validates the same values. */
  lemma ValidatesWith(o: Oracle, root: Doc, v: Value, fuel: nat)
    requires Expand(root, root, fuel).Some?
    ensures Validates(o, root, v) <==> Valid(o, Expand(root, root, fuel).value, v)
  {
    if Validates(o, root, v) {
      var f: nat :| Expand(root, root, f).Some? && Valid(o, Expand(root, root, f).value, v);
      if f <= fuel { ExpandMore(root, root, f, fuel); } else { ExpandMore(root, root, fuel, f); }
    }
  }
}
