/** The data the schema builder works on (src/schema.ts): JavaScript values as `safeParse`
    meets them, and schemas.

    A schema object has identity (the emitter's `seen` map is keyed by object), its fields
    are read-only, and its children exist before it does. So a set of schemas is a table:
    a schema is an index, and every child index is smaller than its parent's. The same
    index under two parents is the same object used twice. */
module SchemaNodes {
  import opened Common

  datatype Value =
    | Undefined
    | Null
    | Bool(b: bool)
    | Num(n: real)
    | Str(s: string)
    | Arr(items: seq<Value>)
    | Obj(entries: seq<(string, Value)>)

  type Entries = seq<(string, Value)>

  /** `Object.hasOwn(value, key)` */
  predicate Has(es: Entries, key: string) {
    exists k | 0 <= k < |es| :: es[k].0 == key
  }

  /** `value[key]` for own properties */
  function Get(es: Entries, key: string): (v: Value)
    ensures Has(es, key) ==> exists k | 0 <= k < |es| :: es[k] == (key, v)
    ensures !Has(es, key) ==> v == Undefined
  {
    if es == [] then Undefined
    else if es[0].0 == key then assert es[0] == (key, es[0].1); es[0].1
    else
      assert Has(es, key) ==> Has(es[1..], key);
      assert Has(es[1..], key) ==> Has(es, key);
      Get(es[1..], key)
  }

  predicate DistinctKeys<T>(es: seq<(string, T)>) {
    forall j, k | 0 <= j < k < |es| :: es[j].0 != es[k].0
  }

  /** A value `JSON.parse` can give: no `undefined` anywhere, and each key once. */
  ghost predicate JsonData(v: Value) {
    match v
    case Undefined => false
    case Arr(items) => forall k | 0 <= k < |items| :: JsonData(items[k])
    case Obj(es) => DistinctKeys(es) && forall k | 0 <= k < |es| :: JsonData(es[k].1)
    case _ => true
  }

  /** The same JSON value, object members taken as a map (order aside). */
  ghost predicate SameAsMap(v: Value, w: Value) {
    match v
    case Arr(items) => w.Arr? && |w.items| == |items| && forall k | 0 <= k < |items| :: SameAsMap(items[k], w.items[k])
    case Obj(es) =>
      && w.Obj?
      && (forall k | 0 <= k < |es| :: Has(w.entries, es[k].0) && SameAsMap(es[k].1, Get(w.entries, es[k].0)))
      && (forall k | 0 <= k < |w.entries| :: Has(es, w.entries[k].0))
    case _ => v == w
  }

  datatype Scalar = SStr(s: string) | SNum(n: real) | SBool(b: bool)

  function ScalarValue(x: Scalar): Value {
    match x case SStr(s) => Str(s) case SNum(n) => Num(n) case SBool(b) => Bool(b)
  }

  /** `typeof` of a literal */
  function ScalarType(x: Scalar): string {
    match x case SStr(_) => "string" case SNum(_) => "number" case SBool(_) => "boolean"
  }

  /** One step of an issue's path: `Array<string | number>`. */
  datatype Step = Key(key: string) | Index(index: nat)

  datatype StringCheck = MinLength(value: nat) | MaxLength(value: nat) | Regex(source: string, flags: string) | Url
  datatype NumberCheck = Int | Min(value: real) | Max(value: real)
  datatype UnknownKeys = Strip | Strict | Loose

  datatype Body =
    | StringS(textChecks: seq<StringCheck>)
    | NumberS(numberChecks: seq<NumberCheck>)
    | BooleanS
    | NullS
    | UnknownS
    | LiteralS(literal: Scalar)
    | EnumS(values: seq<string>)
    | ArrayS(item: nat, minItems: Option<nat>, maxItems: Option<nat>)
    | RecordS(valueSchema: nat)
    | ObjectS(shape: seq<(string, nat)>, unknownKeys: UnknownKeys)
    | UnionS(options: seq<nat>)
    | OptionalS(inner: nat)
    | NullableS(inner: nat)
    | RefinedS(inner: nat, check: Value -> bool, at: seq<Step>)

  datatype Node = Node(body: Body, description: Option<string>)
  type Table = seq<Node>

  /** What the builder's types guarantee: children first, distinct keys, nonempty unions. */
  predicate Wf(t: Table) {
    forall i | 0 <= i < |t| :: WfBody(t[i].body, i)
  }

  predicate WfBody(b: Body, bound: nat) {
    match b
    case ArrayS(item, _, _) => item < bound
    case RecordS(item) => item < bound
    case ObjectS(shape, _) => DistinctKeys(shape) && Below(shape, bound)
    case UnionS(options) => options != [] && forall k | 0 <= k < |options| :: options[k] < bound
    case OptionalS(inner) => inner < bound
    case NullableS(inner) => inner < bound
    case RefinedS(inner, _, _) => inner < bound
    case _ => true
  }

  predicate Below(shape: seq<(string, nat)>, bound: nat) {
    forall k | 0 <= k < |shape| :: shape[k].1 < bound
  }

  /** The two foreign string tests: `RegExp.test` for a source text and flags, and `URL.canParse`. */
  datatype Oracle = Oracle(matches: (string, string, string) -> bool, isUri: string -> bool)

  /** May the value be left out? An object does not require the members whose schema says so. */
  predicate AcceptsUndefined(t: Table, i: nat)
    requires Wf(t) && i < |t|
  {
    match t[i].body
    case UnknownS => true
    case UnionS(options) => exists k | 0 <= k < |options| :: AcceptsUndefined(t, options[k])
    case OptionalS(_) => true
    case NullableS(inner) => AcceptsUndefined(t, inner)
    case RefinedS(inner, _, _) => AcceptsUndefined(t, inner)
    case _ => false
  }

  lemma GetAt(es: Entries, k: nat)
    requires DistinctKeys(es) && k < |es|
    ensures Has(es, es[k].0) && Get(es, es[k].0) == es[k].1
  {
  }
}
