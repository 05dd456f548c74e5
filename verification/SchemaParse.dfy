/** Validation: `parseAt` of every schema class and `safeParse` (src/schema.ts).
    `ParseAt` is the specification; `ParseNode` is the code's own form, which pushes
    onto the issue list of a context and fills `out` step by step. */
module SchemaParse {
  import opened Common
  import opened SchemaNodes

  datatype Code = Invalid | UnrecognizedKeys(keys: seq<string>)
  datatype Issue = Issue(path: seq<Step>, code: Code)

  /** A parse's value (`None` for the INVALID marker) and the issues it pushed. */
  datatype Parsed = Parsed(value: Option<Value>, issues: seq<Issue>)

  function Fail(path: seq<Step>): Parsed {
    Parsed(None, [Issue(path, Invalid)])
  }

  function Pass(v: Value): Parsed {
    Parsed(Some(v), [])
  }

  predicate StringOk(o: Oracle, c: StringCheck, s: string) {
    match c
    case MinLength(m) => |s| >= m
    case MaxLength(m) => |s| <= m
    case Regex(source, flags) => o.matches(source, flags, s)
    case Url => o.isUri(s)
  }

  predicate NumberOk(c: NumberCheck, n: real) {
    match c
    case Int => n.Floor as real == n
    case Min(m) => n >= m
    case Max(m) => n <= m
  }

  predicate Undeclared(shape: seq<(string, nat)>, key: string) {
    forall k | 0 <= k < |shape| :: shape[k].0 != key
  }

  /** The members whose keys the shape does not have, in order. */
  function UndeclaredEntries(shape: seq<(string, nat)>, es: Entries): (r: Entries)
    ensures forall e :: e in r <==> e in es && Undeclared(shape, e.0)
  {
    if es == [] then []
    else if Undeclared(shape, es[0].0) then [es[0]] + UndeclaredEntries(shape, es[1..])
    else UndeclaredEntries(shape, es[1..])
  }

  function Keys(es: Entries): (r: seq<string>)
    ensures |r| == |es|
  {
    seq(|es|, k requires 0 <= k < |es| => es[k].0)
  }

  /** What one element of a container adds to the output and to the issues. */
  datatype Piece<T> = Piece(out: seq<T>, issues: seq<Issue>)

  function ItemPiece(p: Parsed): Piece<Value> {
    Piece(if p.value.Some? then [p.value.value] else [], p.issues)
  }

  function EntryPiece(key: string, p: Parsed): Piece<(string, Value)> {
    Piece(if p.value.Some? then [(key, p.value.value)] else [], p.issues)
  }

  /** A member absent from the value is parsed as `undefined`, and left out when that is what it parses to. */
  function MemberPiece(key: string, present: bool, p: Parsed): Piece<(string, Value)> {
    Piece(if p.value.Some? && (present || p.value.value != Undefined) then [(key, p.value.value)] else [], p.issues)
  }

  /** All the pieces, in order. */
  function Gather<T>(ps: seq<Piece<T>>): Piece<T> {
    if ps == [] then Piece([], [])
    else
      var init := Gather(ps[..|ps| - 1]);
      var last := ps[|ps| - 1];
      Piece(init.out + last.out, init.issues + last.issues)
  }

  function First(ps: seq<Parsed>): Option<Value> {
    if ps == [] then None
    else if ps[0].value.Some? then ps[0].value
    else First(ps[1..])
  }

  /** What an object does with its declared members parsed: refuse, drop or keep the others. */
  function ObjectResult(shape: seq<(string, nat)>, mode: UnknownKeys, es: Entries, path: seq<Step>, r: Piece<(string, Value)>): Parsed {
    var extra := UndeclaredEntries(shape, es);
    var issues := r.issues + if extra != [] && mode == Strict then [Issue(path, UnrecognizedKeys(Keys(extra)))] else [];
    Parsed(if issues == [] then Some(Obj(r.out + if mode == Loose then extra else [])) else None, issues)
  }

  function ParseAt(t: Table, o: Oracle, i: nat, v: Value, path: seq<Step>): (p: Parsed)
    requires Wf(t) && i < |t|
    ensures p.value.None? <==> p.issues != []
    decreases i, 1
  {
    match t[i].body
    case StringS(checks) =>
      if v.Str? && forall k | 0 <= k < |checks| :: StringOk(o, checks[k], v.s) then Pass(v) else Fail(path)
    case NumberS(checks) =>
      if v.Num? && forall k | 0 <= k < |checks| :: NumberOk(checks[k], v.n) then Pass(v) else Fail(path)
    case BooleanS => if v.Bool? then Pass(v) else Fail(path)
    case NullS => if v.Null? then Pass(v) else Fail(path)
    case UnknownS => Pass(v)
    case LiteralS(x) => if v == ScalarValue(x) then Pass(v) else Fail(path)
    case EnumS(values) => if v.Str? && v.s in values then Pass(v) else Fail(path)
    case ArrayS(item, mn, mx) =>
      if !v.Arr? || (mn.Some? && |v.items| < mn.value) || (mx.Some? && |v.items| > mx.value) then Fail(path)
      else
        var r := Gather(ItemPieces(t, o, item, v.items, path));
        Parsed(if r.issues == [] then Some(Arr(r.out)) else None, r.issues)
    case RecordS(item) =>
      if !v.Obj? then Fail(path)
      else
        var r := Gather(EntryPieces(t, o, item, v.entries, path));
        Parsed(if r.issues == [] then Some(Obj(r.out)) else None, r.issues)
    case ObjectS(shape, mode) =>
      if !v.Obj? then Fail(path)
      else ObjectResult(shape, mode, v.entries, path, Gather(MemberPieces(t, o, i, shape, v.entries, path)))
    case UnionS(options) =>
      (match First(Attempts(t, o, i, options, v, path))
       case Some(w) => Pass(w)
       case None => Fail(path))
    case OptionalS(inner) => if v.Undefined? then Pass(v) else ParseAt(t, o, inner, v, path)
    case NullableS(inner) => if v.Null? then Pass(v) else ParseAt(t, o, inner, v, path)
    case RefinedS(inner, check, at) =>
      var p := ParseAt(t, o, inner, v, path);
      if p.value.None? || check(p.value.value) then p else Fail(path + at)
  }

  /** Every element parsed, at its own index. */
  function ItemPieces(t: Table, o: Oracle, item: nat, vs: seq<Value>, path: seq<Step>): (ps: seq<Piece<Value>>)
    requires Wf(t) && item < |t|
    decreases item + 1, 0
  {
    seq(|vs|, k requires 0 <= k < |vs| => ItemPiece(ParseAt(t, o, item, vs[k], path + [Index(k)])))
  }

  /** A record's loop over `Object.entries(value)`. */
  function EntryPieces(t: Table, o: Oracle, item: nat, es: Entries, path: seq<Step>): (ps: seq<Piece<(string, Value)>>)
    requires Wf(t) && item < |t|
    decreases item + 1, 0
  {
    seq(|es|, k requires 0 <= k < |es| => EntryPiece(es[k].0, ParseAt(t, o, item, es[k].1, path + [Key(es[k].0)])))
  }

  /** An object's loop over its declared shape. */
  function MemberPieces(t: Table, o: Oracle, bound: nat, shape: seq<(string, nat)>, es: Entries, path: seq<Step>): (ps: seq<Piece<(string, Value)>>)
    requires Wf(t) && bound <= |t| && Below(shape, bound)
    decreases bound, 0
  {
    seq(|shape|, k requires 0 <= k < |shape| =>
      MemberPiece(shape[k].0, Has(es, shape[k].0), ParseAt(t, o, shape[k].1, Get(es, shape[k].0), path + [Key(shape[k].0)])))
  }

  /** A union's options, each tried in a context of its own. */
  function Attempts(t: Table, o: Oracle, bound: nat, options: seq<nat>, v: Value, path: seq<Step>): (ps: seq<Parsed>)
    requires Wf(t) && bound <= |t| && forall k | 0 <= k < |options| :: options[k] < bound
    decreases bound, 0
  {
    seq(|options|, k requires 0 <= k < |options| => ParseAt(t, o, options[k], v, path))
  }

  /** `safeParse`'s outcome. */
  function SafeParse(t: Table, o: Oracle, i: nat, v: Value): Parsed
    requires Wf(t) && i < |t|
  {
    ParseAt(t, o, i, v, [])
  }

  // ---------------------------------------------------------------- the code's own form

  class ParseCtx {
    var issues: seq<Issue>

    constructor ()
      ensures issues == []
    {
      issues := [];
    }

    /** `fail(ctx, path, message)`; the prose of the message is not kept. */
    method Fail(path: seq<Step>) returns (r: Option<Value>)
      modifies this
      ensures r == None && issues == old(issues) + [Issue(path, Invalid)]
    {
      issues := issues + [Issue(path, Invalid)];
      r := None;
    }
  }

  lemma Extend<T>(before: seq<Issue>, ps: seq<Piece<T>>, k: nat)
    requires k < |ps|
    ensures Gather(ps[..k + 1]).out == Gather(ps[..k]).out + ps[k].out
    ensures Gather(ps[..k + 1]).issues == Gather(ps[..k]).issues + ps[k].issues
    ensures before + Gather(ps[..k + 1]).issues == (before + Gather(ps[..k]).issues) + ps[k].issues
  {
    assert ps[..k + 1][..k] == ps[..k];
  }

  method ParseNode(t: Table, o: Oracle, i: nat, v: Value, path: seq<Step>, ctx: ParseCtx) returns (r: Option<Value>)
    requires Wf(t) && i < |t|
    modifies ctx
    ensures r == ParseAt(t, o, i, v, path).value
    ensures ctx.issues == old(ctx.issues) + ParseAt(t, o, i, v, path).issues
    decreases i, 1
  {
    match t[i].body {
      case StringS(checks) =>
        r := ParseString(o, checks, v, path, ctx);
      case NumberS(checks) =>
        r := ParseNumber(checks, v, path, ctx);
      case BooleanS =>
        if v.Bool? { r := Some(v); } else { r := ctx.Fail(path); }
      case NullS =>
        if v.Null? { r := Some(v); } else { r := ctx.Fail(path); }
      case UnknownS =>
        r := Some(v);
      case LiteralS(x) =>
        if v == ScalarValue(x) { r := Some(v); } else { r := ctx.Fail(path); }
      case EnumS(values) =>
        if v.Str? && v.s in values { r := Some(v); } else { r := ctx.Fail(path); }
      case ArrayS(item, mn, mx) =>
        if !v.Arr? {
          r := ctx.Fail(path);
        } else if mn.Some? && |v.items| < mn.value {
          r := ctx.Fail(path);
        } else if mx.Some? && |v.items| > mx.value {
          r := ctx.Fail(path);
        } else {
          r := ParseArray(t, o, item, v.items, path, ctx);
        }
      case RecordS(item) =>
        if !v.Obj? { r := ctx.Fail(path); } else { r := ParseRecord(t, o, item, v.entries, path, ctx); }
      case ObjectS(shape, mode) =>
        if !v.Obj? { r := ctx.Fail(path); } else { r := ParseObject(t, o, i, shape, mode, v.entries, path, ctx); }
      case UnionS(options) =>
        r := ParseUnion(t, o, i, options, v, path, ctx);
      case OptionalS(inner) =>
        if v.Undefined? { r := Some(v); } else { r := ParseNode(t, o, inner, v, path, ctx); }
      case NullableS(inner) =>
        if v.Null? { r := Some(v); } else { r := ParseNode(t, o, inner, v, path, ctx); }
      case RefinedS(inner, check, at) =>
        r := ParseNode(t, o, inner, v, path, ctx);
        if r.Some? && !check(r.value) {
          assert ctx.issues == old(ctx.issues);
          r := ctx.Fail(path + at);
        }
    }
  }

  method ParseString(o: Oracle, checks: seq<StringCheck>, v: Value, path: seq<Step>, ctx: ParseCtx) returns (r: Option<Value>)
    modifies ctx
    ensures var ok := v.Str? && forall k | 0 <= k < |checks| :: StringOk(o, checks[k], v.s);
      var p := if ok then Pass(v) else Fail(path);
      r == p.value && ctx.issues == old(ctx.issues) + p.issues
  {
    if !v.Str? {
      r := ctx.Fail(path);
      return;
    }
    for k := 0 to |checks|
      invariant ctx.issues == old(ctx.issues)
      invariant forall j | 0 <= j < k :: StringOk(o, checks[j], v.s)
    {
      if !StringOk(o, checks[k], v.s) {
        r := ctx.Fail(path);
        return;
      }
    }
    r := Some(v);
  }

  method ParseNumber(checks: seq<NumberCheck>, v: Value, path: seq<Step>, ctx: ParseCtx) returns (r: Option<Value>)
    modifies ctx
    ensures var ok := v.Num? && forall k | 0 <= k < |checks| :: NumberOk(checks[k], v.n);
      var p := if ok then Pass(v) else Fail(path);
      r == p.value && ctx.issues == old(ctx.issues) + p.issues
  {
    if !v.Num? {
      r := ctx.Fail(path);
      return;
    }
    for k := 0 to |checks|
      invariant ctx.issues == old(ctx.issues)
      invariant forall j | 0 <= j < k :: NumberOk(checks[j], v.n)
    {
      if !NumberOk(checks[k], v.n) {
        r := ctx.Fail(path);
        return;
      }
    }
    r := Some(v);
  }

  method ParseArray(t: Table, o: Oracle, item: nat, vs: seq<Value>, path: seq<Step>, ctx: ParseCtx) returns (r: Option<Value>)
    requires Wf(t) && item < |t|
    modifies ctx
    ensures var p := Gather(ItemPieces(t, o, item, vs, path));
      && r == (if p.issues == [] then Some(Arr(p.out)) else None)
      && ctx.issues == old(ctx.issues) + p.issues
    decreases item + 1, 0
  {
    var out: seq<Value> := [];
    var invalid := false;
    ghost var ps := ItemPieces(t, o, item, vs, path);
    for k := 0 to |vs|
      invariant var done := Gather(ps[..k]);
        && (!invalid ==> out == done.out) && (invalid <==> done.issues != [])
        && ctx.issues == old(ctx.issues) + done.issues
    {
      var entry := ParseNode(t, o, item, vs[k], path + [Index(k)], ctx);
      Extend(old(ctx.issues), ps, k);
      if entry.None? { invalid := true; } else { out := out + [entry.value]; }
    }
    assert ps[..|vs|] == ps;
    r := if invalid then None else Some(Arr(out));
  }

  method ParseRecord(t: Table, o: Oracle, item: nat, es: Entries, path: seq<Step>, ctx: ParseCtx) returns (r: Option<Value>)
    requires Wf(t) && item < |t|
    modifies ctx
    ensures var p := Gather(EntryPieces(t, o, item, es, path));
      && r == (if p.issues == [] then Some(Obj(p.out)) else None)
      && ctx.issues == old(ctx.issues) + p.issues
    decreases item + 1, 0
  {
    var out: Entries := [];
    var ok := true;
    ghost var ps := EntryPieces(t, o, item, es, path);
    for k := 0 to |es|
      invariant var done := Gather(ps[..k]);
        && out == done.out && (ok <==> done.issues == [])
        && ctx.issues == old(ctx.issues) + done.issues
    {
      var parsed := ParseNode(t, o, item, es[k].1, path + [Key(es[k].0)], ctx);
      Extend(old(ctx.issues), ps, k);
      if parsed.None? { ok := false; } else { out := out + [(es[k].0, parsed.value)]; }
    }
    assert ps[..|es|] == ps;
    r := if ok then Some(Obj(out)) else None;
  }

  method ParseObject(t: Table, o: Oracle, bound: nat, shape: seq<(string, nat)>, mode: UnknownKeys, es: Entries, path: seq<Step>, ctx: ParseCtx)
    returns (r: Option<Value>)
    requires Wf(t) && bound <= |t| && Below(shape, bound)
    modifies ctx
    ensures var p := ObjectResult(shape, mode, es, path, Gather(MemberPieces(t, o, bound, shape, es, path)));
      r == p.value && ctx.issues == old(ctx.issues) + p.issues
    decreases bound, 0, 1
  {
    var out, ok := ParseDeclared(t, o, bound, shape, es, path, ctx);
    var undeclared := FilterUndeclared(shape, es);
    ghost var declared := Gather(MemberPieces(t, o, bound, shape, es, path));
    assert declared.issues + [] == declared.issues && declared.out + [] == declared.out;
    if undeclared != [] && mode == Strict {
      var more := [Issue(path, UnrecognizedKeys(Keys(undeclared)))];
      assert old(ctx.issues) + (declared.issues + more) == (old(ctx.issues) + declared.issues) + more;
      ctx.issues := ctx.issues + more;
      ok := false;
    }
    if mode == Loose {
      out := out + undeclared;
    }
    r := if ok then Some(Obj(out)) else None;
  }

  method ParseDeclared(t: Table, o: Oracle, bound: nat, shape: seq<(string, nat)>, es: Entries, path: seq<Step>, ctx: ParseCtx)
    returns (out: Entries, ok: bool)
    requires Wf(t) && bound <= |t| && Below(shape, bound)
    modifies ctx
    ensures var p := Gather(MemberPieces(t, o, bound, shape, es, path));
      out == p.out && (ok <==> p.issues == []) && ctx.issues == old(ctx.issues) + p.issues
    decreases bound, 0, 0
  {
    out, ok := [], true;
    ghost var ps := MemberPieces(t, o, bound, shape, es, path);
    for k := 0 to |shape|
      invariant var done := Gather(ps[..k]);
        && out == done.out && (ok <==> done.issues == [])
        && ctx.issues == old(ctx.issues) + done.issues
    {
      var key := shape[k].0;
      var present := Has(es, key);
      var parsed := ParseNode(t, o, shape[k].1, Get(es, key), path + [Key(key)], ctx);
      Extend(old(ctx.issues), ps, k);
      if parsed.None? {
        ok := false;
      } else if present || parsed.value != Undefined {
        out := out + [(key, parsed.value)];
      }
    }
    assert ps[..|shape|] == ps;
  }

  method FilterUndeclared(shape: seq<(string, nat)>, es: Entries) returns (undeclared: Entries)
    ensures undeclared == UndeclaredEntries(shape, es)
  {
    undeclared := [];
    for k := 0 to |es|
      invariant UndeclaredEntries(shape, es) == undeclared + UndeclaredEntries(shape, es[k..])
    {
      assert es[k..][1..] == es[k + 1..];
      if Undeclared(shape, es[k].0) { undeclared := undeclared + [es[k]]; }
    }
  }

  method ParseUnion(t: Table, o: Oracle, bound: nat, options: seq<nat>, v: Value, path: seq<Step>, ctx: ParseCtx) returns (r: Option<Value>)
    requires Wf(t) && bound <= |t| && forall k | 0 <= k < |options| :: options[k] < bound
    modifies ctx
    ensures r == First(Attempts(t, o, bound, options, v, path))
    ensures ctx.issues == old(ctx.issues) + if r.None? then [Issue(path, Invalid)] else []
    decreases bound, 0
  {
    ghost var ps := Attempts(t, o, bound, options, v, path);
    for k := 0 to |options|
      invariant First(ps) == First(ps[k..])
      invariant ctx.issues == old(ctx.issues)
    {
      assert ps[k..][1..] == ps[k + 1..];
      var attempt := new ParseCtx();
      var parsed := ParseNode(t, o, options[k], v, path, attempt);
      if parsed.Some? && |attempt.issues| == 0 {
        r := parsed;
        return;
      }
    }
    r := ctx.Fail(path);
  }

  /** `safeParse`: success with the data, or the issues. The two tests the code makes,
      INVALID and pushed issues, never disagree. */
  method RunSafeParse(t: Table, o: Oracle, i: nat, v: Value) returns (success: bool, data: Value, issues: seq<Issue>)
    requires Wf(t) && i < |t|
    ensures success <==> SafeParse(t, o, i, v).value.Some?
    ensures success ==> data == SafeParse(t, o, i, v).value.value && issues == []
    ensures issues == SafeParse(t, o, i, v).issues && (success <==> issues == [])
  {
    var ctx := new ParseCtx();
    var r := ParseNode(t, o, i, v, [], ctx);
    issues := ctx.issues;
    if r.None? || |ctx.issues| > 0 {
      success, data := false, Undefined;
    } else {
      success, data := true, r.value;
    }
  }
}
