/** The chain proxy's argument codec (src/sandbox-proxy.ts): the in-sandbox `encode`, the JSON text
    between the two sides, and the host's `#decodeArg` with its handle table. */
module WireCodec {
  import opened Common

  // ---------------------------------------------------------------- values in the sandbox

  datatype Num = Finite(value: real) | NegZero | NaN | PosInf | NegInf

  /** A sandbox value: a primitive, a function, an `r` chain, or an object by address. */
  datatype Val =
    | Null
    | Bool(b: bool)
    | Str(s: string)
    | Number(n: Num)
    | Undefined
    | BigInt(i: int)
    | Symbol
    | Function
    | Chain(id: string, awaited: bool)
    | Ref(addr: nat)

  datatype Node =
    | ArrayN(items: seq<Val>)
    | SetN(items: seq<Val>)
    | MapN(pairs: seq<(Val, Val)>)
    | PlainN(members: seq<(string, Val)>)
    | DateN(time: Option<real>) // `None` is an invalid date
    | BytesN(bytes: seq<nat>)
    | InstanceN(name: string)

  type Heap = seq<Node>

  /** The values an object holds, in the order `encode` visits them. */
  function Parts(n: Node): seq<Val> {
    match n
    case ArrayN(items) => items
    case SetN(items) => items
    case MapN(pairs) => seq(2 * |pairs|, k requires 0 <= k < 2 * |pairs| => if k % 2 == 0 then pairs[k / 2].0 else pairs[k / 2].1)
    case PlainN(members) => seq(|members|, k requires 0 <= k < |members| => members[k].1)
    case _ => []
  }

  predicate InHeap(v: Val, h: Heap) {
    v.Ref? ==> v.addr < |h|
  }

  /** No dangling references, and bytes are bytes. */
  predicate Graph(h: Heap) {
    && (forall a, k | 0 <= a < |h| && 0 <= k < |Parts(h[a])| :: InHeap(Parts(h[a])[k], h))
    && (forall a | 0 <= a < |h| && h[a].BytesN? :: forall k | 0 <= k < |h[a].bytes| :: h[a].bytes[k] < 256)
  }

  /** Where a path of part positions leads. */
  function Follow(h: Heap, v: Val, path: seq<nat>): Option<Val>
    decreases |path|
  {
    if path == [] then Some(v)
    else if !v.Ref? || v.addr >= |h| || path[0] >= |Parts(h[v.addr])| then None
    else Follow(h, Parts(h[v.addr])[path[0]], path[1..])
  }

  // ---------------------------------------------------------------- values on the wire

  const TAG := "__r402"

  datatype Wire =
    | WNull
    | WBool(b: bool)
    | WStr(s: string)
    | WNum(n: Num)
    | WArr(items: seq<Wire>)
    | WObj(members: seq<Field>)
  datatype Field = Field(key: string, value: Wire)

  function Tagged(t: string, v: Wire): Wire {
    WObj([Field(TAG, WObj([Field("t", WStr(t)), Field("v", v)]))])
  }

  /** `JSON.parse(JSON.stringify(w))`: minus zero becomes zero, what is not finite becomes null. */
  function Transfer(w: Wire): Wire {
    match w
    case WNum(NegZero) => WNum(Finite(0.0))
    case WNum(Finite(_)) => w
    case WNum(_) => WNull
    case WArr(items) => WArr(TransferAll(items))
    case WObj(members) => WObj(TransferFields(members))
    case _ => w
  }

  function TransferAll(ws: seq<Wire>): (r: seq<Wire>)
    ensures |r| == |ws| && forall k | 0 <= k < |ws| :: r[k] == Transfer(ws[k])
  {
    if ws == [] then [] else [Transfer(ws[0])] + TransferAll(ws[1..])
  }

  function TransferFields(ms: seq<Field>): (r: seq<Field>)
    ensures |r| == |ms| && forall k | 0 <= k < |ms| :: r[k] == Field(ms[k].key, Transfer(ms[k].value))
  {
    if ms == [] then [] else [Field(ms[0].key, Transfer(ms[0].value))] + TransferFields(ms[1..])
  }

  // ---------------------------------------------------------------- encode

  datatype Reason = Cyclic | ASymbol | AFunction | NotAwaited | RootItself | AnInstance
  datatype Encoded<T> = Ok(value: T) | Refused(reason: Reason)

  function NumText(n: Num): string {
    match n case NaN => "NaN" case PosInf => "Infinity" case NegInf => "-Infinity" case _ => "0"
  }

  function IntText(i: int): string {
    if i < 0 then "-" + Dec(-i) else Dec(i)
  }

  function EncodeLeaf(v: Val): Encoded<Wire>
    requires !v.Ref?
  {
    match v
    case Null => Ok(WNull)
    case Bool(b) => Ok(WBool(b))
    case Str(s) => Ok(WStr(s))
    case Number(n) => Ok(if n.Finite? || n.NegZero? then WNum(n) else Tagged("number", WStr(NumText(n))))
    case Undefined => Ok(WObj([Field(TAG, WObj([Field("t", WStr("undefined"))]))]))
    case BigInt(i) => Ok(Tagged("bigint", WStr(IntText(i))))
    case Symbol => Refused(ASymbol)
    case Function => Refused(AFunction)
    case Chain(id, awaited) =>
      if !awaited then Refused(NotAwaited) else if id == "root" then Refused(RootItself) else Ok(Tagged("handle", WStr(id)))
  }

  /** The wire form of an object, from those of its parts. Assigning `__proto__` adds no member. */
  function Build(n: Node, ws: seq<Wire>): Wire
    requires |ws| == |Parts(n)| && !n.InstanceN?
  {
    match n
    case ArrayN(_) => WArr(ws)
    case SetN(_) => Tagged("set", WArr(ws))
    case MapN(pairs) => Tagged("map", WArr(PairUp(ws)))
    case PlainN(members) => WObj(BuildFields(members, ws))
    case DateN(time) => Tagged("date", WNum(if time.Some? then Finite(time.value) else NaN))
    case BytesN(bytes) => Tagged("bytes", WArr(seq(|bytes|, k requires 0 <= k < |bytes| => WNum(Finite(bytes[k] as real)))))
  }

  /** Keys and values in turn, made into pairs. */
  function PairUp(ws: seq<Wire>): seq<Wire>
    requires |ws| % 2 == 0
  {
    seq(|ws| / 2, k requires 0 <= k < |ws| / 2 => WArr([ws[2 * k], ws[2 * k + 1]]))
  }

  function BuildFields(members: seq<(string, Val)>, ws: seq<Wire>): seq<Field>
    requires |ws| == |members|
  {
    if members == [] then []
    else (if members[0].0 == "__proto__" then [] else [Field(members[0].0, ws[0])]) + BuildFields(members[1..], ws[1..])
  }

  function Todo(h: Heap, path: set<nat>): set<nat> {
    set a | 0 <= a < |h| && a !in path
  }

  /** `encode`; `path` holds the objects being encoded around this one. */
  function Encode(h: Heap, v: Val, path: set<nat>): Encoded<Wire>
    requires Graph(h) && InHeap(v, h)
    decreases Todo(h, path), 0, 0
  {
    if !v.Ref? then EncodeLeaf(v)
    else if v.addr in path then Refused(Cyclic)
    else if h[v.addr].InstanceN? then Refused(AnInstance)
    else
      assert v.addr in Todo(h, path) && v.addr !in Todo(h, path + {v.addr});
      var ws := EncodeAll(h, Parts(h[v.addr]), path + {v.addr});
      if ws.Refused? then Refused(ws.reason) else Ok(Build(h[v.addr], ws.value))
  }

  function EncodeAll(h: Heap, vs: seq<Val>, path: set<nat>): (r: Encoded<seq<Wire>>)
    requires Graph(h) && forall k | 0 <= k < |vs| :: InHeap(vs[k], h)
    ensures r.Ok? ==> |r.value| == |vs|
    decreases Todo(h, path), 1, |vs|
  {
    if vs == [] then Ok([])
    else
      var w := Encode(h, vs[0], path);
      if w.Refused? then Refused(w.reason)
      else
        var ws := EncodeAll(h, vs[1..], path);
        if ws.Refused? then ws else Ok([w.value] + ws.value)
  }

  lemma {:induction false} EncodeAllIs(h: Heap, vs: seq<Val>, path: set<nat>)
    requires Graph(h) && forall k | 0 <= k < |vs| :: InHeap(vs[k], h)
    ensures var r := EncodeAll(h, vs, path);
      if r.Ok? then forall k | 0 <= k < |vs| :: Encode(h, vs[k], path) == Ok(r.value[k])
      else exists k | 0 <= k < |vs| :: Encode(h, vs[k], path) == Refused(r.reason)
    decreases |vs|
  {
    if vs != [] {
      EncodeAllIs(h, vs[1..], path);
      if Encode(h, vs[0], path).Ok? && EncodeAll(h, vs[1..], path).Refused? {
        var k :| 0 <= k < |vs| - 1 && Encode(h, vs[1..][k], path) == Refused(EncodeAll(h, vs[1..], path).reason);
        assert vs[k + 1] == vs[1..][k];
      }
    }
  }

  // ---------------------------------------------------------------- what is accepted

  /** The object at `a` holds itself, at some depth. */
  ghost predicate Cycle(h: Heap, a: nat) {
    exists path :: path != [] && Follow(h, Ref(a), path) == Some(Ref(a))
  }

  /** Why a value cannot cross on its own account. */
  ghost predicate Offends(h: Heap, v: Val, reason: Reason) {
    match reason
    case Cyclic => v.Ref? && Cycle(h, v.addr)
    case AnInstance => v.Ref? && v.addr < |h| && h[v.addr].InstanceN?
    case ASymbol => v.Symbol?
    case AFunction => v.Function?
    case NotAwaited => v.Chain? && !v.awaited
    case RootItself => v.Chain? && v.awaited && v.id == "root"
  }

  /** A value that does not cross, whatever it holds: a symbol, a function, a chain that was not
      awaited or is `r` itself, an instance of a class, or an object that holds itself. */
  ghost predicate Bars(h: Heap, v: Val) {
    match v
    case Symbol => true
    case Function => true
    case Chain(id, awaited) => !awaited || id == "root"
    case Ref(a) => (a < |h| && h[a].InstanceN?) || Cycle(h, a)
    case _ => false
  }

  lemma OffendsBars(h: Heap, v: Val)
    ensures Bars(h, v) <==> exists reason: Reason :: Offends(h, v, reason)
  {
    if Bars(h, v) {
      var reason := match v
        case Symbol => ASymbol
        case Function => AFunction
        case Chain(_, awaited) => if awaited then RootItself else NotAwaited
        case Ref(a) => if a < |h| && h[a].InstanceN? then AnInstance else Cyclic
        case _ => ASymbol;
      assert Offends(h, v, reason);
    }
  }

  ghost predicate Reaches(h: Heap, v: Val, reason: Reason) {
    exists path :: Follow(h, v, path).Some? && Offends(h, Follow(h, v, path).value, reason)
  }

  lemma {:induction false} FollowConcat(h: Heap, v: Val, p: seq<nat>, q: seq<nat>)
    requires Follow(h, v, p).Some?
    ensures Follow(h, v, p + q) == Follow(h, Follow(h, v, p).value, q)
    decreases |p|
  {
    if p == [] {
      assert p + q == q;
    } else {
      assert (p + q)[0] == p[0] && (p + q)[1..] == p[1..] + q;
      FollowConcat(h, Parts(h[v.addr])[p[0]], p[1..], q);
    }
  }

  lemma FollowPart(h: Heap, a: nat, k: nat)
    requires a < |h| && k < |Parts(h[a])|
    ensures Follow(h, Ref(a), [k]) == Some(Parts(h[a])[k])
  {
    assert Follow(h, Parts(h[a])[k], []) == Some(Parts(h[a])[k]);
    assert [k][1..] == [];
  }

  lemma ReachesUp(h: Heap, a: nat, k: nat, reason: Reason)
    requires a < |h| && k < |Parts(h[a])| && Reaches(h, Parts(h[a])[k], reason)
    ensures Reaches(h, Ref(a), reason)
  {
    var path :| Follow(h, Parts(h[a])[k], path).Some? && Offends(h, Follow(h, Parts(h[a])[k], path).value, reason);
    FollowPart(h, a, k);
    FollowConcat(h, Ref(a), [k], path);
    assert Follow(h, Ref(a), [k] + path).Some?;
  }

  /** The objects on the path lead to the value at hand. */
  ghost predicate Around(h: Heap, path: set<nat>, v: Val) {
    forall a | a in path :: exists p :: p != [] && Follow(h, Ref(a), p) == Some(v)
  }

  lemma AroundDown(h: Heap, path: set<nat>, a: nat, k: nat)
    requires a < |h| && k < |Parts(h[a])| && Around(h, path, Ref(a))
    ensures Around(h, path + {a}, Parts(h[a])[k])
  {
    FollowPart(h, a, k);
    forall b | b in path
      ensures exists p :: p != [] && Follow(h, Ref(b), p) == Some(Parts(h[a])[k])
    {
      var p :| p != [] && Follow(h, Ref(b), p) == Some(Ref(a));
      FollowConcat(h, Ref(b), p, [k]);
      assert p + [k] != [];
    }
  }

  /** Every refusal has its reason within reach: in particular, a value is refused for a cycle only
      when one is reachable, never for sharing. */
  lemma {:induction false} RefusedWhy(h: Heap, v: Val, path: set<nat>)
    requires Graph(h) && InHeap(v, h) && Around(h, path, v) && Encode(h, v, path).Refused?
    ensures Reaches(h, v, Encode(h, v, path).reason)
    decreases Todo(h, path)
  {
    assert Follow(h, v, []) == Some(v);
    if v.Ref? && v.addr !in path && !h[v.addr].InstanceN? {
      var a, parts := v.addr, Parts(h[v.addr]);
      assert a in Todo(h, path) && a !in Todo(h, path + {a});
      EncodeAllIs(h, parts, path + {a});
      var k :| 0 <= k < |parts| && Encode(h, parts[k], path + {a}) == Refused(Encode(h, v, path).reason);
      AroundDown(h, path, a, k);
      RefusedWhy(h, parts[k], path + {a});
      ReachesUp(h, a, k, Encode(h, v, path).reason);
    }
  }

  /** What an accepted value reaches is accepted too, inside a longer path. */
  lemma {:induction false} OkFollow(h: Heap, v: Val, path: set<nat>, p: seq<nat>) returns (longer: set<nat>)
    requires Graph(h) && InHeap(v, h) && Encode(h, v, path).Ok? && Follow(h, v, p).Some?
    ensures path <= longer && (p != [] ==> v.Ref? && v.addr in longer)
    ensures InHeap(Follow(h, v, p).value, h) && Encode(h, Follow(h, v, p).value, longer).Ok?
    decreases |p|
  {
    longer := path;
    if p != [] {
      EncodeAllIs(h, Parts(h[v.addr]), path + {v.addr});
      longer := OkFollow(h, Parts(h[v.addr])[p[0]], path + {v.addr}, p[1..]);
    }
  }

  lemma OkReaches(h: Heap, v: Val, reason: Reason)
    requires Graph(h) && InHeap(v, h) && Encode(h, v, {}).Ok?
    ensures !Reaches(h, v, reason)
  {
    if Reaches(h, v, reason) {
      var p :| Follow(h, v, p).Some? && Offends(h, Follow(h, v, p).value, reason);
      var u := Follow(h, v, p).value;
      var path := OkFollow(h, v, {}, p);
      if reason.Cyclic? {
        var q :| q != [] && Follow(h, u, q) == Some(u);
        var _ := OkFollow(h, u, path, q);
      }
    }
  }

  /** `encode` accepts a value exactly when nothing that cannot cross is reachable, and no cycle. */
  lemma EncodeExactly(h: Heap, v: Val)
    requires Graph(h) && InHeap(v, h)
    ensures Encode(h, v, {}).Ok? <==> forall path | Follow(h, v, path).Some? :: !Bars(h, Follow(h, v, path).value)
    ensures Encode(h, v, {}).Refused? ==> Reaches(h, v, Encode(h, v, {}).reason)
  {
    hide Follow, Bars, Offends, Encode;
    if Encode(h, v, {}).Ok? {
      forall path | Follow(h, v, path).Some?
        ensures !Bars(h, Follow(h, v, path).value)
      {
        OffendsBars(h, Follow(h, v, path).value);
        forall reason: Reason
          ensures !Offends(h, Follow(h, v, path).value, reason)
        {
          OkReaches(h, v, reason);
          assert Offends(h, Follow(h, v, path).value, reason) ==> Reaches(h, v, reason);
        }
      }
    } else {
      NoneAround(h, v);
      RefusedWhy(h, v, {});
      var path :| Follow(h, v, path).Some? && Offends(h, Follow(h, v, path).value, Encode(h, v, {}).reason);
      OffendsBars(h, Follow(h, v, path).value);
      assert Bars(h, Follow(h, v, path).value);
    }
  }

  lemma NoneAround(h: Heap, v: Val)
    ensures Around(h, {}, v)
  {
  }
}
