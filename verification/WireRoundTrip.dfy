/** The host side of the argument codec (src/sandbox-proxy.ts): `#decodeArg`, and when it restores
    what `encode` sent. */
module WireRoundTrip {
  import opened Common
  import opened WireCodec

  // ---------------------------------------------------------------- values in the host

  /** A decoded value; `Host` is an object of the host's own, by identity. */
  datatype HostVal =
    | HNull
    | HBool(b: bool)
    | HStr(s: string)
    | HNum(n: Num)
    | HUndefined
    | HBig(i: int)
    | HDate(time: Option<real>)
    | HBytes(bytes: seq<nat>)
    | HArr(items: seq<HostVal>)
    | HMap(entries: seq<Entry>)
    | HSet(items: seq<HostVal>)
    | HObj(members: seq<Member>)
    | Host(object: nat)
    | OddMap(payload: Wire) // a map made of a payload no encoder writes
  datatype Entry = Entry(key: HostVal, value: HostVal)
  datatype Member = Member(name: string, value: HostVal)

  datatype Decoded<T> = Good(value: T) | Thrown

  /** The host: its handle table, and JavaScript's coercions of payloads no encoder writes. */
  datatype Env = Env(handles: map<string, nat>, toNumber: Wire -> Num, toBigInt: Wire -> Option<int>,
                     toBytes: Wire -> Option<seq<nat>>, toText: Wire -> string)

  /** `SameValueZero` on decoded values: what was just decoded into an object is like no other. */
  predicate SameKey(a: HostVal, b: HostVal) {
    a == b && (a.HNull? || a.HBool? || a.HStr? || a.HNum? || a.HUndefined? || a.HBig? || a.Host?)
  }

  function AddItem(items: seq<HostVal>, x: HostVal): seq<HostVal> {
    if exists k | 0 <= k < |items| :: SameKey(items[k], x) then items else items + [x]
  }

  /** `new Set(items)` */
  function SetOf(items: seq<HostVal>): (r: seq<HostVal>)
    ensures |r| <= |items|
    decreases |items|
  {
    if items == [] then [] else AddItem(SetOf(items[..|items| - 1]), items[|items| - 1])
  }

  function AddEntry(entries: seq<Entry>, e: Entry): seq<Entry> {
    if entries == [] then [e]
    else if SameKey(entries[0].key, e.key) then [Entry(entries[0].key, e.value)] + entries[1..]
    else [entries[0]] + AddEntry(entries[1..], e)
  }

  /** `new Map(entries)` */
  function MapOf(entries: seq<Entry>): seq<Entry>
    decreases |entries|
  {
    if entries == [] then [] else AddEntry(MapOf(entries[..|entries| - 1]), entries[|entries| - 1])
  }

  // ---------------------------------------------------------------- decode

  /** Where a field is among an object's, or their number. */
  function FieldAt(ms: seq<Field>, key: string): (k: nat)
    ensures k <= |ms| && (k < |ms| ==> ms[k].key == key)
  {
    if ms == [] || ms[0].key == key then 0 else 1 + FieldAt(ms[1..], key)
  }

  function ParseInt(s: string): Option<int> {
    if s != "" && s[0] == '-' then
      var n := ParseDec(s[1..]);
      if n.None? then None else Some(-(n.value as int))
    else
      var n := ParseDec(s); if n.None? then None else Some(n.value)
  }

  function ToNumber(env: Env, w: Wire): Num {
    match w
    case WNum(n) => n
    case WNull => Finite(0.0)
    case _ => if w == WStr("NaN") then NaN else if w == WStr("Infinity") then PosInf else if w == WStr("-Infinity") then NegInf else env.toNumber(w)
  }

  function ToBigInt(env: Env, w: Wire): Option<int> {
    if w.WStr? && ParseInt(w.s).Some? then ParseInt(w.s) else env.toBigInt(w)
  }

  predicate IsByte(w: Wire) {
    w.WNum? && w.n.Finite? && 0 <= w.n.value.Floor < 256 && w.n.value == w.n.value.Floor as real
  }

  function ToBytes(env: Env, w: Wire): Option<seq<nat>> {
    if w.WArr? && forall k | 0 <= k < |w.items| :: IsByte(w.items[k]) then
      Some(seq(|w.items|, k requires 0 <= k < |w.items| => w.items[k].n.value.Floor))
    else env.toBytes(w)
  }

  predicate IsPair(w: Wire) {
    w.WArr? && |w.items| == 2
  }

  function Decode(env: Env, w: Wire): Decoded<HostVal>
    decreases w, 1
  {
    match w
    case WNull => Good(HNull)
    case WBool(b) => Good(HBool(b))
    case WStr(s) => Good(HStr(s))
    case WNum(n) => Good(HNum(n))
    case WArr(items) => var ds := DecodeAll(env, items); if ds.Thrown? then Thrown else Good(HArr(ds.value))
    case WObj(ms) =>
      if |ms| == 1 && ms[0].key == TAG then DecodeTag(env, ms[0].value)
      else
        var ds := DecodeFields(env, ms);
        if ds.Thrown? then Thrown else Good(HObj(ds.value))
  }

  function DecodeAll(env: Env, ws: seq<Wire>): (r: Decoded<seq<HostVal>>)
    ensures r.Good? ==> |r.value| == |ws|
    decreases ws, 0
  {
    if ws == [] then Good([])
    else
      var d := Decode(env, ws[0]);
      var ds := DecodeAll(env, ws[1..]);
      if d.Thrown? || ds.Thrown? then Thrown else Good([d.value] + ds.value)
  }

  function DecodeFields(env: Env, ms: seq<Field>): Decoded<seq<Member>>
    decreases ms, 0
  {
    if ms == [] then Good([])
    else
      var d := Decode(env, ms[0].value);
      var ds := DecodeFields(env, ms[1..]);
      if d.Thrown? || ds.Thrown? then Thrown
      else Good((if ms[0].key == "__proto__" then [] else [Member(ms[0].key, d.value)]) + ds.value)
  }

  function DecodePairs(env: Env, ws: seq<Wire>): (r: Decoded<seq<Entry>>)
    requires forall k | 0 <= k < |ws| :: IsPair(ws[k])
    ensures r.Good? ==> |r.value| == |ws|
    decreases ws, 0
  {
    if ws == [] then Good([])
    else
      assert IsPair(ws[0]);
      var k, v := Decode(env, ws[0].items[0]), Decode(env, ws[0].items[1]);
      var rest := DecodePairs(env, ws[1..]);
      if k.Thrown? || v.Thrown? || rest.Thrown? then Thrown else Good([Entry(k.value, v.value)] + rest.value)
  }

  /** The value behind the tag `t`, whose payload may be missing. */
  function DecodeTag(env: Env, tag: Wire): Decoded<HostVal>
    decreases tag, 0
  {
    if !tag.WObj? || FieldAt(tag.members, "t") == |tag.members| then Thrown
    else
      var t, at := tag.members[FieldAt(tag.members, "t")].value, FieldAt(tag.members, "v");
      if t == WStr("undefined") then Good(HUndefined)
      else if at == |tag.members| then
        if t == WStr("number") then Good(HNum(NaN)) else if t == WStr("date") then Good(HDate(None)) else Thrown
      else
        var v := tag.members[at].value;
        if t == WStr("number") then Good(HNum(ToNumber(env, v)))
        else if t == WStr("bigint") then
          var i := ToBigInt(env, v); if i.None? then Thrown else Good(HBig(i.value))
        else if t == WStr("date") then
          var n := ToNumber(env, v);
          Good(HDate(if n.Finite? then Some(n.value) else if n.NegZero? then Some(0.0) else None))
        else if t == WStr("bytes") then
          var bytes := ToBytes(env, v); if bytes.None? then Thrown else Good(HBytes(bytes.value))
        else if t == WStr("map") then DecodeMap(env, v)
        else if t == WStr("set") then
          if !v.WArr? then Thrown
          else
            var ds := DecodeAll(env, v.items);
            if ds.Thrown? then Thrown else Good(HSet(SetOf(ds.value)))
        else if t == WStr("handle") then
          var id := if v.WStr? then v.s else env.toText(v);
          if id in env.handles then Good(Host(env.handles[id])) else Thrown
        else Thrown
  }

  function DecodeMap(env: Env, v: Wire): Decoded<HostVal>
    decreases v, 2
  {
    if !v.WArr? then Thrown
    else if exists k | 0 <= k < |v.items| :: !IsPair(v.items[k]) then Good(OddMap(v))
    else
      var es := DecodePairs(env, v.items);
      if es.Thrown? then Thrown else Good(HMap(MapOf(es.value)))
  }

  // ---------------------------------------------------------------- restored

  /** `d` is the host's copy of `v`: the same data all the way down, with the host's own objects for
      the handles. Being finite, it is the tree the graph unfolds to. */
  ghost predicate Restores(h: Heap, env: Env, v: Val, d: HostVal)
    decreases d
  {
    match v
    case Null => d == HNull
    case Bool(b) => d == HBool(b)
    case Str(s) => d == HStr(s)
    case Number(n) => d == HNum(n)
    case Undefined => d == HUndefined
    case BigInt(i) => d == HBig(i)
    case Chain(id, _) => id in env.handles && d == Host(env.handles[id])
    case Ref(a) => a < |h| && match h[a] {
      case ArrayN(items) => d.HArr? && |d.items| == |items| && forall k | 0 <= k < |items| :: Restores(h, env, items[k], d.items[k])
      case SetN(items) => d.HSet? && |d.items| == |items| && forall k | 0 <= k < |items| :: Restores(h, env, items[k], d.items[k])
      case MapN(pairs) => d.HMap? && |d.entries| == |pairs| && forall k | 0 <= k < |pairs| ::
          Restores(h, env, pairs[k].0, d.entries[k].key) && Restores(h, env, pairs[k].1, d.entries[k].value)
      case PlainN(members) => d.HObj? && |d.members| == |members| && forall k | 0 <= k < |members| ::
          d.members[k].name == members[k].0 && Restores(h, env, members[k].1, d.members[k].value)
      case DateN(time) => d == HDate(time)
      case BytesN(bytes) => d == HBytes(bytes)
      case InstanceN(_) => false
    }
    case _ => false
  }

  /** Two values the host cannot tell apart as keys: equal primitives, or handles of one object. */
  predicate SameAfter(env: Env, u: Val, v: Val) {
    if u.Chain? || v.Chain? then
      u.Chain? && v.Chain? && u.id in env.handles && v.id in env.handles && env.handles[u.id] == env.handles[v.id]
    else u == v && !u.Ref?
  }

  predicate Apart(env: Env, keys: seq<Val>) {
    forall j, k | 0 <= j < k < |keys| :: !SameAfter(env, keys[j], keys[k])
  }

  function Keys(pairs: seq<(Val, Val)>): seq<Val> {
    seq(|pairs|, k requires 0 <= k < |pairs| => pairs[k].0)
  }

  /** What a caller must avoid at one value: minus zero, a handle of another run, an invalid date, an
      object whose only key looks like the tag, a `__proto__` key, and keys the host takes for one. */
  predicate Clean(h: Heap, env: Env, v: Val) {
    match v
    case Number(n) => !n.NegZero?
    case Chain(id, _) => id in env.handles
    case Ref(a) => a < |h| ==> match h[a] {
      case DateN(time) => time.Some?
      case PlainN(members) => !(|members| == 1 && members[0].0 == "__r402") && forall k | 0 <= k < |members| :: members[k].0 != "__proto__"
      case MapN(pairs) => Apart(env, Keys(pairs))
      case SetN(items) => Apart(env, items)
      case _ => true
    }
    case _ => true
  }

  ghost predicate AllClean(h: Heap, env: Env, v: Val) {
    forall path :: Follow(h, v, path).Some? ==> Clean(h, env, Follow(h, v, path).value)
  }

  // ---------------------------------------------------------------- the round trip

  /** Sent, received and decoded, `w` is `v` again. */
  ghost predicate Back(h: Heap, env: Env, v: Val, w: Wire) {
    var d := Decode(env, Transfer(w));
    d.Good? && Restores(h, env, v, d.value)
  }

  ghost predicate AllBack(h: Heap, env: Env, vs: seq<Val>, ws: seq<Wire>)
    requires |vs| == |ws|
  {
    forall k | 0 <= k < |vs| :: Back(h, env, vs[k], ws[k])
  }

  lemma TagTransfer(t: string, v: Wire)
    ensures Transfer(Tagged(t, v)) == Tagged(t, Transfer(v))
  {
    var inner := [Field("t", WStr(t)), Field("v", v)];
    assert TransferFields(inner) == [Field("t", WStr(t)), Field("v", Transfer(v))];
    assert TransferFields([Field(TAG, WObj(inner))]) == [Field(TAG, WObj(TransferFields(inner)))];
  }

  lemma TagDecode(env: Env, t: string, v: Wire)
    ensures Decode(env, Tagged(t, v)) == DecodeTag(env, WObj([Field("t", WStr(t)), Field("v", v)]))
    ensures var ms := [Field("t", WStr(t)), Field("v", v)]; FieldAt(ms, "t") == 0 && FieldAt(ms, "v") == 1
  {
    var ms := [Field("t", WStr(t)), Field("v", v)];
    assert ms[1..] == [Field("v", v)];
    assert "t" != "v";
  }

  lemma IntBack(i: int)
    ensures ParseInt(IntText(i)) == Some(i)
  {
    if i < 0 {
      ParseDecInverts(-i);
      assert IntText(i)[1..] == Dec(-i);
    } else {
      ParseDecInverts(i);
    }
  }

  /** What comes out of a tag the encoder wrote. */
  lemma TagBack(env: Env, t: string, v: Wire, at: Wire)
    requires at == Transfer(v)
    ensures Decode(env, Transfer(Tagged(t, v))) == DecodeTag(env, WObj([Field("t", WStr(t)), Field("v", at)]))
    ensures var ms := [Field("t", WStr(t)), Field("v", at)]; FieldAt(ms, "t") == 0 && FieldAt(ms, "v") == 1
  {
    TagTransfer(t, v);
    TagDecode(env, t, at);
    hide Transfer, Decode, DecodeTag;
  }

  lemma DateTag(env: Env, v: Wire)
    ensures DecodeTag(env, WObj([Field("t", WStr("date")), Field("v", v)])) ==
      var n := ToNumber(env, v); Good(HDate(if n.Finite? then Some(n.value) else if n.NegZero? then Some(0.0) else None))
  {
    hide Decode, FieldAt, ToNumber;
    TagDecode(env, "date", v);
  }

  lemma BytesTag(env: Env, v: Wire)
    ensures DecodeTag(env, WObj([Field("t", WStr("bytes")), Field("v", v)])) ==
      var bytes := ToBytes(env, v); if bytes.None? then Thrown else Good(HBytes(bytes.value))
  {
    hide Decode, FieldAt, ToBytes;
    TagDecode(env, "bytes", v);
  }

  lemma MapTag(env: Env, v: Wire)
    ensures DecodeTag(env, WObj([Field("t", WStr("map")), Field("v", v)])) == DecodeMap(env, v)
  {
    hide Decode, FieldAt, DecodeMap;
    TagDecode(env, "map", v);
  }

  lemma SetTag(env: Env, ws: seq<Wire>)
    ensures DecodeTag(env, WObj([Field("t", WStr("set")), Field("v", WArr(ws))])) ==
      var ds := DecodeAll(env, ws); if ds.Thrown? then Thrown else Good(HSet(SetOf(ds.value)))
  {
    hide Decode, FieldAt, DecodeAll, SetOf;
    TagDecode(env, "set", WArr(ws));
  }

  lemma NumberBack(env: Env, n: Num)
    requires !n.Finite? && !n.NegZero?
    ensures Decode(env, Transfer(Tagged("number", WStr(NumText(n))))) == Good(HNum(n))
  {
    TagBack(env, "number", WStr(NumText(n)), WStr(NumText(n)));
    hide Transfer, Decode;
  }

  lemma BigBack(env: Env, i: int)
    ensures Decode(env, Transfer(Tagged("bigint", WStr(IntText(i))))) == Good(HBig(i))
  {
    TagBack(env, "bigint", WStr(IntText(i)), WStr(IntText(i)));
    IntBack(i);
    hide Transfer, Decode, IntText, ParseInt;
  }

  lemma HandleBack(env: Env, id: string)
    ensures Decode(env, Transfer(Tagged("handle", WStr(id)))) == if id in env.handles then Good(Host(env.handles[id])) else Thrown
  {
    TagBack(env, "handle", WStr(id), WStr(id));
    hide Transfer, Decode;
  }

  /** The primitives, functions aside. */
  lemma LeafBack(h: Heap, env: Env, v: Val)
    requires !v.Ref? && EncodeLeaf(v).Ok?
    ensures Back(h, env, v, EncodeLeaf(v).value) <==> Clean(h, env, v)
  {
    if v.Number? && !v.n.Finite? && !v.n.NegZero? {
      NumberBack(env, v.n);
      hide Transfer, Decode;
    } else if v.BigInt? {
      BigBack(env, v.i);
      hide Transfer, Decode;
    } else if v.Chain? {
      HandleBack(env, v.id);
      hide Transfer, Decode;
    } else if v.Undefined? {
      UndefinedBack(env);
      hide Transfer, Decode;
    }
  }

  lemma UndefinedBack(env: Env)
    ensures Decode(env, Transfer(EncodeLeaf(Undefined).value)) == Good(HUndefined)
  {
    var inner := [Field("t", WStr("undefined"))];
    assert TransferFields(inner) == inner;
    assert TransferFields([Field(TAG, WObj(inner))]) == [Field(TAG, WObj(inner))];
  }

  lemma {:induction false} DecodeAllIs(env: Env, ws: seq<Wire>)
    ensures DecodeAll(env, ws).Good? <==> forall k | 0 <= k < |ws| :: Decode(env, ws[k]).Good?
    ensures DecodeAll(env, ws).Good? ==> forall k | 0 <= k < |ws| :: Decode(env, ws[k]) == Good(DecodeAll(env, ws).value[k])
  {
    hide Decode;
    if ws != [] {
      DecodeAllIs(env, ws[1..]);
      assert ws == [ws[0]] + ws[1..];
    }
  }

  lemma ArrayBack(h: Heap, env: Env, a: nat, ws: seq<Wire>)
    requires a < |h| && h[a].ArrayN? && |ws| == |h[a].items|
    ensures Back(h, env, Ref(a), WArr(ws)) <==> AllBack(h, env, h[a].items, ws)
  {
    DecodeAllIs(env, TransferAll(ws));
  }

  // ---------------------------------------------------------------- sets and maps

  lemma SameRestored(h: Heap, env: Env, u: Val, v: Val, d: HostVal, e: HostVal)
    requires Restores(h, env, u, d) && Restores(h, env, v, e)
    ensures SameKey(d, e) <==> SameAfter(env, u, v)
  {
  }

  predicate Distinct(keys: seq<HostVal>) {
    forall j, k | 0 <= j < k < |keys| :: !SameKey(keys[j], keys[k])
  }

  lemma DistinctSnoc(keys: seq<HostVal>, x: HostVal)
    ensures Distinct(keys + [x]) <==> Distinct(keys) && forall k | 0 <= k < |keys| :: !SameKey(keys[k], x)
  {
    hide SameKey;
    var all := keys + [x];
    assert all[|keys|] == x && forall k | 0 <= k < |keys| :: all[k] == keys[k];
  }

  lemma {:induction false} SetOfIs(items: seq<HostVal>)
    ensures if Distinct(items) then SetOf(items) == items else |SetOf(items)| < |items|
    decreases |items|
  {
    if items != [] {
      var n := |items| - 1;
      SetOfIs(items[..n]);
      DistinctSnoc(items[..n], items[n]);
      assert items == items[..n] + [items[n]];
      hide SameKey, Distinct;
    }
  }

  ghost predicate RestoresAll(h: Heap, env: Env, vs: seq<Val>, ds: seq<HostVal>) {
    |ds| == |vs| && forall k | 0 <= k < |vs| :: Restores(h, env, vs[k], ds[k])
  }

  lemma RestoresSet(h: Heap, env: Env, a: nat, ds: seq<HostVal>)
    requires a < |h| && h[a].SetN?
    ensures Restores(h, env, Ref(a), HSet(ds)) <==> RestoresAll(h, env, h[a].items, ds)
    ensures Clean(h, env, Ref(a)) <==> Apart(env, h[a].items)
  {
  }

  lemma SetBack(h: Heap, env: Env, a: nat, ws: seq<Wire>)
    requires a < |h| && h[a].SetN? && |ws| == |h[a].items|
    ensures Back(h, env, Ref(a), Tagged("set", WArr(ws))) <==> Clean(h, env, Ref(a)) && AllBack(h, env, h[a].items, ws)
  {
    var ds := DecodeAll(env, TransferAll(ws));
    SetDecode(env, ws);
    DecodeAllIs(env, TransferAll(ws));
    hide Transfer, Decode, Distinct, Apart;
    if ds.Good? {
      SetOfIs(ds.value);
      KeysApart(h, env, h[a].items, ws, ds.value);
      RestoresSet(h, env, a, SetOf(ds.value));
      hide DecodeAll, SetOf, Restores, Clean, AllBack;
    } else {
      hide Restores, SetOf;
      assert !AllBack(h, env, h[a].items, ws);
    }
  }

  lemma SetDecode(env: Env, ws: seq<Wire>)
    ensures var ds := DecodeAll(env, TransferAll(ws));
      Decode(env, Transfer(Tagged("set", WArr(ws)))) == if ds.Thrown? then Thrown else Good(HSet(SetOf(ds.value)))
  {
    hide DecodeTag, Decode, FieldAt, DecodeAll, SetOf, TransferAll;
    TagBack(env, "set", WArr(ws), WArr(TransferAll(ws)));
    SetTag(env, TransferAll(ws));
  }

  lemma KeysApart(h: Heap, env: Env, items: seq<Val>, ws: seq<Wire>, ds: seq<HostVal>)
    requires |items| == |ws| == |ds| && forall k | 0 <= k < |ws| :: Decode(env, Transfer(ws[k])) == Good(ds[k])
    ensures AllBack(h, env, items, ws) <==> RestoresAll(h, env, items, ds)
    ensures AllBack(h, env, items, ws) ==> (Apart(env, items) <==> Distinct(ds))
  {
    hide Decode, Restores;
    if AllBack(h, env, items, ws) {
      forall j, k | 0 <= j < k < |ds|
        ensures SameKey(ds[j], ds[k]) <==> SameAfter(env, items[j], items[k])
      {
        assert Back(h, env, items[j], ws[j]) && Back(h, env, items[k], ws[k]);
        SameRestored(h, env, items[j], items[k], ds[j], ds[k]);
      }
    }
  }

  function EntryKeys(entries: seq<Entry>): seq<HostVal> {
    seq(|entries|, k requires 0 <= k < |entries| => entries[k].key)
  }

  lemma {:induction false} AddEntryIs(entries: seq<Entry>, e: Entry)
    ensures if exists k | 0 <= k < |entries| :: SameKey(entries[k].key, e.key) then |AddEntry(entries, e)| == |entries|
      else AddEntry(entries, e) == entries + [e]
  {
    hide SameKey;
    if entries != [] && !SameKey(entries[0].key, e.key) {
      AddEntryIs(entries[1..], e);
      assert entries == [entries[0]] + entries[1..];
    }
  }

  lemma KeysSnoc(entries: seq<Entry>)
    requires entries != []
    ensures var n := |entries| - 1;
      && entries == entries[..n] + [entries[n]] && EntryKeys(entries) == EntryKeys(entries[..n]) + [entries[n].key]
      && |EntryKeys(entries[..n])| == n && forall k | 0 <= k < n :: EntryKeys(entries[..n])[k] == entries[..n][k].key
  {
  }

  lemma DistinctNone()
    ensures Distinct(EntryKeys([])) && MapOf([]) == []
  {
  }

  lemma {:induction false} MapOfIs(entries: seq<Entry>)
    ensures if Distinct(EntryKeys(entries)) then MapOf(entries) == entries else |MapOf(entries)| < |entries|
    decreases |entries|
  {
    hide SameKey, Distinct, AddEntry, EntryKeys;
    if entries != [] {
      var n := |entries| - 1;
      MapOfIs(entries[..n]);
      AddEntryIs(MapOf(entries[..n]), entries[n]);
      DistinctSnoc(EntryKeys(entries[..n]), entries[n].key);
      KeysSnoc(entries);
    } else {
      DistinctNone();
    }
  }

  lemma {:induction false} DecodePairsIs(env: Env, ps: seq<Wire>)
    requires forall k | 0 <= k < |ps| :: IsPair(ps[k])
    ensures DecodePairs(env, ps).Good? <==> forall k | 0 <= k < |ps| :: Decode(env, ps[k].items[0]).Good? && Decode(env, ps[k].items[1]).Good?
    ensures DecodePairs(env, ps).Good? ==> forall k | 0 <= k < |ps| ::
      Decode(env, ps[k].items[0]) == Good(DecodePairs(env, ps).value[k].key) && Decode(env, ps[k].items[1]) == Good(DecodePairs(env, ps).value[k].value)
  {
    hide Decode;
    if ps != [] {
      DecodePairsIs(env, ps[1..]);
      assert ps == [ps[0]] + ps[1..];
    }
  }

  lemma PairUpTransfer(ws: seq<Wire>)
    requires |ws| % 2 == 0
    ensures TransferAll(PairUp(ws)) == PairUp(TransferAll(ws))
  {
    hide Transfer, TransferAll, PairUp;
    var sent, got := TransferAll(PairUp(ws)), PairUp(TransferAll(ws));
    ArePairs(ws);
    ArePairs(TransferAll(ws));
    forall k | 0 <= k < |ws| / 2
      ensures sent[k] == got[k]
    {
      PairUpAt(ws, k);
      PairUpAt(TransferAll(ws), k);
      PairTransfer(ws[2 * k], ws[2 * k + 1]);
    }
    assert sent == got;
  }

  lemma PairUpAt(ws: seq<Wire>, k: nat)
    requires |ws| % 2 == 0 && k < |ws| / 2
    ensures |PairUp(ws)| == |ws| / 2 && PairUp(ws)[k] == WArr([ws[2 * k], ws[2 * k + 1]])
  {
  }

  lemma PairTransfer(u: Wire, v: Wire)
    ensures Transfer(WArr([u, v])) == WArr([Transfer(u), Transfer(v)])
  {
    assert TransferAll([u, v]) == [Transfer(u), Transfer(v)];
  }

  lemma ArePairs(ws: seq<Wire>)
    requires |ws| % 2 == 0
    ensures |PairUp(ws)| == |ws| / 2 && forall k | 0 <= k < |ws| / 2 :: IsPair(PairUp(ws)[k])
  {
  }

  lemma MapDecode(env: Env, ws: seq<Wire>)
    requires |ws| % 2 == 0
    ensures forall k | 0 <= k < |ws| / 2 :: IsPair(PairUp(TransferAll(ws))[k])
    ensures var es := DecodePairs(env, PairUp(TransferAll(ws)));
      Decode(env, Transfer(Tagged("map", WArr(PairUp(ws))))) == if es.Thrown? then Thrown else Good(HMap(MapOf(es.value)))
  {
    hide DecodeTag, Decode, FieldAt, DecodePairs, MapOf, PairUp, TransferAll;
    PairUpTransfer(ws);
    ArePairs(TransferAll(ws));
    TagBack(env, "map", WArr(PairUp(ws)), WArr(TransferAll(PairUp(ws))));
    MapTag(env, WArr(TransferAll(PairUp(ws))));
  }

  ghost predicate RestoresPairs(h: Heap, env: Env, pairs: seq<(Val, Val)>, es: seq<Entry>) {
    |es| == |pairs| && forall k | 0 <= k < |pairs| :: Restores(h, env, pairs[k].0, es[k].key) && Restores(h, env, pairs[k].1, es[k].value)
  }

  lemma RestoresMap(h: Heap, env: Env, a: nat, es: seq<Entry>)
    requires a < |h| && h[a].MapN?
    ensures Restores(h, env, Ref(a), HMap(es)) <==> RestoresPairs(h, env, h[a].pairs, es)
    ensures Clean(h, env, Ref(a)) <==> Apart(env, Keys(h[a].pairs))
  {
  }

  lemma PartsOfMap(n: Node)
    requires n.MapN?
    ensures |Parts(n)| == 2 * |n.pairs|
    ensures forall k | 0 <= k < |n.pairs| :: Parts(n)[2 * k] == n.pairs[k].0 && Parts(n)[2 * k + 1] == n.pairs[k].1
  {
    forall k | 0 <= k < |n.pairs|
      ensures Parts(n)[2 * k] == n.pairs[k].0 && Parts(n)[2 * k + 1] == n.pairs[k].1
    {
      Halves(k);
    }
  }

  lemma Halves(k: int)
    ensures (2 * k) / 2 == k && (2 * k) % 2 == 0 && (2 * k + 1) / 2 == k && (2 * k + 1) % 2 == 1
  {
  }

  ghost predicate PairBack(h: Heap, env: Env, pairs: seq<(Val, Val)>, ws: seq<Wire>, k: nat)
    requires k < |pairs| && |ws| == 2 * |pairs|
  {
    Back(h, env, pairs[k].0, ws[2 * k]) && Back(h, env, pairs[k].1, ws[2 * k + 1])
  }

  lemma AllBackPairs(h: Heap, env: Env, n: Node, ws: seq<Wire>)
    requires n.MapN? && |ws| == |Parts(n)| == 2 * |n.pairs|
    ensures AllBack(h, env, Parts(n), ws) <==> forall k | 0 <= k < |n.pairs| :: PairBack(h, env, n.pairs, ws, k)
  {
    hide Parts, Back, PairBack;
    PartsOfMap(n);
    if forall k | 0 <= k < |n.pairs| :: PairBack(h, env, n.pairs, ws, k) {
      forall m: nat | m < |Parts(n)|
        ensures Back(h, env, Parts(n)[m], ws[m])
      {
        var k := m / 2;
        assert m == 2 * k || m == 2 * k + 1;
        PairHolds(h, env, n, ws, k);
      }
    } else {
      var k :| 0 <= k < |n.pairs| && !PairBack(h, env, n.pairs, ws, k);
      PairFails(h, env, n, ws, k);
    }
  }

  lemma PairFails(h: Heap, env: Env, n: Node, ws: seq<Wire>, k: nat)
    requires n.MapN? && |ws| == |Parts(n)| == 2 * |n.pairs| && k < |n.pairs| && !PairBack(h, env, n.pairs, ws, k)
    ensures !AllBack(h, env, Parts(n), ws)
  {
    hide Parts, Back;
    PartsOfMap(n);
    assert !Back(h, env, Parts(n)[2 * k], ws[2 * k]) || !Back(h, env, Parts(n)[2 * k + 1], ws[2 * k + 1]);
  }

  lemma PairHolds(h: Heap, env: Env, n: Node, ws: seq<Wire>, k: nat)
    requires n.MapN? && |ws| == |Parts(n)| == 2 * |n.pairs| && k < |n.pairs| && PairBack(h, env, n.pairs, ws, k)
    ensures Back(h, env, Parts(n)[2 * k], ws[2 * k]) && Back(h, env, Parts(n)[2 * k + 1], ws[2 * k + 1])
  {
    PartsOfMap(n);
    hide Parts, Back;
  }

  lemma PairsBack(h: Heap, env: Env, n: Node, ws: seq<Wire>, es: seq<Entry>)
    requires n.MapN? && |ws| == |Parts(n)| == 2 * |n.pairs| && |es| == |n.pairs|
    requires forall k | 0 <= k < |es| :: DecodesTo(env, ws, k, es[k])
    ensures AllBack(h, env, Parts(n), ws) <==> RestoresPairs(h, env, n.pairs, es)
    ensures AllBack(h, env, Parts(n), ws) ==> (Apart(env, Keys(n.pairs)) <==> Distinct(EntryKeys(es)))
  {
    AllBackPairs(h, env, n, ws);
    hide Decode, Restores, Transfer, AllBack, Parts, Distinct, Apart;
    forall k | 0 <= k < |n.pairs|
      ensures PairBack(h, env, n.pairs, ws, k) <==> Restores(h, env, n.pairs[k].0, es[k].key) && Restores(h, env, n.pairs[k].1, es[k].value)
    {
      assert DecodesTo(env, ws, k, es[k]);
    }
    if RestoresPairs(h, env, n.pairs, es) {
      PairKeys(h, env, n.pairs, es);
    }
  }

  /** The `k`-th pair decodes to `e`. */
  predicate DecodesTo(env: Env, ws: seq<Wire>, k: nat, e: Entry)
    requires 2 * k + 1 < |ws|
  {
    Decode(env, Transfer(ws[2 * k])) == Good(e.key) && Decode(env, Transfer(ws[2 * k + 1])) == Good(e.value)
  }

  lemma PairKeys(h: Heap, env: Env, pairs: seq<(Val, Val)>, es: seq<Entry>)
    requires RestoresPairs(h, env, pairs, es)
    ensures Apart(env, Keys(pairs)) <==> Distinct(EntryKeys(es))
  {
    hide Restores, SameKey, SameAfter;
    forall j, k | 0 <= j < k < |es|
      ensures SameKey(EntryKeys(es)[j], EntryKeys(es)[k]) <==> SameAfter(env, Keys(pairs)[j], Keys(pairs)[k])
    {
      SameRestored(h, env, pairs[j].0, pairs[k].0, es[j].key, es[k].key);
    }
  }

  lemma MapBack(h: Heap, env: Env, a: nat, ws: seq<Wire>)
    requires a < |h| && h[a].MapN? && |ws| == |Parts(h[a])|
    ensures Back(h, env, Ref(a), Tagged("map", WArr(PairUp(ws)))) <==> Clean(h, env, Ref(a)) && AllBack(h, env, Parts(h[a]), ws)
  {
    PartsOfMap(h[a]);
    MapDecode(env, ws);
    var ps := PairUp(TransferAll(ws));
    var es := DecodePairs(env, ps);
    DecodePairsIs(env, ps);
    hide Transfer, Decode, Distinct, Apart, Parts;
    if es.Good? {
      MapOfIs(es.value);
      hide DecodePairs, MapOf, Restores, Clean, AllBack, PairUp;
      forall k | 0 <= k < |es.value|
        ensures DecodesTo(env, ws, k, es.value[k])
      {
        PairAt(ws, k);
        assert Decode(env, ps[k].items[0]) == Good(es.value[k].key);
      }
      PairsBack(h, env, h[a], ws, es.value);
      RestoresMap(h, env, a, MapOf(es.value));
    } else {
      hide DecodePairs, MapOf, Restores, Clean, AllBack, PairUp;
      if AllBack(h, env, Parts(h[a]), ws) {
        MapGood(h, env, h[a], ws);
        assert false;
      }
    }
  }

  lemma MapGood(h: Heap, env: Env, n: Node, ws: seq<Wire>)
    requires n.MapN? && |ws| == |Parts(n)| == 2 * |n.pairs| && AllBack(h, env, Parts(n), ws)
    requires forall k | 0 <= k < |ws| / 2 :: IsPair(PairUp(TransferAll(ws))[k])
    ensures DecodePairs(env, PairUp(TransferAll(ws))).Good?
  {
    AllBackPairs(h, env, n, ws);
    var ps := PairUp(TransferAll(ws));
    DecodePairsIs(env, ps);
    hide Restores, Transfer, Decode, Parts, DecodePairs, AllBack, PairUp;
    forall k | 0 <= k < |ps|
      ensures Decode(env, ps[k].items[0]).Good? && Decode(env, ps[k].items[1]).Good?
    {
      PairAt(ws, k);
      assert PairBack(h, env, n.pairs, ws, k);
    }
  }

  lemma PairAt(ws: seq<Wire>, k: nat)
    requires |ws| % 2 == 0 && k < |ws| / 2
    ensures PairUp(TransferAll(ws))[k] == WArr([Transfer(ws[2 * k]), Transfer(ws[2 * k + 1])])
  {
    hide Transfer;
  }

  // ---------------------------------------------------------------- plain objects

  /** No tag decodes to a plain object. */
  lemma TagNeverPlain(env: Env, tag: Wire)
    ensures DecodeTag(env, tag).Good? ==> !DecodeTag(env, tag).value.HObj?
  {
  }

  predicate NoProto(members: seq<(string, Val)>) {
    forall k | 0 <= k < |members| :: members[k].0 != "__proto__"
  }

  lemma {:induction false} FieldsOf(members: seq<(string, Val)>, ws: seq<Wire>)
    requires |ws| == |members|
    ensures |BuildFields(members, ws)| <= |members|
    ensures if NoProto(members) then BuildFields(members, ws) == seq(|members|, k requires 0 <= k < |members| => Field(members[k].0, ws[k]))
      else |BuildFields(members, ws)| < |members|
  {
    if members != [] {
      FieldsOf(members[1..], ws[1..]);
      assert members == [members[0]] + members[1..];
    }
  }

  lemma {:induction false} DecodeFieldsIs(env: Env, ms: seq<Field>)
    ensures DecodeFields(env, ms).Good? <==> forall k | 0 <= k < |ms| :: Decode(env, ms[k].value).Good?
    ensures var r := DecodeFields(env, ms); r.Good? ==> |r.value| <= |ms|
    ensures var r := DecodeFields(env, ms); r.Good? && (forall k | 0 <= k < |ms| :: ms[k].key != "__proto__") ==>
      |r.value| == |ms| && forall k | 0 <= k < |ms| :: r.value[k].name == ms[k].key && Decode(env, ms[k].value) == Good(r.value[k].value)
  {
    hide Decode;
    if ms != [] {
      DecodeFieldsIs(env, ms[1..]);
      assert ms == [ms[0]] + ms[1..];
    }
  }

  predicate LooksTagged(members: seq<(string, Val)>) {
    |members| == 1 && members[0].0 == TAG
  }

  ghost predicate RestoresMembers(h: Heap, env: Env, members: seq<(string, Val)>, ds: seq<Member>) {
    |ds| == |members| && forall k | 0 <= k < |members| :: ds[k].name == members[k].0 && Restores(h, env, members[k].1, ds[k].value)
  }

  lemma RestoresPlain(h: Heap, env: Env, a: nat, d: HostVal)
    requires a < |h| && h[a].PlainN?
    ensures Restores(h, env, Ref(a), d) <==> d.HObj? && RestoresMembers(h, env, h[a].members, d.members)
    ensures Clean(h, env, Ref(a)) <==> !LooksTagged(h[a].members) && NoProto(h[a].members)
  {
  }

  lemma PlainBack(h: Heap, env: Env, a: nat, ws: seq<Wire>)
    requires a < |h| && h[a].PlainN? && |ws| == |h[a].members|
    ensures |Parts(h[a])| == |ws|
    ensures Back(h, env, Ref(a), WObj(BuildFields(h[a].members, ws))) <==> Clean(h, env, Ref(a)) && AllBack(h, env, Parts(h[a]), ws)
  {
    hide DecodeFields, DecodeTag, Restores, Clean, TransferFields, BuildFields, FieldAt;
    var members := h[a].members;
    var ms := TransferFields(BuildFields(members, ws));
    FieldsOf(members, ws);
    var d := Decode(env, WObj(ms));
    if d.Good? { RestoresPlain(h, env, a, d.value); }
    RestoresPlain(h, env, a, HNull);
    if |ms| == 1 && ms[0].key == TAG {
      TagNeverPlain(env, ms[0].value);
    } else {
      DecodeFieldsIs(env, ms);
      if NoProto(members) { MembersBack(h, env, members, ws, ms); }
    }
  }

  lemma MembersBack(h: Heap, env: Env, members: seq<(string, Val)>, ws: seq<Wire>, ms: seq<Field>)
    requires |ws| == |members| == |ms| && NoProto(members) && forall k | 0 <= k < |ms| :: ms[k] == Field(members[k].0, Transfer(ws[k]))
    ensures var vs := seq(|members|, k requires 0 <= k < |members| => members[k].1);
      var r := DecodeFields(env, ms);
      AllBack(h, env, vs, ws) <==> r.Good? && RestoresMembers(h, env, members, r.value)
  {
    DecodeFieldsIs(env, ms);
    hide Restores, Decode, Transfer, DecodeFields;
    var vs := seq(|members|, k requires 0 <= k < |members| => members[k].1);
    if AllBack(h, env, vs, ws) {
      forall k | 0 <= k < |ms|
        ensures Decode(env, ms[k].value).Good? && Restores(h, env, members[k].1, Decode(env, ms[k].value).value)
      {
        assert Back(h, env, vs[k], ws[k]);
      }
    }
  }

  // ---------------------------------------------------------------- dates and bytes

  lemma NumberTransfer(n: Num)
    requires n.Finite? || n.NaN?
    ensures Transfer(WNum(n)) == if n.Finite? then WNum(n) else WNull
  {
  }

  lemma DateBack(h: Heap, env: Env, a: nat)
    requires a < |h| && h[a].DateN?
    ensures Back(h, env, Ref(a), Build(h[a], [])) <==> Clean(h, env, Ref(a))
  {
    hide DecodeTag, Decode, Transfer, FieldAt;
    var n := if h[a].time.Some? then Finite(h[a].time.value) else NaN;
    var at := if n.Finite? then WNum(n) else WNull;
    NumberTransfer(n);
    TagBack(env, "date", WNum(n), at);
    DateTag(env, at);
  }

  lemma BytesBack(h: Heap, env: Env, a: nat)
    requires a < |h| && h[a].BytesN? && forall k | 0 <= k < |h[a].bytes| :: h[a].bytes[k] < 256
    ensures Back(h, env, Ref(a), Build(h[a], []))
  {
    hide DecodeTag, Decode, Transfer, FieldAt, ToBytes;
    var bytes := h[a].bytes;
    var ws := seq(|bytes|, k requires 0 <= k < |bytes| => WNum(Finite(bytes[k] as real)));
    NumbersTransfer(ws);
    TagBack(env, "bytes", WArr(ws), WArr(ws));
    BytesTag(env, WArr(ws));
    BytesRead(env, ws, bytes);
  }

  lemma NumbersTransfer(ws: seq<Wire>)
    requires forall k | 0 <= k < |ws| :: ws[k].WNum? && ws[k].n.Finite?
    ensures Transfer(WArr(ws)) == WArr(ws)
  {
    assert TransferAll(ws) == ws;
  }

  lemma BytesRead(env: Env, ws: seq<Wire>, bytes: seq<nat>)
    requires |ws| == |bytes| && forall k | 0 <= k < |bytes| :: bytes[k] < 256 && ws[k] == WNum(Finite(bytes[k] as real))
    ensures ToBytes(env, WArr(ws)) == Some(bytes)
  {
    assert ToBytes(env, WArr(ws)).value == bytes;
  }

  // ---------------------------------------------------------------- all the way down

  lemma NodeBack(h: Heap, env: Env, a: nat, ws: seq<Wire>)
    requires Graph(h) && a < |h| && |ws| == |Parts(h[a])| && !h[a].InstanceN?
    ensures Back(h, env, Ref(a), Build(h[a], ws)) <==> Clean(h, env, Ref(a)) && AllBack(h, env, Parts(h[a]), ws)
  {
    hide Back, AllBack;
    match h[a]
    case ArrayN(_) => ArrayBack(h, env, a, ws);
    case SetN(_) => SetBack(h, env, a, ws);
    case MapN(_) => MapBack(h, env, a, ws);
    case PlainN(_) => PlainBack(h, env, a, ws);
    case DateN(_) => DateBack(h, env, a); NothingBack(h, env, ws);
    case BytesN(_) => BytesBack(h, env, a); NothingBack(h, env, ws);
  }

  lemma NothingBack(h: Heap, env: Env, ws: seq<Wire>)
    requires ws == []
    ensures AllBack(h, env, [], ws)
  {
  }

  lemma AllCleanParts(h: Heap, env: Env, a: nat)
    requires a < |h|
    ensures AllClean(h, env, Ref(a)) <==> Clean(h, env, Ref(a)) && forall k | 0 <= k < |Parts(h[a])| :: AllClean(h, env, Parts(h[a])[k])
  {
    hide Clean, Parts;
    assert Follow(h, Ref(a), []) == Some(Ref(a));
    if AllClean(h, env, Ref(a)) {
      forall k, path | 0 <= k < |Parts(h[a])| && Follow(h, Parts(h[a])[k], path).Some?
        ensures Clean(h, env, Follow(h, Parts(h[a])[k], path).value)
      {
        FollowPart(h, a, k);
        FollowConcat(h, Ref(a), [k], path);
        assert Follow(h, Ref(a), [k] + path).Some?;
      }
    }
    if Clean(h, env, Ref(a)) && forall k | 0 <= k < |Parts(h[a])| :: AllClean(h, env, Parts(h[a])[k]) {
      forall path | Follow(h, Ref(a), path).Some?
        ensures Clean(h, env, Follow(h, Ref(a), path).value)
      {
        if path != [] { assert AllClean(h, env, Parts(h[a])[path[0]]); }
      }
    }
  }

  /** What `encode` accepts comes back exactly when it is clean all the way down. */
  lemma {:induction false} RoundTrip(h: Heap, env: Env, v: Val, path: set<nat>)
    requires Graph(h) && InHeap(v, h) && Encode(h, v, path).Ok?
    ensures Back(h, env, v, Encode(h, v, path).value) <==> AllClean(h, env, v)
    decreases Todo(h, path)
  {
    if !v.Ref? {
      LeafBack(h, env, v);
      assert Follow(h, v, []) == Some(v);
    } else {
      var a, parts := v.addr, Parts(h[v.addr]);
      assert a in Todo(h, path) && a !in Todo(h, path + {a});
      var ws := EncodeAll(h, parts, path + {a}).value;
      EncodeAllIs(h, parts, path + {a});
      forall k | 0 <= k < |parts|
        ensures Back(h, env, parts[k], ws[k]) <==> AllClean(h, env, parts[k])
      {
        RoundTrip(h, env, parts[k], path + {a});
      }
      NodeBack(h, env, a, ws);
      AllCleanParts(h, env, a);
    }
  }

  /** What arrives in place of the values that do not come back on their own account: zero for minus zero,
      the epoch for an invalid date, and an error for a handle of another run. */
  lemma ArrivesAs(env: Env, id: string)
    requires id != "root" && id !in env.handles
    ensures Decode(env, Transfer(EncodeLeaf(Number(NegZero)).value)) == Good(HNum(Finite(0.0)))
    ensures Decode(env, Transfer(Build(DateN(None), []))) == Good(HDate(Some(0.0)))
    ensures Decode(env, Transfer(EncodeLeaf(Chain(id, true)).value)) == Thrown
  {
    hide DecodeTag, FieldAt, Tagged;
    InvalidDate(env);
    HandleBack(env, id);
  }

  lemma InvalidDate(env: Env)
    ensures Decode(env, Transfer(Tagged("date", WNum(NaN)))) == Good(HDate(Some(0.0)))
  {
    hide DecodeTag, Decode, FieldAt;
    TagBack(env, "date", WNum(NaN), WNull);
    DateTag(env, WNull);
  }
}
