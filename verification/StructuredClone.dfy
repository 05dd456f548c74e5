/** The sandbox's `structuredClone` (src/sandbox.ts): a depth-first copy of an object graph
    with sharing and cycles, over a `seen` map from original to copy. Objects live in a heap,
    an object is its address, and allocation appends to the heap. */
module StructuredClone {
  import opened Common

  /** A JavaScript value: a primitive, an object, or something that cannot be cloned. */
  datatype Val = Prim(text: string) | Ref(addr: nat) | Symbol | Callable

  /** An object's contents, in insertion order. A leaf is copied whole from its data
      (Date, RegExp, ArrayBuffer). */
  datatype Node =
    | ArrayN(items: seq<Val>)
    | SetN(items: seq<Val>)
    | MapN(pairs: seq<(Val, Val)>)
    | PlainN(members: seq<(string, Val)>)
    | LeafN(data: string)

  type Heap = seq<Node>
  type Seen = map<nat, nat>

  datatype Cloned = Ok(value: Val) | DataCloneError

  // ---------------------------------------------------------------- container writes

  /** `map.set(k, x)` */
  function MapSet(pairs: seq<(Val, Val)>, k: Val, x: Val): seq<(Val, Val)> {
    if pairs == [] then [(k, x)]
    else if pairs[0].0 == k then [(k, x)] + pairs[1..]
    else [pairs[0]] + MapSet(pairs[1..], k, x)
  }

  /** `set.add(x)` */
  function SetAdd(items: seq<Val>, x: Val): seq<Val> {
    if x in items then items else items + [x]
  }

  /** `out[key] = x`; assigning `__proto__` changes the prototype and adds no member. */
  function Assign(members: seq<(string, Val)>, key: string, x: Val): seq<(string, Val)> {
    if key == "__proto__" then members
    else if members == [] then [(key, x)]
    else if members[0].0 == key then [(key, x)] + members[1..]
    else [members[0]] + Assign(members[1..], key, x)
  }

  lemma {:induction false} MapSetNew(pairs: seq<(Val, Val)>, k: Val, x: Val)
    requires forall j | 0 <= j < |pairs| :: pairs[j].0 != k
    ensures MapSet(pairs, k, x) == pairs + [(k, x)]
  {
    if pairs != [] {
      MapSetNew(pairs[1..], k, x);
      assert pairs == [pairs[0]] + pairs[1..];
    }
  }

  lemma {:induction false} AssignNew(members: seq<(string, Val)>, key: string, x: Val)
    requires key != "__proto__" && forall j | 0 <= j < |members| :: members[j].0 != key
    ensures Assign(members, key, x) == members + [(key, x)]
  {
    if members != [] {
      AssignNew(members[1..], key, x);
      assert members == [members[0]] + members[1..];
    }
  }

  /** All properties of an object assigned in turn to an empty one. */
  function AssignAll(members: seq<(string, Val)>): seq<(string, Val)>
    decreases |members|
  {
    if members == [] then []
    else
      var last := members[|members| - 1];
      Assign(AssignAll(members[..|members| - 1]), last.0, last.1)
  }

  function Ordinary(members: seq<(string, Val)>): seq<(string, Val)>
    decreases |members|
  {
    if members == [] then []
    else
      var last := members[|members| - 1];
      Ordinary(members[..|members| - 1]) + if last.0 == "__proto__" then [] else [last]
  }

  lemma {:induction false} OrdinaryIn(members: seq<(string, Val)>)
    ensures |Ordinary(members)| <= |members| && forall x | x in Ordinary(members) :: x in members
    decreases |members|
  {
    if members != [] {
      OrdinaryIn(members[..|members| - 1]);
    }
  }

  lemma {:induction false} OrdinaryAll(members: seq<(string, Val)>)
    ensures Ordinary(members) == members <==> forall k | 0 <= k < |members| :: members[k].0 != "__proto__"
    decreases |members|
  {
    if members != [] {
      var n := |members| - 1;
      OrdinaryAll(members[..n]);
      OrdinaryIn(members[..n]);
      assert members == members[..n] + [members[n]];
      SameSnoc(Ordinary(members[..n]), members[..n], members[n]);
    }
  }

  lemma {:induction false} AssignAllIs(members: seq<(string, Val)>)
    requires forall j, k | 0 <= j < k < |members| :: members[j].0 != members[k].0
    ensures AssignAll(members) == Ordinary(members)
    decreases |members|
  {
    hide Assign;
    if members != [] {
      var n := |members| - 1;
      var rest, last := members[..n], members[n];
      AssignAllIs(rest);
      if last.0 == "__proto__" {
        AssignProto(AssignAll(rest), last.1);
      } else {
        OrdinaryIn(rest);
        forall j | 0 <= j < |Ordinary(rest)|
          ensures Ordinary(rest)[j].0 != last.0
        {
          assert Ordinary(rest)[j] in rest;
        }
        AssignNew(AssignAll(rest), last.0, last.1);
      }
    }
  }

  /** Property by property, an object is copied whole exactly when none is called `__proto__`. */
  lemma PropertiesKept(members: seq<(string, Val)>)
    requires forall j, k | 0 <= j < k < |members| :: members[j].0 != members[k].0
    ensures AssignAll(members) == members <==> forall k | 0 <= k < |members| :: members[k].0 != "__proto__"
  {
    hide *;
    AssignAllIs(members);
    OrdinaryAll(members);
  }

  lemma SameSnoc(a: seq<(string, Val)>, b: seq<(string, Val)>, x: (string, Val))
    ensures a + [x] == b + [x] <==> a == b
  {
    if a + [x] == b + [x] {
      assert |a| == |b| && (a + [x])[..|a|] == a && (b + [x])[..|b|] == b;
    }
  }

  lemma AssignProto(members: seq<(string, Val)>, x: Val)
    ensures Assign(members, "__proto__", x) == members
  {
  }

  // ---------------------------------------------------------------- graphs and copies

  predicate InHeap(v: Val, h: Heap) {
    v.Ref? ==> v.addr < |h|
  }

  /** A heap without dangling references whose containers keep their own invariants: distinct map
      keys, set members and property names, and no property named `__proto__`. */
  predicate Graph(h: Heap) {
    forall a | 0 <= a < |h| :: GraphNode(h[a], h)
  }

  predicate GraphNode(n: Node, h: Heap) {
    match n
    case ArrayN(items) => forall k | 0 <= k < |items| :: InHeap(items[k], h)
    case SetN(items) =>
      (forall k | 0 <= k < |items| :: InHeap(items[k], h)) && forall j, k | 0 <= j < k < |items| :: items[j] != items[k]
    case MapN(pairs) =>
      && (forall k | 0 <= k < |pairs| :: InHeap(pairs[k].0, h) && InHeap(pairs[k].1, h))
      && forall j, k | 0 <= j < k < |pairs| :: pairs[j].0 != pairs[k].0
    case PlainN(members) =>
      && (forall k | 0 <= k < |members| :: InHeap(members[k].1, h) && members[k].0 != "__proto__")
      && forall j, k | 0 <= j < k < |members| :: members[j].0 != members[k].0
    case LeafN(_) => true
  }

  /** `b` is the copy of `a`: the same primitive, or the copy `seen` gives for the object. */
  predicate Maps(a: Val, b: Val, seen: Seen) {
    match a
    case Prim(_) => b == a
    case Ref(o) => o in seen && b == Ref(seen[o])
    case _ => false
  }

  /** `ys` copies the first `|ys|` of `xs`, in order. */
  predicate MapsSeq(xs: seq<Val>, ys: seq<Val>, seen: Seen) {
    |ys| <= |xs| && forall k | 0 <= k < |ys| :: Maps(xs[k], ys[k], seen)
  }

  predicate MapsPairs(xs: seq<(Val, Val)>, ys: seq<(Val, Val)>, seen: Seen) {
    |ys| <= |xs| && forall k | 0 <= k < |ys| :: Maps(xs[k].0, ys[k].0, seen) && Maps(xs[k].1, ys[k].1, seen)
  }

  predicate MapsMembers(xs: seq<(string, Val)>, ys: seq<(string, Val)>, seen: Seen) {
    |ys| <= |xs| && forall k | 0 <= k < |ys| :: ys[k].0 == xs[k].0 && Maps(xs[k].1, ys[k].1, seen)
  }

  /** `d` is a copy of `n` up to its `|d|`-th part. */
  predicate Prefix(n: Node, d: Node, seen: Seen) {
    match n
    case ArrayN(items) => d.ArrayN? && MapsSeq(items, d.items, seen)
    case SetN(items) => d.SetN? && MapsSeq(items, d.items, seen)
    case MapN(pairs) => d.MapN? && MapsPairs(pairs, d.pairs, seen)
    case PlainN(members) => d.PlainN? && MapsMembers(members, d.members, seen)
    case LeafN(_) => d == n
  }

  function Size(n: Node): nat {
    match n
    case ArrayN(items) => |items|
    case SetN(items) => |items|
    case MapN(pairs) => |pairs|
    case PlainN(members) => |members|
    case LeafN(_) => 0
  }

  /** `d` is a copy of `n` in every part, in the same order. */
  predicate Copied(n: Node, d: Node, seen: Seen) {
    Prefix(n, d, seen) && Size(d) == Size(n)
  }

  /** The object a copy starts as. */
  function Blank(n: Node): (d: Node) {
    match n
    case ArrayN(_) => ArrayN([])
    case SetN(_) => SetN([])
    case MapN(_) => MapN([])
    case PlainN(_) => PlainN([])
    case LeafN(_) => n
  }

  /** `origin` undoes `seen`: no two objects share a copy. */
  predicate Undoes(origin: Seen, seen: Seen) {
    forall a | a in seen :: seen[a] in origin && origin[seen[a]] == a
  }

  predicate Sub(a: Seen, b: Seen) {
    forall o | o in a :: o in b && b[o] == a[o]
  }

  lemma PrefixGrows(n: Node, d: Node, a: Seen, b: Seen)
    requires Sub(a, b) && Prefix(n, d, a)
    ensures Prefix(n, d, b)
  {
  }

  /** Distinct values have distinct copies, so a copied key or member is always new. */
  lemma MapsApart(a: Val, b: Val, x: Val, y: Val, seen: Seen, origin: Seen)
    requires Undoes(origin, seen) && Maps(a, x, seen) && Maps(b, y, seen) && a != b
    ensures x != y
  {
  }

  /** `node` copies one more part of `n` than `d`. */
  predicate OneMore(n: Node, d: Node, node: Node, seen: Seen) {
    Prefix(n, node, seen) && Size(node) == Size(d) + 1
  }

  lemma ArrayPart(n: Node, d: Node, x: Val, seen: Seen)
    requires n.ArrayN? && Prefix(n, d, seen) && Size(d) < Size(n) && Maps(n.items[Size(d)], x, seen)
    ensures OneMore(n, d, ArrayN(d.items + [x]), seen)
  {
  }

  lemma SetPart(h: Heap, n: Node, d: Node, x: Val, seen: Seen, origin: Seen)
    requires n.SetN? && GraphNode(n, h) && Prefix(n, d, seen) && Size(d) < Size(n) && Maps(n.items[Size(d)], x, seen) && Undoes(origin, seen)
    ensures OneMore(n, d, SetN(SetAdd(d.items, x)), seen)
  {
    var i := Size(d);
    forall k | 0 <= k < i
      ensures d.items[k] != x
    {
      MapsApart(n.items[k], n.items[i], d.items[k], x, seen, origin);
    }
  }

  lemma MapPart(h: Heap, n: Node, d: Node, k: Val, x: Val, seen: Seen, origin: Seen)
    requires n.MapN? && GraphNode(n, h) && Prefix(n, d, seen) && Size(d) < Size(n) && Undoes(origin, seen)
    requires Maps(n.pairs[Size(d)].0, k, seen) && Maps(n.pairs[Size(d)].1, x, seen)
    ensures OneMore(n, d, MapN(MapSet(d.pairs, k, x)), seen)
  {
    var i := Size(d);
    forall j | 0 <= j < i
      ensures d.pairs[j].0 != k
    {
      MapsApart(n.pairs[j].0, n.pairs[i].0, d.pairs[j].0, k, seen, origin);
    }
    MapSetNew(d.pairs, k, x);
  }

  lemma PlainPart(h: Heap, n: Node, d: Node, x: Val, seen: Seen)
    requires n.PlainN? && GraphNode(n, h) && Prefix(n, d, seen) && Size(d) < Size(n) && Maps(n.members[Size(d)].1, x, seen)
    ensures OneMore(n, d, PlainN(Assign(d.members, n.members[Size(d)].0, x)), seen)
  {
    AssignNew(d.members, n.members[Size(d)].0, x);
  }

  /** The copy `d` of `n` with one more part: an element pushed, a member added, a property assigned. */
  function Extended(n: Node, d: Node, i: nat, x: Val): Node {
    match n
    case ArrayN(_) => if d.ArrayN? then ArrayN(d.items + [x]) else d
    case SetN(_) => if d.SetN? then SetN(SetAdd(d.items, x)) else d
    case PlainN(members) => if d.PlainN? && i < |members| then PlainN(Assign(d.members, members[i].0, x)) else d
    case _ => d
  }

  lemma NextPart(h: Heap, n: Node, d: Node, x: Val, seen: Seen, origin: Seen)
    requires (n.ArrayN? || n.SetN? || n.PlainN?) && GraphNode(n, h) && Prefix(n, d, seen) && Size(d) < Size(n) && Undoes(origin, seen)
    requires var i := Size(d); Maps(if n.PlainN? then n.members[i].1 else n.items[i], x, seen)
    ensures OneMore(n, d, Extended(n, d, Size(d), x), seen)
  {
    hide SetAdd, Assign, OneMore, Undoes, Maps;
    match n
    case ArrayN(_) => ArrayPart(n, d, x, seen);
    case SetN(_) => SetPart(h, n, d, x, seen, origin);
    case PlainN(_) => PlainPart(h, n, d, x, seen);
  }

  // ---------------------------------------------------------------- observation by paths

  /** The `k`-th value an object holds: elements, members, keys and values in turn, or properties. */
  function Child(n: Node, k: nat): Option<Val> {
    match n
    case ArrayN(items) => if k < |items| then Some(items[k]) else None
    case SetN(items) => if k < |items| then Some(items[k]) else None
    case MapN(pairs) => if k / 2 < |pairs| then Some(if k % 2 == 0 then pairs[k / 2].0 else pairs[k / 2].1) else None
    case PlainN(members) => if k < |members| then Some(members[k].1) else None
    case LeafN(_) => None
  }

  lemma EntryChildren(n: Node, i: nat)
    requires n.MapN? && i < Size(n)
    ensures Child(n, 2 * i) == Some(n.pairs[i].0) && Child(n, 2 * i + 1) == Some(n.pairs[i].1)
  {
  }

  /** Where a path of child positions leads. */
  function Follow(h: Heap, v: Val, path: seq<nat>): Option<Val>
    decreases |path|
  {
    if path == [] then Some(v)
    else if !v.Ref? || v.addr >= |h| then None
    else
      var c := Child(h[v.addr], path[0]);
      if c.None? then None else Follow(h, c.value, path[1..])
  }

  /** A symbol or a function can be reached. */
  ghost predicate Unclonable(h: Heap, v: Val) {
    exists path :: Follow(h, v, path) == Some(Symbol) || Follow(h, v, path) == Some(Callable)
  }

  lemma UnclonableUp(h: Heap, o: nat, k: nat, w: Val)
    requires o < |h| && Child(h[o], k) == Some(w) && Unclonable(h, w)
    ensures Unclonable(h, Ref(o))
  {
    var path :| Follow(h, w, path) == Some(Symbol) || Follow(h, w, path) == Some(Callable);
    var longer := [k] + path;
    assert longer[1..] == path;
    assert Follow(h, Ref(o), longer) == Follow(h, w, path);
  }

  // ---------------------------------------------------------------- the copier

  /** Objects of `h0` not copied yet: what the recursion consumes. */
  function Todo(h0: Heap, seen: Seen): set<nat> {
    set a | 0 <= a < |h0| && a !in seen
  }

  /** One call's heap and `seen` map. */
  class Cloner {
    var heap: Heap
    var seen: Seen
    ghost var origin: Seen
    ghost var open: set<nat> // the objects whose copies are under construction

    constructor (h0: Heap)
      ensures heap == h0 && seen == map[] && open == {}
    {
      heap, seen, origin, open := h0, map[], map[], {};
    }

    /** The input is untouched, copies are new and distinct, and every closed copy is complete. */
    ghost predicate Inv(h0: Heap)
      reads this
    {
      && |h0| <= |heap| && heap[..|h0|] == h0
      && Undoes(origin, seen)
      && open <= seen.Keys
      && (forall a | a in seen :: a < |h0| <= seen[a] < |heap|)
      && (forall a | a in seen && a !in open :: Copied(h0[a], heap[seen[a]], seen))
    }

    /** `seen` and the heap grow, no object there before changes (save the one at `except`), and on
        success every new copy is complete. */
    twostate predicate Grown(ok: bool, except: int)
      reads this
    {
      && Sub(old(seen), seen)
      && |old(heap)| <= |heap|
      && (forall d | 0 <= d < |old(heap)| && d != except :: heap[d] == old(heap)[d])
      && old(open) <= open && (ok ==> open == old(open))
    }

    method Walk(v: Val, ghost h0: Heap) returns (r: Cloned)
      requires Graph(h0) && Inv(h0) && InHeap(v, h0)
      modifies this
      ensures Inv(h0) && Grown(r.Ok?, -1)
      ensures if r.Ok? then Maps(v, r.value, seen) else Unclonable(h0, v)
      decreases Todo(h0, seen), 1
    {
      assert Follow(h0, v, []) == Some(v);
      match v {
        case Symbol => r := DataCloneError;
        case Callable => r := DataCloneError;
        case Prim(_) => r := Ok(v);
        case Ref(o) =>
          if o in seen { return Ok(Ref(seen[o])); }
          var ok := WalkNew(o, h0);
          r := if ok then Ok(Ref(seen[o])) else DataCloneError;
      }
    }

    method WalkNew(o: nat, ghost h0: Heap) returns (ok: bool)
      requires Graph(h0) && Inv(h0) && o < |h0| && o !in seen
      modifies this
      ensures Inv(h0) && Grown(ok, -1) && o in seen && (!ok ==> Unclonable(h0, Ref(o)))
      decreases Todo(h0, seen), 0
    {
      assert heap[o] == h0[o];
      var out := Begin(o, heap[o], h0);
      ok := Fill(o, out, h0);
      if ok { open := open - {o}; }
    }

    /** Allocate an empty copy and register it, before anything `o` refers to is copied. */
    method Begin(o: nat, n: Node, ghost h0: Heap) returns (out: nat)
      requires Graph(h0) && Inv(h0) && o < |h0| && h0[o] == n && o !in seen
      modifies this
      ensures Inv(h0) && Building(o, out, 0, h0)
      ensures out == |old(heap)| && heap == old(heap) + [Blank(n)]
      ensures seen == old(seen)[o := out] && open == old(open) + {o}
      ensures Todo(h0, seen) < Todo(h0, old(seen))
    {
      ghost var a, h := seen, heap;
      out := |heap|;
      heap := heap + [Blank(n)];
      assert o in Todo(h0, seen);
      seen, origin, open := seen[o := out], origin[out := o], open + {o};
      assert o !in Todo(h0, seen);
      forall q | q in seen && q !in open
        ensures Copied(h0[q], heap[seen[q]], seen)
      {
        PrefixGrows(h0[q], h[a[q]], a, seen);
      }
    }

    /** `out` is the copy of `o` under construction, `k` parts along. */
    ghost predicate Building(o: nat, out: nat, k: nat, h0: Heap)
      reads this
    {
      && o in seen && seen[o] == out && o in open && o < |h0| && out < |heap|
      && Prefix(h0[o], heap[out], seen) && Size(heap[out]) == k
    }

    method Fill(o: nat, out: nat, ghost h0: Heap) returns (ok: bool)
      requires Graph(h0) && Inv(h0) && Building(o, out, 0, h0)
      modifies this
      ensures Inv(h0) && Grown(ok, out)
      ensures if ok then Building(o, out, Size(h0[o]), h0) else Unclonable(h0, Ref(o))
      decreases Todo(h0, seen), 4
    {
      assert heap[o] == h0[o];
      var n := Size(heap[o]);
      for i := 0 to n
        invariant Inv(h0) && Grown(true, out) && Building(o, out, i, h0)
      {
        assert heap[o] == h0[o];
        ok := FillPart(o, out, i, h0);
        if !ok { return false; }
      }
      ok := true;
    }

    /** One turn of the copy's loop: the next element, member, entry or property. */
    method FillPart(o: nat, out: nat, i: nat, ghost h0: Heap) returns (ok: bool)
      requires Graph(h0) && Inv(h0) && Building(o, out, i, h0) && i < Size(h0[o])
      modifies this
      ensures Inv(h0) && Grown(ok, out)
      ensures if ok then Building(o, out, i + 1, h0) else Unclonable(h0, Ref(o))
      decreases Todo(h0, seen), 3, 2
    {
      assert heap[o] == h0[o] && GraphNode(h0[o], h0);
      if heap[o].MapN? {
        ok := FillEntry(o, out, i, h0);
        return;
      }
      var part := match heap[o] case PlainN(members) => members[i].1 case MapN(_) => Symbol case LeafN(_) => Symbol case _ => heap[o].items[i];
      var x;
      ok, x := WalkChild(part, i, o, out, i, h0);
      if !ok { return; }
      assert heap[o] == h0[o];
      NextPart(h0, h0[o], heap[out], x, seen, origin);
      Put(o, out, i, Extended(heap[o], heap[out], i, x), h0);
    }

    /** One turn of a Map's loop: the key, then its value. */
    method FillEntry(o: nat, out: nat, i: nat, ghost h0: Heap) returns (ok: bool)
      requires Graph(h0) && Inv(h0) && Building(o, out, i, h0) && i < Size(h0[o]) && h0[o].MapN?
      modifies this
      ensures Inv(h0) && Grown(ok, out)
      ensures if ok then Building(o, out, i + 1, h0) else Unclonable(h0, Ref(o))
      decreases Todo(h0, seen), 3, 1
    {
      var k, x;
      ok, k, x := WalkEntry(o, out, i, h0);
      if !ok { return; }
      assert GraphNode(h0[o], h0);
      MapPart(h0, h0[o], heap[out], k, x, seen, origin);
      Put(o, out, i, MapN(MapSet(heap[out].pairs, k, x)), h0);
    }

    method WalkEntry(o: nat, out: nat, i: nat, ghost h0: Heap) returns (ok: bool, k: Val, x: Val)
      requires Graph(h0) && Inv(h0) && Building(o, out, i, h0) && i < Size(h0[o]) && h0[o].MapN?
      modifies this
      ensures Inv(h0) && Grown(ok, -1)
      ensures if ok then Building(o, out, i, h0) && Maps(h0[o].pairs[i].0, k, seen) && Maps(h0[o].pairs[i].1, x, seen)
        else Unclonable(h0, Ref(o))
      decreases Todo(h0, seen), 3, 0
    {
      hide Prefix, Copied, Undoes;
      assert heap[o] == h0[o] && GraphNode(h0[o], h0);
      var (key, value) := heap[o].pairs[i];
      EntryChildren(h0[o], i);
      k, x := Symbol, Symbol;
      ok, k := WalkChild(key, 2 * i, o, out, i, h0);
      if !ok { return; }
      ok, x := WalkChild(value, 2 * i + 1, o, out, i, h0);
    }

    /** Copy the value an object under construction holds at `at`. */
    method WalkChild(v: Val, ghost at: nat, ghost o: nat, ghost out: nat, ghost i: nat, ghost h0: Heap)
      returns (ok: bool, x: Val)
      requires Graph(h0) && Inv(h0) && InHeap(v, h0) && Building(o, out, i, h0) && Child(h0[o], at) == Some(v)
      modifies this
      ensures Inv(h0) && Grown(ok, -1)
      ensures if ok then Maps(v, x, seen) && Building(o, out, i, h0) else Unclonable(h0, Ref(o))
      decreases Todo(h0, seen), 2, 1
    {
      var r := WalkPart(v, o, out, i, h0);
      if r.DataCloneError? { UnclonableUp(h0, o, at, v); }
      ok, x := r.Ok?, if r.Ok? then r.value else Symbol;
    }

    /** Copy one value an object under construction refers to: what is built so far stays. */
    method WalkPart(v: Val, ghost o: nat, ghost out: nat, ghost i: nat, ghost h0: Heap) returns (r: Cloned)
      requires Graph(h0) && Inv(h0) && InHeap(v, h0) && Building(o, out, i, h0)
      modifies this
      ensures Inv(h0) && Grown(r.Ok?, -1)
      ensures if r.Ok? then Maps(v, r.value, seen) && Building(o, out, i, h0) else Unclonable(h0, v)
      decreases Todo(h0, seen), 2, 0
    {
      ghost var a, d := seen, heap[out];
      r := Walk(v, h0);
      PrefixGrows(h0[o], d, a, seen);
    }

    /** Store the next part into the copy of `o`. */
    method Put(o: nat, out: nat, ghost i: nat, node: Node, ghost h0: Heap)
      requires Inv(h0) && Building(o, out, i, h0) && OneMore(h0[o], heap[out], node, seen)
      modifies this`heap
      ensures Inv(h0) && Building(o, out, i + 1, h0)
      ensures heap == old(heap)[out := node]
    {
      heap := heap[out := node];
    }
  }

  // ---------------------------------------------------------------- the whole call

  /** `r` in heap `h1` is a clone of `v` in heap `h0` by way of `seen`: the input heap is still there,
      copies are new and distinct, and each mirrors its original. */
  ghost predicate IsClone(h0: Heap, v: Val, h1: Heap, r: Val, seen: Seen) {
    && |h0| <= |h1| && h1[..|h0|] == h0
    && Maps(v, r, seen)
    && (forall a | a in seen :: a < |h0| <= seen[a] < |h1|)
    && (forall a, b | a in seen && b in seen && seen[a] == seen[b] :: a == b)
    && (forall a | a in seen :: Copied(h0[a], h1[seen[a]], seen))
  }

  method Clone(v: Val, h0: Heap) returns (r: Cloned, h1: Heap, ghost seen: Seen)
    requires Graph(h0) && InHeap(v, h0)
    ensures r.Ok? <==> !Unclonable(h0, v)
    ensures r.Ok? ==> IsClone(h0, v, h1, r.value, seen)
    ensures |h0| <= |h1| && h1[..|h0|] == h0
  {
    var c := new Cloner(h0);
    r := c.Walk(v, h0);
    h1, seen := c.heap, c.seen;
    if r.Ok? { OkClonable(h0, v, h1, r.value, seen); }
  }

  lemma CopiedChild(n: Node, d: Node, k: nat, seen: Seen)
    requires Copied(n, d, seen)
    ensures Child(n, k).Some? <==> Child(d, k).Some?
    ensures Child(n, k).Some? ==> Maps(Child(n, k).value, Child(d, k).value, seen)
  {
  }

  /** Every path leads somewhere in the clone exactly when it does in the original, and then to the
      copy of what it leads to there. */
  lemma {:induction false} FollowSame(h0: Heap, v: Val, h1: Heap, r: Val, seen: Seen, path: seq<nat>)
    requires IsClone(h0, v, h1, r, seen)
    ensures Follow(h0, v, path).Some? <==> Follow(h1, r, path).Some?
    ensures Follow(h0, v, path).Some? ==> Maps(Follow(h0, v, path).value, Follow(h1, r, path).value, seen)
    decreases |path|
  {
    if path != [] && v.Ref? {
      CopiedChild(h0[v.addr], h1[r.addr], path[0], seen);
      if Child(h0[v.addr], path[0]).Some? {
        FollowSame(h0, Child(h0[v.addr], path[0]).value, h1, Child(h1[r.addr], path[0]).value, seen, path[1..]);
      }
    }
  }

  /** Sharing and cycles are the original's: two paths meet in the clone exactly when they meet in
      the original, and what they reach there is a new object. */
  lemma SharingSame(h0: Heap, v: Val, h1: Heap, r: Val, seen: Seen, p: seq<nat>, q: seq<nat>)
    requires IsClone(h0, v, h1, r, seen) && Follow(h0, v, p).Some? && Follow(h0, v, q).Some?
    ensures Follow(h0, v, p) == Follow(h0, v, q) <==> Follow(h1, r, p) == Follow(h1, r, q)
    ensures Follow(h1, r, p).Some? && (Follow(h1, r, p).value.Ref? ==> |h0| <= Follow(h1, r, p).value.addr < |h1|)
  {
    FollowSame(h0, v, h1, r, seen, p);
    FollowSame(h0, v, h1, r, seen, q);
  }

  /** Objects reached by one path have the same kind and size, and the same property names. */
  lemma ShapeSame(h0: Heap, v: Val, h1: Heap, r: Val, seen: Seen, p: seq<nat>)
    requires IsClone(h0, v, h1, r, seen) && Follow(h0, v, p).Some? && Follow(h0, v, p).value.Ref?
    ensures var a := Follow(h0, v, p).value.addr;
      && a < |h0| && Follow(h1, r, p).Some? && Follow(h1, r, p).value.Ref?
      && var b := Follow(h1, r, p).value.addr;
         && b < |h1| && Blank(h1[b]) == Blank(h0[a]) && Size(h1[b]) == Size(h0[a])
         && (h0[a].PlainN? ==> h1[b].PlainN? && forall k | 0 <= k < Size(h0[a]) :: h1[b].members[k].0 == h0[a].members[k].0)
  {
    FollowSame(h0, v, h1, r, seen, p);
  }

  /** A value with a clone holds no symbol and no function. */
  lemma OkClonable(h0: Heap, v: Val, h1: Heap, r: Val, seen: Seen)
    requires IsClone(h0, v, h1, r, seen)
    ensures !Unclonable(h0, v)
  {
    forall path
      ensures Follow(h0, v, path) != Some(Symbol) && Follow(h0, v, path) != Some(Callable)
    {
      FollowSame(h0, v, h1, r, seen, path);
    }
  }
}
