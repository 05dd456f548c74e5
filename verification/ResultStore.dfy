/** The bounded result store (src/result-store.ts): an insertion-ordered map with an entry cap and a
    time to live, against the plain history of what was stored. */
module ResultStore {
  import opened Common

  const MAX_ENTRIES := 32
  const TTL_MS := 30 * 60 * 1000
  const DEFAULT_SHOWN := 20
  const DEFAULT_LIMIT := 100
  const MAX_LIMIT := 1000

  /** An optional JavaScript number: `NaN` and the infinities are not finite. */
  datatype JsNum = Undefined | NonFinite | Finite(value: real)

  datatype Stored<T> = Stored(ref: string, kind: string, items: seq<T>, at: int)
  datatype View<T> = View(ref: Option<string>, shown: nat, total: nat, items: seq<T>)
  datatype Expanded<T> = Expanded(kind: string, offset: nat, shown: nat, total: nat, items: seq<T>)

  // ---------------------------------------------------------------- clamps

  function Between(low: int, x: int, high: int): int {
    if x < low then (if low < high then low else high) else if x < high then x else high
  }

  function ClampShown(shown: JsNum): nat {
    if !shown.Finite? then DEFAULT_SHOWN else if shown.value.Floor < 0 then 0 else shown.value.Floor
  }

  function ClampOffset(offset: JsNum, total: nat): nat {
    if !offset.Finite? then 0 else Between(0, offset.value.Floor, total)
  }

  function ClampLimit(limit: JsNum): nat {
    if !limit.Finite? then DEFAULT_LIMIT else Between(1, limit.value.Floor, MAX_LIMIT)
  }

  /** `items.slice(offset, offset + limit)` */
  function Slice<T>(items: seq<T>, offset: nat, limit: nat): seq<T>
    requires offset <= |items|
  {
    if offset + limit <= |items| then items[offset..offset + limit] else items[offset..]
  }

  // ---------------------------------------------------------------- the history's live part

  predicate Expired<T>(e: Stored<T>, t: int) {
    e.at <= t - TTL_MS
  }

  function DropExpired<T>(es: seq<Stored<T>>, t: int): seq<Stored<T>> {
    if es != [] && Expired(es[0], t) then DropExpired(es[1..], t) else es
  }

  function Recent<T>(history: seq<Stored<T>>): seq<Stored<T>> {
    if |history| <= MAX_ENTRIES then history else history[|history| - MAX_ENTRIES..]
  }

  /** What is held right after pruning at time `t`. */
  function Live<T>(history: seq<Stored<T>>, t: int): seq<Stored<T>> {
    DropExpired(Recent(history), t)
  }

  predicate InOrder<T>(es: seq<Stored<T>>) {
    forall j, k | 0 <= j < k < |es| :: es[j].at <= es[k].at
  }

  predicate Distinct<T>(es: seq<Stored<T>>) {
    forall j, k | 0 <= j < k < |es| :: es[j].ref != es[k].ref
  }

  /** Stopping at the first unexpired entry leaves no expired one behind it. */
  lemma {:induction false} DropExpiredAll<T>(es: seq<Stored<T>>, t: int) returns (k: nat)
    requires InOrder(es)
    ensures k <= |es| && DropExpired(es, t) == es[k..]
    ensures forall j | 0 <= j < |es| :: Expired(es[j], t) <==> j < k
  {
    if es != [] && Expired(es[0], t) {
      k := DropExpiredAll(es[1..], t);
      forall j | 0 <= j < |es|
        ensures Expired(es[j], t) <==> j < k + 1
      {
        if j > 0 { assert es[j] == es[1..][j - 1]; }
      }
      k := k + 1;
    } else {
      k := 0;
    }
  }

  /** An entry is held exactly when it is among the last 32 stored and younger than the time to live. */
  lemma LiveExactly<T>(history: seq<Stored<T>>, t: int, e: Stored<T>)
    requires InOrder(history)
    ensures e in Live(history, t) <==>
      exists j | 0 <= j < |history| && |history| - 32 <= j :: history[j] == e && e.at > t - 30 * 60 * 1000
    ensures |Live(history, t)| <= 32
  {
    hide DropExpired;
    var recent := Recent(history);
    var k := DropExpiredAll(recent, t);
    var skip := |history| - |recent|;
    assert recent == history[skip..] && recent[k..] == history[skip + k..];
    InSuffix(history, skip + k, e);
    forall j | skip <= j < |history| && history[j] == e && e.at > t - TTL_MS
      ensures skip + k <= j
    {
      assert recent[j - skip] == e;
    }
    forall j | skip + k <= j < |history| && history[j] == e
      ensures e.at > t - TTL_MS
    {
      assert recent[j - skip] == e;
    }
  }

  lemma InSuffix<T>(s: seq<T>, from: nat, x: T)
    requires from <= |s|
    ensures x in s[from..] <==> exists j | from <= j < |s| :: s[j] == x
  {
    if j :| from <= j < |s| && s[j] == x { assert s[from..][j - from] == x; }
  }

  /** Pruning again later is pruning once. */
  lemma {:induction false} DropTwice<T>(es: seq<Stored<T>>, s: int, t: int)
    requires s <= t
    ensures DropExpired(DropExpired(es, s), t) == DropExpired(es, t)
  {
    if es != [] && Expired(es[0], s) {
      DropTwice(es[1..], s, t);
    }
  }

  lemma {:induction false} DropAppend<T>(es: seq<Stored<T>>, e: Stored<T>, t: int)
    requires !Expired(e, t)
    ensures DropExpired(es + [e], t) == DropExpired(es, t) + [e]
    ensures |DropExpired(es, t)| <= |es|
  {
    if es != [] && Expired(es[0], t) {
      DropAppend(es[1..], e, t);
      assert (es + [e])[1..] == es[1..] + [e];
    }
  }

  function Evicted<T>(es: seq<Stored<T>>): seq<Stored<T>> {
    if |es| == MAX_ENTRIES then es[1..] else es
  }

  /** Evicting down to 31 and appending keeps exactly the live part of the longer history. */
  lemma LiveAppend<T>(history: seq<Stored<T>>, e: Stored<T>, t: int)
    requires InOrder(history) && !Expired(e, t)
    ensures Live(history + [e], t) == Evicted(Live(history, t)) + [e]
  {
    var recent := Recent(history);
    assert Recent(history + [e]) == Evicted(recent) + [e];
    DropAppend(Evicted(recent), e, t);
    DropAppend(recent, e, t);
    if |recent| == MAX_ENTRIES {
      if Expired(recent[0], t) {
        DropAppend(recent[1..], e, t);
      } else {
        assert recent[1] == history[|history| - MAX_ENTRIES + 1];
        assert !Expired(recent[1], t);
      }
    }
  }

  // ---------------------------------------------------------------- the code's own form

  class Store<T> {
    var entries: seq<Stored<T>> // the Map, oldest first
    ghost var history: seq<Stored<T>>
    ghost var pruned: int
    ghost var clock: int

    /** The entries are the live part of the history, as of the last pruning. */
    ghost predicate Valid()
      reads this
    {
      && InOrder(history) && Distinct(history) && pruned <= clock
      && (forall k | 0 <= k < |history| :: history[k].at <= clock)
      && entries == Live(history, pruned)
    }

    constructor (ghost now: int)
      ensures Valid() && entries == [] && history == [] && clock == now
    {
      entries, history, pruned, clock := [], [], now, now;
    }

    method PruneExpired(now: int)
      requires Valid() && clock <= now
      modifies this
      ensures Valid() && clock == pruned == now && history == old(history)
    {
      var cutoff := now - TTL_MS;
      while entries != [] && entries[0].at <= cutoff
        invariant DropExpired(entries, now) == DropExpired(old(entries), now)
        invariant history == old(history) && pruned == old(pruned)
        decreases |entries|
      {
        entries := entries[1..];
      }
      DropTwice(Recent(history), old(pruned), now);
      pruned, clock := now, now;
    }

    /** Make room for one more. */
    method EvictOldest()
      requires |entries| <= MAX_ENTRIES
      modifies this`entries
      ensures entries == Evicted(old(entries)) && |entries| < MAX_ENTRIES
    {
      while |entries| >= MAX_ENTRIES
        invariant entries == old(entries) || entries == Evicted(old(entries))
        invariant |entries| <= MAX_ENTRIES
        decreases |entries|
      {
        entries := entries[1..];
      }
    }

    /** Retain one more result. */
    method Retain(e: Stored<T>, now: int)
      requires Valid() && clock <= now <= e.at && forall k | 0 <= k < |history| :: history[k].ref != e.ref
      modifies this
      ensures Valid() && |entries| <= MAX_ENTRIES && clock == e.at
      ensures history == old(history) + [e] && entries != [] && entries[|entries| - 1] == e
    {
      hide Live, DropExpired;
      PruneExpired(now);
      LiveBound(history, now);
      LiveAppend(history, e, now);
      EvictOldest();
      entries := entries + [e];
      history, clock := history + [e], e.at;
    }

    /** The view is the first items, honestly counted; nothing of a secret result is kept. */
    method StoreResult(kind: string, items: seq<T>, shown: JsNum, secret: bool, ref: string, now: int, later: int)
      returns (view: View<T>)
      requires Valid() && clock <= now <= later
      requires forall k | 0 <= k < |history| :: history[k].ref != ref
      modifies this
      ensures Valid() && |entries| <= 32
      ensures view.items <= items && (|view.items| == |items| || |view.items| == Asked(shown, 0, 20))
      ensures |view.items| <= Asked(shown, 0, 20)
      ensures view.shown == |view.items| && view.total == |items| && view.ref == (if secret then None else Some(ref))
      ensures if secret then entries == old(entries) && history == old(history)
        else history == old(history) + [Stored(ref, kind, items, later)] && entries != [] && entries[|entries| - 1] == Stored(ref, kind, items, later)
    {
      ShownIs(shown);
      var window := ClampShown(shown);
      var part := if window < |items| then items[..window] else items;
      LiveBound(history, pruned);
      if secret { return View(None, |part|, |items|, part); }
      Retain(Stored(ref, kind, items, later), now);
      return View(Some(ref), |part|, |items|, part);
    }

    /** A reference expands exactly when it is among the last 32 stores and younger than the time to
        live, to the asked window of the complete list. */
    method ExpandResult(ref: string, offset: JsNum, limit: JsNum, now: int) returns (r: Option<Expanded<T>>)
      requires Valid() && clock <= now
      modifies this
      ensures Valid() && history == old(history)
      ensures r.Some? <==> exists j | 0 <= j < |history| && |history| - 32 <= j :: history[j].ref == ref && history[j].at > now - 30 * 60 * 1000
      ensures r.Some? ==> exists j | 0 <= j < |history| :: history[j].ref == ref && WindowOf(history[j], offset, limit, r.value)
    {
      PruneExpired(now);
      for i := 0 to |entries|
        invariant forall k | 0 <= k < i :: entries[k].ref != ref
      {
        if entries[i].ref == ref {
          LiveExactly(history, now, entries[i]);
          var e := entries[i];
          var from := ClampOffset(offset, |e.items|);
          var items := Slice(e.items, from, ClampLimit(limit));
          WindowIs(e, offset, limit);
          return Some(Expanded(e.kind, from, |items|, |e.items|, items));
        }
      }
      r := None;
      forall j | 0 <= j < |history| && |history| - 32 <= j && history[j].at > now - 30 * 60 * 1000
        ensures history[j].ref != ref
      {
        LiveExactly(history, now, history[j]);
      }
    }
  }

  lemma LiveBound<T>(history: seq<Stored<T>>, t: int)
    requires InOrder(history)
    ensures |Live(history, t)| <= 32
  {
    var _ := DropExpiredAll(Recent(history), t);
  }

  // ---------------------------------------------------------------- windows

  function Window<T>(e: Stored<T>, offset: JsNum, limit: JsNum): Expanded<T> {
    var from := ClampOffset(offset, |e.items|);
    var items := Slice(e.items, from, ClampLimit(limit));
    Expanded(e.kind, from, |items|, |e.items|, items)
  }

  /** The whole number a caller asks for: `otherwise` when it gives none or none that is finite, and at
      least `low`. */
  function Asked(n: JsNum, low: int, otherwise: int): int {
    if !n.Finite? then otherwise else if n.value < low as real then low else n.value.Floor
  }

  /** What an expansion shows: `limit` items, 100 unless the caller says otherwise and never more than
      1000, from `offset`, the start unless the caller says otherwise, or all there are from there. */
  predicate WindowOf<T(==)>(e: Stored<T>, offset: JsNum, limit: JsNum, w: Expanded<T>) {
    var from, size := Asked(offset, 0, 0), Asked(limit, 1, 100);
    && w.kind == e.kind && w.total == |e.items| && w.shown == |w.items|
    && w.offset == (if from < |e.items| then from else |e.items|)
    && w.items <= e.items[w.offset..]
    && w.shown <= size && w.shown <= 1000
    && (w.shown == |e.items| - w.offset || w.shown == size || w.shown == 1000)
  }

  lemma WindowIs<T>(e: Stored<T>, offset: JsNum, limit: JsNum)
    ensures WindowOf(e, offset, limit, Window(e, offset, limit))
  {
    OffsetIs(offset, |e.items|);
    LimitIs(limit);
    hide ClampOffset, ClampLimit, Asked;
  }

  lemma OffsetIs(offset: JsNum, total: nat)
    ensures ClampOffset(offset, total) == if Asked(offset, 0, 0) < total then Asked(offset, 0, 0) else total
  {
  }

  lemma LimitIs(limit: JsNum)
    ensures 1 <= Asked(limit, 1, 100)
    ensures ClampLimit(limit) == if Asked(limit, 1, 100) < 1000 then Asked(limit, 1, 100) else 1000
  {
  }

  lemma ShownIs(shown: JsNum)
    ensures ClampShown(shown) == Asked(shown, 0, 20)
  {
  }

  /** Reading on: each window starts where the one before it ended. */
  function ReadOn<T>(e: Stored<T>, from: nat, limits: seq<JsNum>): seq<T>
    decreases |limits|
  {
    if limits == [] then []
    else
      var w := Window(e, Finite(from as real), limits[0]);
      w.items + ReadOn(e, from + w.shown, limits[1..])
  }

  /** Successive windows, of whatever sizes, tile the list: they are consecutive parts of it, and
      each reads something until the end is reached. */
  lemma {:induction false} WindowsTile<T>(e: Stored<T>, from: nat, limits: seq<JsNum>)
    requires from <= |e.items|
    ensures Reads(e.items, from, ReadOn(e, from, limits), |limits|)
    decreases |limits|
  {
    if limits != [] {
      var w := Window(e, Finite(from as real), limits[0]);
      WindowNext(e, from, limits[0]);
      hide Window, Reads;
      var rest := ReadOn(e, from + w.shown, limits[1..]);
      WindowsTile(e, from + w.shown, limits[1..]);
      ReadsNext(e.items, from, from + w.shown, rest, |limits| - 1);
    }
  }

  /** `read` is a part of the list starting at `from`, all of the rest when `turns` suffices. */
  predicate Reads<T(==)>(items: seq<T>, from: nat, read: seq<T>, turns: nat)
    requires from <= |items|
  {
    read <= items[from..] && (turns >= |items| - from ==> read == items[from..])
  }

  lemma ReadsNext<T>(items: seq<T>, from: nat, mid: nat, read: seq<T>, turns: nat)
    requires from <= mid <= |items| && (from < |items| ==> from < mid) && Reads(items, mid, read, turns)
    ensures Reads(items, from, items[from..mid] + read, turns + 1)
  {
    assert items[from..] == items[from..mid] + items[mid..];
  }

  lemma WindowNext<T>(e: Stored<T>, from: nat, limit: JsNum)
    requires from <= |e.items|
    ensures var w := Window(e, Finite(from as real), limit);
      from + w.shown <= |e.items| && w.items == e.items[from..from + w.shown] && (from < |e.items| ==> w.shown > 0)
  {
    assert (from as real).Floor == from;
    assert ClampOffset(Finite(from as real), |e.items|) == from;
  }
}
