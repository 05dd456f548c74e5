/** The chain proxy's `editDistance` (src/sandbox-proxy.ts): optimal string alignment, filled in
    by rows, against the least cost of an edit script. */
module EditDistance {

  function Min(x: nat, y: nat): nat { if x < y then x else y }

  function Init<T>(s: seq<T>): seq<T>
    requires s != []
  {
    s[..|s| - 1]
  }

  function Last<T>(s: seq<T>): T
    requires s != []
  {
    s[|s| - 1]
  }

  // ---------------------------------------------------------------- edit scripts

  /** A script runs through the old string once, so no position is edited twice. */
  datatype Edit = Keep | Change(to: char) | Insert(add: char) | Delete | Swap

  datatype Outcome = Made(text: string) | Stuck

  /** What the script makes of `a`, consuming it entirely; the last edit works at the end of `a`. */
  function Apply(script: seq<Edit>, a: string): Outcome {
    if script == [] then
      if a == "" then Made("") else Stuck
    else
      var rest := Init(script);
      match Last(script)
      case Keep => if a == "" then Stuck else Append(Apply(rest, Init(a)), [Last(a)])
      case Change(c) => if a == "" then Stuck else Append(Apply(rest, Init(a)), [c])
      case Insert(c) => Append(Apply(rest, a), [c])
      case Delete => if a == "" then Stuck else Apply(rest, Init(a))
      case Swap => if |a| < 2 then Stuck else Append(Apply(rest, Init(Init(a))), [Last(a), Last(Init(a))])
  }

  function Append(o: Outcome, end: string): Outcome {
    if o.Stuck? then Stuck else Made(o.text + end)
  }

  function Cost(script: seq<Edit>): nat {
    if script == [] then 0 else Cost(Init(script)) + if Last(script) == Keep then 0 else 1
  }

  // ---------------------------------------------------------------- the recursive optimum

  predicate Swapped(a: string, b: string) {
    |a| > 1 && |b| > 1 && Last(a) == Last(Init(b)) && Last(Init(a)) == Last(b)
  }

  function Distance(a: string, b: string): nat
    decreases |a|, |b|
  {
    if a == "" then |b|
    else if b == "" then |a|
    else Least(a, b, Distance(Init(a), b), Distance(a, Init(b)), Distance(Init(a), Init(b)),
      if Swapped(a, b) then Distance(Init(Init(a)), Init(Init(b))) else 0)
  }

  /** The cheapest way to end a script, given what the four shorter problems cost. */
  function Least(a: string, b: string, delete: nat, insert: nat, change: nat, swap: nat): nat
    requires a != "" && b != ""
  {
    var d := Min(Min(delete + 1, insert + 1), change + if Last(a) == Last(b) then 0 else 1);
    if Swapped(a, b) then Min(d, swap + 1) else d
  }

  /** One unfolding of `Distance`. */
  lemma DistanceStep(a: string, b: string)
    ensures a == "" ==> Distance(a, b) == |b|
    ensures b == "" ==> Distance(a, b) == |a|
    ensures a != "" && b != "" ==>
      Distance(a, b) == Least(a, b, Distance(Init(a), b), Distance(a, Init(b)), Distance(Init(a), Init(b)),
        if Swapped(a, b) then Distance(Init(Init(a)), Init(Init(b))) else 0)
  {
    hide Least;
  }

  /** The table cell for the first `i` characters of `a` and the first `j` of `b`. */
  function Cell(a: string, b: string, i: nat, j: nat): nat
    requires i <= |a| && j <= |b|
  {
    Distance(a[..i], b[..j])
  }

  lemma Shorter(s: string, i: nat)
    requires 0 < i <= |s|
    ensures Init(s[..i]) == s[..i - 1] && Last(s[..i]) == s[i - 1]
  {
  }

  lemma CellStep(a: string, b: string, i: nat, j: nat)
    requires 0 < i <= |a| && 0 < j <= |b|
    ensures var d := Min(Min(Cell(a, b, i - 1, j) + 1, Cell(a, b, i, j - 1) + 1),
        Cell(a, b, i - 1, j - 1) + if a[i - 1] == b[j - 1] then 0 else 1);
      Cell(a, b, i, j) == if i > 1 && j > 1 && a[i - 1] == b[j - 2] && a[i - 2] == b[j - 1]
        then Min(d, Cell(a, b, i - 2, j - 2) + 1) else d
  {
    DistanceStep(a[..i], b[..j]);
    Shorter(a, i);
    Shorter(b, j);
    if i > 1 { Shorter(a, i - 1); }
    if j > 1 { Shorter(b, j - 1); }
    hide Distance, Init, Last;
  }

  lemma Edges(a: string, b: string)
    ensures forall i | 0 <= i <= |a| :: Cell(a, b, i, 0) == i
    ensures forall j | 0 <= j <= |b| :: Cell(a, b, 0, j) == j
  {
  }

  /** The table holds the recursive optimum at every cell filled in. */
  method EditDistance(a: string, b: string) returns (distance: nat)
    ensures distance == Distance(a, b)
  {
    hide Min;
    Edges(a, b);
    var d := new nat[|a| + 1, |b| + 1]((i, j) => if i >= 0 && j == 0 then i else 0);
    for j := 1 to |b| + 1
      invariant forall i | 0 <= i <= |a| :: d[i, 0] == Cell(a, b, i, 0)
      invariant forall k | 0 <= k < j :: d[0, k] == Cell(a, b, 0, k)
    {
      d[0, j] := j;
    }
    for i := 1 to |a| + 1
      invariant forall p | 0 <= p <= |a| :: d[p, 0] == Cell(a, b, p, 0)
      invariant forall p, q | 0 <= p < i && 0 <= q <= |b| :: d[p, q] == Cell(a, b, p, q)
    {
      for j := 1 to |b| + 1
        invariant forall p | 0 <= p <= |a| :: d[p, 0] == Cell(a, b, p, 0)
        invariant forall p, q | 0 <= p < i && 0 <= q <= |b| :: d[p, q] == Cell(a, b, p, q)
        invariant forall q | 0 <= q < j :: d[i, q] == Cell(a, b, i, q)
      {
        CellStep(a, b, i, j);
        var cost := if a[i - 1] == b[j - 1] then 0 else 1;
        d[i, j] := Min(Min(d[i - 1, j] + 1, d[i, j - 1] + 1), d[i - 1, j - 1] + cost);
        if i > 1 && j > 1 && a[i - 1] == b[j - 2] && a[i - 2] == b[j - 1] {
          d[i, j] := Min(d[i, j], d[i - 2, j - 2] + 1);
        }
      }
    }
    assert a[..|a|] == a && b[..|b|] == b;
    distance := d[|a|, |b|];
  }

  // ---------------------------------------------------------------- least cost

  /** No script is cheaper. */
  lemma {:induction false} NoCheaperScript(script: seq<Edit>, a: string, b: string)
    requires Apply(script, a) == Made(b)
    ensures Cost(script) >= Distance(a, b)
    decreases |script|
  {
    hide Distance;
    DistanceStep(a, b);
    if script != [] {
      var rest := Init(script);
      match Last(script)
      case Keep =>
        assert b == Init(b) + [Last(b)];
        NoCheaperScript(rest, Init(a), Init(b));
      case Change(_) =>
        assert b == Init(b) + [Last(b)];
        NoCheaperScript(rest, Init(a), Init(b));
      case Insert(_) =>
        DistanceStep(a, Init(b));
        NoCheaperScript(rest, a, Init(b));
      case Delete =>
        DistanceStep(Init(a), b);
        NoCheaperScript(rest, Init(a), b);
      case Swap =>
        var c := Apply(rest, Init(Init(a))).text;
        assert b == c + [Last(a), Last(Init(a))];
        assert Init(Init(b)) == c;
        NoCheaperScript(rest, Init(Init(a)), c);
    }
  }

  ghost predicate Best(script: seq<Edit>, a: string, b: string) {
    Apply(script, a) == Made(b) && Cost(script) == Distance(a, b)
  }

  lemma BestInsert(script: seq<Edit>, a: string, b: string)
    requires b != "" && Best(script, a, Init(b)) && Distance(a, b) == Distance(a, Init(b)) + 1
    ensures Best(Then(script, Insert(Last(b))), a, b)
  {
    hide Distance;
    assert b == Init(b) + [Last(b)];
  }

  lemma BestDelete(script: seq<Edit>, a: string, b: string)
    requires a != "" && Best(script, Init(a), b) && Distance(a, b) == Distance(Init(a), b) + 1
    ensures Best(Then(script, Delete), a, b)
  {
    hide Distance;
  }

  lemma BestSwap(script: seq<Edit>, a: string, b: string)
    requires Swapped(a, b) && Best(script, Init(Init(a)), Init(Init(b)))
    requires Distance(a, b) == Distance(Init(Init(a)), Init(Init(b))) + 1
    ensures Best(Then(script, Swap), a, b)
  {
    hide Distance;
    assert b == Init(Init(b)) + [Last(a), Last(Init(a))];
  }

  lemma BestReplace(script: seq<Edit>, a: string, b: string)
    requires a != "" && b != "" && Best(script, Init(a), Init(b))
    requires Distance(a, b) == Distance(Init(a), Init(b)) + if Last(a) == Last(b) then 0 else 1
    ensures Best(Then(script, if Last(a) == Last(b) then Keep else Change(Last(b))), a, b)
  {
    hide Distance;
    assert b == Init(b) + [Last(b)];
  }

  /** Some script costs exactly that. */
  lemma {:induction false} CheapestScript(a: string, b: string) returns (script: seq<Edit>)
    ensures Apply(script, a) == Made(b) && Cost(script) == Distance(a, b)
    decreases |a|, |b|
  {
    hide Distance, Apply, Cost;
    DistanceStep(a, b);
    if a == "" && b == "" {
      script := [];
      NothingToDo();
    } else if a == "" || (b != "" && Distance(a, b) == Distance(a, Init(b)) + 1) {
      DistanceStep(a, Init(b));
      script := CheapestScript(a, Init(b));
      BestInsert(script, a, b);
      script := Then(script, Insert(Last(b)));
    } else if b == "" || Distance(a, b) == Distance(Init(a), b) + 1 {
      DistanceStep(Init(a), b);
      script := CheapestScript(Init(a), b);
      BestDelete(script, a, b);
      script := Then(script, Delete);
    } else if Swapped(a, b) && Distance(a, b) == Distance(Init(Init(a)), Init(Init(b))) + 1 {
      script := CheapestScript(Init(Init(a)), Init(Init(b)));
      BestSwap(script, a, b);
      script := Then(script, Swap);
    } else {
      script := CheapestScript(Init(a), Init(b));
      BestReplace(script, a, b);
      script := Then(script, if Last(a) == Last(b) then Keep else Change(Last(b)));
    }
  }

  lemma NothingToDo()
    ensures Best([], "", "")
  {
  }

  function Then(script: seq<Edit>, e: Edit): (r: seq<Edit>)
    ensures r != [] && Init(r) == script && Last(r) == e
  {
    script + [e]
  }

  // ---------------------------------------------------------------- a distance

  lemma {:induction false} Symmetric(a: string, b: string)
    ensures Distance(a, b) == Distance(b, a)
    decreases |a|, |b|
  {
    if a != "" && b != "" {
      Symmetric(Init(a), b);
      Symmetric(a, Init(b));
      Symmetric(Init(a), Init(b));
      if Swapped(a, b) { Symmetric(Init(Init(a)), Init(Init(b))); }
    }
  }

  /** Between the difference of the lengths and the longer length, and zero exactly on equal strings. */
  lemma {:induction false} Bounds(a: string, b: string)
    ensures |a| - |b| <= Distance(a, b) && |b| - |a| <= Distance(a, b)
    ensures Distance(a, b) <= if |a| > |b| then |a| else |b|
    ensures Distance(a, b) == 0 <==> a == b
    decreases |a|, |b|
  {
    hide Distance;
    DistanceStep(a, b);
    if a != "" && b != "" {
      Bounds(Init(a), b);
      Bounds(a, Init(b));
      Bounds(Init(a), Init(b));
      if Swapped(a, b) {
        Bounds(Init(Init(a)), Init(Init(b)));
      }
      assert a == Init(a) + [Last(a)] && b == Init(b) + [Last(b)];
    }
  }

}
