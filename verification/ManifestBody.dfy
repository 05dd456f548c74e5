/** The body of a manifest's asset list (astro/src/ssr-determinism.ts): string literals and the
    separators between them, sorted in place. */
module ManifestBody {
  import opened Common
  import opened ManifestLexer

  /** A UTF-16 code unit. A string is compared unit by unit, lone surrogates included. */
  type Unit = u: nat | u < 0x10000

  /** A string literal as written, and the string it stands for. */
  datatype Lit = Lit(raw: string, value: seq<Unit>)

  /** `gaps[k]` stands before the `k`-th literal, `tail` after the last. */
  datatype Body = Body(gaps: seq<string>, lits: seq<Lit>, tail: string)

  /** `JSON.parse` of a string literal; it may fail. */
  type Parser = string -> Option<seq<Unit>>

  predicate Separator(c: char) {
    c == ',' || IsSpace(c)
  }

  predicate Separators(s: string) {
    forall k | 0 <= k < |s| :: Separator(s[k])
  }

  predicate LitOk(p: Parser, l: Lit) {
    l.raw != "" && l.raw[0] == '"' && StringLength(l.raw[1..]) == Some(|l.raw| - 1) && p(l.raw) == Some(l.value)
  }

  predicate BodyOk(p: Parser, b: Body) {
    && |b.gaps| == |b.lits| && Separators(b.tail)
    && (forall k | 0 <= k < |b.gaps| :: Separators(b.gaps[k]))
    && forall k | 0 <= k < |b.lits| :: LitOk(p, b.lits[k])
  }

  /** The body of a text that is nothing but literals and separators; `gap` is read already. */
  function Scan(p: Parser, s: string, gap: string): Option<Body>
    decreases |s|
  {
    if s == "" then Some(Body([], [], gap))
    else if s[0] == '"' then
      var n := StringLength(s[1..]);
      if n.None? || p(s[..1 + n.value]).None? then None
      else Cons(gap, Lit(s[..1 + n.value], p(s[..1 + n.value]).value), Scan(p, s[1 + n.value..], ""))
    else if Separator(s[0]) then Scan(p, s[1..], gap + [s[0]])
    else None
  }

  function Cons(gap: string, lit: Lit, rest: Option<Body>): Option<Body> {
    if rest.None? then None else Some(Body([gap] + rest.value.gaps, [lit] + rest.value.lits, rest.value.tail))
  }

  function Render(gaps: seq<string>, lits: seq<Lit>, tail: string): string
    requires |gaps| == |lits|
  {
    if lits == [] then tail else gaps[0] + (lits[0].raw + Render(gaps[1..], lits[1..], tail))
  }

  function BodyText(b: Body): string {
    if |b.gaps| == |b.lits| then Render(b.gaps, b.lits, b.tail) else ""
  }

  // ---------------------------------------------------------------- scanning and printing

  /** `b` is a body, and `text` is what it prints as. */
  ghost predicate Reads(p: Parser, b: Body, text: string) {
    BodyOk(p, b) && BodyText(b) == text
  }

  lemma ScanStep(p: Parser, s: string, gap: string)
    ensures s != "" && s[0] == '"' && Scan(p, s, gap).Some? ==>
      StringLength(s[1..]).Some? &&
      var n := StringLength(s[1..]).value;
      p(s[..1 + n]).Some? && Scan(p, s[1 + n..], "").Some?
      && Scan(p, s, gap) == Cons(gap, Lit(s[..1 + n], p(s[..1 + n]).value), Scan(p, s[1 + n..], ""))
    ensures s != "" && s[0] != '"' && Scan(p, s, gap).Some? ==>
      Separator(s[0]) && Scan(p, s, gap) == Scan(p, s[1..], gap + [s[0]])
  {
    hide StringLength, Separator;
  }

  lemma {:induction false} ScanOk(p: Parser, s: string, gap: string)
    requires Separators(gap) && Scan(p, s, gap).Some?
    ensures Reads(p, Scan(p, s, gap).value, gap + s)
    decreases |s|
  {
    ScanStep(p, s, gap);
    if s == "" {
      assert gap + s == gap;
    } else if s[0] == '"' {
      var n := StringLength(s[1..]).value;
      ScanOk(p, s[1 + n..], "");
      assert "" + s[1 + n..] == s[1 + n..];
      hide Scan, Reads, StringLength;
      ReadsLit(p, s, gap, n, Scan(p, s[1 + n..], "").value);
    } else {
      hide Reads, Scan;
      ScanOk(p, s[1..], gap + [s[0]]);
      assert gap + [s[0]] + s[1..] == gap + s;
    }
  }

  lemma ReadsLit(p: Parser, s: string, gap: string, n: nat, rest: Body)
    requires s != "" && s[0] == '"' && StringLength(s[1..]) == Some(n) && p(s[..1 + n]).Some? && Separators(gap)
    requires Reads(p, rest, s[1 + n..])
    ensures Reads(p, Cons(gap, Lit(s[..1 + n], p(s[..1 + n]).value), Some(rest)).value, gap + s)
  {
    hide Reads, Separators;
    LitRead(p, s, n);
    ConsOk(p, gap, Lit(s[..1 + n], p(s[..1 + n]).value), rest, s[1 + n..]);
    assert s == s[..1 + n] + s[1 + n..];
  }

  lemma LitRead(p: Parser, s: string, n: nat)
    requires s != "" && s[0] == '"' && StringLength(s[1..]) == Some(n) && p(s[..1 + n]).Some?
    ensures LitOk(p, Lit(s[..1 + n], p(s[..1 + n]).value))
  {
    assert s[1..] == s[1..1 + n] + s[1 + n..];
    StringLocal(s[1..1 + n], s[1 + n..], n);
    assert s[..1 + n][1..] == s[1..1 + n];
  }

  lemma ConsOk(p: Parser, gap: string, lit: Lit, rest: Body, text: string)
    requires Separators(gap) && LitOk(p, lit) && Reads(p, rest, text)
    ensures Reads(p, Cons(gap, lit, Some(rest)).value, gap + (lit.raw + text))
  {
    var b := Cons(gap, lit, Some(rest)).value;
    assert b.gaps[1..] == rest.gaps && b.lits[1..] == rest.lits;
    hide LitOk, Separators;
  }

  lemma {:induction false} ScanGap(p: Parser, g: string, t: string, gap: string)
    requires Separators(g)
    ensures Scan(p, g + t, gap) == Scan(p, t, gap + g)
    decreases |g|
  {
    if g == "" {
      assert g + t == t && gap + g == gap;
    } else {
      ScanGap(p, g[1..], t, gap + [g[0]]);
      assert (g + t)[1..] == g[1..] + t && gap + [g[0]] + g[1..] == gap + g;
    }
  }

  lemma ScanLit(p: Parser, l: Lit, t: string, gap: string)
    requires LitOk(p, l)
    ensures Scan(p, l.raw + t, gap) == Cons(gap, l, Scan(p, t, ""))
  {
    var s := l.raw + t;
    assert s[1..] == l.raw[1..] + t;
    StringLocal(l.raw[1..], t, |l.raw| - 1);
    assert s[..|l.raw|] == l.raw && s[|l.raw|..] == t;
  }

  /** What is printed is scanned back. */
  lemma {:induction false} RenderScan(p: Parser, gaps: seq<string>, lits: seq<Lit>, tail: string)
    requires BodyOk(p, Body(gaps, lits, tail))
    ensures Scan(p, Render(gaps, lits, tail), "") == Some(Body(gaps, lits, tail))
    decreases |lits|
  {
    if lits == [] {
      ScanGap(p, tail, "", "");
      assert tail + "" == tail && "" + tail == tail;
    } else {
      var rest := Render(gaps[1..], lits[1..], tail);
      RenderScan(p, gaps[1..], lits[1..], tail);
      ScanGap(p, gaps[0], lits[0].raw + rest, "");
      ScanLit(p, lits[0], rest, "" + gaps[0]);
      assert "" + gaps[0] == gaps[0];
      assert gaps == [gaps[0]] + gaps[1..] && lits == [lits[0]] + lits[1..];
      hide Scan;
    }
  }

  /** Commas and white space. */
  predicate Between(s: string) {
    forall k | 0 <= k < |s| :: s[k] == ',' || IsSpace(s[k])
  }

  /** A text is taken exactly when it is string literals that parse, with commas and white space before,
      between and after them; and it is taken apart as these. */
  lemma ScanExactly(p: Parser, s: string)
    ensures Scan(p, s, "").Some? <==> exists b: Body ::
      && |b.gaps| == |b.lits| && Render(b.gaps, b.lits, b.tail) == s
      && (forall l | l in b.lits :: LitOk(p, l)) && (forall g | g in b.gaps :: Between(g)) && Between(b.tail)
    ensures forall b: Body | BodyOk(p, b) && BodyText(b) == s :: Scan(p, s, "") == Some(b)
  {
    hide Scan, LitOk;
    if Scan(p, s, "").Some? {
      ScanOk(p, s, "");
      assert "" + s == s;
    }
    forall b: Body | |b.gaps| == |b.lits| && Render(b.gaps, b.lits, b.tail) == s
      && (forall l | l in b.lits :: LitOk(p, l)) && (forall g | g in b.gaps :: Between(g)) && Between(b.tail)
      ensures Scan(p, s, "") == Some(b)
    {
      assert BodyOk(p, b) by {
        forall k | 0 <= k < |b.gaps|
          ensures Separators(b.gaps[k])
        {
          assert b.gaps[k] in b.gaps;
        }
      }
      RenderScan(p, b.gaps, b.lits, b.tail);
    }
    forall b: Body | BodyOk(p, b) && BodyText(b) == s
      ensures Scan(p, s, "") == Some(b)
    {
      RenderScan(p, b.gaps, b.lits, b.tail);
    }
  }

  lemma LitPasses(p: Parser, l: Lit)
    requires LitOk(p, l)
    ensures Passes(l.raw)
  {
    forall rest: string, depth: int | depth >= 1
      ensures ArrayEnd(l.raw + rest, depth) == Plus(|l.raw|, ArrayEnd(rest, depth))
    {
      var s := l.raw + rest;
      assert s[1..] == l.raw[1..] + rest;
      StringLocal(l.raw[1..], rest, |l.raw| - 1);
      AtString(s, depth);
      assert s[|l.raw|..] == rest;
    }
  }

  /** The bracket scan passes over a body. */
  lemma {:induction false} BodyPasses(p: Parser, gaps: seq<string>, lits: seq<Lit>, tail: string)
    requires BodyOk(p, Body(gaps, lits, tail))
    ensures Passes(Render(gaps, lits, tail))
    decreases |lits|
  {
    hide Passes, LitOk;
    if lits == [] {
      InertPasses(tail);
    } else {
      BodyPasses(p, gaps[1..], lits[1..], tail);
      InertPasses(gaps[0]);
      LitPasses(p, lits[0]);
      PassesBoth(lits[0].raw, Render(gaps[1..], lits[1..], tail));
      PassesBoth(gaps[0], lits[0].raw + Render(gaps[1..], lits[1..], tail));
    }
  }

  // ---------------------------------------------------------------- sorting

  /** The order of strings by code units. */
  predicate Less(a: seq<Unit>, b: seq<Unit>) {
    b != [] && (a == [] || a[0] < b[0] || (a[0] == b[0] && Less(a[1..], b[1..])))
  }

  /** At the first unit where they differ the earlier string has the smaller one, or it ends there. */
  ghost predicate ComesFirst(a: seq<Unit>, b: seq<Unit>) {
    exists k | 0 <= k <= |a| && k < |b| :: a[..k] == b[..k] && (k == |a| || a[k] < b[k])
  }

  lemma {:induction false} LessIs(a: seq<Unit>, b: seq<Unit>)
    ensures Less(a, b) <==> ComesFirst(a, b)
    decreases |a|
  {
    if a != [] && b != [] && a[0] == b[0] {
      LessIs(a[1..], b[1..]);
      assert forall k | 0 <= k < |a| && k < |b| :: a[..k + 1] == [a[0]] + a[1..][..k];
      if Less(a, b) {
        var k :| 0 <= k <= |a[1..]| && k < |b[1..]| && a[1..][..k] == b[1..][..k] && (k == |a[1..]| || a[1..][k] < b[1..][k]);
        assert a[..k + 1] == [a[0]] + a[1..][..k] && b[..k + 1] == [b[0]] + b[1..][..k];
      }
      if ComesFirst(a, b) {
        var k :| 0 <= k <= |a| && k < |b| && a[..k] == b[..k] && (k == |a| || a[k] < b[k]);
        assert k > 0 && a[1..][..k - 1] == a[..k][1..] && b[1..][..k - 1] == b[..k][1..];
      }
    } else if Less(a, b) {
      assert a[..0] == b[..0];
    }
  }

  /** A stable sort: each literal goes behind those that are not greater. */
  function Insert(sorted: seq<Lit>, x: Lit): (r: seq<Lit>)
    ensures |r| == |sorted| + 1
  {
    var n := |sorted| - 1;
    if sorted == [] || !Less(x.value, sorted[n].value) then sorted + [x] else Insert(sorted[..n], x) + [sorted[n]]
  }

  function Sort(lits: seq<Lit>): (r: seq<Lit>)
    ensures |r| == |lits|
    decreases |lits|
  {
    if lits == [] then [] else Insert(Sort(lits[..|lits| - 1]), lits[|lits| - 1])
  }

  predicate Sorted(lits: seq<Lit>) {
    forall j, k | 0 <= j < k < |lits| :: !Less(lits[k].value, lits[j].value)
  }

  lemma {:induction false} LessTotal(a: seq<Unit>, b: seq<Unit>, c: seq<Unit>)
    ensures !Less(a, b) && !Less(b, a) ==> a == b
    ensures !(Less(a, b) && Less(b, a))
    ensures Less(a, b) && !Less(c, b) ==> Less(a, c)
    decreases |a|
  {
    if a != [] && b != [] {
      LessTotal(a[1..], b[1..], if c == [] then [] else c[1..]);
      assert a == [a[0]] + a[1..] && b == [b[0]] + b[1..];
    }
  }

  lemma {:induction false} InsertSame(sorted: seq<Lit>, x: Lit)
    ensures multiset(Insert(sorted, x)) == multiset(sorted) + multiset{x}
    decreases |sorted|
  {
    hide Less;
    var n := |sorted| - 1;
    if sorted != [] && Less(x.value, sorted[n].value) {
      InsertSame(sorted[..n], x);
      assert sorted == sorted[..n] + [sorted[n]];
    }
  }

  lemma SortedSnoc(lits: seq<Lit>, x: Lit)
    ensures Sorted(lits + [x]) <==> Sorted(lits) && forall k | 0 <= k < |lits| :: !Less(x.value, lits[k].value)
  {
    hide Less;
    var all := lits + [x];
    assert all[|lits|] == x && forall k | 0 <= k < |lits| :: all[k] == lits[k];
  }

  lemma {:induction false} InsertSorted(sorted: seq<Lit>, x: Lit)
    requires Sorted(sorted)
    ensures Sorted(Insert(sorted, x))
    decreases |sorted|
  {
    hide Less, Sorted;
    if sorted == [] {
      SortedNone();
      SortedSnoc([], x);
      assert [] + [x] == [x];
    } else {
      var n := |sorted| - 1;
      var init, last := sorted[..n], sorted[n];
      assert sorted == init + [last];
      SortedSnoc(init, last);
      if Less(x.value, last.value) {
        InsertSorted(init, x);
        InsertSame(init, x);
        var r := Insert(init, x);
        forall k | 0 <= k < |r|
          ensures !Less(last.value, r[k].value)
        {
          assert r[k] in multiset(init) + multiset{x};
          LessTotal(x.value, last.value, x.value);
        }
        SortedSnoc(r, last);
      } else {
        forall k | 0 <= k < |sorted|
          ensures !Less(x.value, sorted[k].value)
        {
          LessTotal(x.value, sorted[k].value, last.value);
        }
        SortedSnoc(sorted, x);
      }
    }
  }

  lemma SortedNone()
    ensures Sorted([])
  {
  }

  /** What sorting comes to: the same literals, none standing before one whose string comes first. */
  lemma SortIs(lits: seq<Lit>)
    ensures multiset(Sort(lits)) == multiset(lits)
    ensures forall j, k | 0 <= j < k < |lits| :: !ComesFirst(Sort(lits)[k].value, Sort(lits)[j].value)
  {
    SortSorts(lits);
    hide Less, ComesFirst, Sort;
    forall j, k | 0 <= j < k < |lits|
      ensures !ComesFirst(Sort(lits)[k].value, Sort(lits)[j].value)
    {
      LessIs(Sort(lits)[k].value, Sort(lits)[j].value);
    }
  }

  lemma {:induction false} SortSorts(lits: seq<Lit>)
    ensures Sorted(Sort(lits)) && multiset(Sort(lits)) == multiset(lits)
    decreases |lits|
  {
    if lits != [] {
      SortSorts(lits[..|lits| - 1]);
      InsertSorted(Sort(lits[..|lits| - 1]), lits[|lits| - 1]);
      InsertSame(Sort(lits[..|lits| - 1]), lits[|lits| - 1]);
      hide Sorted, Insert;
      assert lits == lits[..|lits| - 1] + [lits[|lits| - 1]];
    }
  }

  lemma {:induction false} SortSorted(lits: seq<Lit>)
    requires Sorted(lits)
    ensures Sort(lits) == lits
    decreases |lits|
  {
    if lits != [] {
      SortSorted(lits[..|lits| - 1]);
      assert lits == lits[..|lits| - 1] + [lits[|lits| - 1]];
    }
  }

  /** No string is spelled two ways. */
  predicate OneSpelling(lits: seq<Lit>) {
    forall j, k | 0 <= j < |lits| && 0 <= k < |lits| && lits[j].value == lits[k].value :: lits[j] == lits[k]
  }

  /** Two sorted arrangements of the same literals are the same one. */
  lemma {:induction false} SortedUnique(a: seq<Lit>, b: seq<Lit>)
    requires Sorted(a) && Sorted(b) && multiset(a) == multiset(b) && OneSpelling(a)
    ensures a == b
    decreases |a|
  {
    hide Sorted, OneSpelling;
    assert |a| == |multiset(a)| == |multiset(b)| == |b|;
    if a != [] {
      HeadsEqual(a, b);
      RemoveSame(a, b, 0);
      assert b[..0] + b[1..] == b[1..];
      TailSorted(a);
      TailSorted(b);
      SortedUnique(a[1..], b[1..]);
      assert a == [a[0]] + a[1..] && b == [b[0]] + b[1..];
    }
  }

  lemma TailSorted(a: seq<Lit>)
    requires a != [] && Sorted(a)
    ensures Sorted(a[1..]) && (OneSpelling(a) ==> OneSpelling(a[1..]))
  {
  }

  lemma HeadsEqual(a: seq<Lit>, b: seq<Lit>)
    requires a != [] && b != [] && Sorted(a) && Sorted(b) && multiset(a) == multiset(b) && OneSpelling(a)
    ensures a[0] == b[0]
  {
    assert a[0] in multiset(b) && b[0] in multiset(a);
    var j :| 0 <= j < |b| && b[j] == a[0];
    var k :| 0 <= k < |a| && a[k] == b[0];
    LessTotal(a[0].value, b[0].value, []);
  }

  /** Two arrangements of the same literals are sorted into the same one. */
  lemma SortCanonical(a: seq<Lit>, b: seq<Lit>)
    requires multiset(a) == multiset(b) && OneSpelling(a)
    ensures Sort(a) == Sort(b)
  {
    SortSorts(a);
    SortSorts(b);
    var c := Sort(a);
    forall j, k | 0 <= j < |c| && 0 <= k < |c| && c[j].value == c[k].value
      ensures c[j] == c[k]
    {
      assert c[j] in multiset(a) && c[k] in multiset(a);
    }
    SortedUnique(c, Sort(b));
  }

  // ---------------------------------------------------------------- lengths

  function Total(lits: seq<Lit>): nat {
    if lits == [] then 0 else |lits[0].raw| + Total(lits[1..])
  }

  function GapTotal(gaps: seq<string>): nat {
    if gaps == [] then 0 else |gaps[0]| + GapTotal(gaps[1..])
  }

  lemma {:induction false} TotalWithout(lits: seq<Lit>, k: nat)
    requires k < |lits|
    ensures Total(lits) == |lits[k].raw| + Total(lits[..k] + lits[k + 1..])
  {
    if k == 0 {
      assert lits[..0] + lits[1..] == lits[1..];
    } else {
      TotalWithout(lits[1..], k - 1);
      assert lits[1..][..k - 1] + lits[1..][k..] == (lits[..k] + lits[k + 1..])[1..];
    }
  }

  lemma RemoveSame(a: seq<Lit>, b: seq<Lit>, k: nat)
    requires multiset(a) == multiset(b) && a != [] && k < |b| && b[k] == a[0]
    ensures multiset(a[1..]) == multiset(b[..k] + b[k + 1..])
  {
    assert a == [a[0]] + a[1..];
    assert b == b[..k] + [b[k]] + b[k + 1..];
    assert multiset(a[1..]) == multiset(a) - multiset{a[0]};
    assert multiset(b[..k] + b[k + 1..]) == multiset(b) - multiset{b[k]};
  }

  lemma {:induction false} TotalSame(a: seq<Lit>, b: seq<Lit>)
    requires multiset(a) == multiset(b)
    ensures Total(a) == Total(b)
    decreases |a|
  {
    assert |a| == |multiset(a)| == |multiset(b)| == |b|;
    if a != [] {
      assert a == [a[0]] + a[1..] && a[0] in multiset(b);
      var k :| 0 <= k < |b| && b[k] == a[0];
      TotalWithout(b, k);
      RemoveSame(a, b, k);
      TotalSame(a[1..], b[..k] + b[k + 1..]);
    }
  }

  lemma {:induction false} RenderLength(gaps: seq<string>, lits: seq<Lit>, tail: string)
    requires |gaps| == |lits|
    ensures |Render(gaps, lits, tail)| == GapTotal(gaps) + Total(lits) + |tail|
    decreases |lits|
  {
    if lits != [] {
      RenderLength(gaps[1..], lits[1..], tail);
    }
  }

  // ---------------------------------------------------------------- the code's own form

  /** The body with its literals sorted into the places literals have. */
  function Resorted(b: Body): Body {
    b.(lits := Sort(b.lits))
  }

  /** What `sortStringArrayBody` computes. */
  function SortedBody(p: Parser, body: string): Option<string> {
    var b := Scan(p, body, "");
    if b.None? then None else Some(BodyText(Resorted(b.value)))
  }

  function Before(gaps: seq<string>, lits: seq<Lit>, rest: Option<Body>): Option<Body> {
    if rest.None? then None else Some(Body(gaps + rest.value.gaps, lits + rest.value.lits, rest.value.tail))
  }

  /** What the scan comes to from `i`, with the literals and gaps read so far. */
  function Onward(p: Parser, body: string, gaps: seq<string>, lits: seq<Lit>, gapStart: nat, i: nat): Option<Body>
    requires gapStart <= i <= |body|
  {
    Before(gaps, lits, Scan(p, body[i..], body[gapStart..i]))
  }

  method SortStringArrayBody(p: Parser, body: string) returns (r: Option<string>)
    ensures r == SortedBody(p, body)
  {
    hide Onward, Scan, QuoteFrom, Separator, Sort, Render;
    var lits: seq<Lit>, gaps: seq<string> := [], [];
    var i, gapStart := 0, 0;
    OnwardStart(p, body);
    while i < |body|
      invariant 0 <= gapStart <= i <= |body| && |gaps| == |lits|
      invariant Scan(p, body, "") == Onward(p, body, gaps, lits, gapStart, i)
    {
      var ch := body[i];
      ScanHead(p, body, gapStart, i, gaps, lits);
      if ch == '"' {
        var end := FindStringEnd(body, i);
        if end == -1 { return None; }
        var raw := body[i..end + 1];
        var value := p(raw);
        if value.None? { return None; }
        gaps := gaps + [body[gapStart..i]];
        lits := lits + [Lit(raw, value.value)];
        i := end + 1;
        gapStart := i;
      } else if Separator(ch) {
        i := i + 1;
      } else {
        return None;
      }
    }
    OnwardEnd(p, body, gaps, lits, gapStart);
    var tail := body[gapStart..];
    var text := Printed(gaps, Sort(lits), tail);
    r := Some(text);
  }

  lemma OnwardStart(p: Parser, body: string)
    ensures Onward(p, body, [], [], 0, 0) == Scan(p, body, "")
  {
    assert body[0..] == body && body[0..0] == "";
    hide Scan;
    BeforeNothing(Scan(p, body, ""));
  }

  lemma OnwardEnd(p: Parser, body: string, gaps: seq<string>, lits: seq<Lit>, gapStart: nat)
    requires gapStart <= |body|
    ensures Onward(p, body, gaps, lits, gapStart, |body|) == Some(Body(gaps, lits, body[gapStart..]))
  {
    assert body[|body|..] == "" && body[gapStart..|body|] == body[gapStart..];
    assert gaps + [] == gaps && lits + [] == lits;
  }

  lemma BeforeNothing(b: Option<Body>)
    ensures Before([], [], b) == b
  {
    if b.Some? { assert [] + b.value.gaps == b.value.gaps && [] + b.value.lits == b.value.lits; }
  }

  /** One turn of the scan over a body. */
  lemma ScanHead(p: Parser, body: string, gapStart: nat, i: nat, gaps: seq<string>, lits: seq<Lit>)
    requires gapStart <= i < |body|
    ensures var q := QuoteFrom(body, i + 1);
      Onward(p, body, gaps, lits, gapStart, i) ==
        if body[i] == '"' then
          if q == -1 || p(body[i..q + 1]).None? then None
          else Onward(p, body, gaps + [body[gapStart..i]], lits + [Lit(body[i..q + 1], p(body[i..q + 1]).value)], q + 1, q + 1)
        else if Separator(body[i]) then Onward(p, body, gaps, lits, gapStart, i + 1)
        else None
  {
    hide Separator;
    if body[i] == '"' {
      ScanQuote(p, body, i, body[gapStart..i]);
      hide Scan;
      var q := QuoteFrom(body, i + 1);
      if q != -1 && p(body[i..q + 1]).Some? {
        BeforeCons(gaps, lits, body[gapStart..i], Lit(body[i..q + 1], p(body[i..q + 1]).value), Scan(p, body[q + 1..], body[q + 1..q + 1]));
      }
      hide Before, Cons;
    } else {
      assert body[i..][1..] == body[i + 1..] && body[gapStart..i] + [body[i]] == body[gapStart..i + 1];
    }
  }

  lemma ScanQuote(p: Parser, body: string, i: nat, gap: string)
    requires i < |body| && body[i] == '"'
    ensures var q := QuoteFrom(body, i + 1);
      Scan(p, body[i..], gap) ==
        if q == -1 || p(body[i..q + 1]).None? then None
        else Cons(gap, Lit(body[i..q + 1], p(body[i..q + 1]).value), Scan(p, body[q + 1..], body[q + 1..q + 1]))
  {
    var s := body[i..];
    assert s[1..] == body[i + 1..];
    var q := QuoteFrom(body, i + 1);
    hide StringLength, Cons;
    if q != -1 {
      assert s[..q + 1 - i] == body[i..q + 1] && s[q + 1 - i..] == body[q + 1..];
      assert body[q + 1..q + 1] == "";
    }
  }

  lemma BeforeCons(gaps: seq<string>, lits: seq<Lit>, gap: string, lit: Lit, rest: Option<Body>)
    ensures Before(gaps, lits, Cons(gap, lit, rest)) == Before(gaps + [gap], lits + [lit], rest)
  {
    if rest.Some? {
      Regroup(gaps, [gap], rest.value.gaps);
      Regroup(lits, [lit], rest.value.lits);
    }
  }

  /** The pieces in a row: each gap with the literal that now stands behind it, then the tail. */
  method Printed(gaps: seq<string>, lits: seq<Lit>, tail: string) returns (text: string)
    requires |gaps| == |lits|
    ensures text == Render(gaps, lits, tail)
  {
    text := "";
    assert gaps[0..] == gaps && lits[0..] == lits;
    for k := 0 to |lits|
      invariant Render(gaps, lits, tail) == text + Render(gaps[k..], lits[k..], tail)
    {
      ghost var rest := Render(gaps[k + 1..], lits[k + 1..], tail);
      assert gaps[k..][1..] == gaps[k + 1..] && lits[k..][1..] == lits[k + 1..];
      assert text + (gaps[k] + (lits[k].raw + rest)) == text + (gaps[k] + lits[k].raw) + rest;
      text := text + (gaps[k] + lits[k].raw);
    }
    text := text + tail;
  }
}
