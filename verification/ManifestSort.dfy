/** `sortManifestAssets` (astro/src/ssr-determinism.ts): the asset lists of every serialized manifest
    in a text put into one order, and nothing else changed. */
module ManifestSort {
  import opened Common
  import opened ManifestLexer
  import opened ManifestBody

  // ---------------------------------------------------------------- patterns

  /** A step of a regular expression: `\s*`, or the word itself. */
  datatype Step = Blanks | Word(text: string)
  type Pattern = seq<Step>

  /** The scripts' key and the bracket behind it, with any blanks around the colon. */
  const ANCHOR: Pattern := [Word("\"inlinedScripts\""), Blanks, Word(":"), Blanks, Word("[")]

  /** The comma and the asset list's key and bracket, with any blanks between them. */
  const ASSETS_KEY: Pattern := [Blanks, Word(","), Blanks, Word("\"assets\""), Blanks, Word(":"), Blanks, Word("[")]

  function SkipBlanks(s: string): (n: nat)
    ensures n <= |s| && (n < |s| ==> !IsSpace(s[n]))
  {
    if s == "" || !IsSpace(s[0]) then 0 else 1 + SkipBlanks(s[1..])
  }

  /** How much of the head of `s` the pattern takes, if it matches there. */
  function Match(p: Pattern, s: string): (n: Option<nat>)
    ensures n.Some? ==> n.value <= |s|
    decreases |p|
  {
    if p == [] then Some(0)
    else
      var n := if p[0].Blanks? then SkipBlanks(s) else |p[0].text|;
      if n > |s| || (p[0].Word? && s[..n] != p[0].text) then None else Plus(n, Match(p[1..], s[n..]))
  }

  function MatchAnchor(s: string): (n: Option<nat>)
    ensures n.Some? ==> n.value <= |s|
  {
    Match(ANCHOR, s)
  }

  function MatchKey(s: string): (n: Option<nat>)
    ensures n.Some? ==> n.value <= |s|
  {
    Match(ASSETS_KEY, s)
  }

  /** A pattern whose only bracket is its last character. */
  predicate EndsInBracket(p: Pattern) {
    && p != [] && p[|p| - 1] == Word("[")
    && forall k | 0 <= k < |p| - 1 :: p[k].Word? ==> '[' !in p[k].text
  }

  lemma PatternsEnd()
    ensures EndsInBracket(ANCHOR) && EndsInBracket(ASSETS_KEY)
  {
    assert forall k | 0 <= k < |ANCHOR| - 1 :: ANCHOR[k].Word? ==> '[' !in ANCHOR[k].text;
    assert forall k | 0 <= k < |ASSETS_KEY| - 1 :: ASSETS_KEY[k].Word? ==> '[' !in ASSETS_KEY[k].text;
  }

  lemma {:induction false} BlanksLocal(a: string, b: string)
    requires '[' in a
    ensures SkipBlanks(a + b) == SkipBlanks(a) && '[' in a[SkipBlanks(a)..]
  {
    hide IsSpace;
    if IsSpace(a[0]) {
      SpaceFirst(a);
      BlanksLocal(a[1..], b);
      assert (a + b)[1..] == a[1..] + b;
      var k := SkipBlanks(a[1..]);
      assert a[1..][k..] == a[1 + k..];
    } else {
      assert a[0..] == a;
    }
  }

  lemma SpaceFirst(a: string)
    requires '[' in a && IsSpace(a[0])
    ensures '[' in a[1..]
  {
    assert a == [a[0]] + a[1..];
  }

  /** A text with a bracket in it decides whether the pattern matches at its head. */
  lemma {:induction false} MatchLocal(p: Pattern, a: string, b: string)
    requires EndsInBracket(p) && '[' in a
    ensures Match(p, a + b) == Match(p, a)
    ensures Match(p, a).Some? ==> 0 < Match(p, a).value && a[Match(p, a).value - 1] == '['
    decreases |p|
  {
    hide SkipBlanks, Match;
    if p[0].Blanks? {
      BlanksLocal(a, b);
      var n := SkipBlanks(a);
      assert (a + b)[n..] == a[n..] + b;
      MatchBlanks(p, a);
      MatchBlanks(p, a + b);
      MatchLocal(p[1..], a[n..], b);
    } else {
      WordLocal(p, a, b);
    }
  }

  lemma MatchBlanks(p: Pattern, s: string)
    requires EndsInBracket(p) && p[0].Blanks?
    ensures |p| > 1 && EndsInBracket(p[1..])
    ensures Match(p, s) == Plus(SkipBlanks(s), Match(p[1..], s[SkipBlanks(s)..]))
  {
    hide SkipBlanks;
  }

  lemma {:induction false} WordLocal(p: Pattern, a: string, b: string)
    requires EndsInBracket(p) && '[' in a && p[0].Word?
    ensures Match(p, a + b) == Match(p, a)
    ensures Match(p, a).Some? ==> 0 < Match(p, a).value && a[Match(p, a).value - 1] == '['
    decreases |p|, 0
  {
    if |p| == 1 {
      LastWord(a);
      LastWord(a + b);
      assert p == [Word("[")];
    } else {
      var n := |p[0].text|;
      if n > |a| {
        if n <= |a + b| { LongWord(p[0].text, a, b); }
      } else {
        assert (a + b)[..n] == a[..n] && (a + b)[n..] == a[n..] + b;
        if a[..n] == p[0].text {
          assert a == a[..n] + a[n..];
          MatchLocal(p[1..], a[n..], b);
        }
      }
    }
  }

  lemma LastWord(s: string)
    ensures Match([Word("[")], s) == if s != "" && s[0] == '[' then Some(1) else None
  {
    var p := [Word("[")];
    assert p[1..] == [];
    if s != "" { assert s[..1] == [s[0]]; }
  }

  lemma LongWord(t: string, a: string, b: string)
    requires '[' in a && '[' !in t && |a| < |t| <= |a + b|
    ensures (a + b)[..|t|] != t
  {
    var k :| 0 <= k < |a| && a[k] == '[';
    assert (a + b)[..|t|][k] == '[';
  }

  /** Where the bracket of the first anchor stands. */
  function FindAnchor(s: string): (m: Option<nat>)
    ensures m.Some? ==> m.value < |s|
  {
    var n := MatchAnchor(s);
    if n.Some? && n.value > 0 then Some(n.value - 1)
    else if s == "" then None
    else Plus(1, FindAnchor(s[1..]))
  }

  lemma AnchorSame(a: string, b: string)
    requires '[' in a
    ensures MatchAnchor(a + b) == MatchAnchor(a)
  {
    hide Match, EndsInBracket;
    PatternsEnd();
    MatchLocal(ANCHOR, a, b);
  }

  lemma {:induction false} AnchorLocal(a: string, b: string, m: nat)
    requires m < |a| && a[m] == '['
    ensures FindAnchor(a + b) == Some(m) <==> FindAnchor(a) == Some(m)
    decreases |a|
  {
    hide MatchAnchor;
    AnchorSame(a, b);
    assert (a + b)[1..] == a[1..] + b;
    if m > 0 { AnchorLocal(a[1..], b, m - 1); }
  }

  lemma {:induction false} AnchorBracket(s: string)
    ensures FindAnchor(s).Some? ==> s[FindAnchor(s).value] == '['
  {
    PatternsEnd();
    var n := MatchAnchor(s);
    if n.Some? && n.value > 0 {
      MatchBracket(ANCHOR, s);
    } else if s != "" {
      AnchorBracket(s[1..]);
    }
  }

  /** A match ends in the bracket. */
  lemma {:induction false} MatchBracket(p: Pattern, s: string)
    requires EndsInBracket(p) && Match(p, s).Some?
    ensures 0 < Match(p, s).value && s[Match(p, s).value - 1] == '['
    decreases |p|
  {
    hide SkipBlanks, Match;
    var n := if p[0].Blanks? then SkipBlanks(s) else |p[0].text|;
    MatchStep(p, s, n);
    if |p| > 1 {
      BracketRest(p);
      MatchBracket(p[1..], s[n..]);
      var k := Match(p[1..], s[n..]).value;
      assert s[n..][k - 1] == s[n + k - 1];
    } else {
      assert s[..n][0] == s[0];
    }
  }

  lemma MatchStep(p: Pattern, s: string, n: nat)
    requires p != [] && Match(p, s).Some? && n == if p[0].Blanks? then SkipBlanks(s) else |p[0].text|
    ensures n <= |s| && (p[0].Word? ==> s[..n] == p[0].text)
    ensures Match(p[1..], s[n..]).Some? && Match(p, s).value == n + Match(p[1..], s[n..]).value
    ensures |p| == 1 ==> Match(p[1..], s[n..]).value == 0
  {
    hide SkipBlanks;
  }

  lemma BracketRest(p: Pattern)
    requires EndsInBracket(p) && |p| > 1
    ensures EndsInBracket(p[1..])
  {
  }

  // ---------------------------------------------------------------- one step of the search

  /** What the search finds in the text it has left: nothing to change any more, a stretch to pass
      over, or a stretch up to an asset list's opening bracket, and the list's body. */
  datatype Found = NoMore | Pass(n: nat) | List(n: nat, body: Body)

  /** The body stands at `n`, and its list's closing bracket behind it. */
  predicate ListAt(p: Parser, s: string, n: nat, body: Body) {
    && 0 < n && BodyOk(p, body) && n + |BodyText(body)| < |s|
    && s[n..n + |BodyText(body)|] == BodyText(body) && s[n + |BodyText(body)|] == ']'
  }

  /** Where the array behind the first anchor ends. */
  function HeadEnd(s: string): (end: Option<nat>)
    ensures end.Some? ==> FindAnchor(s).Some? && FindAnchor(s).value <= end.value < |s|
  {
    var m := FindAnchor(s);
    if m.None? then None else Plus(m.value, ArrayEnd(s[m.value..], 0))
  }

  /** Where the bracket of the asset list stands, if its key follows directly. */
  function ListOpen(s: string, end: nat): (open: Option<nat>)
    requires end < |s|
    ensures open.Some? ==> end < open.value < |s|
  {
    var k := MatchKey(s[end + 1..]);
    if k.None? || k.value == 0 then None else Some(end + k.value)
  }

  function Look(p: Parser, s: string): (f: Found)
    ensures !f.NoMore? ==> FindAnchor(s).Some? && FindAnchor(s).value < f.n <= |s|
    ensures f.List? ==> f.n + |BodyText(f.body)| < |s|
  {
    var end := HeadEnd(s);
    if end.None? then NoMore
    else
      var open := ListOpen(s, end.value);
      if open.None? then Pass(end.value + 1) else LookList(p, s, open.value)
  }

  /** What the text from the list's opening bracket on comes to. */
  function Here(p: Parser, t: string): (f: Found)
    ensures !f.NoMore? ==> 0 < f.n <= |t|
    ensures f.List? ==> f.n == 1 && 1 + |BodyText(f.body)| < |t|
  {
    var c := ArrayEnd(t, 0);
    if c.None? || c.value == 0 then NoMore
    else
      var b := Scan(p, t[1..c.value], "");
      if b.None? then Pass(c.value + 1)
      else
        ScanReads(p, t[1..c.value]);
        EndBracket(t, 0);
        List(1, b.value)
  }

  function Shift(n: nat, f: Found): Found {
    match f case NoMore => NoMore case Pass(k) => Pass(n + k) case List(k, body) => List(n + k, body)
  }

  /** `open` is where the list's bracket stands. */
  function LookList(p: Parser, s: string, open: nat): (f: Found)
    requires open < |s|
    ensures !f.NoMore? ==> open < f.n <= |s|
    ensures f.List? ==> f.n == open + 1 && f.n + |BodyText(f.body)| < |s|
  {
    Shift(open, Here(p, s[open..]))
  }

  lemma HereListAt(p: Parser, t: string)
    requires Here(p, t).List?
    ensures ListAt(p, t, 1, Here(p, t).body)
  {
    var c := ArrayEnd(t, 0).value;
    ScanReads(p, t[1..c]);
    EndBracket(t, 0);
  }

  lemma LookParts(p: Parser, s: string) returns (end: nat, open: nat)
    requires Look(p, s).List?
    ensures HeadEnd(s) == Some(end) && end < open < |s| && ListOpen(s, end) == Some(open) && Look(p, s) == LookList(p, s, open)
  {
    hide HeadEnd, ListOpen, LookList, FindAnchor, BodyText;
    end := HeadEnd(s).value;
    open := ListOpen(s, end).value;
  }

  lemma LookHere(p: Parser, s: string, open: nat)
    requires open < |s| && LookList(p, s, open).List?
    ensures Here(p, s[open..]).List? && Here(p, s[open..]).body == LookList(p, s, open).body
  {
    hide Here;
  }

  lemma LookListAt(p: Parser, s: string)
    requires Look(p, s).List?
    ensures ListAt(p, s, Look(p, s).n, Look(p, s).body)
  {
    hide *;
    var end, open := LookParts(p, s);
    LookHere(p, s, open);
    HereListAt(p, s[open..]);
    ShiftedList(p, s, open, Look(p, s).body);
  }

  lemma ShiftedList(p: Parser, s: string, open: nat, body: Body)
    requires open < |s| && ListAt(p, s[open..], 1, body)
    ensures ListAt(p, s, open + 1, body)
  {
    hide BodyText, BodyOk;
    var n := |BodyText(body)|;
    assert s[open..][1..1 + n] == s[open + 1..open + 1 + n];
  }

  lemma ScanReads(p: Parser, text: string)
    requires Scan(p, text, "").Some?
    ensures BodyOk(p, Scan(p, text, "").value) && BodyText(Scan(p, text, "").value) == text
  {
    ScanOk(p, text, "");
    assert "" + text == text;
  }

  lemma {:induction false} EndBracket(s: string, depth: int)
    ensures ArrayEnd(s, depth).Some? ==> s[ArrayEnd(s, depth).value] == ']'
    decreases |s|
  {
    if s != "" {
      if s[0] == '"' {
        AtString(s, depth);
        if StringLength(s[1..]).Some? { EndBracket(s[1 + StringLength(s[1..]).value..], depth); }
      } else if !(Closes(s[0]) && depth == 1) {
        EndBracket(s[1..], Deeper(s[0], depth));
      }
    }
  }

  // ---------------------------------------------------------------- the text in segments

  datatype Segment = Fixed(text: string) | Assets(body: Body)

  function SegmentText(g: Segment): string {
    match g case Fixed(text) => text case Assets(body) => BodyText(body) + "]"
  }

  function Text(gs: seq<Segment>): string {
    if gs == [] then "" else SegmentText(gs[0]) + Text(gs[1..])
  }

  function Segments(p: Parser, s: string): seq<Segment>
    decreases |s|
  {
    match Look(p, s)
    case NoMore => [Fixed(s)]
    case Pass(n) => [Fixed(s[..n])] + Segments(p, s[n..])
    case List(n, body) => [Fixed(s[..n]), Assets(body)] + Segments(p, s[n + |BodyText(body)| + 1..])
  }

  function SortedSegment(g: Segment): Segment {
    if g.Assets? then Assets(Resorted(g.body)) else g
  }

  function SortedSegments(gs: seq<Segment>): seq<Segment> {
    seq(|gs|, k requires 0 <= k < |gs| => SortedSegment(gs[k]))
  }

  /** What `sortManifestAssets` computes. */
  function Canonical(p: Parser, s: string): string {
    Text(SortedSegments(Segments(p, s)))
  }

  /** The text around a list: what comes before, the body and its bracket, and the rest. */
  lemma ListSplit(p: Parser, s: string, n: nat, body: Body)
    requires ListAt(p, s, n, body)
    ensures n + |BodyText(body)| < |s|
    ensures s == s[..n] + (BodyText(body) + "]" + s[n + |BodyText(body)| + 1..])
  {
    hide BodyText, BodyOk;
    Cut(s, n, n + |BodyText(body)|);
  }

  lemma Cut(s: string, n: nat, m: nat)
    requires n <= m < |s| && s[m] == ']'
    ensures s == s[..n] + (s[n..m] + "]" + s[m + 1..])
  {
    assert s[..n] + s[n..] == s;
    assert s[n..m] + "]" + s[m + 1..] == s[n..];
  }

  lemma SegmentsStep(p: Parser, s: string)
    ensures Look(p, s).NoMore? ==> Segments(p, s) == [Fixed(s)]
    ensures Look(p, s).Pass? ==> Segments(p, s) == [Fixed(s[..Look(p, s).n])] + Segments(p, s[Look(p, s).n..])
    ensures Look(p, s).List? ==>
      var n, body := Look(p, s).n, Look(p, s).body;
      n + |BodyText(body)| < |s| && Segments(p, s) == [Fixed(s[..n]), Assets(body)] + Segments(p, s[n + |BodyText(body)| + 1..])
  {
    hide Look, BodyText;
  }

  lemma {:induction false} SegmentsText(p: Parser, s: string)
    ensures Text(Segments(p, s)) == s
    decreases |s|
  {
    hide *;
    SegmentsStep(p, s);
    match Look(p, s)
    case NoMore => FixedText(s);
    case Pass(n) =>
      SegmentsText(p, s[n..]);
      TextOfFixed(s[..n], Segments(p, s[n..]));
    case List(n, body) =>
      LookListAt(p, s);
      SegmentsText(p, s[n + |BodyText(body)| + 1..]);
      ListText(p, s, n, body, Segments(p, s[n + |BodyText(body)| + 1..]));
  }

  lemma ListText(p: Parser, s: string, n: nat, body: Body, rest: seq<Segment>)
    requires ListAt(p, s, n, body) && Text(rest) == s[n + |BodyText(body)| + 1..]
    ensures Text([Fixed(s[..n]), Assets(body)] + rest) == s
  {
    hide *;
    ListSplit(p, s, n, body);
    TwoText(s[..n], body, rest);
  }

  lemma FixedText(s: string)
    ensures Text([Fixed(s)]) == s
  {
    hide Text;
    TextOne(Fixed(s));
  }

  lemma TextOne(g: Segment)
    ensures Text([g]) == SegmentText(g)
  {
    TextCons(g, []);
    assert [g] + [] == [g];
  }

  lemma TextCons(g: Segment, gs: seq<Segment>)
    ensures Text([g] + gs) == SegmentText(g) + Text(gs)
  {
    assert ([g] + gs)[1..] == gs;
  }

  // ---------------------------------------------------------------- rearranged lists

  /** The same segments, but for the order of the literals in each list. */
  predicate Alike(g: Segment, h: Segment) {
    match g
    case Fixed(_) => h == g
    case Assets(b) => h.Assets? && AlikeBody(b, h.body)
  }

  predicate AlikeBody(b: Body, c: Body) {
    c.gaps == b.gaps && c.tail == b.tail && multiset(c.lits) == multiset(b.lits)
  }

  predicate Rearranged(gs: seq<Segment>, hs: seq<Segment>) {
    |gs| == |hs| && forall k | 0 <= k < |gs| :: Alike(gs[k], hs[k])
  }

  lemma AlikeOk(p: Parser, b: Body, c: Body)
    requires BodyOk(p, b) && AlikeBody(b, c)
    ensures BodyOk(p, c) && |BodyText(c)| == |BodyText(b)| && Scan(p, BodyText(c), "") == Some(c)
  {
    assert |c.lits| == |multiset(c.lits)| == |multiset(b.lits)| == |b.lits|;
    forall k | 0 <= k < |c.lits|
      ensures LitOk(p, c.lits[k])
    {
      assert c.lits[k] in multiset(b.lits);
    }
    hide LitOk, Scan;
    RenderLength(b.gaps, b.lits, b.tail);
    RenderLength(c.gaps, c.lits, c.tail);
    TotalSame(b.lits, c.lits);
    RenderScan(p, c.gaps, c.lits, c.tail);
  }

  /** Two texts that agree up to and including some bracket, or altogether. */
  ghost predicate SameStart(s: string, t: string) {
    s == t || exists a: string :: '[' in a && a <= s && a <= t
  }

  lemma KeyLocal(s: string, t: string)
    requires SameStart(s, t) && (MatchKey(s).None? || MatchKey(s).value == 0)
    ensures MatchKey(t).None?
  {
    PatternsEnd();
    if MatchKey(s).Some? { MatchBracket(ASSETS_KEY, s); }
    if s != t {
      var a: string :| '[' in a && a <= s && a <= t;
      assert s == a + s[|a|..] && t == a + t[|a|..];
      hide Match, EndsInBracket;
      MatchLocal(ASSETS_KEY, a, s[|a|..]);
      MatchLocal(ASSETS_KEY, a, t[|a|..]);
    }
  }

  /** The first segment is fixed, and is all there is or holds a bracket. */
  lemma SegmentsHead(p: Parser, s: string)
    ensures Segments(p, s) != [] && Segments(p, s)[0].Fixed? && (|Segments(p, s)| > 1 ==> '[' in Segments(p, s)[0].text)
  {
    if !Look(p, s).NoMore? {
      LookBracket(p, s);
    }
    hide Look;
  }

  lemma LookBracket(p: Parser, s: string)
    requires !Look(p, s).NoMore?
    ensures FindAnchor(s).Some? && FindAnchor(s).value < Look(p, s).n <= |s| && '[' in s[..Look(p, s).n]
  {
    hide ListAt, Scan, Match, ArrayEnd, MatchKey, MatchAnchor;
    AnchorBracket(s);
    var m := FindAnchor(s).value;
    hide Look, FindAnchor;
    assert s[..Look(p, s).n][m] == '[';
  }

  lemma SameStartText(p: Parser, s: string, hs: seq<Segment>)
    requires Rearranged(Segments(p, s), hs)
    ensures SameStart(s, Text(hs))
  {
    SegmentsHead(p, s);
    SegmentsText(p, s);
    var gs := Segments(p, s);
    hide Segments;
    assert Alike(gs[0], hs[0]) && hs[0] == gs[0];
    if |gs| == 1 {
      assert hs == gs;
    } else {
      var a := gs[0].text;
      assert Text(gs) == a + Text(gs[1..]) && Text(hs) == a + Text(hs[1..]);
      assert a <= s && a <= Text(hs);
    }
  }

  lemma HeadIs(s: string, end: nat)
    ensures HeadEnd(s) == Some(end) <==>
      FindAnchor(s).Some? && FindAnchor(s).value <= end && ArrayEnd(s[FindAnchor(s).value..], 0) == Some(end - FindAnchor(s).value)
  {
    hide FindAnchor, ArrayEnd;
  }

  /** The anchor and the end of its array are found the same, whatever comes later. */
  lemma HeadStable(a: string, x: string, y: string, end: nat)
    requires HeadEnd(a + x) == Some(end) && end < |a|
    ensures HeadEnd(a + y) == Some(end)
  {
    HeadIs(a + x, end);
    HeadIs(a + y, end);
    AnchorBracket(a + x);
    hide HeadEnd, FindAnchor, ArrayEnd;
    var m := FindAnchor(a + x).value;
    var b := a[m..];
    AnchorLocal(a, x, m);
    AnchorLocal(a, y, m);
    assert (a + x)[m..] == b + x && (a + y)[m..] == b + y;
    ArrayLocal(b, x, 0, end - m);
    ArrayLocal(b, y, 0, end - m);
  }

  lemma OpenIs(s: string, end: nat, open: nat)
    requires end < open && end < |s|
    ensures ListOpen(s, end) == Some(open) <==> MatchKey(s[end + 1..]) == Some(open - end)
  {
    hide Match, MatchKey, MatchAnchor;
  }

  lemma KeyBracket(s: string)
    requires MatchKey(s).Some?
    ensures MatchKey(s).value > 0 && s[MatchKey(s).value - 1] == '['
  {
    PatternsEnd();
    hide Match, EndsInBracket;
    MatchBracket(ASSETS_KEY, s);
  }

  lemma KeySame(b: string, x: string, y: string)
    requires '[' in b
    ensures MatchKey(b + x) == MatchKey(b + y)
  {
    PatternsEnd();
    hide Match, EndsInBracket;
    MatchLocal(ASSETS_KEY, b, x);
    MatchLocal(ASSETS_KEY, b, y);
  }

  /** So is the key of the asset list. */
  lemma OpenStable(a: string, x: string, y: string, end: nat, open: nat)
    requires end < |a| && ListOpen(a + x, end) == Some(open) && open < |a|
    ensures ListOpen(a + y, end) == Some(open) && a[open] == '['
  {
    hide ListOpen, Match, MatchKey, MatchAnchor;
    var b := a[end + 1..];
    OpenIs(a + x, end, open);
    OpenIs(a + y, end, open);
    assert (a + x)[end + 1..] == b + x && (a + y)[end + 1..] == b + y;
    KeyBracket(b + x);
    assert b[open - end - 1] == '[';
    KeySame(b, x, y);
  }

  /** A stretch without an asset list is passed over the same, if what follows starts the same. */
  lemma PassStable(p: Parser, s: string, n: nat, y: string)
    requires Look(p, s) == Pass(n) && SameStart(s[n..], y)
    ensures n <= |s| && Look(p, s[..n] + y) == Pass(n)
  {
    var a, x := s[..n], s[n..];
    assert s == a + x;
    var end := HeadEnd(s).value;
    var open := ListOpen(s, end);
    if open.None? {
      KeyLocal(x, y);
      assert (a + y)[end + 1..] == y;
      hide HeadEnd, Match, MatchKey, MatchAnchor;
      HeadStable(a, x, y, end);
    } else {
      hide HeadEnd, ListOpen, LookList;
      HeadStable(a, x, y, end);
      OpenStable(a, x, y, end, open.value);
      PassList(p, a, x, y, open.value);
    }
  }

  lemma PassHere(p: Parser, b: string, x: string, y: string)
    requires b != "" && Here(p, b + x) == Pass(|b|)
    ensures Here(p, b + y) == Pass(|b|)
  {
    hide Scan, ArrayEnd;
    var c := |b| - 1;
    ArrayLocal(b, x, 0, c);
    ArrayLocal(b, y, 0, c);
    assert (b + x)[1..c] == b[1..c] == (b + y)[1..c];
  }

  lemma PassList(p: Parser, a: string, x: string, y: string, open: nat)
    requires open < |a| && LookList(p, a + x, open) == Pass(|a|)
    ensures LookList(p, a + y, open) == Pass(|a|)
  {
    hide Here;
    assert (a + x)[open..] == a[open..] + x && (a + y)[open..] == a[open..] + y;
    PassHere(p, a[open..], x, y);
  }

  /** An asset list is found again with its literals in another order. */
  lemma ListStable(p: Parser, s: string, n: nat, body: Body, other: Body, y: string)
    requires Look(p, s) == List(n, body) && AlikeBody(body, other)
    ensures n <= |s| && Look(p, s[..n] + (BodyText(other) + "]" + y)) == List(n, other)
  {
    hide *;
    var a, x, z := s[..n], s[n..], BodyText(other) + "]" + y;
    assert s == a + x;
    var end, open := LookParts(p, s);
    ListNext(p, s, open, n, body);
    AlikeOk(p, body, other);
    HeadStable(a, x, z, end);
    OpenStable(a, x, z, end, open);
    ListAgain(p, a, other, y);
    LookIs(p, a + z, end, open);
  }

  lemma LookIs(p: Parser, s: string, end: nat, open: nat)
    requires HeadEnd(s) == Some(end) && end < open < |s| && ListOpen(s, end) == Some(open)
    ensures Look(p, s) == LookList(p, s, open)
  {
    hide HeadEnd, ListOpen, LookList;
  }

  lemma ListNext(p: Parser, s: string, open: nat, n: nat, body: Body)
    requires open < |s| && LookList(p, s, open) == List(n, body)
    ensures n == open + 1 && n <= |s| && BodyOk(p, body)
  {
    hide BodyOk, Here, ListAt;
    HereListAt(p, s[open..]);
    hide LookList;
    ListIsOk(p, s[open..], 1, body);
  }

  lemma ListIsOk(p: Parser, s: string, n: nat, body: Body)
    requires ListAt(p, s, n, body)
    ensures BodyOk(p, body)
  {
  }

  lemma ListHere(p: Parser, body: Body, y: string)
    requires BodyOk(p, body) && Scan(p, BodyText(body), "") == Some(body)
    ensures Here(p, ['['] + (BodyText(body) + ([']'] + y))) == List(1, body)
  {
    hide Scan, BodyText, BodyOk;
    ListEnd(p, body, y);
    hide ArrayEnd;
    var text := BodyText(body);
    assert (['['] + (text + ([']'] + y)))[1..1 + |text|] == text;
  }

  lemma ListAgain(p: Parser, a: string, body: Body, y: string)
    requires a != "" && a[|a| - 1] == '[' && BodyOk(p, body) && Scan(p, BodyText(body), "") == Some(body)
    ensures LookList(p, a + (BodyText(body) + "]" + y), |a| - 1) == List(|a|, body)
  {
    hide Scan, BodyText, BodyOk, Here;
    var text := BodyText(body);
    assert (a + (text + "]" + y))[|a| - 1..] == ['['] + (text + ([']'] + y));
    ListHere(p, body, y);
  }

  lemma ListEnd(p: Parser, body: Body, y: string)
    requires BodyOk(p, body)
    ensures ArrayEnd(['['] + (BodyText(body) + ([']'] + y)), 0) == Some(1 + |BodyText(body)|)
  {
    BodyPasses(p, body.gaps, body.lits, body.tail);
    hide Passes, ArrayEnd;
    var text := BodyText(body);
    OpenBracket('[', text + ([']'] + y), 0);
    PassesAt(text, [']'] + y, 1);
    CloseBracket(']', y, 1);
  }

  /** Rearranging the literals of the lists rearranges the segments, and nothing else. */
  lemma {:induction false} Stable(p: Parser, s: string, hs: seq<Segment>)
    requires Rearranged(Segments(p, s), hs)
    ensures Segments(p, Text(hs)) == hs
    decreases |s|
  {
    hide *;
    SegmentsStep(p, s);
    var gs := Segments(p, s);
    match Look(p, s)
    case NoMore =>
      RearrangedParts(gs, hs, 1);
      AlikeFixed(s, hs[0]);
      FixedText(s);
      assert hs == [Fixed(s)];
    case Pass(n) =>
      RearrangedParts(gs, hs, 1);
      AlikeFixed(s[..n], hs[0]);
      assert gs[1..] == Segments(p, s[n..]);
      Stable(p, s[n..], hs[1..]);
      SameStartText(p, s[n..], hs[1..]);
      StablePass(p, s, n, hs[1..]);
      assert hs == [Fixed(s[..n])] + hs[1..];
    case List(n, body) =>
      var next := n + |BodyText(body)| + 1;
      RearrangedParts(gs, hs, 2);
      AlikeFixed(s[..n], hs[0]);
      AlikeAssets(body, hs[1]);
      assert gs[2..] == Segments(p, s[next..]);
      Stable(p, s[next..], hs[2..]);
      StableList(p, s, n, body, hs[1].body, hs[2..]);
      assert hs == [Fixed(s[..n]), Assets(hs[1].body)] + hs[2..];
  }

  lemma RearrangedParts(gs: seq<Segment>, hs: seq<Segment>, m: nat)
    requires Rearranged(gs, hs) && m <= |gs|
    ensures |hs| == |gs| && Rearranged(gs[m..], hs[m..]) && forall k | 0 <= k < m :: Alike(gs[k], hs[k])
  {
    hide Alike;
  }

  lemma AlikeFixed(text: string, h: Segment)
    requires Alike(Fixed(text), h)
    ensures h == Fixed(text)
  {
  }

  lemma AlikeAssets(body: Body, h: Segment)
    requires Alike(Assets(body), h)
    ensures h.Assets? && AlikeBody(body, h.body)
  {
    hide AlikeBody;
  }

  lemma StablePass(p: Parser, s: string, n: nat, hs: seq<Segment>)
    requires Look(p, s) == Pass(n) && SameStart(s[n..], Text(hs)) && Segments(p, Text(hs)) == hs
    ensures n <= |s| && Segments(p, Text([Fixed(s[..n])] + hs)) == [Fixed(s[..n])] + hs
  {
    hide Look, Segments, Text, SameStart;
    var y := Text(hs);
    PassStable(p, s, n, y);
    var t := s[..n] + y;
    TextCons(Fixed(s[..n]), hs);
    SegmentsStep(p, t);
    assert t[..n] == s[..n] && t[n..] == y;
  }

  lemma TextTwo(f: Segment, g: Segment, hs: seq<Segment>)
    ensures Text([f, g] + hs) == SegmentText(f) + (SegmentText(g) + Text(hs))
  {
    hide SegmentText, Text;
    assert [f, g] + hs == [f] + ([g] + hs);
    TextCons(g, hs);
    TextCons(f, [g] + hs);
  }

  lemma StableList(p: Parser, s: string, n: nat, body: Body, other: Body, hs: seq<Segment>)
    requires Look(p, s) == List(n, body) && AlikeBody(body, other) && Segments(p, Text(hs)) == hs
    ensures n <= |s| && Segments(p, Text([Fixed(s[..n]), Assets(other)] + hs)) == [Fixed(s[..n]), Assets(other)] + hs
  {
    hide *;
    var b, y, t := BodyText(other), Text(hs), s[..n] + (BodyText(other) + "]" + Text(hs));
    ListStable(p, s, n, body, other, y);
    TwoText(s[..n], other, hs);
    Around(s[..n], b, y);
    SegmentsStep(p, t);
  }

  lemma TwoText(head: string, body: Body, hs: seq<Segment>)
    ensures Text([Fixed(head), Assets(body)] + hs) == head + (BodyText(body) + "]" + Text(hs))
  {
    hide Text, BodyText;
    TextTwo(Fixed(head), Assets(body), hs);
  }

  lemma Around(a: string, b: string, y: string)
    ensures var t := a + (b + "]" + y); t[..|a|] == a && t[|a| + |b| + 1..] == y
  {
  }

  // ---------------------------------------------------------------- main results

  predicate SegmentsOk(p: Parser, gs: seq<Segment>) {
    forall k | 0 <= k < |gs| && gs[k].Assets? :: BodyOk(p, gs[k].body)
  }

  lemma {:induction false} SegmentsAreOk(p: Parser, s: string)
    ensures SegmentsOk(p, Segments(p, s))
    decreases |s|
  {
    hide BodyOk, Look, Segments, BodyText;
    SegmentsStep(p, s);
    match Look(p, s)
    case NoMore =>
    case Pass(n) => SegmentsAreOk(p, s[n..]);
    case List(n, body) =>
      LookListAt(p, s);
      SegmentsAreOk(p, s[n + |BodyText(body)| + 1..]);
  }

  lemma {:induction false} LengthSame(p: Parser, gs: seq<Segment>, hs: seq<Segment>)
    requires SegmentsOk(p, gs) && Rearranged(gs, hs)
    ensures |Text(hs)| == |Text(gs)|
  {
    if gs != [] {
      if gs[0].Assets? { AlikeOk(p, gs[0].body, hs[0].body); }
      hide BodyText, BodyOk;
      assert Alike(gs[0], hs[0]);
      assert forall k | 0 <= k < |gs[1..]| :: gs[1..][k] == gs[k + 1] && hs[1..][k] == hs[k + 1];
      LengthSame(p, gs[1..], hs[1..]);
    }
  }

  lemma SortedAlike(gs: seq<Segment>)
    ensures Rearranged(gs, SortedSegments(gs))
  {
    forall k | 0 <= k < |gs|
      ensures Alike(gs[k], SortedSegments(gs)[k])
    {
      if gs[k].Assets? { SortSorts(gs[k].body.lits); }
    }
  }

  /** The output is the input with the literals of each asset list permuted: everything else, the
      separators among them, stays where it was, and the length stays the same. */
  lemma OnlyLiteralsMove(p: Parser, s: string)
    ensures Text(Segments(p, s)) == s
    ensures Rearranged(Segments(p, s), Segments(p, Canonical(p, s)))
    ensures Segments(p, Canonical(p, s)) == SortedSegments(Segments(p, s))
    ensures |Canonical(p, s)| == |s|
  {
    SegmentsText(p, s);
    SegmentsAreOk(p, s);
    SortedAlike(Segments(p, s));
    LengthSame(p, Segments(p, s), SortedSegments(Segments(p, s)));
    Stable(p, s, SortedSegments(Segments(p, s)));
  }

  lemma SortedTwice(gs: seq<Segment>)
    ensures SortedSegments(SortedSegments(gs)) == SortedSegments(gs)
  {
    forall k | 0 <= k < |gs|
      ensures SortedSegment(SortedSegment(gs[k])) == SortedSegment(gs[k])
    {
      if gs[k].Assets? {
        SortSorts(gs[k].body.lits);
        SortSorted(Sort(gs[k].body.lits));
      }
    }
  }

  /** Sorting a sorted text changes nothing. */
  lemma Idempotent(p: Parser, s: string)
    ensures Canonical(p, Canonical(p, s)) == Canonical(p, s)
  {
    OnlyLiteralsMove(p, s);
    SortedTwice(Segments(p, s));
  }

  /** No asset list spells a string two ways. */
  predicate SpeltOnce(gs: seq<Segment>) {
    forall k | 0 <= k < |gs| && gs[k].Assets? :: OneSpelling(gs[k].body.lits)
  }

  lemma SortedSame(gs: seq<Segment>, hs: seq<Segment>)
    requires SpeltOnce(gs) && Rearranged(gs, hs)
    ensures SortedSegments(gs) == SortedSegments(hs)
  {
    forall k | 0 <= k < |gs|
      ensures SortedSegment(gs[k]) == SortedSegment(hs[k])
    {
      assert Alike(gs[k], hs[k]);
      if gs[k].Assets? { SortCanonical(gs[k].body.lits, hs[k].body.lits); }
    }
  }

  /** The literals that stand for `v`, in order. */
  function Spellings(lits: seq<Lit>, v: seq<Unit>): seq<Lit>
    decreases |lits|
  {
    if lits == [] then []
    else Spellings(lits[..|lits| - 1], v) + if lits[|lits| - 1].value == v then [lits[|lits| - 1]] else []
  }

  /** A stable sort keeps the order of the literals for one string. */
  lemma {:induction false} InsertKeeps(sorted: seq<Lit>, x: Lit, v: seq<Unit>)
    ensures Sorted(sorted) ==> Spellings(Insert(sorted, x), v) == Spellings(sorted, v) + if x.value == v then [x] else []
    decreases |sorted|
  {
    hide Less;
    var n := |sorted| - 1;
    if sorted == [] || !Less(x.value, sorted[n].value) {
      assert (sorted + [x])[..|sorted|] == sorted;
    } else if Sorted(sorted) {
      LessTotal(x.value, sorted[n].value, x.value);
      InsertKeeps(sorted[..n], x, v);
      var r := Insert(sorted[..n], x);
      assert (r + [sorted[n]])[..|r|] == r;
    }
  }

  lemma {:induction false} SortKeeps(lits: seq<Lit>, v: seq<Unit>)
    ensures Spellings(Sort(lits), v) == Spellings(lits, v)
    decreases |lits|
  {
    if lits != [] {
      var n := |lits| - 1;
      SortKeeps(lits[..n], v);
      SortSorts(lits[..n]);
      InsertKeeps(Sort(lits[..n]), lits[n], v);
    }
  }

  lemma {:induction false} SpellingAt(lits: seq<Lit>, j: nat)
    requires j < |lits|
    ensures var v := lits[j].value;
      |Spellings(lits[..j], v)| < |Spellings(lits, v)| && Spellings(lits, v)[|Spellings(lits[..j], v)|] == lits[j]
    decreases |lits|
  {
    var n := |lits| - 1;
    if j < n {
      SpellingAt(lits[..n], j);
      assert lits[..n][..j] == lits[..j];
    }
  }

  lemma SwapSame(lits: seq<Lit>, j: nat, k: nat)
    requires j < k < |lits|
    ensures multiset(lits[j := lits[k]][k := lits[j]]) == multiset(lits)
  {
  }

  /** Two spellings of one string: swapping them is a rearrangement the sort does not undo. */
  lemma SwapShows(lits: seq<Lit>, j: nat, k: nat)
    requires j < k < |lits| && lits[j].value == lits[k].value && lits[j] != lits[k]
    ensures Sort(lits[j := lits[k]][k := lits[j]]) != Sort(lits)
  {
    var swapped := lits[j := lits[k]][k := lits[j]];
    var v := lits[j].value;
    SortKeeps(lits, v);
    SortKeeps(swapped, v);
    SpellingAt(lits, j);
    SpellingAt(swapped, j);
    assert swapped[..j] == lits[..j];
  }

  /** Two texts that differ only by a permutation of the literals in each list come out the same. */
  lemma CanonicalOutput(p: Parser, s: string, hs: seq<Segment>)
    requires Rearranged(Segments(p, s), hs) && SpeltOnce(Segments(p, s))
    ensures Canonical(p, Text(hs)) == Canonical(p, s)
  {
    Stable(p, s, hs);
    SortedSame(Segments(p, s), hs);
  }

  /** And that is exactly when they do: a list that spells a string two ways has a rearrangement that
      comes out different. */
  lemma CanonicalExactly(p: Parser, s: string)
    ensures (forall hs | Rearranged(Segments(p, s), hs) :: Canonical(p, Text(hs)) == Canonical(p, s)) <==> SpeltOnce(Segments(p, s))
  {
    var gs := Segments(p, s);
    if SpeltOnce(gs) {
      forall hs | Rearranged(gs, hs)
        ensures Canonical(p, Text(hs)) == Canonical(p, s)
      {
        CanonicalOutput(p, s, hs);
      }
    } else {
      var hs := Showing(p, s);
    }
  }

  lemma Showing(p: Parser, s: string) returns (hs: seq<Segment>)
    requires !SpeltOnce(Segments(p, s))
    ensures Rearranged(Segments(p, s), hs) && Canonical(p, Text(hs)) != Canonical(p, s)
  {
    hide Segments, Canonical, OneSpelling, Sort, Text;
    var gs := Segments(p, s);
    var i :| 0 <= i < |gs| && gs[i].Assets? && !OneSpelling(gs[i].body.lits);
    var lits := gs[i].body.lits;
    var j, k := TwoSpellings(lits);
    var swapped := lits[j := lits[k]][k := lits[j]];
    SwapSame(lits, j, k);
    SwapShows(lits, j, k);
    hs := gs[i := Assets(gs[i].body.(lits := swapped))];
    assert Rearranged(gs, hs);
    Different(p, s, hs, i);
  }

  lemma TwoSpellings(lits: seq<Lit>) returns (j: nat, k: nat)
    requires !OneSpelling(lits)
    ensures j < k < |lits| && lits[j].value == lits[k].value && lits[j] != lits[k]
  {
    j, k :| 0 <= j < |lits| && 0 <= k < |lits| && lits[j].value == lits[k].value && lits[j] != lits[k];
    if k < j { j, k := k, j; }
  }

  lemma Different(p: Parser, s: string, hs: seq<Segment>, i: nat)
    requires Rearranged(Segments(p, s), hs) && i < |hs| && SortedSegment(hs[i]) != SortedSegment(Segments(p, s)[i])
    ensures Canonical(p, Text(hs)) != Canonical(p, s)
  {
    Stable(p, s, hs);
    OnlyLiteralsMove(p, s);
    OnlyLiteralsMove(p, Text(hs));
    assert SortedSegments(hs)[i] != SortedSegments(Segments(p, s))[i];
  }

  // ---------------------------------------------------------------- every manifest is found

  /** The blanks around the two colons, and around the comma between the fields. */
  datatype Layout = Layout(colon: Margin, comma: Margin, second: Margin)
  datatype Margin = Margin(before: string, after: string)

  predicate AllSpace(s: string) {
    forall k | 0 <= k < |s| :: IsSpace(s[k])
  }

  predicate MarginOk(w: Margin) {
    AllSpace(w.before) && AllSpace(w.after)
  }

  predicate LayoutOk(w: Layout) {
    MarginOk(w.colon) && MarginOk(w.comma) && MarginOk(w.second)
  }

  const SCRIPTS_KEY := "\"inlinedScripts\""
  const ASSETS_WORD := "\"assets\""

  /** A character with the blanks around it. */
  function Spaced(w: Margin, c: string): string {
    w.before + (c + w.after)
  }

  function AnchorText(w: Layout): string {
    SCRIPTS_KEY + Spaced(w.colon, ":")
  }

  function KeyText(w: Layout): string {
    Spaced(w.comma, ",") + (ASSETS_WORD + (Spaced(w.second, ":") + "["))
  }

  /** A serialized manifest's two fields: scripts, of any JSON, and the asset list behind them. */
  function ManifestText(w: Layout, scripts: seq<Item>, body: Body): string {
    AnchorText(w) + (Print(Array(scripts)) + (KeyText(w) + (BodyText(body) + "]")))
  }

  /** No anchor begins in `before`, when `s` follows. */
  predicate NoAnchor(before: string, s: string) {
    forall j | 0 <= j < |before| :: MatchAnchor((before + s)[j..]).None?
  }

  /** The manifest from its scripts on, up to the list's opening bracket. */
  function HeadText(w: Layout, scripts: seq<Item>): string {
    AnchorText(w) + (Print(Array(scripts)) + KeyText(w))
  }

  /** Where a manifest stands, its asset list is found, however it is laid out, whatever its scripts
      hold, whatever follows, and whatever comes before as long as no anchor begins there. */
  lemma ManifestFound(p: Parser, before: string, w: Layout, scripts: seq<Item>, body: Body, rest: string)
    requires LayoutOk(w) && JsonOk(Array(scripts)) && BodyOk(p, body)
    requires NoAnchor(before, ManifestText(w, scripts, body) + rest)
    ensures Segments(p, before + (ManifestText(w, scripts, body) + rest)) == [Fixed(before + HeadText(w, scripts)), Assets(body)] + Segments(p, rest)
  {
    hide *;
    var head, tail := before + HeadText(w, scripts), BodyText(body) + "]" + rest;
    ManifestParts(before, w, scripts, body, rest);
    ManifestLook(p, before, w, scripts, body, rest);
    SegmentsStep(p, head + tail);
    Around(head, BodyText(body), rest);
  }

  lemma ManifestParts(before: string, w: Layout, scripts: seq<Item>, body: Body, rest: string)
    ensures var head, tail := before + HeadText(w, scripts), BodyText(body) + "]" + rest;
      && before + (ManifestText(w, scripts, body) + rest) == head + tail
      && ManifestText(w, scripts, body) + rest == AnchorText(w) + (Print(Array(scripts)) + (KeyText(w) + tail))
      && head + tail == before + (AnchorText(w) + (Print(Array(scripts)) + (KeyText(w) + tail)))
  {
    hide BodyText, Print, AnchorText, KeyText;
  }

  lemma ManifestLook(p: Parser, before: string, w: Layout, scripts: seq<Item>, body: Body, rest: string)
    requires LayoutOk(w) && JsonOk(Array(scripts)) && BodyOk(p, body)
    requires NoAnchor(before, ManifestText(w, scripts, body) + rest)
    ensures var head := before + HeadText(w, scripts);
      Look(p, head + (BodyText(body) + "]" + rest)) == List(|head|, body)
  {
    hide *;
    var tail := BodyText(body) + "]" + rest;
    var head, list := before + HeadText(w, scripts), Print(Array(scripts));
    var s := head + tail;
    ManifestParts(before, w, scripts, body, rest);
    ManifestHead(before, w, scripts, KeyText(w) + tail);
    var end := |before| + |AnchorText(w)| + |list| - 1;
    HeadLength(before, w, scripts);
    KeyBehind(before + AnchorText(w), list, KeyText(w), tail);
    ManifestKey(s, end, w, tail);
    BodyScans(p, body);
    ListAgain(p, head, body, rest);
    LookIs(p, s, end, |head| - 1);
  }

  lemma HeadLength(before: string, w: Layout, scripts: seq<Item>)
    ensures var head := before + HeadText(w, scripts);
      && head == (before + AnchorText(w)) + (Print(Array(scripts)) + KeyText(w))
      && |head| == |before| + |AnchorText(w)| + |Print(Array(scripts))| + |KeyText(w)|
      && |KeyText(w)| > 1 && head[|head| - 1] == '[' && Print(Array(scripts)) != ""
  {
    hide Print, AnchorText;
    ArrayOpens(scripts);
    var key := KeyText(w);
    assert key[|key| - 1] == '[';
  }

  lemma KeyBehind(a: string, list: string, key: string, tail: string)
    requires list != ""
    ensures var s := a + (list + key) + tail; |a| + |list| <= |s| && s[|a| + |list|..] == key + tail
  {
  }

  lemma BodyScans(p: Parser, body: Body)
    requires BodyOk(p, body)
    ensures Scan(p, BodyText(body), "") == Some(body)
  {
    RenderScan(p, body.gaps, body.lits, body.tail);
  }

  lemma ManifestHead(before: string, w: Layout, scripts: seq<Item>, rest: string)
    requires LayoutOk(w) && JsonOk(Array(scripts)) && NoAnchor(before, AnchorText(w) + (Print(Array(scripts)) + rest))
    ensures HeadEnd(before + (AnchorText(w) + (Print(Array(scripts)) + rest))) == Some(|before| + |AnchorText(w)| + |Print(Array(scripts))| - 1)
  {
    hide *;
    var list := Print(Array(scripts));
    var s := before + (AnchorText(w) + (list + rest));
    ArrayEndCorrect(scripts, rest);
    ArrayOpens(scripts);
    var at := |before| + |AnchorText(w)|;
    BehindBoth(before, AnchorText(w), list + rest);
    AnchorHere(w, list + rest);
    AnchorLater(before, AnchorText(w) + (list + rest), |AnchorText(w)|);
    HeadIs(s, at + |list| - 1);
  }

  lemma BehindBoth(a: string, b: string, c: string)
    ensures (a + (b + c))[|a| + |b|..] == c
  {
  }

  lemma ArrayOpens(scripts: seq<Item>)
    ensures Print(Array(scripts)) != "" && Print(Array(scripts))[0] == '['
  {
  }

  /** The first anchor is the one behind a text in which none begins. */
  lemma {:induction false} AnchorLater(before: string, s: string, n: nat)
    requires NoAnchor(before, s) && MatchAnchor(s) == Some(n + 1)
    ensures FindAnchor(before + s) == Some(|before| + n)
    decreases |before|
  {
    hide MatchAnchor;
    if before == "" {
      assert before + s == s;
    } else {
      assert (before + s)[0..] == before + s && (before + s)[1..] == before[1..] + s;
      forall j | 0 <= j < |before[1..]|
        ensures MatchAnchor((before[1..] + s)[j..]).None?
      {
        assert (before[1..] + s)[j..] == (before + s)[j + 1..];
      }
      AnchorLater(before[1..], s, n);
    }
  }

  lemma MatchWord(word: string, p: Pattern, u: string)
    ensures Match([Word(word)] + p, word + u) == Plus(|word|, Match(p, u))
  {
    assert ([Word(word)] + p)[1..] == p && (word + u)[..|word|] == word && (word + u)[|word|..] == u;
  }

  lemma {:induction false} SkipsAll(blanks: string, u: string)
    requires AllSpace(blanks) && u != "" && !IsSpace(u[0])
    ensures SkipBlanks(blanks + u) == |blanks|
    decreases |blanks|
  {
    if blanks == "" {
      assert blanks + u == u;
    } else {
      assert (blanks + u)[1..] == blanks[1..] + u && (blanks + u)[0] == blanks[0];
      SkipsAll(blanks[1..], u);
    }
  }

  lemma MatchGap(blanks: string, p: Pattern, u: string)
    requires AllSpace(blanks) && u != "" && !IsSpace(u[0])
    ensures Match([Blanks] + p, blanks + u) == Plus(|blanks|, Match(p, u))
  {
    SkipsAll(blanks, u);
    hide SkipBlanks;
    assert ([Blanks] + p)[1..] == p && (blanks + u)[|blanks|..] == u;
  }

  /** A separator in its blanks. */
  lemma MatchSpaced(w: Margin, c: string, p: Pattern, u: string)
    requires MarginOk(w) && c != "" && !IsSpace(c[0]) && u != "" && !IsSpace(u[0])
    ensures Match([Blanks] + ([Word(c)] + ([Blanks] + p)), Spaced(w, c) + u) == Plus(|Spaced(w, c)|, Match(p, u))
  {
    hide Match, AllSpace;
    MatchGap(w.after, p, u);
    MatchWord(c, [Blanks] + p, w.after + u);
    MatchGap(w.before, [Word(c)] + ([Blanks] + p), c + (w.after + u));
    assert Spaced(w, c) + u == w.before + (c + (w.after + u));
  }

  lemma AnchorHere(w: Layout, t: string)
    requires LayoutOk(w) && t != "" && t[0] == '['
    ensures MatchAnchor(AnchorText(w) + t) == Some(|AnchorText(w)| + 1)
  {
    hide Match, MarginOk, Spaced;
    LastWord(t);
    var colon := Spaced(w.colon, ":");
    MatchSpaced(w.colon, ":", [Word("[")], t);
    MatchWord(SCRIPTS_KEY, [Blanks] + ([Word(":")] + ([Blanks] + [Word("[")])), colon + t);
    assert ANCHOR == [Word(SCRIPTS_KEY)] + ([Blanks] + ([Word(":")] + ([Blanks] + [Word("[")])));
    assert AnchorText(w) + t == SCRIPTS_KEY + (colon + t);
  }

  lemma ManifestKey(s: string, end: nat, w: Layout, t: string)
    requires LayoutOk(w) && end < |s| && s[end + 1..] == KeyText(w) + t && |KeyText(w)| > 0
    ensures ListOpen(s, end) == Some(end + |KeyText(w)|)
  {
    hide *;
    KeyHere(w, t);
    OpenIs(s, end, end + |KeyText(w)|);
  }

  lemma KeyHere(w: Layout, t: string)
    requires LayoutOk(w)
    ensures MatchKey(KeyText(w) + t) == Some(|KeyText(w)|)
  {
    hide Match, MarginOk, Spaced;
    var comma, colon, u := Spaced(w.comma, ","), Spaced(w.second, ":"), "[" + t;
    LastWord(u);
    MatchSpaced(w.second, ":", [Word("[")], u);
    var end := [Blanks] + ([Word(":")] + ([Blanks] + [Word("[")]));
    MatchWord(ASSETS_WORD, end, colon + u);
    MatchSpaced(w.comma, ",", [Word(ASSETS_WORD)] + end, ASSETS_WORD + (colon + u));
    assert ASSETS_KEY == [Blanks] + ([Word(",")] + ([Blanks] + ([Word(ASSETS_WORD)] + end)));
    assert KeyText(w) + t == comma + (ASSETS_WORD + (colon + u));
  }

  // ---------------------------------------------------------------- the code's own form

  lemma CanonicalNone(p: Parser, s: string)
    requires Look(p, s) == NoMore
    ensures Canonical(p, s) == s
  {
    hide Look, Segments, Text;
    SegmentsStep(p, s);
    TextOne(Fixed(s));
    assert SortedSegments([Fixed(s)]) == [Fixed(s)];
  }

  lemma CanonicalPass(p: Parser, s: string, n: nat)
    requires Look(p, s) == Pass(n)
    ensures n <= |s| && Canonical(p, s) == s[..n] + Canonical(p, s[n..])
  {
    hide *;
    SegmentsStep(p, s);
    var gs := Segments(p, s[n..]);
    CanonicalIs(p, s);
    CanonicalIs(p, s[n..]);
    SortedOne(s[..n], gs);
    TextOfFixed(s[..n], SortedSegments(gs));
  }

  lemma SortedOne(head: string, gs: seq<Segment>)
    ensures SortedSegments([Fixed(head)] + gs) == [Fixed(head)] + SortedSegments(gs)
  {
    hide Resorted;
  }

  lemma TextOfFixed(head: string, hs: seq<Segment>)
    ensures Text([Fixed(head)] + hs) == head + Text(hs)
  {
    hide Text;
    TextCons(Fixed(head), hs);
  }

  /** The sorted list between what comes before its body and after its bracket. */
  function Splice(head: string, body: Body, rest: string): string {
    head + (BodyText(Resorted(body)) + "]" + rest)
  }

  lemma CanonicalIs(p: Parser, s: string)
    ensures Canonical(p, s) == Text(SortedSegments(Segments(p, s)))
  {
    hide Text, SortedSegments, Segments;
  }

  lemma SortedTwo(head: string, body: Body, gs: seq<Segment>)
    ensures SortedSegments([Fixed(head), Assets(body)] + gs) == [Fixed(head), Assets(Resorted(body))] + SortedSegments(gs)
  {
    hide Resorted;
  }

  lemma SpliceText(head: string, body: Body, hs: seq<Segment>)
    ensures Splice(head, body, Text(hs)) == Text([Fixed(head), Assets(Resorted(body))] + hs)
  {
    hide Text, BodyText, Resorted;
    TwoText(head, Resorted(body), hs);
  }

  lemma CanonicalList(p: Parser, s: string, n: nat, body: Body)
    requires Look(p, s) == List(n, body)
    ensures n + |BodyText(body)| < |s|
    ensures Canonical(p, s) == Splice(s[..n], body, Canonical(p, s[n + |BodyText(body)| + 1..]))
  {
    hide *;
    SegmentsStep(p, s);
    var rest := s[n + |BodyText(body)| + 1..];
    var gs := Segments(p, rest);
    CanonicalIs(p, s);
    CanonicalIs(p, rest);
    SortedTwo(s[..n], body, gs);
    SpliceText(s[..n], body, SortedSegments(gs));
  }

  lemma HeadFrom(code: string, last: nat)
    requires last <= |code|
    ensures var m := FindAnchor(code[last..]);
      var end := if m.None? then -1 else EndFrom(code, last + m.value, 0);
      HeadEnd(code[last..]) == if end == -1 then None else Some(end - last)
    ensures var m := FindAnchor(code[last..]); m.Some? ==> last + m.value < |code|
  {
    hide FindAnchor, ArrayEnd;
    var m := FindAnchor(code[last..]);
    if m.Some? { assert code[last..][m.value..] == code[last + m.value..]; }
  }

  lemma OpenFrom(code: string, last: nat, end: nat)
    requires last <= end < |code|
    ensures var k := MatchKey(code[end + 1..]);
      ListOpen(code[last..], end - last) == (if k.None? then None else Some(end + k.value - last))
    ensures var k := MatchKey(code[end + 1..]); k.Some? ==> k.value > 0 && end + k.value < |code| && code[end + k.value] == '['
  {
    hide Match, MatchKey, MatchAnchor;
    assert code[last..][end - last + 1..] == code[end + 1..];
    if MatchKey(code[end + 1..]).Some? { KeyBracket(code[end + 1..]); }
  }

  lemma HereFrom(p: Parser, code: string, open: nat)
    requires open < |code| && code[open] == '['
    ensures var close := EndFrom(code, open, 0);
      (close == -1 || (open < close && code[close] == ']')) &&
      Here(p, code[open..]) == if close == -1 then NoMore
        else var b := Scan(p, code[open + 1..close], ""); if b.None? then Pass(close + 1 - open) else List(1, b.value)
  {
    hide ArrayEnd, Scan;
    EndBracket(code[open..], 0);
    var close := EndFrom(code, open, 0);
    if close > open { assert code[open..][1..close - open] == code[open + 1..close]; }
  }

  lemma ListFrom(p: Parser, code: string, last: nat, open: nat)
    requires last <= open < |code|
    ensures LookList(p, code[last..], open - last) == Shift(open - last, Here(p, code[open..]))
  {
    hide Here;
    assert code[last..][open - last..] == code[open..];
  }

  /** One step of the search, in terms of the whole text. */
  function StepFrom(p: Parser, code: string, last: nat): Found
    requires last <= |code|
  {
    Shift(last, Look(p, code[last..]))
  }

  lemma LookSome(p: Parser, s: string, end: nat)
    requires HeadEnd(s) == Some(end)
    ensures ListOpen(s, end).None? ==> Look(p, s) == Pass(end + 1)
    ensures ListOpen(s, end).Some? ==> Look(p, s) == LookList(p, s, ListOpen(s, end).value)
  {
    hide HeadEnd, ListOpen, LookList;
  }

  lemma StepNone(p: Parser, code: string, last: nat)
    requires last <= |code| && HeadEnd(code[last..]).None?
    ensures StepFrom(p, code, last) == NoMore
  {
    hide HeadEnd, ListOpen, LookList;
  }

  lemma StepPass(p: Parser, code: string, last: nat, end: nat)
    requires last <= end < |code| && HeadEnd(code[last..]) == Some(end - last) && MatchKey(code[end + 1..]).None?
    ensures StepFrom(p, code, last) == Pass(end + 1)
  {
    hide HeadEnd, ListOpen, LookList, Look, Match, MatchKey, MatchAnchor;
    OpenFrom(code, last, end);
    LookSome(p, code[last..], end - last);
  }

  lemma StepList(p: Parser, code: string, last: nat, end: nat)
    requires last <= end < |code| && HeadEnd(code[last..]) == Some(end - last) && MatchKey(code[end + 1..]).Some?
    ensures var open := end + MatchKey(code[end + 1..]).value;
      && end < open < |code| && code[open] == '['
      && StepFrom(p, code, last) == Shift(open, Here(p, code[open..]))
  {
    hide *;
    var open := end + MatchKey(code[end + 1..]).value;
    OpenFrom(code, last, end);
    LookSome(p, code[last..], end - last);
    ListFrom(p, code, last, open);
    StepIs(p, code, last);
    ShiftTwice(last, open - last, Here(p, code[open..]));
  }

  lemma StepIs(p: Parser, code: string, last: nat)
    requires last <= |code|
    ensures StepFrom(p, code, last) == Shift(last, Look(p, code[last..]))
  {
    hide Look, Shift;
  }

  lemma ShiftTwice(a: nat, b: nat, f: Found)
    ensures Shift(a, Shift(b, f)) == Shift(a + b, f)
  {
  }

  /** What the sort makes of the text from `last` on. */
  function CanonicalFrom(p: Parser, code: string, last: nat): string
    requires last <= |code|
  {
    Canonical(p, code[last..])
  }

  lemma SliceSlice(code: string, last: nat, n: nat)
    requires last <= n <= |code|
    ensures code[last..][..n - last] == code[last..n] && code[last..][n - last..] == code[n..]
  {
  }

  lemma FromNone(p: Parser, code: string, last: nat)
    requires last <= |code| && StepFrom(p, code, last) == NoMore
    ensures CanonicalFrom(p, code, last) == code[last..]
  {
    hide Look, Canonical;
    CanonicalNone(p, code[last..]);
  }

  lemma FromPass(p: Parser, code: string, last: nat, n: nat)
    requires last <= |code| && StepFrom(p, code, last) == Pass(n)
    ensures last < n <= |code| && CanonicalFrom(p, code, last) == code[last..n] + CanonicalFrom(p, code, n)
  {
    hide *;
    PassBack(p, code, last, n);
    CanonicalPass(p, code[last..], n - last);
    SliceSlice(code, last, n);
    FromIs(p, code, last);
    FromIs(p, code, n);
  }

  lemma PassBack(p: Parser, code: string, last: nat, n: nat)
    requires last <= |code| && StepFrom(p, code, last) == Pass(n)
    ensures last < n <= |code| && Look(p, code[last..]) == Pass(n - last)
  {
    hide Look, FindAnchor;
    assert |code[last..]| == |code| - last;
  }

  lemma ShiftBack(p: Parser, code: string, last: nat, n: nat, body: Body)
    requires last <= |code| && StepFrom(p, code, last) == List(n, body)
    ensures last < n && Look(p, code[last..]) == List(n - last, body)
    ensures n + |BodyText(body)| < |code|
  {
    hide Look, BodyText;
    assert |code[last..]| == |code| - last;
  }

  lemma FromList(p: Parser, code: string, last: nat, n: nat, body: Body, next: nat)
    requires last < n < next <= |code| && next == n + |BodyText(body)| + 1
    requires Look(p, code[last..]) == List(n - last, body)
    ensures CanonicalFrom(p, code, last) == Splice(code[last..n], body, CanonicalFrom(p, code, next))
  {
    hide *;
    CanonicalNext(p, code[last..], n - last, body, next - last);
    SliceSlice(code, last, n);
    SliceSlice(code, last, next);
    FromIs(p, code, last);
    FromIs(p, code, next);
  }

  lemma FromIs(p: Parser, code: string, last: nat)
    requires last <= |code|
    ensures CanonicalFrom(p, code, last) == Canonical(p, code[last..])
  {
    hide Canonical;
  }

  lemma CanonicalNext(p: Parser, s: string, n: nat, body: Body, next: nat)
    requires Look(p, s) == List(n, body) && next == n + |BodyText(body)| + 1
    ensures n <= next <= |s|
    ensures Canonical(p, s) == Splice(s[..n], body, Canonical(p, s[next..]))
  {
    hide *;
    CanonicalList(p, s, n, body);
  }

  lemma BodyLength(p: Parser, text: string)
    requires Scan(p, text, "").Some?
    ensures |BodyText(Scan(p, text, "").value)| == |text|
  {
    ScanReads(p, text);
  }

  /** The output so far, the text passed over since, and what is to come make up the whole result. */
  predicate Sofar(p: Parser, code: string, out: string, cursor: nat, last: nat) {
    && cursor <= last <= |code| && (cursor == 0 ==> out == "")
    && Canonical(p, code) == out + code[cursor..last] + CanonicalFrom(p, code, last)
  }

  lemma SofarStart(p: Parser, code: string)
    ensures Sofar(p, code, "", 0, 0)
  {
    hide Canonical;
    assert code[0..] == code && "" + code[0..0] + Canonical(p, code) == Canonical(p, code);
  }

  lemma SofarPass(p: Parser, code: string, out: string, cursor: nat, last: nat, next: nat)
    requires Sofar(p, code, out, cursor, last) && StepFrom(p, code, last) == Pass(next)
    ensures Sofar(p, code, out, cursor, next) && last < next
  {
    hide Canonical, CanonicalFrom, StepFrom;
    FromPass(p, code, last, next);
    assert code[cursor..next] == code[cursor..last] + code[last..next];
  }

  lemma SofarEnd(p: Parser, code: string, out: string, cursor: nat, last: nat)
    requires Sofar(p, code, out, cursor, last) && StepFrom(p, code, last) == NoMore
    ensures cursor <= |code| && Canonical(p, code) == if cursor == 0 then code else out + code[cursor..]
  {
    hide Canonical, CanonicalFrom, StepFrom;
    FromNone(p, code, last);
    assert code[cursor..] == code[cursor..last] + code[last..];
  }

  lemma SofarNext(p: Parser, code: string, out: string, cursor: nat, last: nat, n: nat, close: nat, sorted: string)
    requires Sofar(p, code, out, cursor, last) && last <= n <= close < |code| && code[close] == ']'
    requires CanonicalFrom(p, code, last) == code[last..n] + (sorted + "]" + CanonicalFrom(p, code, close + 1))
    ensures cursor <= last && (0 < close ==> Sofar(p, code, out + code[cursor..n] + sorted, close, close + 1))
  {
    hide CanonicalFrom, Canonical;
    assert code[cursor..n] == code[cursor..last] + code[last..n];
    assert code[close..close + 1] == "]";
  }

  lemma SpliceIs(p: Parser, head: string, text: string, sorted: string, rest: string)
    requires SortedBody(p, text) == Some(sorted)
    ensures Scan(p, text, "").Some? && Splice(head, Scan(p, text, "").value, rest) == head + (sorted + "]" + rest)
  {
    hide Scan, BodyText, Resorted;
  }

  lemma SofarList(p: Parser, code: string, out: string, cursor: nat, last: nat, open: nat, close: nat, sorted: string)
    requires Sofar(p, code, out, cursor, last) && last <= open < close < |code| && code[close] == ']'
    requires SortedBody(p, code[open + 1..close]) == Some(sorted)
    requires StepFrom(p, code, last) == List(open + 1, Scan(p, code[open + 1..close], "").value)
    ensures Sofar(p, code, out + code[cursor..open + 1] + sorted, close, close + 1)
  {
    hide *;
    SortedSome(p, code[open + 1..close]);
    var body := Scan(p, code[open + 1..close], "").value;
    SpliceIs(p, code[last..open + 1], code[open + 1..close], sorted, CanonicalFrom(p, code, close + 1));
    BodyLength(p, code[open + 1..close]);
    ShiftBack(p, code, last, open + 1, body);
    FromList(p, code, last, open + 1, body, close + 1);
    SofarNext(p, code, out, cursor, last, open + 1, close, sorted);
  }

  method SortManifestAssets(p: Parser, code: string) returns (r: string)
    ensures r == Canonical(p, code)
  {
    hide Sofar, Canonical, StepFrom, HeadEnd, FindAnchor, Match, MatchKey, EndFrom, Here, Scan, SortedBody;
    var out := "";
    var cursor, last := 0, 0;
    SofarStart(p, code);
    while true
      invariant 0 <= cursor <= last <= |code| && Sofar(p, code, out, cursor, last)
      decreases |code| - last
    {
      HeadFrom(code, last);
      var m := FindAnchor(code[last..]);
      if m.None? { StepNone(p, code, last); break; }
      var inlinedEnd := FindArrayEnd(code, last + m.value);
      if inlinedEnd == -1 { StepNone(p, code, last); break; }
      var assetsKey := MatchKey(code[inlinedEnd + 1..]);
      if assetsKey.None? {
        StepPass(p, code, last, inlinedEnd);
        SofarPass(p, code, out, cursor, last, inlinedEnd + 1);
        last := inlinedEnd + 1;
        continue;
      }
      var open := inlinedEnd + assetsKey.value;
      StepList(p, code, last, inlinedEnd);
      HereFrom(p, code, open);
      var close := FindArrayEnd(code, open);
      if close == -1 { break; }
      var sorted := SortStringArrayBody(p, code[open + 1..close]);
      SortedSome(p, code[open + 1..close]);
      if sorted.Some? {
        SofarList(p, code, out, cursor, last, open, close, sorted.value);
        out := out + code[cursor..open + 1] + sorted.value;
        cursor := close;
      } else {
        SofarPass(p, code, out, cursor, last, close + 1);
      }
      last := close + 1;
    }
    SofarEnd(p, code, out, cursor, last);
    r := if cursor == 0 then code else out + code[cursor..];
  }

  lemma SortedSome(p: Parser, text: string)
    ensures SortedBody(p, text).Some? <==> Scan(p, text, "").Some?
  {
    hide Scan;
  }
}
