/** The bracket and string lexer of the manifest canonicalizer (astro/src/ssr-determinism.ts). */
module ManifestLexer {
  import opened Common

  // ---------------------------------------------------------------- strings and brackets

  /** How far it is to just past the closing quote of a string whose opening quote is already read. */
  function StringLength(s: string): (n: Option<nat>)
    ensures n.Some? ==> 0 < n.value <= |s|
  {
    if s == "" then None
    else if s[0] == '"' then Some(1)
    else
      var step := if s[0] == '\\' then 2 else 1;
      if step > |s| then None
      else
        var n := StringLength(s[step..]);
        if n.None? then None else Some(step + n.value)
  }

  predicate Opens(c: char) { c == '[' || c == '{' }
  predicate Closes(c: char) { c == ']' || c == '}' }

  /** Where, in a text read at the given depth, the bracket stands that brings it back to zero: a
      closing `]`, or nothing. */
  function ArrayEnd(s: string, depth: int): (e: Option<nat>)
    ensures e.Some? ==> e.value < |s|
    decreases |s|
  {
    if s == "" then None
    else if s[0] == '"' then
      var n := StringLength(s[1..]);
      if n.None? then None else Plus(1 + n.value, ArrayEnd(s[1 + n.value..], depth))
    else if Closes(s[0]) && depth == 1 then if s[0] == ']' then Some(0) else None
    else Plus(1, ArrayEnd(s[1..], Deeper(s[0], depth)))
  }

  function Deeper(c: char, depth: int): int {
    if Opens(c) then depth + 1 else if Closes(c) then depth - 1 else depth
  }

  function Plus(n: nat, o: Option<nat>): Option<nat> {
    if o.None? then None else Some(n + o.value)
  }

  // ---------------------------------------------------------------- the code's own form

  /** Where the closing quote of a string stands, read from `i`; -1 for nowhere. */
  function QuoteFrom(code: string, i: nat): (q: int)
    ensures -1 <= q < |code| && (q >= 0 ==> i <= q)
  {
    if i > |code| then -1
    else
      var n := StringLength(code[i..]);
      if n.None? then -1 else i + n.value - 1
  }

  /** Where the array read from `i` at the given depth ends; -1 for nowhere. */
  function EndFrom(code: string, i: nat, depth: int): (e: int)
    ensures -1 <= e < |code|
  {
    if i > |code| then -1
    else
      var e := ArrayEnd(code[i..], depth);
      if e.None? then -1 else i + e.value
  }

  lemma QuoteStep(code: string, i: nat)
    ensures i < |code| ==>
      QuoteFrom(code, i) == if code[i] == '"' then i else QuoteFrom(code, if code[i] == '\\' then i + 2 else i + 1)
    ensures i >= |code| ==> QuoteFrom(code, i) == -1
  {
    if i < |code| {
      assert code[i..][1..] == code[i + 1..];
      if i + 1 < |code| { assert code[i..][2..] == code[i + 2..]; }
    }
  }

  lemma EndStep(code: string, i: nat, depth: int)
    ensures i < |code| ==>
      EndFrom(code, i, depth) ==
        if code[i] == '"' then
          var q := QuoteFrom(code, i + 1); if q == -1 then -1 else EndFrom(code, q + 1, depth)
        else if Closes(code[i]) && depth == 1 then if code[i] == ']' then i else -1
        else EndFrom(code, i + 1, Deeper(code[i], depth))
    ensures i >= |code| ==> EndFrom(code, i, depth) == -1
  {
    if i < |code| {
      var s := code[i..];
      assert s[1..] == code[i + 1..];
      if code[i] == '"' && StringLength(s[1..]).Some? {
        var n := StringLength(s[1..]).value;
        assert s[1 + n..] == code[i + 1 + n..];
      }
      hide Deeper;
    }
  }

  method FindStringEnd(code: string, open: nat) returns (end: int)
    requires open < |code|
    ensures end == QuoteFrom(code, open + 1)
  {
    var i := open + 1;
    while i < |code|
      invariant open < i && QuoteFrom(code, i) == QuoteFrom(code, open + 1)
      decreases |code| - i
    {
      QuoteStep(code, i);
      hide QuoteFrom;
      if code[i] == '\\' {
        i := i + 1;
      } else if code[i] == '"' {
        return i;
      }
      i := i + 1;
    }
    QuoteStep(code, i);
    return -1;
  }

  method FindArrayEnd(code: string, open: nat) returns (end: int)
    requires open < |code|
    ensures end == EndFrom(code, open, 0)
  {
    var depth := 0;
    var i := open;
    while i < |code|
      invariant 0 <= i && EndFrom(code, i, depth) == EndFrom(code, open, 0)
      decreases |code| - i
    {
      EndStep(code, i, depth);
      hide EndFrom, QuoteFrom;
      var ch := code[i];
      if ch == '"' {
        i := FindStringEnd(code, i);
        if i == -1 { return -1; }
      } else if Opens(ch) {
        depth := depth + 1;
      } else if Closes(ch) {
        depth := depth - 1;
        if depth == 0 { return if ch == ']' then i else -1; }
      }
      i := i + 1;
    }
    EndStep(code, i, depth);
    return -1;
  }

  // ---------------------------------------------------------------- what follows does not matter

  lemma {:induction false} StringLocal(a: string, b: string, n: nat)
    requires n <= |a|
    ensures StringLength(a + b) == Some(n) <==> StringLength(a) == Some(n)
    decreases |a|
  {
    if a != "" && a[0] != '"' {
      var step := if a[0] == '\\' then 2 else 1;
      if step <= |a| {
        assert (a + b)[step..] == a[step..] + b;
        if n >= step { StringLocal(a[step..], b, n - step); }
      }
    }
  }

  lemma {:induction false} ArrayLocal(a: string, b: string, depth: int, e: nat)
    requires e < |a|
    ensures ArrayEnd(a + b, depth) == Some(e) <==> ArrayEnd(a, depth) == Some(e)
    decreases |a|, 1
  {
    assert (a + b)[1..] == a[1..] + b;
    if a[0] == '"' {
      ArrayLocalString(a, b, depth, e);
    } else {
      hide Deeper;
      if e > 0 { ArrayLocal(a[1..], b, Deeper(a[0], depth), e - 1); }
    }
  }

  lemma AtString(s: string, depth: int)
    requires s != "" && s[0] == '"'
    ensures var n := StringLength(s[1..]);
      ArrayEnd(s, depth) == if n.None? then None else Plus(1 + n.value, ArrayEnd(s[1 + n.value..], depth))
  {
    hide StringLength;
  }

  lemma {:induction false} ArrayLocalString(a: string, b: string, depth: int, e: nat)
    requires e < |a| && a[0] == '"'
    ensures ArrayEnd(a + b, depth) == Some(e) <==> ArrayEnd(a, depth) == Some(e)
    decreases |a|, 0
  {
    assert (a + b)[1..] == a[1..] + b;
    AtString(a, depth);
    AtString(a + b, depth);
    hide ArrayEnd;
    var m, n := StringLength(a[1..]), StringLength((a + b)[1..]);
    if m.Some? {
      StringLocal(a[1..], b, m.value);
      hide StringLength;
      assert (a + b)[1 + m.value..] == a[1 + m.value..] + b;
      if 1 + m.value <= e { ArrayLocal(a[1 + m.value..], b, depth, e - 1 - m.value); }
    } else if n.Some? && n.value < |a| {
      StringLocal(a[1..], b, n.value);
    }
  }

  // ---------------------------------------------------------------- JSON texts

  /** One element of a string literal (section 7 of RFC 8259). */
  datatype StrChar = Unescaped(c: char) | Escape(c: char) | CodeUnit(hex: string)

  predicate CharOk(c: StrChar) {
    match c
    case Unescaped(x) => x >= ' ' && x != '"' && x != '\\'
    case Escape(x) => x in ['"', '\\', '/', 'b', 'f', 'n', 'r', 't']
    case CodeUnit(hex) => |hex| == 4 && forall k | 0 <= k < 4 :: hex[k] != '"' && hex[k] != '\\'
  }

  function CharText(c: StrChar): string {
    match c
    case Unescaped(x) => [x]
    case Escape(x) => ['\\', x]
    case CodeUnit(hex) => "\\u" + hex
  }

  function CharsText(cs: seq<StrChar>): string {
    if cs == [] then "" else CharText(cs[0]) + CharsText(cs[1..])
  }

  function Quoted(cs: seq<StrChar>): string {
    "\"" + CharsText(cs) + "\""
  }

  /** A JSON text (sections 2 to 7 of RFC 8259) as a tree; each part carries the blanks around it. A
      number or a literal name is any text free of quotes and brackets. */
  datatype Json =
    | Scalar(text: string)
    | Text(chars: seq<StrChar>)
    | Array(items: seq<Item>)
    | Object(members: seq<Member>)
  datatype Item = Item(before: string, value: Json, after: string)
  datatype Member = Member(before: string, key: seq<StrChar>, colon: string, value: Json, after: string)

  predicate Inert(s: string) {
    forall k | 0 <= k < |s| :: s[k] != '"' && !Opens(s[k]) && !Closes(s[k])
  }

  predicate CharsOk(cs: seq<StrChar>) {
    forall k | 0 <= k < |cs| :: CharOk(cs[k])
  }

  predicate JsonOk(j: Json) {
    match j
    case Scalar(text) => Inert(text)
    case Text(chars) => CharsOk(chars)
    case Array(items) => forall k | 0 <= k < |items| :: Inert(items[k].before) && JsonOk(items[k].value) && Inert(items[k].after)
    case Object(members) => forall k | 0 <= k < |members| ::
        Inert(members[k].before) && CharsOk(members[k].key) && Inert(members[k].colon) && JsonOk(members[k].value) && Inert(members[k].after)
  }

  function Print(j: Json): string
    decreases j, 1
  {
    match j
    case Scalar(text) => text
    case Text(chars) => Quoted(chars)
    case Array(items) => "[" + PrintItems(items) + "]"
    case Object(members) => "{" + PrintMembers(members) + "}"
  }

  function PrintItems(items: seq<Item>): string
    decreases items, 0
  {
    if items == [] then ""
    else items[0].before + (Print(items[0].value) + (items[0].after + ((if |items| > 1 then "," else "") + PrintItems(items[1..]))))
  }

  /** The `colon` of a member is its colon with the blanks around it. */
  function PrintMembers(members: seq<Member>): string
    decreases members, 0
  {
    if members == [] then ""
    else
      members[0].before + (Quoted(members[0].key) + (members[0].colon + (Print(members[0].value) + (members[0].after
        + ((if |members| > 1 then "," else "") + PrintMembers(members[1..]))))))
  }

  /** Scanning passes over `t` at any depth within an array, whatever follows. */
  ghost predicate Passes(t: string) {
    forall rest: string, depth: int {:trigger ArrayEnd(t + rest, depth)} | depth >= 1 :: ArrayEnd(t + rest, depth) == Plus(|t|, ArrayEnd(rest, depth))
  }

  lemma PassesAt(t: string, rest: string, depth: int)
    requires Passes(t) && depth >= 1
    ensures ArrayEnd(t + rest, depth) == Plus(|t|, ArrayEnd(rest, depth))
  {
  }

  lemma PassesBoth(t: string, u: string)
    requires Passes(t) && Passes(u)
    ensures Passes(t + u)
  {
    forall rest: string, depth: int | depth >= 1
      ensures ArrayEnd(t + u + rest, depth) == Plus(|t + u|, ArrayEnd(rest, depth))
    {
      hide Passes;
      assert t + u + rest == t + (u + rest);
      PassesAt(t, u + rest, depth);
      PassesAt(u, rest, depth);
    }
  }

  lemma {:induction false} InertPasses(t: string)
    requires Inert(t)
    ensures Passes(t)
  {
    forall rest: string, depth: int | depth >= 1
      ensures ArrayEnd(t + rest, depth) == Plus(|t|, ArrayEnd(rest, depth))
    {
      if t == "" {
        assert t + rest == rest;
      } else {
        InertPasses(t[1..]);
        assert (t + rest)[1..] == t[1..] + rest;
      }
    }
  }

  lemma {:induction false} StringReads(cs: seq<StrChar>, rest: string)
    requires CharsOk(cs)
    ensures StringLength(CharsText(cs) + "\"" + rest) == Some(|CharsText(cs)| + 1)
  {
    var s := CharsText(cs) + "\"" + rest;
    if cs == [] {
      assert s[0] == '"';
    } else {
      var tail := CharsText(cs[1..]) + "\"" + rest;
      StringReads(cs[1..], rest);
      assert s == CharText(cs[0]) + tail;
      match cs[0]
      case Unescaped(x) => assert s[1..] == tail;
      case Escape(x) => assert s[2..] == tail;
      case CodeUnit(hex) => UnitReads(hex, tail);
    }
  }

  lemma UnitReads(hex: string, tail: string)
    requires CharOk(CodeUnit(hex))
    ensures StringLength("\\u" + hex + tail) == Plus(6, StringLength(tail))
  {
    var s := "\\u" + hex + tail;
    assert s[2..] == [hex[0]] + ([hex[1]] + ([hex[2]] + ([hex[3]] + tail)));
    OrdinaryReads(hex[3], tail);
    OrdinaryReads(hex[2], [hex[3]] + tail);
    OrdinaryReads(hex[1], [hex[2]] + ([hex[3]] + tail));
    OrdinaryReads(hex[0], [hex[1]] + ([hex[2]] + ([hex[3]] + tail)));
  }

  lemma OrdinaryReads(c: char, tail: string)
    requires c != '"' && c != '\\'
    ensures StringLength([c] + tail) == Plus(1, StringLength(tail))
  {
    assert ([c] + tail)[1..] == tail;
  }

  lemma TextPasses(cs: seq<StrChar>)
    requires CharsOk(cs)
    ensures Passes(Quoted(cs))
  {
    hide CharsText, CharsOk, StringLength;
    var t := Quoted(cs);
    forall rest: string, depth: int | depth >= 1
      ensures ArrayEnd(t + rest, depth) == Plus(|t|, ArrayEnd(rest, depth))
    {
      assert (t + rest)[1..] == CharsText(cs) + "\"" + rest;
      StringReads(cs, rest);
      assert (t + rest)[|t|..] == rest;
    }
  }

  lemma OpenBracket(open: char, rest: string, depth: int)
    requires Opens(open)
    ensures ArrayEnd([open] + rest, depth) == Plus(1, ArrayEnd(rest, depth + 1))
  {
    assert ([open] + rest)[1..] == rest;
  }

  lemma CloseBracket(close: char, rest: string, depth: int)
    requires Closes(close)
    ensures ArrayEnd([close] + rest, depth) == if depth != 1 then Plus(1, ArrayEnd(rest, depth - 1)) else if close == ']' then Some(0) else None
  {
    assert ([close] + rest)[1..] == rest;
  }

  lemma BracketAt(open: char, inner: string, close: char, rest: string, depth: int)
    requires Passes(inner) && Opens(open) && Closes(close) && depth >= 1
    ensures ArrayEnd([open] + inner + [close] + rest, depth) == Plus(|inner| + 2, ArrayEnd(rest, depth))
  {
    hide Passes, ArrayEnd, Opens, Closes;
    CloseBracket(close, rest, depth + 1);
    PassesAt(inner, [close] + rest, depth + 1);
    OpenBracket(open, inner + ([close] + rest), depth);
    assert [open] + inner + [close] + rest == [open] + (inner + ([close] + rest));
  }

  lemma BracketPasses(open: char, inner: string, close: char)
    requires Passes(inner) && Opens(open) && Closes(close)
    ensures Passes([open] + inner + [close])
  {
    hide ArrayEnd, Opens, Closes;
    var t := [open] + inner + [close];
    forall rest: string, depth: int | depth >= 1
      ensures ArrayEnd(t + rest, depth) == Plus(|t|, ArrayEnd(rest, depth))
    {
      BracketAt(open, inner, close, rest, depth);
    }
  }

  lemma {:induction false} JsonPasses(j: Json)
    requires JsonOk(j)
    ensures Passes(Print(j))
    decreases j, 1
  {
    match j
    case Scalar(text) => InertPasses(text);
    case Text(chars) => TextPasses(chars);
    case Array(items) => ItemsPass(items); BracketPasses('[', PrintItems(items), ']');
    case Object(members) => MembersPass(members); BracketPasses('{', PrintMembers(members), '}');
  }

  lemma {:induction false} ItemsPass(items: seq<Item>)
    requires JsonOk(Array(items))
    ensures Passes(PrintItems(items))
    decreases items, 0
  {
    if items == [] {
      InertPasses("");
    } else {
      InertPasses(items[0].before);
      JsonPasses(items[0].value);
      InertPasses(items[0].after);
      ItemsPass(items[1..]);
      var comma := if |items| > 1 then "," else "";
      InertPasses(comma);
      hide Passes;
      PassesBoth(comma, PrintItems(items[1..]));
      PassesBoth(items[0].after, comma + PrintItems(items[1..]));
      PassesBoth(Print(items[0].value), items[0].after + (comma + PrintItems(items[1..])));
      PassesBoth(items[0].before, Print(items[0].value) + (items[0].after + (comma + PrintItems(items[1..]))));
    }
  }

  lemma {:induction false} MembersPass(members: seq<Member>)
    requires JsonOk(Object(members))
    ensures Passes(PrintMembers(members))
    decreases members, 0
  {
    if members == [] {
      InertPasses("");
    } else {
      var m := members[0];
      InertPasses(m.before);
      TextPasses(m.key);
      InertPasses(m.colon);
      JsonPasses(m.value);
      InertPasses(m.after);
      MembersPass(members[1..]);
      var comma := if |members| > 1 then "," else "";
      InertPasses(comma);
      hide Passes;
      var rest := comma + PrintMembers(members[1..]);
      PassesBoth(comma, PrintMembers(members[1..]));
      PassesBoth(m.after, rest);
      PassesBoth(Print(m.value), m.after + rest);
      PassesBoth(m.colon, Print(m.value) + (m.after + rest));
      PassesBoth(Quoted(m.key), m.colon + (Print(m.value) + (m.after + rest)));
      PassesBoth(m.before, Quoted(m.key) + (m.colon + (Print(m.value) + (m.after + rest))));
    }
  }

  /** For every JSON array text, of any nesting and with any strings in it, the scan from its opening
      bracket ends at its own closing one, whatever text follows. */
  lemma ArrayEndCorrect(items: seq<Item>, rest: string)
    requires JsonOk(Array(items))
    ensures ArrayEnd(Print(Array(items)) + rest, 0) == Some(|Print(Array(items))| - 1)
  {
    ItemsPass(items);
    var inner := PrintItems(items);
    var s := Print(Array(items)) + rest;
    assert s == ['['] + (inner + ([']'] + rest));
    PassesAt(inner, [']'] + rest, 1);
    OpenBracket('[', inner + ([']'] + rest), 0);
    CloseBracket(']', rest, 1);
    hide ArrayEnd;
  }
}
