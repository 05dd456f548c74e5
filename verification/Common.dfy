/** Small vocabulary shared by the models: optional values, and the text operations
    the repository leans on (`join`, `split`, `indexOf`, decimal rendering, `new Set`). */
module Common {

  datatype Option<+T> = None | Some(value: T)

  /** `s.indexOf(c)`, with `|s|` for "not found". */
  function IndexOf(s: string, c: char): (k: nat)
    ensures k <= |s|
    ensures forall j | 0 <= j < k :: s[j] != c
    ensures k < |s| ==> s[k] == c
  {
    if s == [] then 0 else if s[0] == c then 0 else 1 + IndexOf(s[1..], c)
  }

  /** JavaScript's white space: what `trim` removes and `\s` matches. */
  predicate IsSpace(c: char) {
    || '\t' <= c <= '\r' || c == ' ' || c == '\U{a0}' || c == '\U{1680}' || '\U{2000}' <= c <= '\U{200a}'
    || c == '\U{2028}' || c == '\U{2029}' || c == '\U{202f}' || c == '\U{205f}' || c == '\U{3000}' || c == '\U{feff}'
  }

  /** `parts.join(sep)` */
  function Join(parts: seq<string>, sep: char): string {
    if parts == [] then ""
    else if |parts| == 1 then parts[0]
    else parts[0] + [sep] + Join(parts[1..], sep)
  }

  /** `text.split(sep)` */
  function Split(text: string, sep: char): seq<string>
    decreases |text|
  {
    var k := IndexOf(text, sep);
    if k == |text| then [text] else [text[..k]] + Split(text[k + 1..], sep)
  }

  lemma IndexOfUnique(s: string, c: char, k: nat)
    requires k <= |s| && forall j | 0 <= j < k :: s[j] != c
    requires k < |s| ==> s[k] == c
    ensures IndexOf(s, c) == k
  {
  }

  /** Splitting undoes joining when no part holds the separator. */
  lemma {:induction false} SplitJoin(parts: seq<string>, sep: char)
    requires parts != []
    requires forall k | 0 <= k < |parts| :: sep !in parts[k]
    ensures Split(Join(parts, sep), sep) == parts
  {
    var text := Join(parts, sep);
    if |parts| == 1 {
      assert text[..|text|] == text;
      IndexOfUnique(text, sep, |text|);
    } else {
      SplitJoin(parts[1..], sep);
      SplitFirst(parts[0], Join(parts[1..], sep), sep);
      assert parts == [parts[0]] + parts[1..];
    }
  }

  lemma SplitFirst(head: string, rest: string, sep: char)
    requires sep !in head
    ensures Split(head + [sep] + rest, sep) == [head] + Split(rest, sep)
  {
    var text := head + [sep] + rest;
    assert text[..|head|] == head;
    assert forall j | 0 <= j < |head| :: text[j] == head[j];
    IndexOfUnique(text, sep, |head|);
    assert text[|head| + 1..] == rest;
  }

  /** How often a separator occurs in a text. */
  function Count(text: string, sep: char): nat {
    if text == "" then 0 else (if text[0] == sep then 1 else 0) + Count(text[1..], sep)
  }

  lemma {:induction false} CountConcat(a: string, b: string, sep: char)
    ensures Count(a + b, sep) == Count(a, sep) + Count(b, sep)
  {
    if a == "" {
      assert a + b == b;
    } else {
      CountConcat(a[1..], b, sep);
      assert (a + b)[1..] == a[1..] + b;
    }
  }

  lemma {:induction false} CountNone(text: string, sep: char)
    ensures Count(text, sep) == 0 <==> sep !in text
  {
    if text != "" {
      CountNone(text[1..], sep);
      assert text == [text[0]] + text[1..];
    }
  }

  lemma {:induction false} SplitLength(text: string, sep: char)
    ensures |Split(text, sep)| == Count(text, sep) + 1
    decreases |text|
  {
    var k := IndexOf(text, sep);
    if k == |text| {
      CountNone(text, sep);
    } else {
      SplitLength(text[k + 1..], sep);
      CountNone(text[..k], sep);
      assert text[k..][1..] == text[k + 1..] && text == text[..k] + text[k..];
      CountConcat(text[..k], text[k..], sep);
    }
  }

  /** Splitting what was joined gives one piece more for every separator inside a part. */
  lemma {:induction false} SplitJoinLength(parts: seq<string>, sep: char)
    requires parts != []
    ensures |Split(Join(parts, sep), sep)| >= |parts|
    ensures |Split(Join(parts, sep), sep)| == |parts| ==> forall k | 0 <= k < |parts| :: sep !in parts[k]
  {
    SplitLength(Join(parts, sep), sep);
    CountNone(parts[0], sep);
    if |parts| > 1 {
      var rest := Join(parts[1..], sep);
      SplitJoinLength(parts[1..], sep);
      SplitLength(rest, sep);
      CountConcat(parts[0] + [sep], rest, sep);
      CountConcat(parts[0], [sep], sep);
      assert forall k | 0 < k < |parts| :: parts[k] == parts[1..][k - 1];
    }
  }

  lemma Regroup<T>(a: seq<T>, b: seq<T>, c: seq<T>)
    ensures a + (b + c) == (a + b) + c
  {
  }

  /** A proper extension of a path joins to a strictly longer text. */
  lemma {:induction false} JoinGrows(p: seq<string>, q: seq<string>, sep: char)
    requires p != [] && q != []
    ensures |Join(p + q, sep)| > |Join(p, sep)|
  {
    assert (p + q)[0] == p[0] && (p + q)[1..] == p[1..] + q;
    if |p| == 1 {
      assert p[1..] + q == q;
    } else {
      JoinGrows(p[1..], q, sep);
    }
  }

  function Digit(d: nat): char
    requires d < 10
  {
    '0' + d as char
  }

  /** Decimal text of a number, as a template literal prints it. */
  function Dec(n: nat): (s: string)
    ensures s != [] && forall k | 0 <= k < |s| :: '0' <= s[k] <= '9'
  {
    if n < 10 then [Digit(n)] else Dec(n / 10) + [Digit(n % 10)]
  }

  /** A run of decimal digits without a superfluous leading zero, read as a number. */
  function ParseDec(s: string): Option<nat> {
    if s == "" || exists k | 0 <= k < |s| :: !('0' <= s[k] <= '9') then None
    else if |s| > 1 && s[0] == '0' then None
    else Some(DigitsValue(s))
  }

  function DigitsValue(s: string): nat
    requires forall k | 0 <= k < |s| :: '0' <= s[k] <= '9'
  {
    if s == "" then 0 else 10 * DigitsValue(s[..|s| - 1]) + (s[|s| - 1] - '0') as nat
  }

  lemma {:induction false} DecValue(n: nat)
    ensures DigitsValue(Dec(n)) == n
    ensures Dec(n)[0] == '0' ==> n == 0
  {
    var s := Dec(n);
    if n < 10 {
      assert s == [Digit(n)] && s[..0] == "";
    } else {
      DecValue(n / 10);
      assert s[..|s| - 1] == Dec(n / 10);
    }
  }

  lemma ParseDecInverts(n: nat)
    ensures ParseDec(Dec(n)) == Some(n)
  {
    DecValue(n);
    if n >= 10 {
      assert Dec(n)[0] == Dec(n / 10)[0];
      DecValue(n / 10);
    }
  }

  /** `[...new Set(xs)]`: first occurrences, in order. */
  function Dedup<T(==,!new)>(xs: seq<T>): (r: seq<T>)
    ensures forall x :: x in r <==> x in xs
  {
    if xs == [] then []
    else
      var init := xs[..|xs| - 1];
      var last := xs[|xs| - 1];
      assert xs == init + [last];
      if last in init then Dedup(init) else Dedup(init) + [last]
  }
}
