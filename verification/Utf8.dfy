/** The sandbox's `TextEncoder` and `TextDecoder` (src/sandbox.ts): UTF-8 written out by hand
    over UTF-16 code units, with lone surrogates and malformed bytes read as U+FFFD. */
module Utf8 {
  import opened Common

  type Unit = x: bv32 | x < 0x10000 // a UTF-16 code unit
  type Byte = x: bv32 | x < 0x100
  /** A Unicode scalar value: a code point that is no surrogate. */
  type Scalar = x: bv32 | x < 0xd800 || 0xe000 <= x < 0x110000

  predicate High(u: bv32) { 0xd800 <= u <= 0xdbff }
  predicate Low(u: bv32) { 0xdc00 <= u <= 0xdfff }

  // ---------------------------------------------------------------- UTF-16

  /** The code point a well-placed surrogate pair stands for. */
  function Pair(c: Unit, d: Unit): Scalar
    requires High(c) && Low(d)
  {
    PairRange(c, d);
    PairBits(c, d)
  }

  /** The bits of a surrogate pair, put together and taken apart. */
  function PairBits(c: bv32, d: bv32): bv32 { 0x10000 + ((c - 0xd800) << 10) + (d - 0xdc00) }
  function HighBits(c: bv32): bv32 { 0xd800 + ((c - 0x10000) >> 10) }
  function LowBits(c: bv32): bv32 { 0xdc00 + ((c - 0x10000) & 0x3ff) }

  lemma PairRange(c: bv32, d: bv32)
    requires High(c) && Low(d)
    ensures 0x10000 <= PairBits(c, d) < 0x110000
    ensures HighBits(PairBits(c, d)) == c && LowBits(PairBits(c, d)) == d
  {
  }

  lemma HighRange(c: bv32)
    requires 0x10000 <= c < 0x110000
    ensures High(HighBits(c))
  {
  }

  lemma LowRange(c: bv32)
    ensures Low(LowBits(c))
  {
  }

  lemma UnpairBits(c: bv32)
    requires 0x10000 <= c < 0x110000
    ensures PairBits(HighBits(c), LowBits(c)) == c
  {
  }

  lemma UnpairRange(c: bv32)
    requires 0x10000 <= c < 0x110000
    ensures High(HighBits(c)) && Low(LowBits(c)) && HighBits(c) < 0x10000 && LowBits(c) < 0x10000
    ensures PairBits(HighBits(c), LowBits(c)) == c
  {
    HighRange(c);
    LowRange(c);
    UnpairBits(c);
    hide HighBits, LowBits, PairBits;
  }

  /** The code points of a string, each lone surrogate read as U+FFFD. */
  function Points(s: seq<Unit>): (ps: seq<Scalar>)
    decreases |s|
  {
    if s == [] then []
    else if |s| > 1 && High(s[0]) && Low(s[1]) then [Pair(s[0], s[1])] + Points(s[2..])
    else [if High(s[0]) || Low(s[0]) then 0xfffd else s[0]] + Points(s[1..])
  }

  /** `String.fromCodePoint(c)` */
  function FromPoint(c: Scalar): (us: seq<Unit>) {
    if c < 0x10000 then [c]
    else UnpairRange(c); [HighBits(c), LowBits(c)]
  }

  /** `String.fromCodePoint(...ps)` */
  function Units(ps: seq<Scalar>): seq<Unit> {
    if ps == [] then [] else FromPoint(ps[0]) + Units(ps[1..])
  }

  /** The string with each lone surrogate replaced by U+FFFD. */
  function Scrub(s: seq<Unit>): seq<Unit>
    decreases |s|
  {
    if s == [] then []
    else if |s| > 1 && High(s[0]) && Low(s[1]) then [s[0], s[1]] + Scrub(s[2..])
    else [if High(s[0]) || Low(s[0]) then 0xfffd else s[0]] + Scrub(s[1..])
  }

  // ---------------------------------------------------------------- UTF-8

  /** The bytes of a character: a lead byte, and six bits of the code point in each of the others. */
  function Lead2(c: bv32): (x: bv32)
    ensures c < 0x800 ==> x < 0x100
  {
    0xc0 | (c >> 6)
  }

  function Lead3(c: bv32): (x: bv32)
    ensures c < 0x10000 ==> x < 0x100
  {
    0xe0 | (c >> 12)
  }

  function Lead4(c: bv32): (x: bv32)
    ensures c < 0x110000 ==> x < 0x100
  {
    0xf0 | (c >> 18)
  }

  function Last6(c: bv32): (x: bv32)
    ensures x < 0x100
  {
    0x80 | (c & 63)
  }

  function Mid6(c: bv32): (x: bv32)
    ensures x < 0x100
  {
    0x80 | ((c >> 6) & 63)
  }

  function Top6(c: bv32): (x: bv32)
    ensures x < 0x100
  {
    0x80 | ((c >> 12) & 63)
  }

  /** The bits of two, three and four bytes put together. */
  function Value2(x: bv32, y: bv32): (v: bv32)
    ensures v < 0x800
  {
    ((x & 31) << 6) | (y & 63)
  }

  function Value3(x: bv32, y: bv32, z: bv32): (v: bv32)
    ensures v < 0x10000
  {
    ((x & 15) << 12) | ((y & 63) << 6) | (z & 63)
  }

  function Value4(x: bv32, y: bv32, z: bv32, w: bv32): bv32 {
    ((x & 7) << 18) | ((y & 63) << 12) | ((z & 63) << 6) | (w & 63)
  }

  /** A continuation byte. */
  predicate IsCont(x: bv32) {
    x & 0xc0 == 0x80
  }

  function EncodePoint(c: Scalar): (bs: seq<Byte>)
    ensures 1 <= |bs| <= 4
  {
    if c < 0x80 then [c]
    else if c < 0x800 then [Lead2(c), Last6(c)]
    else if c < 0x10000 then [Lead3(c), Mid6(c), Last6(c)]
    else [Lead4(c), Top6(c), Mid6(c), Last6(c)]
  }

  function EncodePoints(ps: seq<Scalar>): seq<Byte> {
    if ps == [] then [] else EncodePoint(ps[0]) + EncodePoints(ps[1..])
  }

  /** What `encode` computes. */
  function Encode(s: seq<Unit>): seq<Byte> {
    EncodePoints(Points(s))
  }

  predicate Cont(b: seq<Byte>, k: nat) {
    k < |b| && IsCont(b[k])
  }

  /** The code point read at the head of `b`, and how many bytes it takes. */
  function DecodeOne(b: seq<Byte>): (r: (Scalar, nat))
    requires b != []
    ensures 1 <= r.1 <= |b|
  {
    var x := b[0];
    if x < 0x80 then (x, 1)
    else if x >= 0xc2 && x < 0xe0 && Cont(b, 1) then (Value2(x, b[1]), 2)
    else if x >= 0xe0 && x < 0xf0 && Cont(b, 1) && Cont(b, 2) then
      var v := Value3(x, b[1], b[2]);
      if v >= 0x800 && (v < 0xd800 || v > 0xdfff) then (v, 3) else (0xfffd, 1)
    else if x >= 0xf0 && x < 0xf5 && Cont(b, 1) && Cont(b, 2) && Cont(b, 3) then
      var v := Value4(x, b[1], b[2], b[3]);
      if v >= 0x10000 && v <= 0x10ffff then (v, 4) else (0xfffd, 1)
    else (0xfffd, 1)
  }

  function DecodePoints(b: seq<Byte>): seq<Scalar>
    decreases |b|
  {
    if b == [] then [] else [DecodeOne(b).0] + DecodePoints(b[DecodeOne(b).1..])
  }

  /** One byte order mark at the very start is dropped. */
  function DropMark(ps: seq<Scalar>): seq<Scalar> {
    if ps != [] && ps[0] == 0xfeff then ps[1..] else ps
  }

  /** What `decode` computes. */
  function Decode(b: seq<Byte>): seq<Unit> {
    Units(DropMark(DecodePoints(b)))
  }

  // ---------------------------------------------------------------- the code's own form

  method TextEncode(s: seq<Unit>) returns (out: seq<Byte>)
    ensures out == Encode(s)
  {
    out := [];
    var i := 0;
    while i < |s|
      invariant 0 <= i <= |s|
      invariant Encode(s) == out + Encode(s[i..])
    {
      var c: bv32 := s[i];
      ghost var start := i;
      if c >= 0xd800 && c <= 0xdbff && i + 1 < |s| {
        var d := s[i + 1];
        if d >= 0xdc00 && d <= 0xdfff {
          c := Pair(s[i], d);
          i := i + 1;
        } else {
          c := 0xfffd;
        }
      } else if c >= 0xd800 && c <= 0xdfff {
        c := 0xfffd;
      }
      PointsStep(s, start, c, i + 1);
      EncodeCons(c, Points(s[i + 1..]));
      Regroup(out, EncodePoint(c), Encode(s[i + 1..]));
      out := out + EncodePoint(c);
      i := i + 1;
    }
  }

  lemma PointsStep(s: seq<Unit>, i: nat, c: Scalar, next: nat)
    requires i < next <= |s|
    requires if i + 1 < |s| && High(s[i]) && Low(s[i + 1]) then next == i + 2 && c == Pair(s[i], s[i + 1])
      else next == i + 1 && c == if High(s[i]) || Low(s[i]) then 0xfffd else s[i]
    ensures Points(s[i..]) == [c] + Points(s[next..])
  {
    assert s[i..][next - i..] == s[next..];
  }

  lemma EncodeCons(c: Scalar, ps: seq<Scalar>)
    ensures EncodePoints([c] + ps) == EncodePoint(c) + EncodePoints(ps)
  {
    assert ([c] + ps)[1..] == ps;
  }

  const CHUNK := 4096

  method TextDecode(b: seq<Byte>) returns (text: seq<Unit>)
    ensures text == Decode(b)
  {
    hide DecodeOne, DecodePoints, FromPoint;
    var out: seq<Unit> := [];
    var chunk: seq<Scalar> := [];
    var i := 0;
    ghost var read: seq<Scalar> := [];
    AllRead(b, []);
    while i < |b|
      invariant 0 <= i <= |b| && (i == 0 <==> read == [])
      invariant DecodePoints(b) == read + DecodePoints(b[i..])
      invariant out + Units(chunk) == Units(DropMark(read))
    {
      var cp, n := ReadPoint(b, i);
      Regroup(read, [cp], DecodePoints(b[i + n..]));
      if !(i == 0 && cp == 0xfeff) {
        DropMarkSnoc(read, cp);
        UnitsSnoc(chunk, cp);
        Regroup(out, Units(chunk), FromPoint(cp));
        chunk := chunk + [cp];
      }
      read := read + [cp];
      i := i + n;
      if |chunk| >= CHUNK {
        out := out + Units(chunk);
        chunk := [];
      }
    }
    AllRead(b, read);
    text := out + Units(chunk);
  }

  lemma AllRead(b: seq<Byte>, read: seq<Scalar>)
    ensures read + DecodePoints(b[|b|..]) == read
    ensures [] + DecodePoints(b[0..]) == DecodePoints(b)
  {
    assert b[|b|..] == [] && b[0..] == b;
  }

  /** The loop body's reading of one code point at `i`. */
  method ReadPoint(b: seq<Byte>, i: nat) returns (cp: Scalar, n: nat)
    requires i < |b|
    ensures 1 <= n && i + n <= |b|
    ensures DecodePoints(b[i..]) == [cp] + DecodePoints(b[i + n..])
  {
    var (c, k) := DecodeOne(b[i..]);
    cp, n := c, k;
    assert b[i..][n..] == b[i + n..];
  }

  lemma DropMarkSnoc(read: seq<Scalar>, cp: Scalar)
    requires read != [] || cp != 0xfeff
    ensures DropMark(read + [cp]) == DropMark(read) + [cp]
    ensures Units(DropMark(read + [cp])) == Units(DropMark(read)) + FromPoint(cp)
  {
    assert DropMark(read + [cp]) == DropMark(read) + [cp];
    UnitsSnoc(DropMark(read), cp);
  }

  lemma {:induction false} UnitsSnoc(ps: seq<Scalar>, c: Scalar)
    ensures Units(ps + [c]) == Units(ps) + FromPoint(c)
  {
    hide FromPoint;
    if ps == [] {
      assert Units([c]) == FromPoint(c) + [];
    } else {
      UnitsSnoc(ps[1..], c);
      assert (ps + [c])[1..] == ps[1..] + [c];
    }
  }

  // ---------------------------------------------------------------- encode, then decode

  lemma {:induction false} UnitsPoints(s: seq<Unit>)
    ensures Units(Points(s)) == Scrub(s)
    decreases |s|
  {
    if s == [] {
    } else if |s| > 1 && High(s[0]) && Low(s[1]) {
      UnitsPoints(s[2..]);
      PairBack(s[0], s[1]);
      UnitsCons(Pair(s[0], s[1]), Points(s[2..]));
    } else {
      UnitsPoints(s[1..]);
      var c := if High(s[0]) || Low(s[0]) then 0xfffd else s[0];
      UnitsCons(c, Points(s[1..]));
    }
  }

  lemma UnitsCons(c: Scalar, ps: seq<Scalar>)
    ensures Units([c] + ps) == FromPoint(c) + Units(ps)
  {
    assert ([c] + ps)[1..] == ps;
  }

  lemma PairBack(c: Unit, d: Unit)
    requires High(c) && Low(d)
    ensures FromPoint(Pair(c, d)) == [c, d]
  {
    hide PairBits, HighBits, LowBits;
    PairRange(c, d);
  }

  lemma ReadTwo(x: Byte, y: Byte, rest: seq<Byte>)
    requires 0xc2 <= x < 0xe0 && IsCont(y)
    ensures DecodeOne([x, y] + rest) == (Value2(x, y), 2)
  {
    hide IsCont, Value2, Value3, Value4;
    var b := [x, y] + rest;
    assert b[0] == x && b[1] == y;
  }

  lemma ReadThree(x: Byte, y: Byte, z: Byte, rest: seq<Byte>)
    requires 0xe0 <= x < 0xf0 && IsCont(y) && IsCont(z)
    ensures var v := Value3(x, y, z);
      DecodeOne([x, y, z] + rest) == if v >= 0x800 && (v < 0xd800 || v > 0xdfff) then (v, 3) else (0xfffd, 1)
  {
    hide IsCont, Value2, Value3, Value4;
    var b := [x, y, z] + rest;
    assert b[0] == x && b[1] == y && b[2] == z;
  }

  lemma ReadFour(x: Byte, y: Byte, z: Byte, w: Byte, rest: seq<Byte>)
    requires 0xf0 <= x < 0xf5 && IsCont(y) && IsCont(z) && IsCont(w)
    ensures var v := Value4(x, y, z, w);
      DecodeOne([x, y, z, w] + rest) == if v >= 0x10000 && v <= 0x10ffff then (v, 4) else (0xfffd, 1)
  {
    hide IsCont, Value2, Value3, Value4;
    var b := [x, y, z, w] + rest;
    assert b[0] == x && b[1] == y && b[2] == z && b[3] == w;
  }

  lemma DecodeEncodedTwo(c: Scalar, rest: seq<Byte>)
    requires 0x80 <= c < 0x800
    ensures DecodeOne(EncodePoint(c) + rest) == (c, 2)
  {
    hide DecodeOne, IsCont, Value2, Lead2, Last6;
    EncodedTwo(c);
    ReadTwo(Lead2(c), Last6(c), rest);
  }

  lemma DecodeEncodedThree(c: Scalar, rest: seq<Byte>)
    requires 0x800 <= c < 0x10000
    ensures DecodeOne(EncodePoint(c) + rest) == (c, 3)
  {
    hide DecodeOne, IsCont, Value3, Lead3, Mid6, Last6;
    EncodedThree(c);
    ReadThree(Lead3(c), Mid6(c), Last6(c), rest);
  }

  lemma DecodeEncodedFour(c: Scalar, rest: seq<Byte>)
    requires 0x10000 <= c
    ensures DecodeOne(EncodePoint(c) + rest) == (c, 4)
  {
    hide DecodeOne, IsCont, Value4, Lead4, Top6, Mid6, Last6;
    EncodedFour(c);
    ReadFour(Lead4(c), Top6(c), Mid6(c), Last6(c), rest);
  }

  /** The lead byte tells the length, the rest are continuation bytes, and the bits put together are the code point. */
  lemma EncodedTwo(c: bv32)
    requires 0x80 <= c < 0x800
    ensures 0xc2 <= Lead2(c) < 0xe0 && IsCont(Last6(c)) && Value2(Lead2(c), Last6(c)) == c
  {
  }

  lemma EncodedThree(c: bv32)
    requires 0x800 <= c < 0x10000
    ensures 0xe0 <= Lead3(c) < 0xf0 && IsCont(Mid6(c)) && IsCont(Last6(c)) && Value3(Lead3(c), Mid6(c), Last6(c)) == c
  {
  }

  lemma EncodedFour(c: bv32)
    requires 0x10000 <= c < 0x110000
    ensures 0xf0 <= Lead4(c) < 0xf5 && IsCont(Top6(c)) && IsCont(Mid6(c)) && IsCont(Last6(c))
    ensures Value4(Lead4(c), Top6(c), Mid6(c), Last6(c)) == c
  {
    FourApart(c);
  }

  lemma FourApart(c: bv32)
    requires 0x10000 <= c < 0x110000
    ensures var x, y, z, w := 0xf0 | (c >> 18), 0x80 | ((c >> 12) & 63), 0x80 | ((c >> 6) & 63), 0x80 | (c & 63);
      && 0xf0 <= x < 0xf5 && y & 0xc0 == 0x80 && z & 0xc0 == 0x80 && w & 0xc0 == 0x80
      && ((x & 7) << 18) | ((y & 63) << 12) | ((z & 63) << 6) | (w & 63) == c
  {
  }

  lemma DecodeEncodedOne(c: Scalar, rest: seq<Byte>)
    requires c < 0x80
    ensures DecodeOne(EncodePoint(c) + rest) == (c, 1)
  {
    hide IsCont, Value2, Value3, Value4;
    assert ([c] + rest)[0] == c;
  }

  /** Reading what was written for one code point gives it back, whatever follows. */
  lemma DecodeEncoded(c: Scalar, rest: seq<Byte>)
    ensures DecodeOne(EncodePoint(c) + rest) == (c, |EncodePoint(c)|)
  {
    hide DecodeOne, Lead2, Lead3, Lead4, Top6, Mid6, Last6;
    if c >= 0x10000 { DecodeEncodedFour(c, rest); }
    else if c >= 0x800 { DecodeEncodedThree(c, rest); }
    else if c >= 0x80 { DecodeEncodedTwo(c, rest); }
    else { DecodeEncodedOne(c, rest); }
  }

  lemma {:induction false} DecodeEncodedAll(ps: seq<Scalar>)
    ensures DecodePoints(EncodePoints(ps)) == ps
  {
    if ps != [] {
      var head, tail := EncodePoint(ps[0]), EncodePoints(ps[1..]);
      DecodeEncoded(ps[0], tail);
      DecodeEncodedAll(ps[1..]);
      assert (head + tail)[|head|..] == tail;
    }
  }

  /** One byte order mark at the start of a string. */
  function DropMarkUnit(s: seq<Unit>): seq<Unit> {
    if s != [] && s[0] == 0xfeff then s[1..] else s
  }

  lemma DropMarkUnits(ps: seq<Scalar>)
    ensures Units(DropMark(ps)) == DropMarkUnit(Units(ps))
  {
    if ps != [] {
      HeadUnit(ps[0]);
      if ps[0] == 0xfeff { assert Units(ps)[1..] == Units(ps[1..]); }
    }
  }

  lemma HeadUnit(c: Scalar)
    ensures FromPoint(c)[0] == 0xfeff <==> c == 0xfeff
  {
    if c >= 0x10000 {
      UnpairRange(c);
      hide HighBits, LowBits;
    }
  }

  /** Encoding and decoding any string gives it back with lone surrogates replaced by U+FFFD and
      one leading U+FEFF dropped. */
  lemma DecodeAfterEncode(s: seq<Unit>)
    ensures Decode(Encode(s)) == DropMarkUnit(Scrub(s))
  {
    DecodeEncodedAll(Points(s));
    DropMarkUnits(Points(s));
    UnitsPoints(s);
  }

  // ---------------------------------------------------------------- decode, then encode

  predicate Tail(b: seq<Byte>, k: nat) {
    k < |b| && 0x80 <= b[k] <= 0xbf
  }

  /** The length of the well-formed UTF-8 character at the head of `b`, 0 when there is none:
      the grammar of section 4 of RFC 3629. */
  function CharLength(b: seq<Byte>): (n: nat)
    ensures n <= |b| && n <= 4
  {
    if b == [] then 0
    else if b[0] <= 0x7f then 1
    else if 0xc2 <= b[0] <= 0xdf && Tail(b, 1) then 2
    else if b[0] == 0xe0 && Tail(b, 1) && b[1] >= 0xa0 && Tail(b, 2) then 3
    else if 0xe1 <= b[0] <= 0xec && Tail(b, 1) && Tail(b, 2) then 3
    else if b[0] == 0xed && Tail(b, 1) && b[1] <= 0x9f && Tail(b, 2) then 3
    else if 0xee <= b[0] <= 0xef && Tail(b, 1) && Tail(b, 2) then 3
    else if b[0] == 0xf0 && Tail(b, 1) && b[1] >= 0x90 && Tail(b, 2) && Tail(b, 3) then 4
    else if 0xf1 <= b[0] <= 0xf3 && Tail(b, 1) && Tail(b, 2) && Tail(b, 3) then 4
    else if b[0] == 0xf4 && Tail(b, 1) && b[1] <= 0x8f && Tail(b, 2) && Tail(b, 3) then 4
    else 0
  }

  predicate WellFormed(b: seq<Byte>)
    decreases |b|
  {
    b == [] || (CharLength(b) > 0 && WellFormed(b[CharLength(b)..]))
  }

  predicate StartsWithMark(b: seq<Byte>) {
    |b| >= 3 && b[0] == 0xef && b[1] == 0xbb && b[2] == 0xbf
  }

  lemma TailIsCont(x: bv32)
    requires x < 0x100
    ensures IsCont(x) <==> 0x80 <= x <= 0xbf
  {
  }

  lemma TwoBits(x: bv32, y: bv32)
    requires 0xc2 <= x <= 0xdf && 0x80 <= y <= 0xbf
    ensures var v := Value2(x, y); 0x80 <= v && Lead2(v) == x && Last6(v) == y
  {
  }

  lemma ThreeBits(x: bv32, y: bv32, z: bv32)
    requires 0xe0 <= x <= 0xef && 0x80 <= y <= 0xbf && 0x80 <= z <= 0xbf
    ensures var v := Value3(x, y, z);
      && (v >= 0x800 <==> x != 0xe0 || y >= 0xa0)
      && (0xd800 <= v <= 0xdfff <==> x == 0xed && y > 0x9f)
      && Lead3(v) == x && Mid6(v) == y && Last6(v) == z
  {
    ThreeTogether(x, y, z);
  }

  lemma ThreeTogether(x: bv32, y: bv32, z: bv32)
    requires 0xe0 <= x <= 0xef && 0x80 <= y <= 0xbf && 0x80 <= z <= 0xbf
    ensures var v := ((x & 15) << 12) | ((y & 63) << 6) | (z & 63);
      && (v >= 0x800 <==> x != 0xe0 || y >= 0xa0)
      && (0xd800 <= v <= 0xdfff <==> x == 0xed && y > 0x9f)
      && 0xe0 | (v >> 12) == x && 0x80 | ((v >> 6) & 63) == y && 0x80 | (v & 63) == z
  {
  }

  lemma FourBits(x: bv32, y: bv32, z: bv32, w: bv32)
    requires 0xf0 <= x <= 0xf4 && 0x80 <= y <= 0xbf && 0x80 <= z <= 0xbf && 0x80 <= w <= 0xbf
    ensures var v := Value4(x, y, z, w);
      && (v >= 0x10000 <==> x != 0xf0 || y >= 0x90)
      && (v <= 0x10ffff <==> x != 0xf4 || y <= 0x8f)
      && Lead4(v) == x && Top6(v) == y && Mid6(v) == z && Last6(v) == w
  {
  }

  /** A well-formed character is read whole and written back byte for byte. */
  ghost predicate ReadsBack(b: seq<Byte>) {
    b != [] &&
    var (c, n) := DecodeOne(b);
    n == CharLength(b) && EncodePoint(c) == b[..n] && (c == 0xfeff <==> StartsWithMark(b))
  }

  /** Anything else costs one byte and is read as U+FFFD. */
  predicate Malformed(b: seq<Byte>) {
    b != [] && CharLength(b) == 0 && DecodeOne(b) == (0xfffd, 1) && !StartsWithMark(b)
  }

  lemma OneTwo(b: seq<Byte>)
    requires b != [] && b[0] >= 0x80 && b[0] < 0xe0
    ensures ReadsBack(b) || Malformed(b)
  {
    hide IsCont, Value2, Value3, Value4, Lead2, Lead3, Lead4, Top6, Mid6, Last6;
    if |b| > 1 {
      TailIsCont(b[1]);
      if 0xc2 <= b[0] && Tail(b, 1) {
        TwoBits(b[0], b[1]);
        assert b[..2] == [b[0], b[1]];
      }
    }
  }

  lemma OneThree(b: seq<Byte>)
    requires b != [] && b[0] >= 0xe0 && b[0] < 0xf0
    ensures ReadsBack(b) || Malformed(b)
  {
    hide IsCont, Value2, Value3, Value4, Lead2, Lead3, Lead4, Top6, Mid6, Last6;
    if |b| > 1 { TailIsCont(b[1]); }
    if |b| > 2 { TailIsCont(b[2]); }
    if Tail(b, 1) && Tail(b, 2) {
      OneThreeTails(b);
    } else {
      assert Malformed(b);
    }
  }

  /** Three bytes with two tails: their payload, and what the decoder makes of it. */
  lemma ThreeValue(b: seq<Byte>) returns (v: bv32)
    requires b != [] && b[0] >= 0xe0 && b[0] < 0xf0 && Tail(b, 1) && Tail(b, 2)
    ensures v < 0x10000
    ensures v >= 0x800 <==> b[0] != 0xe0 || b[1] >= 0xa0
    ensures 0xd800 <= v <= 0xdfff <==> b[0] == 0xed && b[1] > 0x9f
    ensures b[..3] == [Lead3(v), Mid6(v), Last6(v)]
    ensures if v >= 0x800 && (v < 0xd800 || v > 0xdfff) then DecodeOne(b).0 == v && DecodeOne(b).1 == 3 else DecodeOne(b) == (0xfffd, 1)
  {
    hide IsCont, Value2, Value3, Value4, Lead2, Lead3, Lead4, Top6, Mid6, Last6;
    TailIsCont(b[1]);
    TailIsCont(b[2]);
    ThreeBits(b[0], b[1], b[2]);
    v := Value3(b[0], b[1], b[2]);
  }

  lemma OneThreeTails(b: seq<Byte>)
    requires b != [] && b[0] >= 0xe0 && b[0] < 0xf0 && Tail(b, 1) && Tail(b, 2)
    ensures ReadsBack(b) || Malformed(b)
  {
    hide DecodeOne, Lead3, Lead4, Top6, Mid6, Last6;
    var v := ThreeValue(b);
    MarkBits(v);
    assert b[0] == b[..3][0] && b[1] == b[..3][1] && b[2] == b[..3][2];
  }

  lemma MarkBits(v: bv32)
    requires v < 0x10000
    ensures v == 0xfeff <==> Lead3(v) == 0xef && Mid6(v) == 0xbb && Last6(v) == 0xbf
  {
  }

  lemma OneFour(b: seq<Byte>)
    requires b != [] && b[0] >= 0xf0
    ensures ReadsBack(b) || Malformed(b)
  {
    hide IsCont, Value2, Value3, Value4, Lead2, Lead3, Lead4, Top6, Mid6, Last6;
    if |b| > 1 { TailIsCont(b[1]); }
    if |b| > 2 { TailIsCont(b[2]); }
    if |b| > 3 { TailIsCont(b[3]); }
    if b[0] <= 0xf4 && Tail(b, 1) && Tail(b, 2) && Tail(b, 3) {
      OneFourTails(b);
    } else {
      assert Malformed(b);
    }
  }

  lemma FirstFour(b: seq<Byte>)
    requires |b| >= 4
    ensures b[..4] == [b[0], b[1], b[2], b[3]]
  {
  }

  lemma DecodesFour(b: seq<Byte>)
    requires |b| >= 4 && b[0] >= 0xf0 && b[0] <= 0xf4 && IsCont(b[1]) && IsCont(b[2]) && IsCont(b[3])
    ensures var v := Value4(b[0], b[1], b[2], b[3]); DecodeOne(b) == if v >= 0x10000 && v <= 0x10ffff then (v, 4) else (0xfffd, 1)
  {
    hide IsCont, Value2, Value3, Value4;
  }

  lemma FourValue(b: seq<Byte>) returns (v: bv32)
    requires b != [] && b[0] >= 0xf0 && b[0] <= 0xf4 && Tail(b, 1) && Tail(b, 2) && Tail(b, 3)
    ensures v >= 0x10000 <==> b[0] != 0xf0 || b[1] >= 0x90
    ensures v <= 0x10ffff <==> b[0] != 0xf4 || b[1] <= 0x8f
    ensures b[..4] == [Lead4(v), Top6(v), Mid6(v), Last6(v)]
    ensures if v >= 0x10000 && v <= 0x10ffff then DecodeOne(b).0 == v && DecodeOne(b).1 == 4 else DecodeOne(b) == (0xfffd, 1)
  {
    hide DecodeOne, IsCont, Value4, Lead4, Top6, Mid6, Last6;
    TailIsCont(b[1]);
    TailIsCont(b[2]);
    TailIsCont(b[3]);
    FourBits(b[0], b[1], b[2], b[3]);
    FirstFour(b);
    DecodesFour(b);
    v := Value4(b[0], b[1], b[2], b[3]);
  }

  lemma OneFourTails(b: seq<Byte>)
    requires b != [] && b[0] >= 0xf0 && b[0] <= 0xf4 && Tail(b, 1) && Tail(b, 2) && Tail(b, 3)
    ensures ReadsBack(b) || Malformed(b)
  {
    hide DecodeOne, Lead3, Lead4, Top6, Mid6, Last6;
    var v := FourValue(b);
  }

  /** The decoder reads a character exactly where the grammar has one. */
  lemma ReadOne(b: seq<Byte>)
    requires b != []
    ensures ReadsBack(b) || Malformed(b)
  {
    hide IsCont, Value2, Value3, Value4, Lead2, Lead3, Lead4, Top6, Mid6, Last6;
    if b[0] < 0x80 {
      assert b[..1] == [b[0]];
    } else if b[0] < 0xe0 {
      OneTwo(b);
    } else if b[0] < 0xf0 {
      OneThree(b);
    } else {
      OneFour(b);
    }
  }

  /** How many bytes of `b` are replaced. */
  function Replaced(b: seq<Byte>): nat
    decreases |b|
  {
    if b == [] then 0
    else (if CharLength(b) == 0 then 1 else 0) + Replaced(b[DecodeOne(b).1..])
  }

  /** Writing back what was read grows by two bytes for each replaced one, and changes nothing
      when there is none. */
  lemma {:induction false} EncodeDecoded(b: seq<Byte>)
    ensures |EncodePoints(DecodePoints(b))| == |b| + 2 * Replaced(b)
    ensures Replaced(b) == 0 <==> WellFormed(b)
    ensures WellFormed(b) ==> EncodePoints(DecodePoints(b)) == b
    decreases |b|
  {
    hide DecodeOne, EncodePoint, CharLength;
    if b != [] {
      ReadOne(b);
      var (c, n) := DecodeOne(b);
      if Malformed(b) { ReplacementLength(); }
      EncodeDecoded(b[n..]);
      EncodeCons(c, DecodePoints(b[n..]));
      assert b == b[..n] + b[n..];
    }
  }

  lemma ReplacementLength()
    ensures |EncodePoint(0xfffd)| == 3 && |EncodePoint(0xfeff)| == 3
  {
  }

  lemma PointsOne(c: Unit, rest: seq<Unit>)
    requires !High(c) && !Low(c)
    ensures Points([c] + rest) == [c] + Points(rest)
  {
    assert ([c] + rest)[1..] == rest;
  }

  lemma PointsPair(h: Unit, l: Unit, rest: seq<Unit>)
    requires High(h) && Low(l)
    ensures Points([h, l] + rest) == [Pair(h, l)] + Points(rest)
  {
    assert ([h, l] + rest)[2..] == rest;
  }

  lemma PointsOf(c: Scalar, rest: seq<Unit>)
    ensures Points(FromPoint(c) + rest) == [c] + Points(rest)
  {
    if c < 0x10000 {
      PointsOne(c, rest);
    } else {
      UnpairRange(c);
      hide PairBits, HighBits, LowBits;
      PointsPair(HighBits(c), LowBits(c), rest);
    }
  }

  /** A string of scalar values reads back as those values. */
  lemma {:induction false} PointsUnits(ps: seq<Scalar>)
    ensures Points(Units(ps)) == ps
  {
    if ps != [] {
      PointsUnits(ps[1..]);
      PointsOf(ps[0], Units(ps[1..]));
    }
  }

  /** Decoding and encoding bytes gives them back exactly when they are well-formed UTF-8 without
      a leading byte order mark. */
  lemma EncodeAfterDecode(b: seq<Byte>)
    ensures Encode(Decode(b)) == b <==> WellFormed(b) && !StartsWithMark(b)
  {
    hide DecodeOne, EncodePoint, CharLength;
    var ps := DecodePoints(b);
    PointsUnits(DropMark(ps));
    EncodeDecoded(b);
    if b != [] {
      ReadOne(b);
      assert ps[0] == DecodeOne(b).0;
      if ps[0] == 0xfeff {
        EncodeCons(ps[0], ps[1..]);
        assert ps == [ps[0]] + ps[1..];
        ReplacementLength();
      }
    }
  }
}
