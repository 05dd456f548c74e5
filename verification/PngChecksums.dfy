/** The two checksums of the PNG writer (astro/src/blurhash-decoder.ts): CRC-32 as division of
    polynomials over GF(2), Adler-32 as its closed-form sums. */
module PngChecksums {
  import opened Common

  type Byte = x: nat | x < 256

  // ---------------------------------------------------------------- words of bits

  /** A 32-bit integer, lowest bit first. Read as a polynomial over GF(2), its first bit is the
      coefficient of the highest power: the CRC register is reflected. */
  type Bits = seq<bool>

  function Zeros(n: nat): (z: Bits)
    ensures |z| == n && forall k | 0 <= k < n :: !z[k]
  {
    seq(n, _ => false)
  }

  /** `a ^ b` */
  function Xor(a: Bits, b: Bits): (c: Bits)
    requires |a| == |b|
    ensures |c| == |a| && forall k | 0 <= k < |a| :: c[k] == (a[k] != b[k])
  {
    seq(|a|, k requires 0 <= k < |a| => a[k] != b[k])
  }

  /** The lowest `k` bits of a number. */
  function BitsOf(n: nat, k: nat): (b: Bits)
    ensures |b| == k
  {
    if k == 0 then [] else [n % 2 == 1] + BitsOf(n / 2, k - 1)
  }

  function Value(b: Bits): nat {
    if b == [] then 0 else (if b[0] then 1 else 0) + 2 * Value(b[1..])
  }

  function Pow2(n: nat): nat {
    if n == 0 then 1 else 2 * Pow2(n - 1)
  }

  lemma {:induction false} ValueBound(b: Bits)
    ensures Value(b) < Pow2(|b|)
  {
    if b != [] {
      ValueBound(b[1..]);
    }
  }

  lemma PowerOf32()
    ensures Pow2(32) == 0x1_0000_0000
  {
    PowerOf8(0);
    PowerOf8(8);
    PowerOf8(16);
    PowerOf8(24);
  }

  lemma PowerOf8(n: nat)
    ensures Pow2(n + 8) == 256 * Pow2(n)
  {
    assert Pow2(n + 8) == 4 * Pow2(n + 6);
    assert Pow2(n + 6) == 4 * Pow2(n + 4);
    assert Pow2(n + 4) == 4 * Pow2(n + 2);
  }

  const ONES: Bits := BitsOf(0xffffffff, 32)

  function Polynomial(): (b: Bits)
    ensures |b| == 32
  {
    BitsOf(0xedb88320, 32)
  }

  // ---------------------------------------------------------------- CRC-32

  /** Shift right by one, and apply the reversed generator when a one was shifted out. */
  function Step(c: Bits): (d: Bits)
    requires |c| == 32
    ensures |d| == 32
  {
    Xor(c[1..] + [false], if c[0] then Polynomial() else Zeros(32))
  }

  function Steps(c: Bits, k: nat): (d: Bits)
    requires |c| == 32
    ensures |d| == 32
  {
    if k == 0 then c else Step(Steps(c, k - 1))
  }

  /** Mix the byte in, then eight steps. */
  function TakeByte(c: Bits, b: Byte): (d: Bits)
    requires |c| == 32
    ensures |d| == 32
  {
    Steps(Xor(c, BitsOf(b, 8) + Zeros(24)), 8)
  }

  function Register(data: seq<Byte>): (c: Bits)
    ensures |c| == 32
    decreases |data|
  {
    if data == [] then ONES else TakeByte(Register(data[..|data| - 1]), data[|data| - 1])
  }

  function Crc32(data: seq<Byte>): (crc: nat)
    ensures crc < 0x1_0000_0000
  {
    var c := Xor(Register(data), ONES);
    ValueBound(c);
    PowerOf32();
    Value(c)
  }

  method ComputeCrc32(buf: seq<Byte>) returns (crc: nat)
    ensures crc == Crc32(buf)
  {
    var c := ONES;
    for i := 0 to |buf|
      invariant |c| == 32 && c == Register(buf[..i])
    {
      assert buf[..i + 1][..i] == buf[..i];
      c := Xor(c, BitsOf(buf[i], 8) + Zeros(24));
      ghost var start := c;
      for k := 0 to 8
        invariant |c| == 32 && c == Steps(start, k)
      {
        c := Step(c);
      }
    }
    assert buf[..|buf|] == buf;
    crc := Value(Xor(c, ONES));
  }

  // ---------------------------------------------------------------- division over GF(2)

  /** The message as coefficients: each byte's lowest bit first. */
  function MessageBits(data: seq<Byte>): (b: Bits)
    ensures |b| == 8 * |data|
    decreases |data|
  {
    if data == [] then [] else MessageBits(data[..|data| - 1]) + BitsOf(data[|data| - 1], 8)
  }

  /** What is divided, highest power first: the message times x^32, with the first 32 coefficients complemented. */
  function Dividend(data: seq<Byte>): (d: Bits)
    ensures |d| == 8 * |data| + 32
  {
    Xor(Trues(32) + Zeros(8 * |data|), MessageBits(data) + Zeros(32))
  }

  function Trues(n: nat): (b: Bits)
    ensures |b| == n && forall k | 0 <= k < n :: b[k]
  {
    seq(n, _ => true)
  }

  function Complement(b: Bits): (c: Bits)
    ensures |c| == |b| && forall k | 0 <= k < |b| :: c[k] == !b[k]
  {
    seq(|b|, k requires 0 <= k < |b| => !b[k])
  }

  lemma {:induction false} MessageAt(data: seq<Byte>, i: nat, j: nat)
    requires i < |data| && j < 8
    ensures MessageBits(data)[8 * i + j] == BitsOf(data[i], 8)[j]
    decreases |data|
  {
    hide BitsOf;
    if i < |data| - 1 { MessageAt(data[..|data| - 1], i, j); }
  }

  lemma OnesAre()
    ensures |ONES| == 32 && ONES == Trues(32)
  {
    hide BitsOf;
    FourBits(0xffffffff, 28);
    FourBits(0xfffffff, 24);
    FourBits(0xffffff, 20);
    FourBits(0xfffff, 16);
    FourBits(0xffff, 12);
    FourBits(0xfff, 8);
    FourBits(0xff, 4);
    FourBits(0xf, 0);
    NoBits(0);
  }

  /** The powers of x in the generator (section 3.4 of RFC 2083). */
  predicate Power(n: nat) {
    n in {32, 26, 23, 22, 16, 12, 11, 10, 8, 7, 5, 4, 2, 1, 0}
  }

  /** The generator's coefficients, highest power first. */
  function Generator(): (g: Bits)
    ensures |g| == 33
  {
    seq(33, k requires 0 <= k < 33 => Power(32 - k))
  }

  /** The reversed constant of the code is the generator without its highest power. */
  lemma GeneratorIs()
    ensures Generator() == [true] + Polynomial()
  {
    hide BitsOf, Power;
    PolynomialBits();
    Powers();
    assert Generator()[0] == Power(32);
  }

  lemma PolynomialBits()
    ensures Polynomial() == [false, false, false, false, false, true, false, false, true, true, false, false, false, false, false, true]
      + [false, false, false, true, true, true, false, true, true, false, true, true, false, true, true, true]
  {
    hide BitsOf;
    FourBits(0xedb88320, 28);
    FourBits(0xedb8832, 24);
    FourBits(0xedb883, 20);
    FourBits(0xedb88, 16);
    LowBits(0xedb8);
    var a, b, c, d := [false, false, false, false], [false, true, false, false], [true, true, false, false], [false, false, false, true];
    var rest := BitsOf(0xedb8, 16);
    assert Polynomial() == a + (b + (c + (d + rest)));
  }

  lemma LowBits(n: nat)
    requires n == 0xedb8
    ensures BitsOf(n, 16) == [false, false, false, true, true, true, false, true, true, false, true, true, false, true, true, true]
  {
    hide BitsOf;
    FourBits(0xedb8, 12);
    FourBits(0xedb, 8);
    FourBits(0xed, 4);
    FourBits(0xe, 0);
    NoBits(0);
  }

  lemma Powers()
    ensures [Power(31), Power(30), Power(29), Power(28), Power(27), Power(26), Power(25), Power(24),
             Power(23), Power(22), Power(21), Power(20), Power(19), Power(18), Power(17), Power(16)]
      == [false, false, false, false, false, true, false, false, true, true, false, false, false, false, false, true]
    ensures [Power(15), Power(14), Power(13), Power(12), Power(11), Power(10), Power(9), Power(8),
             Power(7), Power(6), Power(5), Power(4), Power(3), Power(2), Power(1), Power(0)]
      == [false, false, false, true, true, true, false, true, true, false, true, true, false, true, true, true]
    ensures Power(32)
  {
  }

  lemma FourBits(n: nat, k: nat)
    ensures BitsOf(n, k + 4) == [n % 2 == 1, n / 2 % 2 == 1, n / 4 % 2 == 1, n / 8 % 2 == 1] + BitsOf(n / 16, k)
  {
    assert n / 2 / 2 == n / 4 && n / 4 / 2 == n / 8 && n / 8 / 2 == n / 16;
    OneBit(n, k + 3);
    OneBit(n / 2, k + 2);
    OneBit(n / 4, k + 1);
    OneBit(n / 8, k);
    hide BitsOf;
    var a, b, c, d, rest := n % 2 == 1, n / 2 % 2 == 1, n / 4 % 2 == 1, n / 8 % 2 == 1, BitsOf(n / 16, k);
    assert [a] + ([b] + ([c] + ([d] + rest))) == [a, b, c, d] + rest;
  }

  lemma OneBit(n: nat, k: nat)
    ensures BitsOf(n, k + 1) == [n % 2 == 1] + BitsOf(n / 2, k)
  {
  }

  lemma NoBits(n: nat)
    ensures BitsOf(n, 0) == []
  {
  }

  /** Bit `j` of a number is the digit of its `j`-th power of two. */
  lemma {:induction false} BitAt(n: nat, k: nat, j: nat) returns (high: nat, low: nat)
    requires j < k
    ensures low < Pow2(j) && n == (2 * high + if BitsOf(n, k)[j] then 1 else 0) * Pow2(j) + low
    decreases k
  {
    if j == 0 {
      high, low := n / 2, 0;
    } else {
      var rest;
      high, rest := BitAt(n / 2, k - 1, j - 1);
      low := 2 * rest + n % 2;
      Doubled(2 * high + if BitsOf(n, k)[j] then 1 else 0, Pow2(j - 1));
    }
  }

  lemma Doubled(x: nat, p: nat)
    ensures x * (2 * p) == 2 * (x * p)
  {
  }

  /** A number and its bits give each other. */
  lemma {:induction false} ValueOf(n: nat, k: nat)
    requires n < Pow2(k)
    ensures Value(BitsOf(n, k)) == n
    decreases k
  {
    if k > 0 { ValueOf(n / 2, k - 1); }
  }

  lemma {:induction false} BitsBack(b: Bits)
    ensures BitsOf(Value(b), |b|) == b
  {
    if b != [] {
      BitsBack(b[1..]);
      assert Value(b) / 2 == Value(b[1..]);
    }
  }

  /** The product of `q` and the generator, by Horner's rule. */
  function Product(q: Bits): (p: Bits)
    ensures |p| == |q| + 32
    decreases |q|
  {
    if q == [] then Zeros(32)
    else
      var n := |q| - 1;
      Xor(Product(q[..n]) + [false], Multiple(n, q[n]))
  }

  /** The generator or nothing, behind `n` zeros. */
  function Multiple(n: nat, once: bool): (m: Bits)
    ensures |m| == n + 33
  {
    Zeros(n) + if once then Generator() else Zeros(33)
  }

  lemma MultipleAt(n: nat, once: bool, k: nat)
    requires k < n + 33
    ensures Multiple(n, once)[k] == (k >= n && once && Generator()[k - n])
  {
    hide Generator;
    if k < n {
      assert Multiple(n, once)[k] == Zeros(n)[k];
    } else if !once {
      assert Multiple(n, once)[k] == Zeros(33)[k - n];
    }
  }

  lemma StepAt(c: Bits, k: nat)
    requires |c| == 32 && k < 32
    ensures Step(c)[k] == ((k < 31 && c[k + 1]) != (c[0] && Polynomial()[k]))
  {
    hide Polynomial;
  }

  /** `d` divided by the generator is `q`, and leaves the remainder `r`. */
  predicate Divides(d: Bits, q: Bits, r: Bits) {
    |r| == 32 && |d| == |q| + 32 && d == Xor(Product(q), Zeros(|q|) + r)
  }

  /** One step of the register is one step of the division. */
  lemma DivideStep(d: Bits, q: Bits, c: Bits)
    requires Divides(d, q, c)
    ensures Divides(d + [false], q + [c[0]], Step(c))
  {
    hide Product, Step, Multiple, Polynomial, Generator;
    GeneratorIs();
    var n := |q|;
    var more := q + [c[0]];
    assert more[..n] == q;
    ProductNext(more);
    var rest := Zeros(n + 1) + Step(c);
    forall k | 0 <= k < n + 33
      ensures (d + [false])[k] == (Product(more)[k] != rest[k])
    {
      if k > n { StepAt(c, k - n - 1); }
      if k < n + 32 { assert d[k] == (Product(q)[k] != (Zeros(n) + c)[k]); }
    }
    assert d + [false] == Xor(Product(more), rest);
  }

  lemma {:induction false} DivideSteps(d: Bits, q: Bits, c: Bits, k: nat) returns (more: Bits)
    requires |c| == 32 && Divides(d, q, c)
    ensures |more| == |q| + k && Divides(d + Zeros(k), more, Steps(c, k))
    decreases k
  {
    hide Divides, Product, Step;
    if k == 0 {
      assert d + Zeros(0) == d;
      more := q;
    } else {
      var r := DivideSteps(d, q, c, k - 1);
      DivideStep(d + Zeros(k - 1), r, Steps(c, k - 1));
      assert d + Zeros(k - 1) + [false] == d + Zeros(k);
      more := r + [Steps(c, k - 1)[0]];
    }
  }

  /** Adding to the register adds to the end of the dividend. */
  lemma DivideXor(d: Bits, q: Bits, c: Bits, b: Bits)
    requires Divides(d, q, c) && |b| == 32
    ensures Divides(Xor(d, Zeros(|q|) + b), q, Xor(c, b))
  {
    assert Xor(d, Zeros(|q|) + b) == Xor(Product(q), Zeros(|q|) + Xor(c, b));
  }

  lemma DividendNext(data: seq<Byte>, b: Byte)
    ensures Dividend(data + [b]) == Xor(Dividend(data), Zeros(8 * |data|) + (BitsOf(b, 8) + Zeros(24))) + Zeros(8)
  {
    assert (data + [b])[..|data|] == data;
    hide BitsOf, MessageBits;
  }

  lemma {:induction false} RegisterDivides(data: seq<Byte>) returns (q: Bits)
    ensures |q| == 8 * |data| && Divides(Dividend(data), q, Register(data))
    decreases |data|
  {
    hide Product, BitsOf, Steps;
    if data == [] {
      q := [];
      DividesStart();
    } else {
      var n := |data| - 1;
      var rest, b := data[..n], data[n];
      q := RegisterDivides(rest);
      var bits := BitsOf(b, 8) + Zeros(24);
      DivideXor(Dividend(rest), q, Register(rest), bits);
      assert data == rest + [b];
      DividendNext(rest, b);
      q := DivideSteps(Xor(Dividend(rest), Zeros(|q|) + bits), q, Xor(Register(rest), bits), 8);
    }
  }

  lemma DividesStart()
    ensures Divides(Dividend([]), [], Register([]))
  {
    hide BitsOf;
    OnesAre();
    assert Trues(32) + Zeros(0) == ONES && MessageBits([]) + Zeros(32) == Zeros(32) && Zeros(0) + ONES == ONES;
    assert Xor(Zeros(32), ONES) == Xor(ONES, Zeros(32));
  }

  // ---------------------------------------------------------------- the remainder is the only one

  lemma {:induction false} ProductXor(p: Bits, q: Bits)
    requires |p| == |q|
    ensures Product(Xor(p, q)) == Xor(Product(p), Product(q))
    decreases |p|
  {
    hide Product, Multiple, Generator;
    if p == [] {
      ProductZero([]);
    } else {
      var n, sum := |p| - 1, Xor(p, q);
      ProductXor(p[..n], q[..n]);
      assert sum[..n] == Xor(p[..n], q[..n]);
      ProductNext(p);
      ProductNext(q);
      ProductNext(sum);
    }
  }

  lemma ProductUnfold(q: Bits)
    requires q != []
    ensures var n := |q| - 1; Product(q) == Xor(Product(q[..n]) + [false], Multiple(n, q[n]))
  {
    hide Multiple;
  }

  lemma ProductNext(q: Bits)
    requires q != []
    ensures var n := |q| - 1;
      && (forall k | 0 <= k < n + 32 :: Product(q)[k] == (Product(q[..n])[k] != (k >= n && q[n] && Generator()[k - n])))
      && Product(q)[n + 32] == (q[n] && Generator()[32])
  {
    hide Generator, Multiple, Product;
    var n := |q| - 1;
    ProductUnfold(q);
    forall k | 0 <= k < n + 33
      ensures Product(q)[k] == ((k < n + 32 && Product(q[..n])[k]) != (k >= n && q[n] && Generator()[k - n]))
    {
      MultipleAt(n, q[n], k);
    }
  }

  /** The first coefficient of a quotient shows in the product. */
  lemma {:induction false} ProductLeads(q: Bits, j: nat)
    requires j < |q| && q[j] && forall k | 0 <= k < j :: !q[k]
    ensures Product(q)[j] && forall k | 0 <= k < j :: !Product(q)[k]
    decreases |q|
  {
    hide Product, Generator;
    var n := |q| - 1;
    ProductNext(q);
    if j < n {
      ProductLeads(q[..n], j);
    } else {
      GeneratorLeads();
      ProductZero(q[..n]);
    }
  }

  lemma GeneratorLeads()
    ensures Generator()[0]
  {
    assert Power(32);
  }

  lemma {:induction false} ProductZero(q: Bits)
    requires forall k | 0 <= k < |q| :: !q[k]
    ensures Product(q) == Zeros(|q| + 32)
    decreases |q|
  {
    if q != [] {
      ProductNext(q);
      ProductZero(q[..|q| - 1]);
    }
  }

  lemma FirstTrue(q: Bits) returns (j: nat)
    ensures j <= |q| && (j < |q| ==> q[j]) && forall k | 0 <= k < j :: !q[k]
  {
    j := 0;
    while j < |q| && !q[j]
      invariant j <= |q| && forall k | 0 <= k < j :: !q[k]
    {
      j := j + 1;
    }
  }

  /** A dividend has one quotient and one remainder. */
  lemma RemainderUnique(d: Bits, q1: Bits, r1: Bits, q2: Bits, r2: Bits)
    requires Divides(d, q1, r1) && Divides(d, q2, r2)
    ensures q1 == q2 && r1 == r2
  {
    var n := |q1|;
    var q := Xor(q1, q2);
    ProductXor(q1, q2);
    forall k | 0 <= k < n + 32
      ensures Product(q)[k] == ((Zeros(n) + r1)[k] != (Zeros(n) + r2)[k])
    {
      assert d[k] == (Product(q1)[k] != (Zeros(n) + r1)[k]);
      assert d[k] == (Product(q2)[k] != (Zeros(n) + r2)[k]);
    }
    var j := FirstTrue(q);
    assert forall k | 0 <= k < n :: !Product(q)[k];
    if j < n {
      ProductLeads(q, j);
      assert false;
    }
    ProductZero(q);
    assert forall k | 0 <= k < n :: q1[k] == q2[k];
    forall k | 0 <= k < 32
      ensures r1[k] == r2[k]
    {
      assert !Product(q)[n + k];
    }
  }

  /** CRC-32 is the complement of the remainder that the message, taken as a polynomial over GF(2),
      leaves on division by the generator. */
  lemma Crc32IsRemainder(data: seq<Byte>, q: Bits, r: Bits)
    ensures exists quotient :: |quotient| == 8 * |data| && Divides(Dividend(data), quotient, Register(data))
    ensures Divides(Dividend(data), q, r) ==> Crc32(data) == Value(Complement(r))
  {
    hide *;
    var quotient := RegisterDivides(data);
    CrcIs(data);
    if Divides(Dividend(data), q, r) {
      RemainderUnique(Dividend(data), quotient, Register(data), q, r);
    }
  }

  lemma CrcIs(data: seq<Byte>)
    ensures Crc32(data) == Value(Complement(Register(data)))
  {
    hide Register, Value, BitsOf;
    OnesAre();
    assert Xor(Register(data), ONES) == Complement(Register(data));
  }

  // ---------------------------------------------------------------- Adler-32

  const MODULUS := 65521

  function Sum(data: seq<Byte>): nat
    decreases |data|
  {
    if data == [] then 0 else Sum(data[..|data| - 1]) + data[|data| - 1]
  }

  /** The sum of the bytes, each as often as it is followed by a byte or is one itself. */
  function WeightedSum(data: seq<Byte>): nat
    decreases |data|
  {
    if data == [] then 0 else WeightedSum(data[..|data| - 1]) + Sum(data)
  }

  /** Section 8 of RFC 1950, with both sums in closed form. */
  function Adler32(data: seq<Byte>): (r: nat)
    ensures r < 0x1_0000_0000
  {
    (|data| + WeightedSum(data)) % MODULUS * 65536 + (1 + Sum(data)) % MODULUS
  }

  /** With the numbers written out: the bytes summed up, and summed up as often as `Weighted` says. */
  lemma Adler32Is(data: seq<Byte>)
    ensures Adler32(data) == (|data| + Weighted(data, 0)) % 65521 * 65536 + (1 + Sum(data)) % 65521
  {
    WeightedIs(data);
  }

  lemma AddMod(x: nat, y: nat)
    ensures (x % MODULUS + y) % MODULUS == (x + y) % MODULUS
  {
    var q := x / MODULUS;
    assert x == q * MODULUS + x % MODULUS;
    ModAdd(q, x % MODULUS + y);
  }

  lemma {:induction false} ModAdd(q: nat, y: nat)
    ensures (q * MODULUS + y) % MODULUS == y % MODULUS
  {
    if q > 0 {
      ModAdd(q - 1, y);
      assert q * MODULUS + y == (q - 1) * MODULUS + y + MODULUS;
    }
  }

  method ComputeAdler32(buf: seq<Byte>) returns (r: nat)
    ensures r == Adler32(buf)
  {
    hide Sum, WeightedSum;
    AdlerStart();
    var a, b := 1, 0;
    for i := 0 to |buf|
      invariant a == (1 + Sum(buf[..i])) % MODULUS
      invariant b == (i + WeightedSum(buf[..i])) % MODULUS
    {
      assert buf[..i + 1][..i] == buf[..i];
      AdlerStep(buf[..i], buf[i], a, b);
      assert buf[..i + 1] == buf[..i] + [buf[i]];
      a := (a + buf[i]) % MODULUS;
      b := (b + a) % MODULUS;
    }
    assert buf[..|buf|] == buf;
    r := b * 65536 + a;
  }

  lemma AdlerStart()
    ensures Sum([]) == 0 && WeightedSum([]) == 0
  {
  }

  lemma AdlerStep(data: seq<Byte>, x: Byte, a: nat, b: nat)
    requires a == (1 + Sum(data)) % MODULUS && b == (|data| + WeightedSum(data)) % MODULUS
    ensures var more := data + [x];
      && (a + x) % MODULUS == (1 + Sum(more)) % MODULUS
      && (b + (a + x) % MODULUS) % MODULUS == (|more| + WeightedSum(more)) % MODULUS
  {
    var more := data + [x];
    assert more[..|data|] == data;
    AddMod(1 + Sum(data), x);
    var s := 1 + Sum(more);
    AddMod(s, b);
    AddMod(|data| + WeightedSum(data), s);
  }

  /** The `k`-th byte counts once for each position from it to the end. */
  function Weighted(data: seq<Byte>, n: nat): nat
    decreases |data|
  {
    if data == [] then 0 else Weighted(data[..|data| - 1], n + 1) + (n + 1) * data[|data| - 1]
  }

  lemma {:induction false} WeightedMore(data: seq<Byte>, n: nat)
    ensures Weighted(data, n + 1) == Weighted(data, n) + Sum(data)
    decreases |data|
  {
    if data != [] {
      WeightedMore(data[..|data| - 1], n + 1);
    }
  }

  lemma {:induction false} WeightedIs(data: seq<Byte>)
    ensures WeightedSum(data) == Weighted(data, 0)
    decreases |data|
  {
    if data != [] {
      WeightedIs(data[..|data| - 1]);
      WeightedMore(data[..|data| - 1], 0);
    }
  }
}
