/** Adler-32 as zlib computes it: the remainders are taken once for thousands of bytes. */
module Adler32 {
  import opened Bits

  const BASE := 65521
  const NMAX := 5552

  // ----- the definition (section 8.2 of RFC 1950)

  datatype Sums = Sums(a: nat, b: nat)

  /** One byte more: both sums are kept modulo the base. */
  function Step(s: Sums, c: byte): Sums {
    var a := (s.a + c) % BASE;
    Sums(a, (s.b + a) % BASE)
  }

  function Adler(s: Sums, buf: seq<byte>): Sums {
    if buf == [] then s else Step(Adler(s, buf[..|buf| - 1]), buf[|buf| - 1])
  }

  const START := Sums(1, 0)

  predicate Reduced(s: Sums) {
    s.a < BASE && s.b < BASE
  }

  /** How a checksum is stored: the first sum in the lower half, the second in the upper one. */
  function Joined(s: Sums): (r: nat)
    ensures Reduced(s) ==> r % 0x1_0000 == s.a && r / 0x1_0000 == s.b
  {
    s.a + 0x1_0000 * s.b
  }

  lemma {:induction false} AdlerReduced(s: Sums, buf: seq<byte>)
    requires Reduced(s)
    ensures Reduced(Adler(s, buf))
    decreases |buf|
  {
  }

  // ----- sums without remainders

  function Total(buf: seq<byte>): nat {
    if buf == [] then 0 else Total(buf[..|buf| - 1]) + buf[|buf| - 1]
  }

  /** The sum of the totals of all beginnings of the buffer. */
  function Totals(buf: seq<byte>): nat {
    if buf == [] then 0 else Totals(buf[..|buf| - 1]) + Total(buf)
  }

  function SumA(s: Sums, buf: seq<byte>): nat {
    s.a + Total(buf)
  }

  function SumB(s: Sums, buf: seq<byte>): nat {
    s.b + |buf| * s.a + Totals(buf)
  }

  lemma ModSum(x: nat, y: nat, c: nat)
    requires x % BASE == y % BASE
    ensures (x + c) % BASE == (y + c) % BASE
  {
    Congruent(x, y);
    var k := (x - y) / BASE;
    assert x + c - (y + c) == k * BASE;
    MultipleApart(x + c, y + c, k);
  }

  lemma Congruent(x: nat, y: nat)
    requires x % BASE == y % BASE
    ensures x - y == (x - y) / BASE * BASE
  {
  }

  lemma MultipleApart(x: nat, y: nat, k: int)
    requires x - y == k * BASE
    ensures x % BASE == y % BASE
  {
  }

  lemma ModAdd(x: nat, y: nat)
    ensures (x % BASE + y % BASE) % BASE == (x + y) % BASE
  {
    ModSum(x % BASE, x, y % BASE);
    ModSum(y % BASE, y, x);
  }

  /** The sums with the remainders taken at the end. */
  lemma {:induction false} Deferred(s: Sums, buf: seq<byte>)
    requires Reduced(s)
    ensures Adler(s, buf) == Sums(SumA(s, buf) % BASE, SumB(s, buf) % BASE)
    decreases |buf|
  {
    hide Step;
    if buf == [] {
      assert Total([]) == 0 && Totals([]) == 0;
    } else {
      hide SumA, SumB;
      var front, c := buf[..|buf| - 1], buf[|buf| - 1];
      Deferred(s, front);
      SumBNext(s, buf);
      StepDeferred(SumA(s, front), SumB(s, front), c);
    }
  }

  lemma StepDeferred(a: nat, b: nat, c: byte)
    ensures Step(Sums(a % BASE, b % BASE), c) == Sums((a + c) % BASE, (b + (a + c)) % BASE)
  {
    ModSum(a % BASE, a, c);
    ModAdd(b, a + c);
  }

  lemma SumBNext(s: Sums, buf: seq<byte>)
    requires buf != []
    ensures SumA(s, buf) == SumA(s, buf[..|buf| - 1]) + buf[|buf| - 1]
    ensures SumB(s, buf) == SumB(s, buf[..|buf| - 1]) + SumA(s, buf)
  {
    var n := |buf| - 1;
    assert |buf| * s.a == n * s.a + s.a;
  }

  // ----- the remainders

  /** The remainder with one step of the division by 65536, of which the remainder is 15. */
  function Chop(a: nat): (r: nat)
    ensures r % BASE == a % BASE && r <= 0xffff + 15 * (a / 0x1_0000)
  {
    var t := a / 0x1_0000;
    MultipleApart(a % 0x1_0000 + (16 * t - t), a, -t);
    a % 0x1_0000 + (16 * t - t)
  }

  function Once(a: nat): nat {
    if a >= BASE then a - BASE else a
  }

  function Mod28(a: nat, divide: bool): nat {
    if divide then a % BASE else Once(Chop(a))
  }

  function Mod(a: nat, divide: bool): nat {
    if divide then a % BASE else Mod28(Chop(a), false)
  }

  function Mod63(a: nat, divide: bool): nat {
    if divide then a % BASE
    else
      var t := a / 0x1_0000_0000;
      var b := a % 0x1_0000_0000 + (256 * t - 32 * t + t);
      Once(Chop(Chop(b)))
  }

  lemma OnceIs(a: nat)
    requires a < 2 * BASE
    ensures Once(a) == a % BASE
  {
  }

  /** The short remainder is right for a little more than 28 bits. */
  lemma Mod28Is(a: nat, divide: bool)
    requires a < 0x1110_0000
    ensures Mod28(a, divide) == a % BASE
  {
    if !divide { OnceIs(Chop(a)); }
  }

  lemma ModIs(a: nat, divide: bool)
    requires a < 0x1_0000_0000
    ensures Mod(a, divide) == a % BASE
  {
    if !divide { Mod28Is(Chop(a), false); }
  }

  lemma Mod63Is(a: nat, divide: bool)
    requires a < 0x8000_0000_0000_0000
    ensures Mod63(a, divide) == a % BASE
  {
    if !divide {
      var t := a / 0x1_0000_0000;
      var b := a % 0x1_0000_0000 + (256 * t - 32 * t + t);
      assert a - b == 65551 * t * BASE;
      MultipleApart(a, b, 65551 * t);
      assert Chop(b) <= 0xffff + 15 * (b / 0x1_0000);
      assert b / 0x1_0000 <= 0x720_0000;
      assert Chop(b) / 0x1_0000 <= 0x6ae1;
      OnceIs(Chop(Chop(b)));
    }
  }

  // ----- how large the sums get

  lemma {:induction false} TotalBound(buf: seq<byte>)
    ensures Total(buf) <= 255 * |buf| && 2 * Totals(buf) <= 255 * (|buf| * |buf| + |buf|)
    decreases |buf|
  {
    if buf != [] {
      var n := |buf| - 1;
      TotalBound(buf[..n]);
      assert |buf| * |buf| == n * n + 2 * n + 1;
    }
  }

  /** Before the remainders are taken the sums of one block fit in 32 bits. */
  lemma SumsFit(s: Sums, buf: seq<byte>)
    requires Reduced(s) && |buf| <= NMAX
    ensures SumA(s, buf) < 0x1_0000_0000 && SumB(s, buf) < 0x1_0000_0000
    ensures |buf| < 16 ==> SumA(s, buf) < 2 * BASE && SumB(s, buf) < 0x1110_0000
  {
    hide Total, Totals;
    TotalBound(buf);
    Bounds(s, Total(buf), Totals(buf), |buf|, NMAX);
    if |buf| < 16 { Bounds(s, Total(buf), Totals(buf), |buf|, 15); }
  }

  lemma Bounds(s: Sums, total: nat, totals: nat, n: nat, m: nat)
    requires Reduced(s) && n <= m && total <= 255 * n && 2 * totals <= 255 * (n * n + n)
    ensures s.a + total <= BASE - 1 + 255 * m
    ensures 2 * (s.b + n * s.a + totals) <= 2 * (BASE - 1) + 2 * (m * (BASE - 1)) + 255 * (m * m + m)
  {
    Grows(n, m, s.a, BASE - 1);
    Grows(n, m, n, m);
  }

  lemma Grows(m: nat, n: nat, x: nat, y: nat)
    requires m <= n && x <= y
    ensures m * x <= n * y
  {
    assert m * x <= n * x;
    assert n * x <= n * y;
  }

  lemma Snoc(s: Sums, buf: seq<byte>, i: nat, j: nat)
    requires i <= j < |buf|
    ensures SumA(s, buf[i..j + 1]) == SumA(s, buf[i..j]) + buf[j]
    ensures SumB(s, buf[i..j + 1]) == SumB(s, buf[i..j]) + SumA(s, buf[i..j + 1])
  {
    var all := buf[i..j + 1];
    assert all[..|all| - 1] == buf[i..j] && all[|all| - 1] == buf[j];
    SumBNext(s, all);
  }

  lemma {:induction false} AdlerConcat(s: Sums, x: seq<byte>, y: seq<byte>)
    ensures Adler(s, x + y) == Adler(Adler(s, x), y)
    decreases |y|
  {
    if y == [] {
      assert x + y == x;
    } else {
      assert (x + y)[..|x + y| - 1] == x + y[..|y| - 1];
      AdlerConcat(s, x, y[..|y| - 1]);
    }
  }

  // ----- the checksum of a buffer

  /** Adds the bytes from `i` on, no more than fit between two remainders. */
  method AddBytes(buf: seq<byte>, i: nat, n: nat, s: Sums) returns (adler: nat, sum2: nat)
    requires Reduced(s) && n <= NMAX && i + n <= |buf|
    ensures adler == SumA(s, buf[i..i + n]) && sum2 == SumB(s, buf[i..i + n])
    ensures adler < 0x1_0000_0000 && sum2 < 0x1_0000_0000 && (n < 16 ==> adler < 2 * BASE && sum2 < 0x1110_0000)
  {
    adler, sum2 := s.a, s.b;
    assert buf[i..i] == [];
    for k := 0 to n
      invariant adler == SumA(s, buf[i..i + k]) && sum2 == SumB(s, buf[i..i + k])
    {
      Snoc(s, buf, i, i + k);
      adler := adler + buf[i + k];
      sum2 := sum2 + adler;
      SumsFit(s, buf[i..i + k + 1]);
      assert adler < 0x1_0000_0000 && sum2 < 0x1_0000_0000;
    }
    SumsFit(s, buf[i..i + n]);
  }

  /** The checksum of a buffer, from that of what came before it; `divide` tells how the
      remainders are taken. */
  method Adler32z(s: Sums, buf: seq<byte>, divide: bool) returns (r: Sums)
    requires Reduced(s)
    ensures r == Adler(s, buf) && Reduced(r)
  {
    AdlerReduced(s, buf);
    Deferred(s, buf);
    if |buf| == 1 {
      var adler := Once(s.a + buf[0]);
      return Sums(adler, Once(s.b + adler));
    }
    if |buf| < 16 {
      var adler, sum2 := AddBytes(buf, 0, |buf|, s);
      assert buf[0..|buf|] == buf;
      OnceIs(adler);
      Mod28Is(sum2, divide);
      return Sums(Once(adler), Mod28(sum2, divide));
    }
    var i := 0;
    r := s;
    assert buf[..0] == [];
    while |buf| - i >= NMAX
      invariant 0 <= i <= |buf| && r == Adler(s, buf[..i]) && Reduced(r)
      decreases |buf| - i
    {
      r := AddBlock(buf, i, NMAX, s, r, divide);
      i := i + NMAX;
    }
    if i < |buf| {
      r := AddBlock(buf, i, |buf| - i, s, r, divide);
    }
    assert buf[..|buf|] == buf;
  }

  /** Adds bytes and takes the remainders. */
  method AddBlock(buf: seq<byte>, i: nat, n: nat, ghost s: Sums, r: Sums, divide: bool) returns (t: Sums)
    requires Reduced(s) && Reduced(r) && n <= NMAX && i + n <= |buf| && r == Adler(s, buf[..i])
    ensures t == Adler(s, buf[..i + n]) && Reduced(t)
  {
    var adler, sum2 := AddBytes(buf, i, n, r);
    ModIs(adler, divide);
    ModIs(sum2, divide);
    Deferred(r, buf[i..i + n]);
    AdlerConcat(s, buf[..i], buf[i..i + n]);
    assert buf[..i] + buf[i..i + n] == buf[..i + n];
    t := Sums(Mod(adler, divide), Mod(sum2, divide));
  }

  // ----- two buffers

  lemma {:induction false} TotalConcat(x: seq<byte>, y: seq<byte>)
    ensures Total(x + y) == Total(x) + Total(y)
    ensures Totals(x + y) == Totals(x) + Totals(y) + |y| * Total(x)
    decreases |y|
  {
    if y == [] {
      assert x + y == x;
    } else {
      var n := |y| - 1;
      assert (x + y)[..|x + y| - 1] == x + y[..n] && (x + y)[|x + y| - 1] == y[n];
      TotalConcat(x, y[..n]);
      assert |y| * Total(x) == n * Total(x) + Total(x);
    }
  }

  /** The sums of two parts, from those of each that both begin with `START`. */
  lemma PartsSums(x: seq<byte>, y: seq<byte>)
    ensures SumA(START, x + y) == SumA(START, x) + SumA(START, y) - 1
    ensures SumB(START, x + y) == SumB(START, x) + SumB(START, y) + |y| * SumA(START, x) - |y|
  {
    TotalConcat(x, y);
    assert |y| * (1 + Total(x)) == |y| + |y| * Total(x);
  }

  lemma ModProduct(n: nat, a: nat)
    ensures (n % BASE) * (a % BASE) % BASE == n * a % BASE
  {
    var p, q := n / BASE, a / BASE;
    var r, t := n % BASE, a % BASE;
    assert n == p * BASE + r && a == q * BASE + t;
    Expand(p, r, q, t, BASE);
    MultipleApart(n * a, r * t, p * q * BASE + p * t + q * r);
  }

  lemma Expand(p: nat, r: nat, q: nat, t: nat, m: nat)
    ensures (p * m + r) * (q * m + t) - r * t == (p * q * m + p * t + q * r) * m
  {
    assert (p * m + r) * (q * m + t) == p * m * (q * m) + p * m * t + r * (q * m) + r * t;
    assert p * m * (q * m) == p * q * m * m;
    assert p * m * t == p * t * m && r * (q * m) == q * r * m;
    assert (p * q * m + p * t + q * r) * m == p * q * m * m + p * t * m + q * r * m;
  }

  /** The checksum of two buffers together, from their checksums and the length of the second;
      nothing for a negative length. */
  method Combine(s1: Sums, s2: Sums, len2: int, divide: bool, ghost x: seq<byte>, ghost y: seq<byte>) returns (r: nat)
    requires len2 < 0x8000_0000_0000_0000
    requires len2 >= 0 ==> s1 == Adler(START, x) && s2 == Adler(START, y) && len2 == |y|
    ensures len2 < 0 ==> r == 0xffff_ffff
    ensures len2 >= 0 ==> r == Joined(Adler(START, x + y)) < 0x1_0000_0000
  {
    if len2 < 0 {
      return 0xffff_ffff;
    }
    hide Adler, Mod, Mod63, Joined;
    AdlerReduced(START, x);
    AdlerReduced(START, y);
    Mod63Is(len2, divide);
    var rem := Mod63(len2, divide);
    var product := Multiply(rem, s1.a);
    ModIs(product, divide);
    var sum1 := s1.a + (s2.a + BASE - 1);
    var sum2 := Mod(product, divide) + (s1.b + s2.b + BASE - rem);
    CombinedSums(s1, s2, x, y, rem, sum1, sum2);
    r := Subtract(sum1, sum2);
  }

  /** The remainders, by subtraction. */
  method Subtract(x: nat, y: nat) returns (r: nat)
    requires x <= 3 * BASE - 3 && y <= 4 * BASE - 3
    ensures r == Joined(Sums(x % BASE, y % BASE)) < 0x1_0000_0000
  {
    var sum1, sum2 := x, y;
    Subtracted(sum1, sum2);
    sum1 := Once(sum1);
    sum1 := Once(sum1);
    if sum2 >= 2 * BASE {
      sum2 := sum2 - 2 * BASE;
    }
    sum2 := Once(sum2);
    r := Joined(Sums(sum1, sum2));
  }

  lemma Subtracted(sum1: nat, sum2: nat)
    requires sum1 <= 3 * BASE - 3 && sum2 <= 4 * BASE - 3
    ensures Once(Once(sum1)) == sum1 % BASE
    ensures Once(if sum2 >= 2 * BASE then sum2 - 2 * BASE else sum2) == sum2 % BASE
  {
  }

  /** The product of two remainders fits in 32 bits. */
  function Multiply(m: nat, n: nat): (p: nat)
    requires m < BASE && n < BASE
    ensures p < 0x1_0000_0000 && p == m * n
  {
    Grows(m, BASE - 1, n, BASE - 1);
    m * n
  }

  lemma CombinedSums(s1: Sums, s2: Sums, x: seq<byte>, y: seq<byte>, rem: nat, sum1: nat, sum2: nat)
    requires s1 == Adler(START, x) && s2 == Adler(START, y) && rem == |y| % BASE
    requires sum1 == s1.a + s2.a + BASE - 1 && sum2 == rem * s1.a % BASE + s1.b + s2.b + BASE - rem
    ensures Adler(START, x + y) == Sums(sum1 % BASE, sum2 % BASE) && Reduced(s1) && Reduced(s2)
    ensures BASE - 1 <= sum1 <= 3 * BASE - 3 && 0 < sum2 <= 4 * BASE - 3
  {
    hide Adler, SumA, SumB;
    AdlerReduced(START, x);
    AdlerReduced(START, y);
    Deferred(START, x);
    Deferred(START, y);
    Deferred(START, x + y);
    PartsSums(x, y);
    Positive(x);
    FirstSum(SumA(START, x), SumA(START, y));
    SecondSum(SumA(START, x), SumB(START, x), SumB(START, y), |y|);
  }

  lemma Positive(x: seq<byte>)
    ensures SumA(START, x) >= 1
  {
  }

  lemma FirstSum(a: nat, b: nat)
    requires a + b >= 1
    ensures (a % BASE + b % BASE + BASE - 1) % BASE == (a + b - 1) % BASE
  {
    MultipleApart(a + b - 1, a % BASE + b % BASE + BASE - 1, a / BASE + b / BASE - 1);
  }

  lemma SecondSum(a: nat, b: nat, c: nat, n: nat)
    requires a >= 1
    ensures b + c + n * a - n >= 0
    ensures ((n % BASE) * (a % BASE) % BASE + b % BASE + c % BASE + BASE - n % BASE) % BASE
      == (b + c + n * a - n) % BASE
  {
    ModProduct(n, a);
    Grows(n, n, 1, a);
    var p := n * a;
    SixTerms(p, b, c, n);
  }

  lemma SixTerms(p: nat, b: nat, c: nat, n: nat)
    requires p >= n
    ensures (p % BASE + b % BASE + c % BASE + BASE - n % BASE) % BASE == (b + c + p - n) % BASE
  {
    var k := p / BASE + b / BASE + c / BASE - n / BASE - 1;
    MultipleApart(b + c + p - n, p % BASE + b % BASE + c % BASE + BASE - n % BASE, k);
  }
}
