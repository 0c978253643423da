/** The Adler-32 checksum that closes a zlib stream (RFC 1950, section 2.2). */
module Adler32 {
  import opened ByteOrder

  const MOD: nat := 65521

  function Values(data: Bytes): (v: seq<nat>)
    ensures |v| == |data| && forall i :: 0 <= i < |v| ==> v[i] < 256
  {
    seq(|data|, i requires 0 <= i < |data| => Value(data[i]))
  }

  function Sum(v: seq<nat>): nat { if v == [] then 0 else v[0] + Sum(v[1..]) }

  /** Every value times its distance from the end, the last one counting once. */
  function Weighted(v: seq<nat>): nat { if v == [] then 0 else |v| * v[0] + Weighted(v[1..]) }

  /** The checksum's two halves in closed form. */
  function Low(v: seq<nat>): nat { (1 + Sum(v)) % MOD }

  function High(v: seq<nat>): nat { (|v| + Weighted(v)) % MOD }

  function ChecksumOf(v: seq<nat>): nat { High(v) * 0x1_0000 + Low(v) }

  function Checksum(data: Bytes): nat { ChecksumOf(Values(data)) }

  lemma {:induction false} SumOfConcat(x: seq<nat>, y: seq<nat>)
    ensures Sum(x + y) == Sum(x) + Sum(y)
  {
    if x == [] {
      assert x + y == y;
    } else {
      assert (x + y)[1..] == x[1..] + y;
      SumOfConcat(x[1..], y);
    }
  }

  lemma Distribute(m: int, n: int, k: int)
    ensures (m + n) * k == m * k + n * k && k * (m + n) == k * m + k * n
  {
  }

  lemma {:induction false} WeightedOfConcat(x: seq<nat>, y: seq<nat>)
    ensures Weighted(x + y) == Weighted(x) + |y| * Sum(x) + Weighted(y)
  {
    if x == [] {
      assert x + y == y;
    } else {
      assert (x + y)[1..] == x[1..] + y;
      WeightedOfConcat(x[1..], y);
      Distribute(|x|, |y|, x[0]);
      Distribute(x[0], Sum(x[1..]), |y|);
    }
  }

  lemma OneMore(v: seq<nat>, n: nat)
    ensures Sum(v + [n]) == Sum(v) + n
    ensures Weighted(v + [n]) == Weighted(v) + Sum(v) + n
  {
    SumOfConcat(v, [n]);
    WeightedOfConcat(v, [n]);
    assert Sum([n]) == n && Weighted([n]) == n;
  }

  lemma ModOfSum(m: nat, n: nat)
    ensures (m % MOD + n) % MOD == (m + n) % MOD && (m % MOD + n % MOD) % MOD == (m + n) % MOD
  {
  }

  lemma {:induction false} LowTurn(v: seq<nat>, n: nat)
    ensures Low(v + [n]) == (Low(v) + n) % MOD
  {
    OneMore(v, n);
    var sum := 1 + Sum(v);
    ModOfSum(sum, n);
    assert 1 + Sum(v + [n]) == sum + n;
  }

  lemma {:induction false} HighTurn(v: seq<nat>, n: nat)
    ensures High(v + [n]) == (High(v) + Low(v + [n])) % MOD
  {
    OneMore(v, n);
    var weight, sum := |v| + Weighted(v), 1 + Sum(v + [n]);
    ModOfSum(weight, sum);
    assert |v + [n]| + Weighted(v + [n]) == weight + sum;
  }

  /** One turn of the loop, on the closed forms. */
  lemma {:induction false} OneTurn(v: seq<nat>, n: nat)
    ensures Low(v + [n]) == (Low(v) + n) % MOD
    ensures High(v + [n]) == (High(v) + Low(v + [n])) % MOD
  {
    LowTurn(v, n);
    HighTurn(v, n);
  }

  /** The running sums stay below 2^32 before every reduction, so the fixed-width
      arithmetic never wraps. */
  method ComputeAdler32(data: Bytes) returns (sum: nat)
    ensures sum == Checksum(data) < U32_END
  {
    ghost var v := Values(data);
    var a, b := 1, 0;
    for i := 0 to |data|
      invariant a == Low(v[..i]) && b == High(v[..i])
    {
      assert v[..i + 1] == v[..i] + [v[i]];
      OneTurn(v[..i], v[i]);
      var byte := Value(data[i]);
      assert a + byte < U32_END;
      a := (a + byte) % MOD;
      assert b + a < U32_END;
      b := (b + a) % MOD;
    }
    assert v[..|data|] == v;
    // The low half is below 2^16, so `(b << 16) | a` is this sum.
    sum := b * 0x1_0000 + a;
  }

  lemma HalvesOf(v: seq<nat>)
    ensures ChecksumOf(v) % 65536 == Low(v) && ChecksumOf(v) / 65536 == High(v)
  {
    HalvesApartBy(High(v), Low(v));
  }

  lemma HalvesApartBy(high: nat, low: nat)
    requires low < 65536
    ensures (high * 65536 + low) % 65536 == low && (high * 65536 + low) / 65536 == high
  {
  }

  lemma ValuesOfSnoc(data: Bytes, b: bv8)
    ensures Values(data + [b]) == Values(data) + [Value(b)]
  {
  }

  /** What RFC 1950 says: both halves, the low one starting at 1, take in one byte after the
      other modulo 65521, and the second half is the upper one. */
  lemma ChecksumOneByteOn(data: Bytes, b: bv8)
    ensures Checksum([]) == 1
    ensures var s1, s2 := Checksum(data) % 65536, Checksum(data) / 65536;
            var t1 := (s1 + Value(b)) % 65521;
            var t2 := (s2 + t1) % 65521;
            Checksum(data + [b]) == t2 * 65536 + t1
  {
    ChecksumOfNothing();
    HalvesOf(Values(data));
    ValuesOfSnoc(data, b);
    OneTurn(Values(data), Value(b));
  }

  lemma ChecksumOfNothing()
    ensures Checksum([]) == 1
  {
    assert Values([]) == [];
  }

  // ----- Damage is noticed ------------------------------------------------------------------

  lemma HalvesApart(x: seq<nat>, y: seq<nat>)
    requires ChecksumOf(x) == ChecksumOf(y)
    ensures Low(x) == Low(y) && High(x) == High(y)
  {
  }

  lemma CloseAndCongruent(m: nat, n: nat)
    requires m % MOD == n % MOD && m <= n < m + MOD
    ensures m == n
  {
  }

  lemma SumAround(before: seq<nat>, x: seq<nat>, after: seq<nat>)
    ensures Sum(before + x + after) == Sum(before) + Sum(x) + Sum(after)
  {
    SumOfConcat(before + x, after);
    SumOfConcat(before, x);
  }

  lemma WeightedAround(before: seq<nat>, x: seq<nat>, after: seq<nat>)
    ensures Weighted(before + x + after) ==
            Weighted(before) + |x| * Sum(before) + Weighted(x) + |after| * (Sum(before) + Sum(x)) + Weighted(after)
  {
    WeightedOfConcat(before + x, after);
    WeightedOfConcat(before, x);
    SumOfConcat(before, x);
  }

  lemma WeightedOfPair(x: nat, middle: seq<nat>, y: nat)
    ensures Weighted([x] + middle + [y]) == (|middle| + 1) * x + x + Weighted(middle) + Sum(middle) + y
    ensures Sum([x] + middle + [y]) == x + Sum(middle) + y
  {
    assert ([x] + middle)[1..] == middle;
    OneMore([x] + middle, y);
  }

  lemma ValueChanged(before: seq<nat>, x: nat, y: nat, after: seq<nat>)
    requires x <= y < 256
    requires ChecksumOf(before + [x] + after) == ChecksumOf(before + [y] + after)
    ensures x == y
  {
    HalvesApart(before + [x] + after, before + [y] + after);
    SumAround(before, [x], after);
    SumAround(before, [y], after);
    assert Sum([x]) == x && Sum([y]) == y;
    CloseAndCongruent(1 + Sum(before + [x] + after), 1 + Sum(before + [y] + after));
  }

  /** No factor of the modulus is a byte value. */
  lemma NoSmallFactor(d: nat)
    requires 2 <= d < 256
    ensures MOD % d != 0
  {
    assert 65521 % d != 0;
  }

  lemma MultipleOfModulus(n: int, q: int)
    requires n == MOD * q
    ensures n % MOD == 0
  {
  }

  // One step of Euclid's algorithm: what divides `d * k` divides the remainder's product.
  lemma RemainderProduct(d: nat, k: nat)
    requires 0 < d && d * k % MOD == 0
    ensures MOD % d * k % MOD == 0
  {
    var q, r, m := MOD / d, MOD % d, d * k / MOD;
    assert MOD == q * d + r;
    assert d * k == MOD * m;
    Distribute(q * d, r, k);
    assert q * d * k == q * (d * k);
    assert q * (MOD * m) == MOD * (q * m);
    assert r * k == MOD * (k - q * m);
    MultipleOfModulus(r * k, k - q * m);
  }

  /** The modulus is prime, so a multiple of it with a byte's value as one factor is one in
      the other. */
  lemma ByteCancels(d: nat, k: nat)
    requires 0 < d < 256 && d * k % MOD == 0
    ensures k % MOD == 0
    decreases d
  {
    if d > 1 {
      NoSmallFactor(d);
      RemainderProduct(d, k);
      ByteCancels(MOD % d, k);
    }
  }

  lemma ByteCancelsIff(d: nat, k: nat)
    requires d < 256
    ensures d * k % MOD == 0 <==> d == 0 || k % MOD == 0
  {
    if k % MOD == 0 {
      var m := k / MOD;
      assert k == MOD * m;
      assert d * (MOD * m) == MOD * (d * m);
      MultipleOfModulus(d * k, d * m);
    }
    if d > 0 && d * k % MOD == 0 {
      ByteCancels(d, k);
    }
  }

  lemma PairExchanged(x: nat, middle: seq<nat>, y: nat)
    requires x <= y
    ensures Sum([y] + middle + [x]) == Sum([x] + middle + [y])
    ensures Weighted([y] + middle + [x]) == Weighted([x] + middle + [y]) + (y - x) * (|middle| + 1)
  {
    WeightedOfPair(x, middle, y);
    WeightedOfPair(y, middle, x);
    Distribute(x, y - x, |middle| + 1);
  }

  lemma {:induction false} PairExchangedInside(before: seq<nat>, p: seq<nat>, q: seq<nat>, after: seq<nat>)
    requires |p| == |q| && Sum(p) == Sum(q)
    ensures Weighted(before + q + after) - Weighted(before + p + after) == Weighted(q) - Weighted(p)
  {
    WeightedAround(before, p, after);
    WeightedAround(before, q, after);
  }

  lemma ValuesExchanged(before: seq<nat>, x: nat, middle: seq<nat>, y: nat, after: seq<nat>)
    requires x <= y < 256
    ensures ChecksumOf(before + ([x] + middle + [y]) + after) == ChecksumOf(before + ([y] + middle + [x]) + after)
            <==> x == y || (|middle| + 1) % MOD == 0
  {
    GapOfExchange(before, x, middle, y, after);
    ByteCancelsIff(y - x, |middle| + 1);
  }

  lemma GapOfExchange(before: seq<nat>, x: nat, middle: seq<nat>, y: nat, after: seq<nat>)
    requires x <= y
    ensures ChecksumOf(before + ([x] + middle + [y]) + after) == ChecksumOf(before + ([y] + middle + [x]) + after)
            <==> (y - x) * (|middle| + 1) % MOD == 0
  {
    ExchangeMovesWeight(before, x, middle, y, after);
    ExchangeKeepsSum(before, x, middle, y, after);
    ExchangeKeepsLength(before, x, middle, y, after);
    ProductIsNatural(y - x, |middle| + 1);
    var gap: nat := Weighted(before + ([y] + middle + [x]) + after) - Weighted(before + ([x] + middle + [y]) + after);
    GapSeen(before + ([x] + middle + [y]) + after, before + ([y] + middle + [x]) + after, gap);
  }

  lemma ProductIsNatural(m: nat, n: nat)
    ensures m * n >= 0
  {
  }

  lemma ExchangeKeepsLength(before: seq<nat>, x: nat, middle: seq<nat>, y: nat, after: seq<nat>)
    ensures |before + ([x] + middle + [y]) + after| == |before + ([y] + middle + [x]) + after|
  {
  }

  lemma GapSeen(p: seq<nat>, q: seq<nat>, gap: nat)
    requires |p| == |q| && Sum(p) == Sum(q) && Weighted(q) == Weighted(p) + gap
    ensures ChecksumOf(p) == ChecksumOf(q) <==> gap % MOD == 0
  {
    SameHighHalf(p, q, gap);
    if ChecksumOf(p) == ChecksumOf(q) {
      HalvesApart(p, q);
    }
  }

  lemma ExchangeMovesWeight(before: seq<nat>, x: nat, middle: seq<nat>, y: nat, after: seq<nat>)
    requires x <= y
    ensures Weighted(before + ([y] + middle + [x]) + after) ==
            Weighted(before + ([x] + middle + [y]) + after) + (y - x) * (|middle| + 1)
  {
    PairExchanged(x, middle, y);
    PairExchangedInside(before, [x] + middle + [y], [y] + middle + [x], after);
  }

  lemma ExchangeKeepsSum(before: seq<nat>, x: nat, middle: seq<nat>, y: nat, after: seq<nat>)
    requires x <= y
    ensures Sum(before + ([y] + middle + [x]) + after) == Sum(before + ([x] + middle + [y]) + after)
  {
    PairExchanged(x, middle, y);
    SumAround(before, [y] + middle + [x], after);
    SumAround(before, [x] + middle + [y], after);
  }

  lemma ModBelowTwice(n: nat)
    requires n < 2 * MOD
    ensures n % MOD == if n < MOD then n else n - MOD
  {
  }

  lemma ModStays(r: nat, gap: nat)
    requires r < MOD
    ensures (r + gap) % MOD == r <==> gap % MOD == 0
  {
    ModOfSum(gap, r);
    ModBelowTwice(gap % MOD + r);
  }

  lemma {:induction false} SameHighHalf(p: seq<nat>, q: seq<nat>, gap: nat)
    requires |p| == |q| && Weighted(q) == Weighted(p) + gap
    ensures High(p) == High(q) <==> gap % MOD == 0
  {
    var weight := |p| + Weighted(p);
    ModOfSum(weight, gap);
    ModStays(weight % MOD, gap);
  }

  lemma ValuesOfByte(before: Bytes, x: bv8, after: Bytes)
    ensures Values(before + [x] + after) == Values(before) + [Value(x)] + Values(after)
  {
  }

  lemma EqualChecksumsEqualByte(before: Bytes, x: bv8, y: bv8, after: Bytes)
    requires Checksum(before + [x] + after) == Checksum(before + [y] + after)
    ensures Value(x) == Value(y)
  {
    ValuesOfByte(before, x, after);
    ValuesOfByte(before, y, after);
    if Value(x) <= Value(y) {
      ValueChanged(Values(before), Value(x), Value(y), Values(after));
    } else {
      ValueChanged(Values(before), Value(y), Value(x), Values(after));
    }
  }

  /** Changing any single byte changes the checksum. */
  lemma ChecksumSeesByte(before: Bytes, x: bv8, y: bv8, after: Bytes)
    ensures Checksum(before + [x] + after) == Checksum(before + [y] + after) <==> x == y
  {
    if Checksum(before + [x] + after) == Checksum(before + [y] + after) {
      EqualChecksumsEqualByte(before, x, y, after);
      SameByte(x, y);
    }
  }

  lemma ValuesOfExchange(before: Bytes, x: bv8, middle: Bytes, y: bv8, after: Bytes)
    ensures Values(before + ([x] + middle + [y]) + after) ==
            Values(before) + ([Value(x)] + Values(middle) + [Value(y)]) + Values(after)
  {
  }

  lemma ExchangeSeen(before: Bytes, x: bv8, middle: Bytes, y: bv8, after: Bytes)
    ensures Checksum(before + ([x] + middle + [y]) + after) == Checksum(before + ([y] + middle + [x]) + after)
            <==> Value(x) == Value(y) || (|middle| + 1) % MOD == 0
  {
    ValuesOfExchange(before, x, middle, y, after);
    ValuesOfExchange(before, y, middle, x, after);
    if Value(x) <= Value(y) {
      ValuesExchanged(Values(before), Value(x), Values(middle), Value(y), Values(after));
    } else {
      ValuesExchanged(Values(before), Value(y), Values(middle), Value(x), Values(after));
    }
  }

  /** Exchanging two different bytes goes unnoticed exactly when they are a multiple of
      65521 places apart: the high half is sensitive to order. */
  lemma ChecksumSeesExchange(before: Bytes, x: bv8, middle: Bytes, y: bv8, after: Bytes)
    ensures Checksum(before + ([x] + middle + [y]) + after) == Checksum(before + ([y] + middle + [x]) + after)
            <==> x == y || (|middle| + 1) % MOD == 0
  {
    ExchangeSeen(before, x, middle, y, after);
    if Value(x) == Value(y) {
      SameByte(x, y);
    }
  }
}
