/** What the checksum of RFC 2083, section 3.4, is: the remainder of a division of
    polynomials over GF(2), defined here without the register that computes it. */
module PolynomialCrc {
  import opened ByteOrder
  import opened ShiftRegister
  import opened Crc32

  // ----- Polynomials ----------------------------------------------------------------------

  /** Coefficients over GF(2), the highest power first. */
  type Poly = seq<bool>

  function Zeros(n: nat): (p: Poly)
    ensures |p| == n
  {
    LowTerms(n, [])
  }

  function Ones(n: nat): (p: Poly)
    ensures |p| == n
  {
    if n == 0 then [] else [true] + Ones(n - 1)
  }

  /** `r` with `n` zero coefficients in front. */
  function LowTerms(n: nat, r: Poly): (p: Poly)
    ensures |p| == n + |r|
  {
    if n == 0 then r else [false] + LowTerms(n - 1, r)
  }

  /** `p` is added to the highest terms of `a`. */
  function AddFront(p: Poly, a: Poly): (sum: Poly)
    requires |p| <= |a|
    ensures |sum| == |a|
  {
    if p == [] then a else [p[0] != a[0]] + AddFront(p[1..], a[1..])
  }

  /** The powers with coefficient one in the polynomial of section 3.4. */
  const POWERS: set<int> := {32, 26, 23, 22, 16, 12, 11, 10, 8, 7, 5, 4, 2, 1, 0}

  function Generator(): (g: Poly)
    ensures |g| == 33 && g[0]
  {
    assert 32 in POWERS;
    seq(33, i => (32 - i) in POWERS)
  }

  /** `q` times the generator. */
  function Multiple(q: Poly): (p: Poly)
    ensures |p| == |q| + 32
  {
    if q == [] then Zeros(32)
    else if q[0] then AddFront(Generator(), [false] + Multiple(q[1..])) else [false] + Multiple(q[1..])
  }

  /** Long division. */
  function Remainder(a: Poly): (r: Poly)
    requires |a| >= 32
    ensures |r| == 32
    decreases |a|
  {
    if |a| == 32 then a else Remainder(Rest(a))
  }

  lemma {:induction false} AddFrontRegroups(p: Poly, a: Poly, b: Poly)
    requires |p| <= |a| == |b|
    ensures AddFront(AddFront(p, a), b) == AddFront(p, AddFront(a, b))
    decreases |a|
  {
    if p != [] {
      AddFrontHead(p[0], p[1..], a[0], a[1..]);
      AddFrontRegroups(p[1..], a[1..], b[1..]);
    }
  }

  lemma {:induction false} AddFrontTwice(p: Poly, a: Poly)
    requires |p| <= |a|
    ensures AddFront(p, AddFront(p, a)) == a
    decreases |p|
  {
    if p != [] {
      AddFrontTwice(p[1..], a[1..]);
      assert AddFront(p, a)[1..] == AddFront(p[1..], a[1..]);
      assert a == [a[0]] + a[1..];
    }
  }

  lemma AddFrontHead(x: bool, p: Poly, y: bool, a: Poly)
    requires |p| <= |a|
    ensures AddFront([x] + p, [y] + a) == [x != y] + AddFront(p, a)
  {
    assert ([x] + p)[1..] == p && ([y] + a)[1..] == a;
  }

  lemma LongerSum(g: Poly, m: Poly, low: Poly)
    requires |m| == |low| && |g| <= |m| + 1
    ensures AddFront([false] + m, [false] + low) == [false] + AddFront(m, low)
    ensures AddFront(AddFront(g, [false] + m), [false] + low) == AddFront(g, [false] + AddFront(m, low))
  {
    AddFrontHead(false, m, false, low);
    AddFrontRegroups(g, [false] + m, [false] + low);
  }

  lemma LongerMultiple(bit: bool, q: Poly)
    ensures Multiple([bit] + q) == if bit then AddFront(Generator(), [false] + Multiple(q)) else [false] + Multiple(q)
  {
    assert ([bit] + q)[1..] == q;
  }

  // `q` times the generator, and `r`.
  function Built(q: Poly, r: Poly): (a: Poly)
    requires |r| == 32
    ensures |a| == |q| + 32
  {
    AddFront(Multiple(q), LowTerms(|q|, r))
  }

  /** One more term in front of the quotient. */
  lemma LongerQuotient(bit: bool, q: Poly, r: Poly)
    requires |r| == 32
    ensures Built([bit] + q, r) == if bit then AddFront(Generator(), [false] + Built(q, r)) else [false] + Built(q, r)
  {
    LongerMultiple(bit, q);
    LongerSum(Generator(), Multiple(q), LowTerms(|q|, r));
  }

  // What a step of the division leaves to divide.
  function Rest(a: Poly): (rest: Poly)
    requires |a| > 32
    ensures |rest| == |a| - 1
  {
    if a[0] then AddFront(Generator(), a)[1..] else a[1..]
  }

  lemma RestRestores(a: Poly)
    requires |a| > 32
    ensures a == if a[0] then AddFront(Generator(), [false] + Rest(a)) else [false] + Rest(a)
  {
    if a[0] {
      assert AddFront(Generator(), a) == [false] + Rest(a);
      AddFrontTwice(Generator(), a);
    }
  }

  lemma RestoredRest(a: Poly, bit: bool, rest: Poly)
    requires |a| == |rest| + 1 > 32
    requires a == if bit then AddFront(Generator(), [false] + rest) else [false] + rest
    ensures a[0] == bit && rest == Rest(a)
  {
    if bit {
      AddFrontTwice(Generator(), [false] + rest);
      assert AddFront(Generator(), a) == [false] + rest;
    }
  }

  lemma DivisionStep(a: Poly, q: Poly, r: Poly)
    requires |a| > 32 && |r| == 32 && Rest(a) == Built(q, r)
    ensures a == Built([a[0]] + q, r)
  {
    LongerQuotient(a[0], q, r);
    RestRestores(a);
  }

  lemma {:induction false} ZerosAddNothing(n: nat, a: Poly)
    requires n <= |a|
    ensures AddFront(Zeros(n), a) == a
  {
    if n > 0 {
      ZerosAddNothing(n - 1, a[1..]);
      assert Zeros(n)[1..] == Zeros(n - 1);
    }
  }

  lemma NothingToDivide(a: Poly)
    requires |a| == 32
    ensures Built([], a) == a
  {
    ZerosAddNothing(32, a);
  }

  lemma {:induction false} DivisionIsExact(a: Poly) returns (q: Poly)
    requires |a| >= 32
    ensures a == Built(q, Remainder(a))
    decreases |a|
  {
    if |a| == 32 {
      q := [];
      NothingToDivide(a);
    } else {
      q := DivisionIsExact(Rest(a));
      DivisionStep(a, q, Remainder(a));
      q := [a[0]] + q;
    }
  }

  lemma {:induction false} RemainderIsUnique(q: Poly, r: Poly)
    requires |r| == 32
    ensures r == Remainder(Built(q, r))
    decreases |q|
  {
    if q == [] {
      NothingToDivide(r);
    } else {
      assert q == [q[0]] + q[1..];
      LongerQuotient(q[0], q[1..], r);
      RestoredRest(Built(q, r), q[0], Built(q[1..], r));
      RemainderIsUnique(q[1..], r);
    }
  }

  /** Long division finds the one remainder there is. */
  lemma RemainderIff(a: Poly, r: Poly)
    requires |a| >= 32 && |r| == 32
    ensures r == Remainder(a) <==> exists q: Poly :: |q| == |a| - 32 && a == AddFront(Multiple(q), LowTerms(|q|, r))
  {
    if r == Remainder(a) {
      var q := DivisionIsExact(a);
      assert a == AddFront(Multiple(q), LowTerms(|q|, r));
    }
    if exists q: Poly :: |q| == |a| - 32 && a == AddFront(Multiple(q), LowTerms(|q|, r)) {
      var q: Poly :| |q| == |a| - 32 && a == AddFront(Multiple(q), LowTerms(|q|, r));
      assert a == Built(q, r);
      RemainderIsUnique(q, r);
    }
  }

  // ----- The text as a polynomial -----------------------------------------------------------

  /** The bits of a byte, least significant first. */
  function ByteBits(b: bv8): (p: Poly)
    ensures |p| == 8
  {
    [b & 0x01 != 0, b & 0x02 != 0, b & 0x04 != 0, b & 0x08 != 0,
     b & 0x10 != 0, b & 0x20 != 0, b & 0x40 != 0, b & 0x80 != 0]
  }

  function MessageBits(data: Bytes): (p: Poly)
    ensures |p| == 8 * |data|
  {
    if data == [] then [] else ByteBits(data[0]) + MessageBits(data[1..])
  }

  /** The text, thirty-two zeros behind it, and the first thirty-two bits complemented. */
  function Conditioned(data: Bytes): (p: Poly)
    ensures |p| == 8 * |data| + 32
  {
    AddFront(Ones(32), MessageBits(data) + Zeros(32))
  }

  /** The lowest `n` bits of a word, least significant first. In the register, the least
      significant bit stands for the highest power. */
  function Bits(c: bv32, n: nat): (p: Poly)
    ensures |p| == n
  {
    if n == 0 then [] else [c & 1 == 1] + Bits(c >> 1, n - 1)
  }

  // ----- Bits of words ------------------------------------------------------------------------

  // The same digits of any word with a lowest bit and a half.
  function Digits<W>(low: W -> bool, half: W -> W, c: W, n: nat): (p: Poly)
    ensures |p| == n
  {
    if n == 0 then [] else [low(c)] + Digits(low, half, half(c), n - 1)
  }

  ghost predicate Splits<W(!new)>(low: W -> bool, half: W -> W, add: (W, W) -> W) {
    && (forall a, b :: low(add(a, b)) == (low(a) != low(b)))
    && (forall a, b :: half(add(a, b)) == add(half(a), half(b)))
  }

  lemma {:induction false} DigitsOfSum<W(!new)>(low: W -> bool, half: W -> W, add: (W, W) -> W, a: W, b: W, n: nat)
    requires Splits(low, half, add)
    ensures Digits(low, half, add(a, b), n) == AddFront(Digits(low, half, a, n), Digits(low, half, b, n))
    decreases n
  {
    if n > 0 {
      DigitsOfSum(low, half, add, half(a), half(b), n - 1);
      AddFrontHead(low(a), Digits(low, half, half(a), n - 1), low(b), Digits(low, half, half(b), n - 1));
    }
  }

  lemma {:induction false} BitsAreDigits(c: bv32, n: nat)
    ensures Bits(c, n) == Digits(Odd, Half, c, n)
    decreases n
  {
    if n > 0 {
      BitsAreDigits(Half(c), n - 1);
    }
  }

  lemma XorSplits()
    ensures Splits(Odd, Half, Xor)
  {
    forall a, b ensures Odd(Xor(a, b)) == (Odd(a) != Odd(b)) {
      OddOfXor(a, b);
    }
    forall a, b ensures Half(Xor(a, b)) == Xor(Half(a), Half(b)) {
      HalfLinear(a, b);
    }
  }

  lemma {:induction false} BitsOfXor(a: bv32, b: bv32, n: nat)
    ensures Bits(Xor(a, b), n) == AddFront(Bits(a, n), Bits(b, n))
  {
    XorSplits();
    DigitsOfSum(Odd, Half, Xor, a, b, n);
    BitsAreDigits(a, n);
    BitsAreDigits(b, n);
    BitsAreDigits(Xor(a, b), n);
  }

  lemma {:induction false} BitsOfZero(n: nat)
    ensures Bits(0, n) == Zeros(n)
  {
    if n > 0 {
      HalfOfZero();
      BitsOfZero(n - 1);
    }
  }

  lemma HalfOfZero()
    ensures Half(0) == 0 && !Odd(0)
  {
  }

  // A word shifted down step by step.
  function Shifted(c: bv32, n: nat): bv32 { if n == 0 then c else Shifted(Half(c), n - 1) }

  lemma {:induction false} BitsInTwo(c: bv32, m: nat, n: nat)
    ensures Bits(c, m + n) == Bits(c, m) + Bits(Shifted(c, m), n)
    decreases m
  {
    if m > 0 {
      BitsInTwo(Half(c), m - 1, n);
    }
  }

  lemma {:induction false} ShiftedTwice(c: bv32, m: nat, n: nat)
    ensures Shifted(c, m + n) == Shifted(Shifted(c, m), n)
    decreases m
  {
    if m > 0 {
      ShiftedTwice(Half(c), m - 1, n);
    }
  }

  lemma ShiftedOnce(c: bv32, n: nat)
    ensures Shifted(c, n + 1) == Shifted(Half(c), n)
  {
  }

  lemma ShiftedByFour(c: bv32)
    ensures Shifted(c, 4) == Half(Half(Half(Half(c))))
  {
    ShiftedOnce(c, 3);
    ShiftedOnce(Half(c), 2);
    ShiftedOnce(Half(Half(c)), 1);
    ShiftedOnce(Half(Half(Half(c))), 0);
  }

  lemma FourHalves(c: bv32)
    ensures Half(Half(Half(Half(c)))) == Nibble(c)
  {
  }

  function Nibble(c: bv32): bv32 { c >> 4 }

  lemma EightNibbles(c: bv32)
    ensures Nibble(Nibble(Nibble(Nibble(Nibble(Nibble(Nibble(Nibble(c)))))))) == 0
  {
  }

  lemma FourTimes(c: bv32, n: nat)
    ensures Shifted(c, 4 * (n + 1)) == Shifted(Nibble(c), 4 * n)
  {
    ShiftedTwice(c, 4, 4 * n);
    ShiftedByFour(c);
    FourHalves(c);
  }

  lemma NothingAbove(c: bv32)
    ensures Shifted(c, 32) == 0
  {
    FourTimes(c, 7);
    var c1 := Nibble(c); FourTimes(c1, 6);
    var c2 := Nibble(c1); FourTimes(c2, 5);
    var c3 := Nibble(c2); FourTimes(c3, 4);
    var c4 := Nibble(c3); FourTimes(c4, 3);
    var c5 := Nibble(c4); FourTimes(c5, 2);
    var c6 := Nibble(c5); FourTimes(c6, 1);
    var c7 := Nibble(c6); FourTimes(c7, 0);
    EightNibbles(c);
  }

  /** Halving a register multiplies by x, the highest power aside. */
  lemma BitsOfHalf(c: bv32)
    ensures Bits(Half(c), 32) == Bits(c, 32)[1..] + [false]
  {
    BitsInTwo(c, 32, 1);
    NothingAbove(c);
    BitsOfZero(1);
    var longer := Bits(c, 33);
    assert longer == Bits(c, 32) + [false];
    assert longer[1..] == Bits(Half(c), 32);
  }

  // ----- Bits of bytes ------------------------------------------------------------------------

  function Top(c: bv32): bv32 { c >> 8 }

  lemma BitOfByte0(c: bv32)
    ensures Odd(c) == (LowByte(c) & 0x01 != 0)
  {
  }

  lemma BitOfByte1(c: bv32)
    ensures Odd(Half(c)) == (LowByte(c) & 0x02 != 0)
  {
  }

  lemma BitOfByte2(c: bv32)
    ensures Odd(Half(Half(c))) == (LowByte(c) & 0x04 != 0)
  {
  }

  lemma BitOfByte3(c: bv32)
    ensures Odd(Half(Half(Half(c)))) == (LowByte(c) & 0x08 != 0)
  {
  }

  lemma BitOfByte4(c: bv32)
    ensures Odd(Nibble(c)) == (LowByte(c) & 0x10 != 0)
  {
  }

  lemma BitOfByte5(c: bv32)
    ensures Odd(Half(Nibble(c))) == (LowByte(c) & 0x20 != 0)
  {
  }

  lemma BitOfByte6(c: bv32)
    ensures Odd(Half(Half(Nibble(c)))) == (LowByte(c) & 0x40 != 0)
  {
  }

  lemma BitOfByte7(c: bv32)
    ensures Odd(Half(Half(Half(Nibble(c))))) == (LowByte(c) & 0x80 != 0)
  {
  }

  lemma TwoNibbles(c: bv32)
    ensures Nibble(Nibble(c)) == Top(c)
  {
  }

  lemma BitsStep(c: bv32, n: nat)
    ensures Bits(c, n + 1) == [Odd(c)] + Bits(Half(c), n)
  {
  }

  lemma FourInFront(x0: bool, x1: bool, x2: bool, x3: bool, p0: Poly, p1: Poly, p2: Poly, p3: Poly, p4: Poly)
    requires p0 == [x0] + p1 && p1 == [x1] + p2 && p2 == [x2] + p3 && p3 == [x3] + p4
    ensures p0 == [x0, x1, x2, x3] + p4
  {
  }

  lemma FourBits(c: bv32, n: nat)
    ensures Bits(c, n + 4) ==
            [Odd(c), Odd(Half(c)), Odd(Half(Half(c))), Odd(Half(Half(Half(c))))] + Bits(Nibble(c), n)
  {
    FourHalves(c);
    var c1, c2, c3 := Half(c), Half(Half(c)), Half(Half(Half(c)));
    BitsStep(c, n + 3);
    BitsStep(c1, n + 2);
    BitsStep(c2, n + 1);
    BitsStep(c3, n);
    FourInFront(Odd(c), Odd(c1), Odd(c2), Odd(c3), Bits(c, n + 4), Bits(c1, n + 3), Bits(c2, n + 2), Bits(c3, n + 1),
                Bits(Half(c3), n));
  }

  function LowNibble(b: bv8): Poly { [b & 0x01 != 0, b & 0x02 != 0, b & 0x04 != 0, b & 0x08 != 0] }

  function HighNibble(b: bv8): Poly { [b & 0x10 != 0, b & 0x20 != 0, b & 0x40 != 0, b & 0x80 != 0] }

  lemma LowerFour(c: bv32, n: nat)
    ensures Bits(c, n + 4) == LowNibble(LowByte(c)) + Bits(Nibble(c), n)
  {
    FourBits(c, n);
    BitOfByte0(c); BitOfByte1(c); BitOfByte2(c); BitOfByte3(c);
  }

  lemma UpperFour(c: bv32, n: nat)
    ensures Bits(Nibble(c), n + 4) == HighNibble(LowByte(c)) + Bits(Top(c), n)
  {
    FourBits(Nibble(c), n);
    TwoNibbles(c);
    BitOfByte4(c); BitOfByte5(c); BitOfByte6(c); BitOfByte7(c);
  }

  lemma NibblesMakeBytes(b: bv8, p: Poly)
    ensures LowNibble(b) + (HighNibble(b) + p) == ByteBits(b) + p
  {
  }

  lemma EightBits(c: bv32, n: nat)
    ensures Bits(c, n + 8) == ByteBits(LowByte(c)) + Bits(Top(c), n)
  {
    LowerFour(c, n + 4);
    UpperFour(c, n);
    NibblesMakeBytes(LowByte(c), Bits(Top(c), n));
  }

  lemma WordIsItsByte(b: bv8)
    ensures LowByte(Word(b)) == b && Top(Word(b)) == 0
  {
  }

  lemma BitsOfWord(b: bv8)
    ensures Bits(Word(b), 32) == ByteBits(b) + Zeros(24)
  {
    EightBits(Word(b), 24);
    WordIsItsByte(b);
    BitsOfZero(24);
  }

  lemma BitsOfFourBytes(c: bv32, b0: bv8, b1: bv8, b2: bv8, b3: bv8)
    requires LowByte(c) == b0 && LowByte(Top(c)) == b1 && LowByte(Top(Top(c))) == b2 && LowByte(Top(Top(Top(c)))) == b3
    ensures Bits(c, 32) == ByteBits(b0) + (ByteBits(b1) + (ByteBits(b2) + ByteBits(b3)))
  {
    EightBits(c, 24);
    EightBits(Top(c), 16);
    EightBits(Top(Top(c)), 8);
    EightBits(Top(Top(Top(c))), 0);
  }

  lemma BytesOfTaps()
    ensures LowByte(TAPS) == 0x20 && LowByte(Top(TAPS)) == 0x83
    ensures LowByte(Top(Top(TAPS))) == 0xb8 && LowByte(Top(Top(Top(TAPS)))) == 0xed
  {
  }

  lemma BytesOfStart()
    ensures LowByte(START) == 0xff && LowByte(Top(START)) == 0xff
    ensures LowByte(Top(Top(START))) == 0xff && LowByte(Top(Top(Top(START)))) == 0xff
  {
  }

  /** The word fed back is the generator, its highest power aside. */
  lemma TapsAreTheGenerator()
    ensures Bits(TAPS, 32) == Generator()[1..]
  {
    BytesOfTaps();
    BitsOfFourBytes(TAPS, 0x20, 0x83, 0xb8, 0xed);
    GeneratorTail();
    assert ByteBits(0x20) == [false, false, false, false, false, true, false, false];
    assert ByteBits(0x83) == [true, true, false, false, false, false, false, true];
    assert ByteBits(0xb8) == [false, false, false, true, true, true, false, true];
    assert ByteBits(0xed) == [true, false, true, true, false, true, true, true];
  }

  lemma GeneratorTail()
    ensures Generator()[1..] ==
            [false, false, false, false, false, true, false, false]
            + ([true, true, false, false, false, false, false, true]
               + ([false, false, false, true, true, true, false, true]
                  + [true, false, true, true, false, true, true, true]))
  {
  }

  lemma StartIsOnes()
    ensures Bits(START, 32) == Ones(32)
  {
    BytesOfStart();
    BitsOfFourBytes(START, 0xff, 0xff, 0xff, 0xff);
    assert ByteBits(0xff) == [true, true, true, true, true, true, true, true];
    assert Ones(8) == [true, true, true, true, true, true, true, true];
    OnesInTwo(8, 24);
    OnesInTwo(8, 16);
    OnesInTwo(8, 8);
  }

  lemma {:induction false} OnesInTwo(m: nat, n: nat)
    ensures Ones(m + n) == Ones(m) + Ones(n)
    decreases m
  {
    if m > 0 {
      OnesInTwo(m - 1, n);
    }
  }

  // ----- The register divides --------------------------------------------------------------------

  // What is left of a text `t` whose highest terms still have the register to be added.
  function Left(c: bv32, t: Poly): (r: Poly)
    requires |t| >= 32
    ensures |r| == 32
  {
    Remainder(AddFront(Bits(c, 32), t))
  }

  lemma {:induction false} AddFrontInTwo(p: Poly, q: Poly, a: Poly, b: Poly)
    requires |p| == |a| && |q| <= |b|
    ensures AddFront(p + q, a + b) == AddFront(p, a) + AddFront(q, b)
    decreases |p|
  {
    if p == [] {
      assert p + q == q && a + b == b;
    } else {
      assert p + q == [p[0]] + (p[1..] + q) && a + b == [a[0]] + (a[1..] + b);
      AddFrontHead(p[0], p[1..] + q, a[0], a[1..] + b);
      AddFrontInTwo(p[1..], q, a[1..], b);
    }
  }

  lemma AddNothing(t: Poly)
    ensures AddFront([], t) == t
  {
  }

  // The register added to a zero term and the rest, that term set apart.
  lemma RegisterAbove(c: bv32, t: Poly)
    requires |t| >= 32
    ensures AddFront(Bits(c, 32), [false] + t) == [Odd(c)] + AddFront(Bits(Half(c), 32), t)
  {
    var low := Bits(Half(c), 31);
    BitsStep(c, 31);
    AddFrontHead(Odd(c), low, false, t);
    BitsOfHalf(c);
    assert Bits(Half(c), 32) == low + [false];
    AddFalseBehind(low, t);
  }

  lemma {:induction false} AddFalseBehind(p: Poly, t: Poly)
    requires |p| < |t|
    ensures AddFront(p + [false], t) == AddFront(p, t)
    decreases |p|
  {
    if p == [] {
      assert p + [false] == [false];
      AddNothing(t[1..]);
      assert t == [t[0]] + t[1..];
    } else {
      assert p + [false] == [p[0]] + (p[1..] + [false]);
      AddFalseBehind(p[1..], t[1..]);
      AddFrontHead(p[0], p[1..] + [false], t[0], t[1..]);
      assert t == [t[0]] + t[1..];
    }
  }

  /** One bit step is one step of the division. */
  lemma BitStepDivides(c: bv32, t: Poly)
    requires |t| >= 32
    ensures Left(c, [false] + t) == Left(BitStep(c), t)
  {
    var a := AddFront(Bits(c, 32), [false] + t);
    RegisterAbove(c, t);
    BitStepParts(c);
    if Odd(c) {
      TapsAreTheGenerator();
      OddDivides(Bits(Half(c), 32), Bits(TAPS, 32), t);
      BitsOfXor(Half(c), TAPS, 32);
    } else {
      XorZero(Half(c));
    }
  }

  lemma OddDivides(half: Poly, taps: Poly, t: Poly)
    requires |half| == 32 && |t| >= 32 && taps == Generator()[1..]
    ensures Remainder([true] + AddFront(half, t)) == Remainder(AddFront(AddFront(half, taps), t))
  {
    var rest := AddFront(half, t);
    assert Generator() == [true] + taps;
    AddFrontHead(true, taps, true, rest);
    assert Rest([true] + rest) == AddFront(taps, rest);
    AddFrontSwaps(taps, half, t);
  }

  lemma {:induction false} AddFrontSwaps(p: Poly, q: Poly, t: Poly)
    requires |p| == |q| <= |t|
    ensures AddFront(p, AddFront(q, t)) == AddFront(AddFront(q, p), t)
    decreases |p|
  {
    if p != [] {
      AddFrontHead(p[0], p[1..], q[0] != t[0], AddFront(q[1..], t[1..]));
      AddFrontSwaps(p[1..], q[1..], t[1..]);
      AddFrontHead(q[0] != p[0], AddFront(q[1..], p[1..]), t[0], t[1..]);
      assert t == [t[0]] + t[1..] && p == [p[0]] + p[1..];
    }
  }

  lemma {:induction false} TurnsDivide(c: bv32, n: nat, t: Poly)
    requires |t| >= 32
    ensures Left(c, Zeros(n) + t) == Left(Turn(PNG, n, c), t)
    decreases n
  {
    if n == 0 {
      assert Zeros(0) + t == t;
    } else {
      assert Zeros(n) + t == [false] + (Zeros(n - 1) + t);
      BitStepDivides(c, Zeros(n - 1) + t);
      TurnsDivide(BitStep(c), n - 1, t);
      TurnTwice(PNG, 1, n - 1, c);
      TurnOnce(PNG, c);
    }
  }

  /** A byte of the text and eight turns of the register. */
  lemma ByteDivides(c: bv32, b: bv8, t: Poly)
    requires |t| >= 32
    ensures Left(c, ByteBits(b) + t) == Left(Feed(PNG, c, Word(b)), t)
  {
    ByteIsAdded(c, b, t);
    TurnsDivide(Xor(c, Word(b)), 8, t);
  }

  lemma ByteIsAdded(c: bv32, b: bv8, t: Poly)
    requires |t| >= 32
    ensures AddFront(Bits(c, 32), ByteBits(b) + t) == AddFront(Bits(Xor(c, Word(b)), 32), Zeros(8) + t)
  {
    BitsOfXor(c, Word(b), 32);
    BitsOfWord(b);
    BitsAddedHere(Bits(c, 32), ByteBits(b), t);
  }

  lemma BitsAddedHere(p: Poly, byte: Poly, t: Poly)
    requires |p| == 32 && |byte| == 8 && |t| >= 32
    ensures AddFront(p, byte + t) == AddFront(AddFront(p, byte + Zeros(24)), Zeros(8) + t)
  {
    var x, y := p[..8], p[8..];
    assert p == x + y;
    AddFrontInTwo(x, y, byte, t);
    AddFrontInTwo(x, y, byte, Zeros(24));
    AddZerosBehind(y);
    AddFrontInTwo(AddFront(x, byte), y, Zeros(8), t);
    AddZerosBehind(AddFront(x, byte));
  }

  lemma {:induction false} AddZerosBehind(p: Poly)
    ensures AddFront(p, Zeros(|p|)) == p
    decreases |p|
  {
    if p != [] {
      AddZerosBehind(p[1..]);
      assert Zeros(|p|)[1..] == Zeros(|p| - 1);
    }
  }

  lemma {:induction false} RegisterDivides(c: bv32, data: Bytes)
    ensures Left(c, MessageBits(data) + Zeros(32)) == Bits(Register(PNG, c, Words(data)), 32)
    decreases |data|
  {
    if data == [] {
      assert MessageBits(data) + Zeros(32) == Zeros(32);
      AddZerosBehind(Bits(c, 32));
    } else {
      var b, rest := data[0], data[1..];
      var t := MessageBits(rest) + Zeros(32);
      assert MessageBits(data) + Zeros(32) == ByteBits(b) + t;
      ByteDivides(c, b, t);
      RegisterDivides(Feed(PNG, c, Word(b)), rest);
      FirstWord(c, data);
    }
  }

  lemma FirstWord(c: bv32, data: Bytes)
    requires data != []
    ensures Register(PNG, c, Words(data)) == Register(PNG, Feed(PNG, c, Word(data[0])), Words(data[1..]))
  {
    var first := [Word(data[0])];
    assert Words(data) == first + Words(data[1..]);
    RegisterOfConcat(PNG, c, first, Words(data[1..]));
    assert first[..0] == [];
    assert Register(PNG, c, first) == Feed(PNG, Register(PNG, c, []), Word(data[0]));
  }

  /** Read from its lowest bit up, the checksum of a text is the complement of what is left of
      the conditioned text after division by the generator. */
  lemma ChecksumIsTheRemainder(data: Bytes)
    ensures Bits(Checksum(data), 32) == AddFront(Ones(32), Remainder(Conditioned(data)))
  {
    StartIsOnes();
    RegisterDivides(START, data);
    ComplementAdds(Register(PNG, START, Words(data)));
    BitsOfXor(START, Register(PNG, START, Words(data)), 32);
  }

  lemma ComplementAdds(c: bv32)
    ensures Complement(c) == Xor(START, c)
  {
  }

  // ----- One checksum in numbers ------------------------------------------------------------------

  lemma EightTurns(c0: bv32, c1: bv32, c2: bv32, c3: bv32, c4: bv32, c5: bv32, c6: bv32, c7: bv32, c8: bv32)
    requires BitStep(c0) == c1 && BitStep(c1) == c2 && BitStep(c2) == c3 && BitStep(c3) == c4
    requires BitStep(c4) == c5 && BitStep(c5) == c6 && BitStep(c6) == c7 && BitStep(c7) == c8
    ensures Turn(PNG, 8, c0) == c8
  {
    TurnOnce(PNG, c0);
    TurnAfter(c0, 1); TurnAfter(c0, 2); TurnAfter(c0, 3); TurnAfter(c0, 4);
    TurnAfter(c0, 5); TurnAfter(c0, 6); TurnAfter(c0, 7);
  }

  lemma TurnAfter(c: bv32, n: nat)
    ensures Turn(PNG, n + 1, c) == BitStep(Turn(PNG, n, c))
  {
  }

  lemma FedLetter0()
    ensures Feed(PNG, 0xffff_ffff, Word(0x49)) == 0x22fd_e946
  {
    assert Xor(0xffff_ffff, Word(0x49)) == 0xffff_ffb6;
    EightTurns(0xffff_ffb6, 0x7fff_ffdb, 0xd247_7ccd, 0x849b_3d46, 0x424d_9ea3,
               0xcc9e_4c71, 0x8bf7_a518, 0x45fb_d28c, 0x22fd_e946);
  }

  lemma FedLetter1()
    ensures Feed(PNG, 0x22fd_e946, Word(0x45)) == 0x992b_ac53
  {
    assert Xor(0x22fd_e946, Word(0x45)) == 0x22fd_e903;
    EightTurns(0x22fd_e903, 0xfcc6_77a1, 0x93db_b8f0, 0x49ed_dc78, 0x24f6_ee3c,
               0x127b_771e, 0x093d_bb8f, 0xe926_5ee7, 0x992b_ac53);
  }

  lemma FedLetter2()
    ensures Feed(PNG, 0x992b_ac53, Word(0x4e)) == 0x639f_4775
  {
    assert Xor(0x992b_ac53, Word(0x4e)) == 0x992b_ac1d;
    EightTurns(0x992b_ac1d, 0xa12d_552e, 0x5096_aa97, 0xc5f3_d66b, 0x8f41_6815,
               0xaa18_372a, 0x550c_1b95, 0xc73e_8eea, 0x639f_4775);
  }

  lemma FedLetter3()
    ensures Feed(PNG, 0x639f_4775, Word(0x44)) == 0x51bd_9f7d
  {
    assert Xor(0x639f_4775, Word(0x44)) == 0x639f_4731;
    EightTurns(0x639f_4731, 0xdc77_20b8, 0x6e3b_905c, 0x371d_c82e, 0x1b8e_e417,
               0xe07f_f12b, 0x9d87_7bb5, 0xa37b_3efa, 0x51bd_9f7d);
  }

  lemma {:induction false} FourWords(c: bv32, a: bv8, b: bv8, d: bv8, e: bv8)
    ensures Register(PNG, c, Words([a, b, d, e])) ==
            Feed(PNG, Feed(PNG, Feed(PNG, Feed(PNG, c, Word(a)), Word(b)), Word(d)), Word(e))
  {
    FirstWord(c, [a, b, d, e]);
    FirstWord(Feed(PNG, c, Word(a)), [b, d, e]);
    FirstWord(Feed(PNG, Feed(PNG, c, Word(a)), Word(b)), [d, e]);
    FirstWord(Feed(PNG, Feed(PNG, Feed(PNG, c, Word(a)), Word(b)), Word(d)), [e]);
    assert [a, b, d, e][1..] == [b, d, e] && [b, d, e][1..] == [d, e] && [d, e][1..] == [e];
    var none: Bytes := [e][1..];
    assert none == [] && Words(none) == [];
  }

  /** The check of an empty end chunk, which closes every file. */
  lemma ChecksumOfEnd()
    ensures Checksum([0x49, 0x45, 0x4e, 0x44]) == 0xae42_6082
  {
    FourWords(START, 0x49, 0x45, 0x4e, 0x44);
    FedLetter0(); FedLetter1(); FedLetter2(); FedLetter3();
    assert Complement(0x51bd_9f7d) == 0xae42_6082;
  }
}
