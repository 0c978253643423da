/** Bytes, their values, and numbers written most significant byte first. */
module ByteOrder {
  type Bytes = seq<bv8>

  const U32_END: nat := 0x1_0000_0000

  function Value(b: bv8): (v: nat)
    ensures v < 256
  {
    b as int
  }

  lemma SameByte(x: bv8, y: bv8)
    requires Value(x) == Value(y)
    ensures x == y
  {
  }

  lemma {:induction false} ByteExists(n: nat) returns (b: bv8)
    requires n < 256
    ensures Value(b) == n
  {
    if n == 0 {
      b := 0;
    } else {
      var below := ByteExists(n - 1);
      b := below + 1;
    }
  }

  /** The byte with a given value. */
  function ByteOf(n: nat): (b: bv8)
    requires n < 256
    ensures Value(b) == n
  {
    assert exists b :: Value(b) == n by {
      var b := ByteExists(n);
    }
    assert forall x, y :: Value(x) == Value(y) ==> x == y by {
      forall x, y | Value(x) == Value(y) ensures x == y {
        SameByte(x, y);
      }
    }
    var b :| Value(b) == n;
    b
  }

  function BigEndian(n: nat): (b: Bytes)
    requires n < U32_END
    ensures |b| == 4
  {
    [ByteOf(n / 0x100_0000), ByteOf(n / 0x1_0000 % 0x100), ByteOf(n / 0x100 % 0x100), ByteOf(n % 0x100)]
  }

  function ReadBig(b: Bytes): (n: nat)
    requires |b| == 4
    ensures n < U32_END
  {
    Value(b[0]) * 0x100_0000 + Value(b[1]) * 0x1_0000 + Value(b[2]) * 0x100 + Value(b[3])
  }

  lemma DigitsOf(n: nat)
    requires n < U32_END
    ensures n / 0x100_0000 * 0x100_0000 + n / 0x1_0000 % 0x100 * 0x1_0000 + n / 0x100 % 0x100 * 0x100 + n % 0x100 == n
  {
    assert n / 0x1_0000 == n / 0x100 / 0x100 && n / 0x100_0000 == n / 0x1_0000 / 0x100;
  }

  lemma BigEndianReadsBack(n: nat)
    requires n < U32_END
    ensures ReadBig(BigEndian(n)) == n
  {
    DigitsOf(n);
  }

  lemma BigEndianValues(n: nat)
    requires n < U32_END
    ensures Value(BigEndian(n)[0]) == n / 0x100_0000 && Value(BigEndian(n)[1]) == n / 0x1_0000 % 0x100
    ensures Value(BigEndian(n)[2]) == n / 0x100 % 0x100 && Value(BigEndian(n)[3]) == n % 0x100
  {
  }

  lemma SameFour(x: Bytes, y: Bytes)
    requires |x| == |y| == 4 && forall i :: 0 <= i < 4 ==> Value(x[i]) == Value(y[i])
    ensures x == y
  {
    forall i | 0 <= i < 4 ensures x[i] == y[i] {
      SameByte(x[i], y[i]);
    }
  }

  lemma DigitsInBytes(n: nat, a: nat, b: nat, c: nat, d: nat)
    requires a < 0x100 && b < 0x100 && c < 0x100 && d < 0x100
    requires n == a * 0x100_0000 + b * 0x1_0000 + c * 0x100 + d
    ensures n < U32_END && Value(BigEndian(n)[0]) == a && Value(BigEndian(n)[1]) == b
    ensures Value(BigEndian(n)[2]) == c && Value(BigEndian(n)[3]) == d
  {
    DigitsAre(a, b, c, d);
    BigEndianValues(n);
  }

  /** A number is written as its digits in base 256, the weightiest first. */
  lemma BigEndianBytes(n: nat, b: Bytes)
    requires |b| == 4 && n == Value(b[0]) * 0x100_0000 + Value(b[1]) * 0x1_0000 + Value(b[2]) * 0x100 + Value(b[3])
    ensures n < U32_END && BigEndian(n) == b
  {
    var v0, v1, v2, v3 := Value(b[0]), Value(b[1]), Value(b[2]), Value(b[3]);
    DigitsInBytes(n, v0, v1, v2, v3);
    SameFour(BigEndian(n), b);
  }

  lemma LastDigit(m: nat, d: nat)
    requires d < 0x100
    ensures (0x100 * m + d) / 0x100 == m && (0x100 * m + d) % 0x100 == d
  {
  }

  lemma DividedTwice(n: nat)
    ensures n / 0x1_0000 == n / 0x100 / 0x100 && n / 0x100_0000 == n / 0x100 / 0x100 / 0x100
  {
  }

  lemma DigitsAre(a: nat, b: nat, c: nat, d: nat)
    requires a < 0x100 && b < 0x100 && c < 0x100 && d < 0x100
    ensures var n := a * 0x100_0000 + b * 0x1_0000 + c * 0x100 + d;
            n / 0x100_0000 == a && n / 0x1_0000 % 0x100 == b && n / 0x100 % 0x100 == c && n % 0x100 == d
  {
    var l := 0x100 * a + b;
    var m := 0x100 * l + c;
    LastDigit(a, b);
    LastDigit(l, c);
    LastDigit(m, d);
    DividedTwice(0x100 * m + d);
  }

  /** A length field of 32 bits; a longer length is cut to them. */
  function Size(n: nat): Bytes { BigEndian(if n < U32_END then n else n % U32_END) }

  function ReadSize(b: Bytes): nat { if |b| == 4 then ReadBig(b) else 0 }

  lemma SizeReadsBack(n: nat)
    requires n < U32_END
    ensures |Size(n)| == 4 && ReadSize(Size(n)) == n
  {
    BigEndianReadsBack(n);
  }
}
