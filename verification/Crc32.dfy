/** The CRC-32 of PNG chunks (RFC 2083, section 3.4), computed bit by bit. */
module Crc32 {
  import opened ByteOrder
  import opened ShiftRegister

  const START: bv32 := 0xffff_ffff

  /** The inner loop's body: the mask is all ones when the low bit is set. */
  function BitStep(c: bv32): bv32 { (c >> 1) ^ (0xedb8_8320 & (0 - (c & 1))) }

  function Xor(a: bv32, b: bv32): bv32 { a ^ b }

  const PNG: Machine<bv32> := Machine(BitStep, Xor)

  function Word(b: bv8): bv32 { b as bv32 }

  function Words(data: Bytes): (w: seq<bv32>)
    ensures |w| == |data|
  {
    seq(|data|, i requires 0 <= i < |data| => Word(data[i]))
  }

  function Complement(c: bv32): bv32 { !c }

  function Checksum(data: Bytes): bv32 { Complement(Register(PNG, START, Words(data))) }

  method FeedByte(crc: bv32, byte: bv8) returns (next: bv32)
    ensures next == Feed(PNG, crc, Word(byte))
  {
    next := crc ^ Word(byte);
    ghost var start := next;
    var k := 0;
    while k < 8
      invariant 0 <= k <= 8
      invariant next == Turn(PNG, k, start)
    {
      next := BitStep(next);
      k := k + 1;
    }
  }

  method ComputeCrc32(data: Bytes) returns (sum: bv32)
    ensures sum == Checksum(data)
  {
    var crc: bv32 := START;
    for i := 0 to |data|
      invariant crc == Register(PNG, START, Words(data)[..i])
    {
      assert Words(data)[..i + 1][..i] == Words(data)[..i];
      crc := FeedByte(crc, data[i]);
    }
    assert Words(data)[..|data|] == Words(data);
    sum := !crc;
  }

  // ----- The step is linear and loses nothing ---------------------------------------------

  const TAPS: bv32 := 0xedb8_8320

  function Half(c: bv32): bv32 { c >> 1 }

  predicate Odd(c: bv32) { c & 1 == 1 }

  lemma XorAssociates(a: bv32, b: bv32, c: bv32)
    ensures Xor(Xor(a, b), c) == Xor(a, Xor(b, c))
  {
  }

  lemma XorCommutes(a: bv32, b: bv32)
    ensures Xor(a, b) == Xor(b, a)
  {
  }

  lemma XorRegroups(a: bv32, b: bv32, c: bv32, d: bv32)
    ensures Xor(Xor(a, b), Xor(c, d)) == Xor(Xor(a, c), Xor(b, d))
  {
    XorAssociates(a, b, Xor(c, d));
    XorAssociates(b, c, d);
    XorCommutes(b, c);
    XorAssociates(c, b, d);
    XorAssociates(a, c, Xor(b, d));
  }

  lemma XorCancels(a: bv32, b: bv32, w: bv32)
    ensures a ^ w == b ^ w ==> a == b
    ensures w ^ a == w ^ b ==> a == b
  {
  }

  lemma XorZero(a: bv32)
    ensures Xor(a, 0) == a && Xor(0, a) == a && Xor(a, a) == 0
  {
  }

  lemma EvenStep(c: bv32)
    requires !Odd(c)
    ensures BitStep(c) == Xor(Half(c), 0)
  {
  }

  lemma OddStep(c: bv32)
    requires Odd(c)
    ensures BitStep(c) == Xor(Half(c), TAPS)
  {
  }

  // The word a register's low bit feeds back.
  function Back(c: bv32): bv32 { if Odd(c) then TAPS else 0 }

  lemma BitStepParts(c: bv32)
    ensures BitStep(c) == Xor(Half(c), Back(c))
  {
    if Odd(c) {
      OddStep(c);
    } else {
      EvenStep(c);
    }
  }

  lemma HalfLinear(a: bv32, b: bv32)
    ensures Half(Xor(a, b)) == Xor(Half(a), Half(b))
  {
  }

  lemma OddOfXor(a: bv32, b: bv32)
    ensures Odd(Xor(a, b)) == (Odd(a) != Odd(b))
  {
  }

  lemma BackLinear(a: bv32, b: bv32)
    ensures Back(Xor(a, b)) == Xor(Back(a), Back(b))
  {
    OddOfXor(a, b);
    XorZero(TAPS);
    XorZero(0);
  }

  lemma BitStepLinear(a: bv32, b: bv32)
    ensures BitStep(Xor(a, b)) == Xor(BitStep(a), BitStep(b))
  {
    BitStepParts(a);
    BitStepParts(b);
    BitStepParts(Xor(a, b));
    HalfLinear(a, b);
    BackLinear(a, b);
    XorRegroups(Half(a), Half(b), Back(a), Back(b));
  }

  lemma BitStepInjective(a: bv32, b: bv32)
    requires BitStep(a) == BitStep(b)
    ensures a == b
  {
  }

  lemma PngStepAdds(a: bv32, b: bv32)
    ensures StepAdds(PNG, a, b)
  {
    BitStepLinear(a, b);
  }

  lemma PngAddRegroups(a: bv32, b: bv32, c: bv32, d: bv32)
    ensures AddRegroups(PNG, a, b, c, d)
  {
    XorRegroups(a, b, c, d);
  }

  lemma PngIsLinear()
    ensures Linear(PNG)
  {
    forall a, b ensures StepAdds(PNG, a, b) {
      PngStepAdds(a, b);
    }
    forall a, b, c, d ensures AddRegroups(PNG, a, b, c, d) {
      PngAddRegroups(a, b, c, d);
    }
  }

  lemma PngIsInjective()
    ensures Injective(PNG)
  {
    forall a, b | PNG.step(a) == PNG.step(b) ensures a == b {
      BitStepInjective(a, b);
    }
    forall a, b, w | PNG.add(a, w) == PNG.add(b, w) ensures a == b {
      XorCancels(a, b, w);
    }
    forall a, b, w | PNG.add(w, a) == PNG.add(w, b) ensures a == b {
      XorCancels(a, b, w);
    }
  }

  /** The register one step earlier: the taps show in the top bit. */
  function BitBack(c: bv32): bv32 { if c >= 0x8000_0000 then (Xor(c, TAPS) << 1) | 1 else c << 1 }

  lemma BitBackHigh(c: bv32)
    requires c >= 0x8000_0000
    ensures Odd((Xor(c, TAPS) << 1) | 1) && Half((Xor(c, TAPS) << 1) | 1) == Xor(c, TAPS)
  {
  }

  lemma BitBackLow(c: bv32)
    requires c < 0x8000_0000
    ensures !Odd(c << 1) && Half(c << 1) == c
  {
  }

  lemma XorTwice(a: bv32, w: bv32)
    ensures Xor(Xor(a, w), w) == a
  {
    XorAssociates(a, w, w);
    XorZero(w);
    XorZero(a);
  }

  lemma StepUndoesBitBack(c: bv32)
    ensures PNG.step(BitBack(c)) == c
  {
    if c >= 0x8000_0000 {
      BitBackHigh(c);
      OddStep(BitBack(c));
      XorTwice(c, TAPS);
    } else {
      BitBackLow(c);
      EvenStep(BitBack(c));
      XorZero(c);
    }
  }

  /** The bit step is a bijection on the register: every value is reached, from one value
      alone. */
  lemma BitStepIsBijective(d: bv32) returns (c: bv32)
    ensures BitStep(c) == d && forall e :: BitStep(e) == d ==> e == c
  {
    c := BitBack(d);
    StepUndoesBitBack(d);
    forall e | BitStep(e) == d ensures e == c {
      BitStepInjective(e, c);
    }
  }

  /** So is the step for any byte. */
  lemma FeedIsBijective(b: bv8, d: bv32) returns (c: bv32)
    ensures Feed(PNG, c, Word(b)) == d && forall e :: Feed(PNG, e, Word(b)) == d ==> e == c
  {
    forall w ensures PNG.step(BitBack(w)) == w {
      StepUndoesBitBack(w);
    }
    var turned := Before(BitBack, 8, d);
    TurnOnto(PNG, BitBack, 8, d);
    c := Xor(turned, Word(b));
    XorTwice(turned, Word(b));
    PngIsInjective();
    forall e | Feed(PNG, e, Word(b)) == d ensures e == c {
      ShiftRegister.FeedInjective(PNG, e, c, Word(b), Word(b));
    }
  }

  // ----- The checksum is affine ---------------------------------------------------------------

  function XorBytes(x: Bytes, y: Bytes): (z: Bytes)
    requires |x| == |y|
    ensures |z| == |x|
  {
    seq(|x|, i requires 0 <= i < |x| => x[i] ^ y[i])
  }

  lemma WordOfXor(a: bv8, b: bv8)
    ensures Word(a ^ b) == PNG.add(Word(a), Word(b))
  {
  }

  lemma WordsOfXor(x: Bytes, y: Bytes)
    requires |x| == |y|
    ensures Words(XorBytes(x, y)) == Sum(PNG, Words(x), Words(y))
  {
    forall i | 0 <= i < |x| ensures Words(XorBytes(x, y))[i] == Sum(PNG, Words(x), Words(y))[i] {
      WordOfXor(x[i], y[i]);
    }
  }

  lemma StartsCancel()
    ensures PNG.add(PNG.add(START, START), START) == START
  {
  }

  lemma ComplementsXor(a: bv32, b: bv32, c: bv32)
    ensures (Complement(a) ^ Complement(b)) ^ Complement(c) == Complement(PNG.add(PNG.add(a, b), c))
  {
  }

  /** The checksum is affine over GF(2): of three texts of one length, the checksum of
      their sum is the sum of their checksums. */
  lemma ChecksumAffine(x: Bytes, y: Bytes, z: Bytes)
    requires |x| == |y| == |z|
    ensures Checksum(XorBytes(XorBytes(x, y), z)) == (Checksum(x) ^ Checksum(y)) ^ Checksum(z)
  {
    PngIsLinear();
    WordsOfXor(x, y);
    WordsOfXor(XorBytes(x, y), z);
    StartsCancel();
    RegisterOfThree(PNG, START, Words(x), Words(y), Words(z));
    ComplementsXor(Register(PNG, START, Words(x)), Register(PNG, START, Words(y)), Register(PNG, START, Words(z)));
  }

  // ----- Damage is noticed ----------------------------------------------------------------------

  // `v << n`, for up to eight places.
  function Up(v: bv24, n: nat): bv32 {
    match n
    case 0 => v as bv32
    case 1 => (v as bv32) << 1
    case 2 => (v as bv32) << 2
    case 3 => (v as bv32) << 3
    case 4 => (v as bv32) << 4
    case 5 => (v as bv32) << 5
    case 6 => (v as bv32) << 6
    case 7 => (v as bv32) << 7
    case _ => (v as bv32) << 8
  }

  lemma Down1(v: bv24)
    ensures PNG.step(Up(v, 1)) == Up(v, 0)
  {
  }

  lemma Down2(v: bv24)
    ensures PNG.step(Up(v, 2)) == Up(v, 1)
  {
  }

  lemma Down3(v: bv24)
    ensures PNG.step(Up(v, 3)) == Up(v, 2)
  {
  }

  lemma Down4(v: bv24)
    ensures PNG.step(Up(v, 4)) == Up(v, 3)
  {
  }

  lemma Down5(v: bv24)
    ensures PNG.step(Up(v, 5)) == Up(v, 4)
  {
  }

  lemma Down6(v: bv24)
    ensures PNG.step(Up(v, 6)) == Up(v, 5)
  {
  }

  lemma Down7(v: bv24)
    ensures PNG.step(Up(v, 7)) == Up(v, 6)
  {
  }

  lemma Down8(v: bv24)
    ensures PNG.step(Up(v, 8)) == Up(v, 7)
  {
  }

  /** Eight turns of a word with eight low zeros shift them out. */
  lemma ZerosShiftOut(v: bv24)
    ensures Turn(PNG, 8, Up(v, 8)) == Up(v, 0)
  {
    var path := (n: nat) => Up(v, n);
    Down1(v); Down2(v); Down3(v); Down4(v); Down5(v); Down6(v); Down7(v); Down8(v);
    EightBack(PNG, path);
  }

  // The byte at place `i` of a little-endian word.
  function Lane(i: nat, b: bv8): bv32 {
    if i == 0 then Word(b) else if i == 1 then Word(b) << 8 else if i == 2 then Word(b) << 16 else Word(b) << 24
  }

  function Lanes(data: Bytes): (w: seq<bv32>)
    ensures |w| == |data|
  {
    seq(|data|, i requires 0 <= i < |data| => Lane(i, data[i]))
  }

  // The same byte with room for eight more places.
  function Narrow(i: nat, b: bv8): bv24 {
    if i == 0 then b as bv24 else if i == 1 then (b as bv24) << 8 else (b as bv24) << 16
  }

  lemma LaneMovesUp(i: nat, b: bv8)
    requires i < 3
    ensures Up(Narrow(i, b), 0) == Lane(i, b) && Up(Narrow(i, b), 8) == Lane(i + 1, b)
  {
  }

  lemma LaneMovesDown(i: nat, b: bv8)
    requires i < 3
    ensures Turn(PNG, 8, Lane(i + 1, b)) == Lane(i, b)
  {
    LaneMovesUp(i, b);
    ZerosShiftOut(Narrow(i, b));
  }

  lemma LaneReturns(i: nat, b: bv8)
    requires i < 4
    ensures Turn(PNG, 8 * i, Lane(i, b)) == Word(b)
  {
    var path := (k: nat) => Lane(k, b);
    forall k: nat | k < i ensures Turn(PNG, 8, path(k + 1)) == path(k) {
      LaneMovesDown(k, b);
    }
    BytesBack(PNG, path, i);
  }

  lemma FeedWindow(c: bv32, x: Bytes)
    requires |x| <= 4
    ensures Register(PNG, c, Words(x)) == Turn(PNG, 8 * |x|, AddAll(PNG, c, Lanes(x)))
  {
    forall i | 0 <= i < |x| ensures Turn(PNG, 8 * i, Lanes(x)[i]) == Words(x)[i] {
      LaneReturns(i, x[i]);
    }
    PngIsLinear();
    FeedAllAtOnce(PNG, c, Lanes(x), Words(x));
  }

  function Packed(c: bv32, x0: bv8, x1: bv8, x2: bv8, x3: bv8): bv32 {
    Xor(Xor(Xor(Xor(c, Lane(0, x0)), Lane(1, x1)), Lane(2, x2)), Lane(3, x3))
  }

  lemma PackedInjective(c: bv32, x0: bv8, x1: bv8, x2: bv8, x3: bv8, y0: bv8, y1: bv8, y2: bv8, y3: bv8)
    requires Xor(Xor(Xor(Xor(c, Lane(0, x0)), Lane(1, x1)), Lane(2, x2)), Lane(3, x3)) ==
             Xor(Xor(Xor(Xor(c, Lane(0, y0)), Lane(1, y1)), Lane(2, y2)), Lane(3, y3))
    ensures x0 == y0 && x1 == y1 && x2 == y2 && x3 == y3
  {
  }

  lemma EmptyLane(i: nat, c: bv32)
    ensures Xor(c, Lane(i, 0)) == c
  {
  }

  // A window filled up to four bytes with zeros.
  function Padded(x: Bytes, i: nat): bv8 { if i < |x| then x[i] else 0 }

  function AddedUpTo(c: bv32, x: Bytes, n: nat): bv32 {
    if n == 0 then c else Xor(AddedUpTo(c, x, n - 1), Lane(n - 1, Padded(x, n - 1)))
  }

  lemma {:induction false} AddedLanes(c: bv32, x: Bytes, n: nat)
    requires n <= |x|
    ensures AddAll(PNG, c, Lanes(x)[..n]) == AddedUpTo(c, x, n)
    decreases n
  {
    if n > 0 {
      assert Lanes(x)[..n][..n - 1] == Lanes(x)[..n - 1];
      AddedLanes(c, x, n - 1);
    }
  }

  lemma {:induction false} AddedPadding(c: bv32, x: Bytes, n: nat)
    requires |x| <= n
    ensures AddedUpTo(c, x, n) == AddedUpTo(c, x, |x|)
    decreases n
  {
    if n > |x| {
      AddedPadding(c, x, n - 1);
      EmptyLane(n - 1, AddedUpTo(c, x, n - 1));
    }
  }

  lemma AddedIsPacked(c: bv32, x: Bytes)
    requires |x| <= 4
    ensures AddAll(PNG, c, Lanes(x)) == Packed(c, Padded(x, 0), Padded(x, 1), Padded(x, 2), Padded(x, 3))
  {
    assert Lanes(x)[..|x|] == Lanes(x);
    AddedLanes(c, x, |x|);
    AddedPadding(c, x, 4);
    assert AddedUpTo(c, x, 0) == c;
    assert AddedUpTo(c, x, 1) == Xor(AddedUpTo(c, x, 0), Lane(0, Padded(x, 0)));
    assert AddedUpTo(c, x, 2) == Xor(AddedUpTo(c, x, 1), Lane(1, Padded(x, 1)));
    assert AddedUpTo(c, x, 3) == Xor(AddedUpTo(c, x, 2), Lane(2, Padded(x, 2)));
    assert AddedUpTo(c, x, 4) == Xor(AddedUpTo(c, x, 3), Lane(3, Padded(x, 3)));
  }

  lemma WindowSums(c: bv32, x: Bytes, y: Bytes)
    requires |x| == |y| <= 4 && Register(PNG, c, Words(x)) == Register(PNG, c, Words(y))
    ensures AddAll(PNG, c, Lanes(x)) == AddAll(PNG, c, Lanes(y))
  {
    FeedWindow(c, x);
    FeedWindow(c, y);
    PngIsInjective();
    TurnInjective(PNG, 8 * |x|, AddAll(PNG, c, Lanes(x)), AddAll(PNG, c, Lanes(y)));
  }

  lemma PackedWindows(c: bv32, x: Bytes, y: Bytes)
    requires |x| == |y| <= 4 && Register(PNG, c, Words(x)) == Register(PNG, c, Words(y))
    ensures Packed(c, Padded(x, 0), Padded(x, 1), Padded(x, 2), Padded(x, 3)) ==
            Packed(c, Padded(y, 0), Padded(y, 1), Padded(y, 2), Padded(y, 3))
  {
    WindowSums(c, x, y);
    AddedIsPacked(c, x);
    AddedIsPacked(c, y);
  }

  lemma PaddingDecides(x: Bytes, y: Bytes)
    requires |x| == |y| <= 4
    requires Padded(x, 0) == Padded(y, 0) && Padded(x, 1) == Padded(y, 1)
    requires Padded(x, 2) == Padded(y, 2) && Padded(x, 3) == Padded(y, 3)
    ensures x == y
  {
    forall i | 0 <= i < |x| ensures x[i] == y[i] {
      assert x[i] == Padded(x, i) && y[i] == Padded(y, i);
    }
  }

  lemma WindowsDiffer(c: bv32, x: Bytes, y: Bytes)
    requires |x| == |y| <= 4 && Register(PNG, c, Words(x)) == Register(PNG, c, Words(y))
    ensures x == y
  {
    var x0, x1, x2, x3 := Padded(x, 0), Padded(x, 1), Padded(x, 2), Padded(x, 3);
    var y0, y1, y2, y3 := Padded(y, 0), Padded(y, 1), Padded(y, 2), Padded(y, 3);
    PackedWindows(c, x, y);
    PackedApart(c, x0, x1, x2, x3, y0, y1, y2, y3);
    PaddingDecides(x, y);
  }

  lemma PackedApart(c: bv32, x0: bv8, x1: bv8, x2: bv8, x3: bv8, y0: bv8, y1: bv8, y2: bv8, y3: bv8)
    requires Packed(c, x0, x1, x2, x3) == Packed(c, y0, y1, y2, y3)
    ensures x0 == y0 && x1 == y1 && x2 == y2 && x3 == y3
  {
    PackedInjective(c, x0, x1, x2, x3, y0, y1, y2, y3);
  }

  lemma WordsOfConcat(x: Bytes, y: Bytes)
    ensures Words(x + y) == Words(x) + Words(y)
  {
  }

  /** Any damage confined to four consecutive bytes, and so any damage to a single byte,
      changes the checksum. */
  lemma ChecksumSeesBurst(before: Bytes, x: Bytes, y: Bytes, after: Bytes)
    requires |x| == |y| <= 4
    ensures Checksum(before + x + after) == Checksum(before + y + after) <==> x == y
  {
    if Checksum(before + x + after) == Checksum(before + y + after) {
      ChecksumsAgree(before + x + after, before + y + after);
      WordsOfConcat(before + x, after);
      WordsOfConcat(before + y, after);
      WordsOfConcat(before, x);
      WordsOfConcat(before, y);
      RegistersSeeBurst(Words(before), x, y, Words(after));
    }
  }

  lemma ComplementInjective(a: bv32, b: bv32)
    requires Complement(a) == Complement(b)
    ensures a == b
  {
  }

  lemma ChecksumsAgree(x: Bytes, y: Bytes)
    requires Checksum(x) == Checksum(y)
    ensures Register(PNG, START, Words(x)) == Register(PNG, START, Words(y))
  {
    ComplementInjective(Register(PNG, START, Words(x)), Register(PNG, START, Words(y)));
  }

  lemma RegistersSeeBurst(before: seq<bv32>, x: Bytes, y: Bytes, after: seq<bv32>)
    requires |x| == |y| <= 4
    requires Register(PNG, START, before + Words(x) + after) == Register(PNG, START, before + Words(y) + after)
    ensures x == y
  {
    PngIsInjective();
    var middle := Register(PNG, START, before);
    RegisterOfConcat(PNG, START, before + Words(x), after);
    RegisterOfConcat(PNG, START, before + Words(y), after);
    RegisterOfConcat(PNG, START, before, Words(x));
    RegisterOfConcat(PNG, START, before, Words(y));
    RegisterInjective(PNG, Register(PNG, middle, Words(x)), Register(PNG, middle, Words(y)), after);
    WindowsDiffer(middle, x, y);
  }

  // ----- The table form ---------------------------------------------------------------------------

  // Entry `i` of the table RFC 2083 section 15 precomputes.
  function TableEntry(i: bv8): bv32 { Turn(PNG, 8, Word(i)) }

  function LowByte(c: bv32): bv8 { (c & 0xff) as bv8 }

  function HighBytes(c: bv32): bv24 { (c >> 8) as bv24 }

  lemma WordSplits(w: bv32)
    ensures Xor(Word(LowByte(w)), Up(HighBytes(w), 8)) == w
    ensures Up(HighBytes(w), 0) == w >> 8
  {
  }

  lemma HighBytesStay(c: bv32, b: bv8)
    ensures HighBytes(Xor(c, Word(b))) == HighBytes(c)
  {
  }

  /** The bit loop computes the byte-at-a-time table update. */
  lemma FeedByTable(c: bv32, b: bv8)
    ensures Feed(PNG, c, Word(b)) == Xor(TableEntry(LowByte(Xor(c, Word(b)))), c >> 8)
  {
    var w := Xor(c, Word(b));
    WordSplits(w);
    WordSplits(c);
    HighBytesStay(c, b);
    PngIsLinear();
    TurnLinear(PNG, 8, Word(LowByte(w)), Up(HighBytes(w), 8));
    ZerosShiftOut(HighBytes(c));
  }
}
