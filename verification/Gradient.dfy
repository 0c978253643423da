/** The sample image: a vertical colour gradient with a faint texture, written as PNG. */
module Gradient {
  import opened Basics
  import opened ByteOrder
  import opened Chunks
  import Png
  import Zlib

  type Level = n: int | 0 <= n < 256

  type U32 = n: int | 0 <= n < 0x1_0000_0000

  datatype Colour = Colour(red: Level, green: Level, blue: Level)

  // ----- Interpolation -----------------------------------------------------------------------

  function Magnitude(n: int): nat { if n < 0 then -n else n }

  /** Division of signed machine integers, rounding toward zero. */
  function TruncatingDiv(n: int, d: int): int
    requires d != 0
  {
    var q: int := Magnitude(n) / Magnitude(d);
    if (n >= 0) == (d > 0) then q else -q
  }

  /** `as i32`. */
  function AsI32(n: nat): int { if n <= I32_MAX then n else n - U32_END }

  function Shifted(start: Level, end: Level, numerator: nat, denominator: U32): int
    requires denominator > 0
  {
    start + TruncatingDiv((end - start) * AsI32(numerator), AsI32(denominator))
  }

  function Interpolate(start: Level, end: Level, numerator: nat, denominator: U32): Level
    requires denominator > 0
  {
    Clamp(Shifted(start, end, numerator, denominator), 0, 255)
  }

  /** No step of the interpolation leaves 32 bits. */
  predicate LevelFits(start: Level, end: Level, numerator: nat, denominator: U32)
    requires denominator > 0
  {
    IsI32((end - start) * AsI32(numerator)) && IsI32(Shifted(start, end, numerator, denominator))
  }

  lemma TimesMonotone(a: int, b: int, d: nat)
    ensures a <= b ==> a * d <= b * d
    ensures (a + 1) * d == a * d + d
  {
  }

  lemma QuotientAtMost(n: nat, d: nat, q: nat)
    requires d > 0 && n < q * d + d
    ensures n / d <= q
  {
    TimesMonotone(q + 1, n / d, d);
    TimesMonotone(q, q, d);
  }

  lemma QuotientAtLeast(n: nat, d: nat, q: nat)
    requires d > 0 && q * d <= n
    ensures q <= n / d
  {
    TimesMonotone(n / d + 1, q, d);
    TimesMonotone(n / d, n / d, d);
  }

  lemma QuotientWithin(delta: nat, n: nat, d: nat)
    requires 0 < d && n <= d
    ensures 0 <= delta * n <= d * delta
    ensures 0 <= delta * n / d <= delta
  {
    TimesMonotone(n, d, delta);
    TimesMonotone(0, n, delta);
    WithinOf(delta * n, d, delta);
  }

  lemma WithinOf(product: nat, d: nat, delta: nat)
    requires 0 < d && product <= d * delta
    ensures 0 <= product / d <= delta
  {
    QuotientAtMost(product, d, delta);
  }

  lemma FullQuotient(delta: nat, d: nat)
    requires 0 < d
    ensures delta * d / d == delta
  {
    QuotientAtMost(delta * d, d, delta);
    QuotientAtLeast(delta * d, d, delta);
  }

  lemma FullQuotientSigned(delta: int, d: int)
    requires d != 0
    ensures TruncatingDiv(delta * d, d) == delta
  {
    MagnitudeOfProduct(delta, d);
    FullQuotient(Magnitude(delta), Magnitude(d));
  }

  lemma MagnitudeOfProduct(a: int, b: int)
    ensures Magnitude(a * b) == Magnitude(a) * Magnitude(b)
    ensures a != 0 && b != 0 ==> (a * b >= 0 <==> (a > 0 <==> b > 0))
  {
    SignOfProduct(a, b);
    SignOfProduct(-a, b);
    SignOfProduct(a, -b);
    SignOfProduct(-a, -b);
  }

  lemma SignOfProduct(a: int, b: int)
    ensures a > 0 && b > 0 ==> a * b > 0
    ensures -a * b == -(a * b) && a * -b == -(a * b) && -a * -b == a * b
  {
    if a > 0 && b > 0 {
      TimesMonotone(1, a, b);
    }
  }

  /** The gradient runs from exactly one colour level to exactly the other, and as long as
      the denominator is a positive `i32` it never leaves the range between them, whichever
      is larger. */
  lemma InterpolateStaysBetween(start: Level, end: Level, n: nat, d: U32)
    requires 0 < d && n <= d
    ensures d <= I32_MAX ==> Min(start, end) <= Interpolate(start, end, n, d) <= Max(start, end)
    ensures n == 0 ==> Interpolate(start, end, n, d) == start
    ensures n == d ==> Interpolate(start, end, n, d) == end
  {
    var delta := end - start;
    if n == 0 {
      ZeroQuotient(AsI32(d));
    }
    if n == d {
      FullQuotientSigned(delta, AsI32(d));
    }
    if d <= I32_MAX {
      MagnitudeOfProduct(delta, n);
      QuotientWithin(Magnitude(delta), n, d);
      ShiftWithin(start, end, n, d);
    }
  }

  lemma ZeroQuotient(d: int)
    requires d != 0
    ensures TruncatingDiv(0, d) == 0
  {
  }

  lemma ShiftWithin(start: Level, end: Level, n: nat, d: nat)
    requires 0 < d && n <= d <= I32_MAX
    requires Magnitude((end - start) * n) == Magnitude(end - start) * n
    requires 0 <= Magnitude(end - start) * n / d <= Magnitude(end - start)
    ensures Min(start, end) <= start + TruncatingDiv((end - start) * n, d) <= Max(start, end)
  {
    var product := (end - start) * n;
    if end >= start {
      TimesMonotone(0, end - start, n);
    } else {
      TimesMonotone(end - start, 0, n);
    }
  }

  lemma QuotientRounds(n: nat, d: nat)
    requires d > 0
    ensures n / d * d <= n < n / d * d + d
  {
  }

  lemma MovedDistance(start: Level, end: Level, n: nat, d: nat)
    requires 0 < d && n <= d <= I32_MAX
    ensures Magnitude(Interpolate(start, end, n, d) - start) == Magnitude(end - start) * n / d
    ensures start <= end ==> start <= Interpolate(start, end, n, d)
    ensures end <= start ==> Interpolate(start, end, n, d) <= start
  {
    var product, way := (end - start) * n, Magnitude(end - start) * n;
    MagnitudeOfProduct(end - start, n);
    QuotientWithin(Magnitude(end - start), n, d);
    ShiftWithin(start, end, n, d);
    SignedQuotient(product, way, d);
    ProductSign(end - start, n);
  }

  lemma ProductSign(delta: int, n: nat)
    ensures delta >= 0 ==> delta * n >= 0
    ensures delta <= 0 ==> delta * n <= 0
  {
    if delta >= 0 {
      TimesMonotone(0, delta, n);
    } else {
      TimesMonotone(delta, 0, n);
    }
  }

  lemma TruncatedIs(product: int, d: nat, q: nat)
    requires 0 < d && q == Magnitude(product) / d
    ensures TruncatingDiv(product, d) == if product >= 0 then q else -(q as int)
  {
    assert Magnitude(d) == d;
  }

  lemma SignedQuotient(product: int, size: nat, d: nat)
    requires 0 < d && Magnitude(product) == size
    ensures Magnitude(TruncatingDiv(product, d)) == size / d
    ensures product >= 0 ==> TruncatingDiv(product, d) >= 0
    ensures product <= 0 ==> TruncatingDiv(product, d) <= 0
  {
    var q: nat := size / d;
    TruncatedIs(product, d, q);
    if product == 0 {
      ZeroQuotient(d);
    }
  }

  /** Between the ends a level has moved toward the end by exactly its share of the way, in
      whole steps, the rest of a step being cut off. */
  lemma InterpolateRounds(start: Level, end: Level, n: nat, d: U32)
    requires 0 < d && n <= d <= I32_MAX
    ensures var v := Interpolate(start, end, n, d);
            && (start <= end ==> start <= v <= end) && (end <= start ==> end <= v <= start)
            && var moved, way := Magnitude(v - start), Magnitude(end - start) * n;
               moved * d <= way < moved * d + d
  {
    InterpolateStaysBetween(start, end, n, d);
    MovedDistance(start, end, n, d);
    QuotientRounds(Magnitude(end - start) * n, d);
  }

  // ----- Scanlines ------------------------------------------------------------------------------

  function Shimmer(x: nat, y: nat): (s: nat)
    ensures s < 17
  {
    (x * 19 + y * 7) % 17
  }

  function Lifted(level: Level, extra: nat): Level { Min(level + extra, 255) }

  // The numbers pushed for one pixel.
  function Pixel(base: Colour, shimmer: nat): (p: seq<Level>)
    ensures |p| == 3
  {
    [Lifted(base.red, shimmer / 4), Lifted(base.green, shimmer / 5), Lifted(base.blue, shimmer / 6)]
  }

  function AsBytes(levels: seq<Level>): (b: Bytes)
    ensures |b| == |levels|
  {
    seq(|levels|, i requires 0 <= i < |levels| => ByteOf(levels[i]))
  }

  // `n * size`, by repeated addition.
  function Times(n: nat, size: nat): nat { if n == 0 then 0 else Times(n - 1, size) + size }

  /** The first `n` parts one after another. */
  function Joined(part: nat -> seq<Level>, n: nat): seq<Level>
    decreases n
  {
    if n == 0 then [] else Joined(part, n - 1) + part(n - 1)
  }

  datatype Picture = Picture(width: U32, height: U32, start: Colour, end: Colour) {
    function Steps(): U32 { Max(height - 1, 1) }

    function Base(y: nat): Colour {
      Colour(Interpolate(start.red, end.red, y, Steps()), Interpolate(start.green, end.green, y, Steps()),
             Interpolate(start.blue, end.blue, y, Steps()))
    }

    function Pixels(y: nat, n: nat): (p: seq<Level>)
      ensures |p| == 3 * n
    {
      if n == 0 then [] else Pixels(y, n - 1) + Pixel(Base(y), Shimmer(n - 1, y))
    }

    function Stride(): nat { 1 + 3 * width }

    /** A scanline: no filter, then the pixels. */
    function Row(y: nat): (r: seq<Level>)
      ensures |r| == Stride()
    {
      [0] + Pixels(y, width)
    }

    /** Where scanline `y` begins: `y` strides in. */
    function RowStart(y: nat): nat { Times(y, Stride()) }

    function RowOf(): nat -> seq<Level> { (y: nat) => Row(y) }

    function Rows(n: nat): seq<Level> { Joined(RowOf(), n) }

    function Raw(): Bytes { AsBytes(Rows(height)) }

    predicate TextureFits(y: nat) { forall x: nat :: x < width ==> x * 19 + y * 7 < U32_END }

    predicate ColoursFit(y: nat) {
      && LevelFits(start.red, end.red, y, Steps())
      && LevelFits(start.green, end.green, y, Steps())
      && LevelFits(start.blue, end.blue, y, Steps())
    }

    /** The raw size the writer computes up front. */
    predicate SizeFits() { width * 3 < U32_END && 1 + width * 3 < U32_END && height * (1 + width * 3) < U32_END }

    /** No checked operation of the writer overflows. */
    predicate Fits() {
      SizeFits() && forall y: nat :: y < height ==> ColoursFit(y) && TextureFits(y)
    }
  }

  /** Any picture of this size is within bounds, whatever its colours. */
  lemma SmallPicturesFit(p: Picture)
    requires p.height * (1 + p.width * 3) < U32_END
    requires 19 * p.width + 7 * p.height < U32_END && 255 * p.height <= I32_MAX
    ensures p.Fits()
  {
    forall y: nat | y < p.height ensures p.ColoursFit(y) && p.TextureFits(y) {
      SmallLevelFits(p.start.red, p.end.red, y, p.Steps());
      SmallLevelFits(p.start.green, p.end.green, y, p.Steps());
      SmallLevelFits(p.start.blue, p.end.blue, y, p.Steps());
    }
  }

  lemma SmallLevelFits(start: Level, end: Level, n: nat, d: nat)
    requires 0 < d && n <= d && 255 * d <= I32_MAX
    ensures LevelFits(start, end, n, d)
  {
    MagnitudeOfProduct(end - start, n);
    TimesMonotone(Magnitude(end - start), 255, n);
    QuotientWithin(Magnitude(end - start), n, d);
    ShiftWithin(start, end, n, d);
  }

  lemma LargestProduct(delta: int, y: nat, last: nat)
    requires -255 <= delta <= 255 && y <= last
    ensures IsI32(delta * last) ==> IsI32(delta * y)
  {
    if delta >= 0 {
      TimesMonotone(y, last, delta);
      TimesMonotone(0, y, delta);
    } else {
      TimesMonotone(y, last, -delta);
      TimesMonotone(0, y, -delta);
    }
  }

  // With at least one column the rows are few enough for signed 32-bit numbers.
  lemma RowsAreFew(width: nat, height: nat)
    requires width > 0 && height * (1 + width * 3) < U32_END
    ensures height <= I32_MAX && (height > 0 ==> width * 3 + 1 < U32_END)
  {
    TimesMonotone(4, 1 + width * 3, height);
    if height > 0 {
      TimesMonotone(1, height, 1 + width * 3);
    }
  }

  lemma LevelFitsIff(start: Level, end: Level, n: nat, d: nat)
    requires 0 < d && n <= d <= I32_MAX
    ensures LevelFits(start, end, n, d) <==> IsI32((end - start) * n)
  {
    InterpolateStaysBetween(start, end, n, d);
    MagnitudeOfProduct(end - start, n);
    QuotientWithin(Magnitude(end - start), n, d);
    ShiftWithin(start, end, n, d);
  }

  lemma ColoursFitIff(p: Picture, y: nat)
    requires y < p.height <= I32_MAX
    ensures p.ColoursFit(y) <==>
            IsI32((p.end.red - p.start.red) * y) && IsI32((p.end.green - p.start.green) * y)
            && IsI32((p.end.blue - p.start.blue) * y)
  {
    LevelFitsIff(p.start.red, p.end.red, y, p.Steps());
    LevelFitsIff(p.start.green, p.end.green, y, p.Steps());
    LevelFitsIff(p.start.blue, p.end.blue, y, p.Steps());
  }

  // The conditions on the last row are conditions on all rows.
  predicate LastRowFits(p: Picture)
    requires p.height > 0
  {
    19 * (p.width - 1) + 7 * (p.height - 1) < U32_END
    && IsI32((p.end.red - p.start.red) * (p.height - 1))
    && IsI32((p.end.green - p.start.green) * (p.height - 1))
    && IsI32((p.end.blue - p.start.blue) * (p.height - 1))
  }

  lemma EveryRowFits(p: Picture, y: nat)
    requires p.width > 0 && y < p.height <= I32_MAX && LastRowFits(p)
    ensures p.ColoursFit(y) && p.TextureFits(y)
  {
    LargestProduct(p.end.red - p.start.red, y, p.height - 1);
    LargestProduct(p.end.green - p.start.green, y, p.height - 1);
    LargestProduct(p.end.blue - p.start.blue, y, p.height - 1);
    ColoursFitIff(p, y);
  }

  lemma LastRowFitsIff(p: Picture)
    requires p.width > 0 && 0 < p.height <= I32_MAX
    ensures p.ColoursFit(p.height - 1) && p.TextureFits(p.height - 1) <==> LastRowFits(p)
  {
    if LastRowFits(p) {
      EveryRowFits(p, p.height - 1);
    }
    if p.ColoursFit(p.height - 1) && p.TextureFits(p.height - 1) {
      ColoursFitIff(p, p.height - 1);
      var x: nat := p.width - 1;
      assert x * 19 + (p.height - 1) * 7 < U32_END;
    }
  }

  /** Exactly which pictures with at least one column can be drawn: the raw size, the texture
      in the last corner and every colour's way down to the last row stay within 32 bits. */
  lemma FitsIff(p: Picture)
    requires p.width > 0
    ensures p.Fits() <==>
            if p.height == 0 then p.width * 3 + 1 < U32_END
            else p.height * (1 + 3 * p.width) < U32_END && LastRowFits(p)
  {
    if p.height * (1 + p.width * 3) < U32_END && p.height > 0 {
      RowsAreFew(p.width, p.height);
      LastRowFitsIff(p);
      if LastRowFits(p) {
        forall y: nat | y < p.height ensures p.ColoursFit(y) && p.TextureFits(y) {
          EveryRowFits(p, y);
        }
      }
    }
  }

  lemma {:induction false} JoinedLength(part: nat -> seq<Level>, n: nat, size: nat)
    requires forall k: nat :: k < n ==> |part(k)| == size
    ensures |Joined(part, n)| == Times(n, size)
    decreases n
  {
    if n > 0 {
      JoinedLength(part, n - 1, size);
    }
  }

  lemma {:induction false} TimesIsProduct(n: nat, size: nat)
    ensures Times(n, size) == n * size
    decreases n
  {
    if n > 0 {
      TimesIsProduct(n - 1, size);
      TimesMonotone(n - 1, n - 1, size);
    }
  }

  lemma {:induction false} JoinedAt(part: nat -> seq<Level>, n: nat, y: nat)
    requires y < n
    ensures |Joined(part, y)| + |part(y)| <= |Joined(part, n)|
    ensures Joined(part, n)[|Joined(part, y)|..|Joined(part, y)| + |part(y)|] == part(y)
    decreases n
  {
    var before := Joined(part, n - 1);
    if y < n - 1 {
      JoinedAt(part, n - 1, y);
      SliceOfPrefix(before, part(n - 1), |Joined(part, y)|, |Joined(part, y)| + |part(y)|);
    } else {
      SliceOfSuffix(before, part(y));
    }
  }

  lemma RowsLength(p: Picture, n: nat)
    ensures |p.Rows(n)| == p.RowStart(n)
  {
    forall k: nat ensures |p.RowOf()(k)| == p.Stride() {
      assert p.RowOf()(k) == p.Row(k);
    }
    JoinedLength(p.RowOf(), n, p.Stride());
  }

  lemma RowInRows(p: Picture, y: nat, n: nat)
    requires y < n
    ensures p.RowStart(y) + p.Stride() <= |p.Rows(n)|
    ensures p.Rows(n)[p.RowStart(y)..p.RowStart(y) + p.Stride()] == p.Row(y)
  {
    RowsLength(p, y);
    JoinedAt(p.RowOf(), n, y);
    assert p.RowOf()(y) == p.Row(y);
  }

  method PushPixel(raw: seq<Level>, base: Colour, shimmer: nat) returns (next: seq<Level>)
    ensures next == raw + Pixel(base, shimmer)
  {
    next := raw + [Lifted(base.red, shimmer / 4)];
    next := next + [Lifted(base.green, shimmer / 5)];
    next := next + [Lifted(base.blue, shimmer / 6)];
  }

  /** `None` stands for the panic of a checked operation that overflows. */
  method DrawRow(p: Picture, raw: seq<Level>, y: nat) returns (next: Option<seq<Level>>)
    requires y < p.height
    ensures next.Some? <==> p.ColoursFit(y) && p.TextureFits(y)
    ensures next.Some? ==> next.value == raw + p.Row(y)
  {
    if !p.ColoursFit(y) {
      return None;
    }
    var row := raw + [0];
    var base := p.Base(y);
    for x := 0 to p.width
      invariant row == raw + ([0] + p.Pixels(y, x))
      invariant forall k: nat :: k < x ==> k * 19 + y * 7 < U32_END
    {
      if x * 19 + y * 7 >= U32_END {
        return None;
      }
      RowGrows(p, raw, y, x);
      row := PushPixel(row, base, Shimmer(x, y));
    }
    return Some(row);
  }

  lemma RowGrows(p: Picture, raw: seq<Level>, y: nat, x: nat)
    ensures raw + ([0] + p.Pixels(y, x)) + Pixel(p.Base(y), Shimmer(x, y)) == raw + ([0] + p.Pixels(y, x + 1))
  {
  }

  method DrawGradient(p: Picture) returns (raw: Option<seq<Level>>)
    ensures raw.Some? <==> forall y: nat :: y < p.height ==> p.ColoursFit(y) && p.TextureFits(y)
    ensures raw.Some? ==> raw.value == p.Rows(p.height)
  {
    var rows := [];
    for y := 0 to p.height
      invariant rows == Joined(p.RowOf(), y)
      invariant forall k: nat :: k < y ==> p.ColoursFit(k) && p.TextureFits(k)
    {
      var next := DrawRow(p, rows, y);
      if next.None? {
        return None;
      }
      assert p.RowOf()(y) == p.Row(y);
      rows := next.value;
    }
    return Some(rows);
  }

  /** The file, exactly when no checked operation overflows. */
  method PngGradient(p: Picture) returns (png: Option<Bytes>)
    ensures png.Some? <==> p.Fits()
    ensures png.Some? ==> png.value == Png.File(p.width, p.height, Zlib.Stored(p.Raw()))
  {
    if !p.SizeFits() {
      return None;
    }
    var levels := DrawGradient(p);
    if levels.None? {
      return None;
    }
    var file := WritePng(p.width, p.height, AsBytes(levels.value));
    return Some(file);
  }

  method WritePng(width: U32, height: U32, raw: Bytes) returns (png: Bytes)
    ensures png == Png.File(width, height, Zlib.Stored(raw))
  {
    png := Png.SIGNATURE;
    png := Png.WriteChunk(png, Png.IHDR, Png.Header(width, height));
    var stream := Zlib.ZlibStore(raw);
    png := Png.WriteChunk(png, Png.IDAT, stream);
    png := Png.WriteChunk(png, Png.IEND, []);
    FileInOrder(width, height, stream);
  }

  lemma FileInOrder(width: nat, height: nat, stream: Bytes)
    requires width < U32_END && height < U32_END
    ensures Png.File(width, height, stream) ==
            Png.SIGNATURE + Written(Png.PNG, Chunk(Png.IHDR, Png.Header(width, height)))
            + Written(Png.PNG, Chunk(Png.IDAT, stream)) + Written(Png.PNG, Chunk(Png.IEND, []))
  {
    var parts := Png.Parts(width, height, stream);
    WrittenThree(Png.PNG, parts[0], parts[1], parts[2]);
    Regroup(Png.SIGNATURE, Written(Png.PNG, parts[0]), Written(Png.PNG, parts[1]), Written(Png.PNG, parts[2]));
  }

  lemma Regroup(w: Bytes, x: Bytes, y: Bytes, z: Bytes)
    ensures w + (x + y + z) == w + x + y + z
  {
  }

  // ----- What a reader gets back -----------------------------------------------------------------

  /** The compressed scanlines, too, are short enough for a 32-bit length. */
  predicate StreamFits(p: Picture) {
    var n := p.height * p.Stride();
    6 + n + 5 * Zlib.BlockCount(n) < U32_END
  }

  /** A reader recovers the dimensions and every scanline, provided there is one: an image
      without rows has an empty compressed stream, which no reader accepts. */
  lemma GradientReadsBackIff(p: Picture)
    requires StreamFits(p)
    ensures p.height > 0 <==> Png.ReadFile(Png.File(p.width, p.height, Zlib.Stored(p.Raw()))) ==
                              Some(Png.Image(p.width, p.height, p.Raw()))
    ensures |p.Raw()| == p.height * p.Stride()
  {
    RawLength(p);
    Zlib.StoredLength(p.Raw());
    Png.FileReadsBack(p.width, p.height, Zlib.Stored(p.Raw()));
    Zlib.StoredReadsBackIff(p.Raw());
    TimesMonotone(1, p.height, p.Stride());
  }

  lemma RawLength(p: Picture)
    ensures |p.Raw()| == p.height * p.Stride()
  {
    RowsLength(p, p.height);
    TimesIsProduct(p.height, p.Stride());
  }

  lemma {:induction false} PixelInRow(p: Picture, y: nat, x: nat, n: nat)
    requires x < n
    ensures p.Pixels(y, n)[3 * x..3 * x + 3] == Pixel(p.Base(y), Shimmer(x, y))
    decreases n
  {
    if x < n - 1 {
      PixelInRow(p, y, x, n - 1);
      SliceOfPrefix(p.Pixels(y, n - 1), Pixel(p.Base(y), Shimmer(n - 1, y)), 3 * x, 3 * x + 3);
    } else {
      SliceOfSuffix(p.Pixels(y, x), Pixel(p.Base(y), Shimmer(x, y)));
    }
  }

  lemma SliceOfPrefix(s: seq<Level>, t: seq<Level>, a: nat, b: nat)
    requires a <= b <= |s|
    ensures (s + t)[a..b] == s[a..b]
  {
  }

  lemma SliceOfSuffix(s: seq<Level>, t: seq<Level>)
    ensures (s + t)[|s|..|s| + |t|] == t
  {
  }

  lemma SliceOfSlice(s: seq<Level>, a: nat, b: nat, c: nat, d: nat)
    requires a <= b <= |s| && c <= d <= b - a
    ensures s[a..b][c..d] == s[a + c..a + d]
  {
    forall k | 0 <= k < d - c ensures s[a..b][c..d][k] == s[a + c..a + d][k] {
      assert s[a..b][c..d][k] == s[a..b][c + k];
    }
  }

  lemma PixelInScanline(p: Picture, x: nat, y: nat)
    requires x < p.width
    ensures p.Row(y)[0] == 0 && p.Row(y)[1 + 3 * x..4 + 3 * x] == Pixel(p.Base(y), Shimmer(x, y))
  {
    PixelInRow(p, y, x, p.width);
    SliceBehind(p.Pixels(y, p.width), 3 * x, 3 * x + 3);
  }

  lemma SliceBehind(s: seq<Level>, a: nat, b: nat)
    requires a <= b <= |s|
    ensures ([0] + s)[0] == 0 && ([0] + s)[1 + a..1 + b] == s[a..b]
  {
  }

  lemma EndColours(p: Picture, y: nat)
    requires y < p.height
    ensures y == 0 ==> p.Base(y) == p.start
    ensures y == p.height - 1 && p.height > 1 ==> p.Base(y) == p.end
  {
    InterpolateStaysBetween(p.start.red, p.end.red, y, p.Steps());
    InterpolateStaysBetween(p.start.green, p.end.green, y, p.Steps());
    InterpolateStaysBetween(p.start.blue, p.end.blue, y, p.Steps());
  }

  // A level on its way from one to the other, after `n` of `d` steps, rest cut off.
  predicate OnItsWay(start: Level, end: Level, n: nat, d: nat, v: int) {
    && Min(start, end) <= v <= Max(start, end)
    && Magnitude(v - start) * d <= Magnitude(end - start) * n < Magnitude(v - start) * d + d
  }

  /** The base colour of every row between the ends, channel by channel. */
  lemma RowColour(p: Picture, y: nat)
    requires y < p.height && 1 < p.height <= I32_MAX
    ensures var base, last := p.Base(y), p.height - 1;
            && OnItsWay(p.start.red, p.end.red, y, last, base.red)
            && OnItsWay(p.start.green, p.end.green, y, last, base.green)
            && OnItsWay(p.start.blue, p.end.blue, y, last, base.blue)
  {
    InterpolateRounds(p.start.red, p.end.red, y, p.Steps());
    InterpolateRounds(p.start.green, p.end.green, y, p.Steps());
    InterpolateRounds(p.start.blue, p.end.blue, y, p.Steps());
  }

  lemma PixelOfRow(raw: seq<Level>, row: nat, stride: nat, line: seq<Level>, from: nat, to: nat)
    requires row + stride <= |raw| && raw[row..row + stride] == line && 0 < stride && from <= to <= stride
    ensures raw[row] == line[0] && raw[row + from..row + to] == line[from..to]
  {
    SliceOfSlice(raw, row, row + stride, from, to);
  }

  lemma BytesOfSlice(levels: seq<Level>, a: nat, b: nat)
    requires a <= b <= |levels|
    ensures AsBytes(levels)[a..b] == AsBytes(levels[a..b])
  {
  }

  lemma ByteAt(levels: seq<Level>, i: nat)
    requires i < |levels|
    ensures Value(AsBytes(levels)[i]) == levels[i]
  {
  }

  /** The texture of a pixel: up to 4, 3 and 2 levels on top of the base colour, as far as
      there are. */
  lemma PixelColour(base: Colour, x: nat, y: nat)
    ensures Pixel(base, Shimmer(x, y)) ==
            var texture := (19 * x + 7 * y) % 17;
            [Min(base.red + texture / 4, 255), Min(base.green + texture / 5, 255), Min(base.blue + texture / 6, 255)]
  {
  }

  lemma PixelBytes(p: Picture, x: nat, y: nat)
    requires x < p.width && y < p.height
    ensures var row := p.RowStart(y);
            row + p.Stride() <= |p.Raw()| && Value(p.Raw()[row]) == 0
            && p.Raw()[row + (1 + 3 * x)..row + (4 + 3 * x)] == AsBytes(Pixel(p.Base(y), Shimmer(x, y)))
  {
    var row, rows := p.RowStart(y), p.Rows(p.height);
    RowInRows(p, y, p.height);
    PixelInScanline(p, x, y);
    PixelOfRow(rows, row, p.Stride(), p.Row(y), 1 + 3 * x, 4 + 3 * x);
    ByteAt(rows, row);
    BytesOfSlice(rows, row + (1 + 3 * x), row + (4 + 3 * x));
  }

  /** Where a pixel lies among the scanlines, and its colour: a texture over a base that
      is the start colour in the first row and the end colour in the last. */
  lemma PixelAt(p: Picture, x: nat, y: nat)
    requires x < p.width && y < p.height
    ensures p.RowStart(y) == y * p.Stride()
    ensures var row := p.RowStart(y);
            row + p.Stride() <= |p.Raw()| && Value(p.Raw()[row]) == 0
            && p.Raw()[row + (1 + 3 * x)..row + (4 + 3 * x)] == AsBytes(Pixel(p.Base(y), Shimmer(x, y)))
    ensures y == 0 ==> p.Base(y) == p.start
    ensures y == p.height - 1 && p.height > 1 ==> p.Base(y) == p.end
  {
    TimesIsProduct(y, p.Stride());
    PixelBytes(p, x, y);
    EndColours(p, y);
  }
}
