/** PNG files (RFC 2083): chunks with their checksums, and a reader that recovers the
    image a writer put in. */
module Png {
  import opened Basics
  import opened ByteOrder
  import opened Chunks
  import Crc32
  import PolynomialCrc
  import Zlib

  const SIGNATURE: Bytes := [0x89, 0x50, 0x4e, 0x47, 0x0d, 0x0a, 0x1a, 0x0a]
  const IHDR: Bytes := [0x49, 0x48, 0x44, 0x52]
  const IDAT: Bytes := [0x49, 0x44, 0x41, 0x54]
  const IEND: Bytes := [0x49, 0x45, 0x4e, 0x44]

  // ----- Chunks --------------------------------------------------------------------------------

  /** A register, most significant byte first. */
  function RegisterBytes(c: bv32): (b: Bytes)
    ensures |b| == 4
  {
    [(c >> 24) as bv8, ((c >> 16) & 0xff) as bv8, ((c >> 8) & 0xff) as bv8, (c & 0xff) as bv8]
  }

  lemma RegisterBytesInjective(c: bv32, d: bv32)
    requires RegisterBytes(c) == RegisterBytes(d)
    ensures c == d
  {
    var b, e := RegisterBytes(c), RegisterBytes(d);
    assert b[0] == e[0] && b[1] == e[1] && b[2] == e[2] && b[3] == e[3];
  }

  function CheckBytes(body: Bytes): (b: Bytes)
    ensures |b| == 4
  {
    RegisterBytes(Crc32.Checksum(body))
  }

  const PNG: Format := Format(Size, ReadSize, CheckBytes)

  lemma ShortSizesFit(n: nat)
    requires n < U32_END
    ensures PNG.Fits(n)
  {
    SizeReadsBack(n);
  }

  lemma PngIsValid()
    ensures PNG.Valid()
  {
    forall b ensures |PNG.check(b)| == 4 {
      assert |CheckBytes(b)| == 4;
    }
  }

  method WriteChunk(out: Bytes, name: Bytes, data: Bytes) returns (next: Bytes)
    requires |name| == 4
    ensures next == out + Written(PNG, Chunk(name, data))
  {
    next := out + Size(|data|);
    next := next + name;
    next := next + data;
    var sum := Crc32.ComputeCrc32(name + data);
    next := next + RegisterBytes(sum);
    Regroup(out, Size(|data|), name, data, CheckBytes(name + data));
  }

  lemma Regroup(out: Bytes, a: Bytes, b: Bytes, c: Bytes, d: Bytes)
    ensures out + a + b + c + d == out + (a + b + c + d)
  {
  }

  lemma ChecksSeeBurst(before: Bytes, x: Bytes, y: Bytes, after: Bytes)
    requires |x| == |y| <= 4 && CheckBytes(before + x + after) == CheckBytes(before + y + after)
    ensures x == y
  {
    RegisterBytesInjective(Crc32.Checksum(before + x + after), Crc32.Checksum(before + y + after));
    Crc32.ChecksumSeesBurst(before, x, y, after);
  }

  /** A chunk whose name and data were damaged within four consecutive bytes is refused,
      whatever follows it; undamaged it is read. */
  lemma DamagedChunkIsRefused(name: Bytes, data: Bytes, before: Bytes, x: Bytes, y: Bytes, after: Bytes,
                                                 rest: Bytes)
    requires |name| == 4 && |data| < U32_END && name + data == before + y + after && |x| == |y| <= 4
    ensures ReadChunk(PNG, Framed(PNG, name, data, CheckBytes(before + x + after)) + rest).Some? <==> x == y
  {
    ShortSizesFit(|data|);
    FramedReadsBackIff(PNG, name, data, CheckBytes(before + x + after), rest);
    if CheckBytes(before + x + after) == CheckBytes(before + y + after) {
      ChecksSeeBurst(before, x, y, after);
    }
  }

  // ----- Files ----------------------------------------------------------------------------------

  function ImageData(chunks: seq<Chunk>): Bytes {
    if chunks == [] then []
    else (if chunks[0].name == IDAT then chunks[0].data else []) + ImageData(chunks[1..])
  }

  datatype Image = Image(width: nat, height: nat, raw: Bytes)

  const RGB8: Bytes := [8, 2, 0, 0, 0]

  function Header(width: nat, height: nat): (h: Bytes)
    requires width < U32_END && height < U32_END
    ensures |h| == 13
  {
    BigEndian(width) + BigEndian(height) + RGB8
  }

  datatype Dimensions = Dimensions(width: nat, height: nat)

  function ReadHeader(h: Bytes): Option<Dimensions> {
    if |h| != 13 || h[8..] != RGB8 then None else Some(Dimensions(ReadBig(h[..4]), ReadBig(h[4..8])))
  }

  /** An eight-bit RGB image without interlacing: a header first, an empty end chunk
      last, and the scanlines compressed across all data chunks. */
  function ReadImage(chunks: seq<Chunk>): Option<Image> {
    if |chunks| < 2 || chunks[0].name != IHDR || chunks[|chunks| - 1] != Chunk(IEND, []) then None
    else
      match ReadHeader(chunks[0].data)
      case None => None
      case Some(d) =>
        match Zlib.Unstore(ImageData(chunks))
        case None => None
        case Some(raw) => Some(Image(d.width, d.height, raw))
  }

  function ReadFile(s: Bytes): Option<Image> {
    if |s| < 8 || s[..8] != SIGNATURE then None
    else
      match ReadChunks(PNG, s[8..])
      case None => None
      case Some(chunks) => ReadImage(chunks)
  }

  function Parts(width: nat, height: nat, stream: Bytes): seq<Chunk>
    requires width < U32_END && height < U32_END
  {
    [Chunk(IHDR, Header(width, height)), Chunk(IDAT, stream), Chunk(IEND, [])]
  }

  function File(width: nat, height: nat, stream: Bytes): Bytes
    requires width < U32_END && height < U32_END
  {
    SIGNATURE + WrittenAll(PNG, Parts(width, height, stream))
  }

  lemma PartsFit(width: nat, height: nat, stream: Bytes)
    requires width < U32_END && height < U32_END && |stream| < U32_END
    ensures forall i :: 0 <= i < 3 ==> Parts(width, height, stream)[i].Fits(PNG)
  {
    ShortSizesFit(13);
    ShortSizesFit(|stream|);
    ShortSizesFit(0);
  }

  lemma HeaderReadsBack(width: nat, height: nat)
    requires width < U32_END && height < U32_END
    ensures ReadHeader(Header(width, height)) == Some(Dimensions(width, height))
  {
    HeaderLayout(BigEndian(width), BigEndian(height), RGB8);
    BigEndianReadsBack(width);
    BigEndianReadsBack(height);
  }

  lemma HeaderLayout(a: Bytes, b: Bytes, c: Bytes)
    requires |a| == |b| == 4
    ensures (a + b + c)[..4] == a && (a + b + c)[4..8] == b && (a + b + c)[8..] == c
  {
  }

  lemma OneDataChunk(a: Chunk, b: Chunk, c: Chunk)
    requires a.name != IDAT && b.name == IDAT && c.name != IDAT
    ensures ImageData([a, b, c]) == b.data
  {
    assert [a, b, c][1..] == [b, c] && [b, c][1..] == [c] && [c][1..] == [];
    assert ImageData([c]) == [];
    assert ImageData([b, c]) == b.data + ImageData([c]);
  }

  lemma NamesDiffer()
    ensures IHDR != IDAT && IEND != IDAT
  {
    assert IHDR[1] != IDAT[1] && IEND[1] != IDAT[1];
  }

  lemma FilePartsReadBack(width: nat, height: nat, stream: Bytes)
    requires width < U32_END && height < U32_END && |stream| < U32_END
    ensures ReadFile(File(width, height, stream)) == ReadImage(Parts(width, height, stream))
  {
    var parts := Parts(width, height, stream);
    PartsFit(width, height, stream);
    PngIsValid();
    ChunksReadBack(PNG, parts);
    BehindSignature(WrittenAll(PNG, parts));
  }

  // ----- The file in bytes ------------------------------------------------------------------------

  lemma SizesInBytes()
    ensures Size(0) == [0, 0, 0, 0] && Size(13) == [0, 0, 0, 13]
  {
    BigEndianBytes(0, [0, 0, 0, 0]);
    BigEndianBytes(13, [0, 0, 0, 13]);
  }

  lemma EndCheckInBytes()
    ensures CheckBytes([0x49, 0x45, 0x4e, 0x44]) == [0xae, 0x42, 0x60, 0x82]
  {
    PolynomialCrc.ChecksumOfEnd();
    assert RegisterBytes(0xae42_6082) == [0xae, 0x42, 0x60, 0x82];
  }

  /** Every file closes with the same twelve bytes. */
  lemma EndChunkInBytes()
    ensures Written(PNG, Chunk(IEND, [])) == [0, 0, 0, 0, 0x49, 0x45, 0x4e, 0x44, 0xae, 0x42, 0x60, 0x82]
  {
    SizesInBytes();
    EndCheckInBytes();
    var none: Bytes := [];
    assert IEND + none == [0x49, 0x45, 0x4e, 0x44];
    EndParts(Size(0), IEND, CheckBytes(IEND + none));
  }

  lemma EndParts(a: Bytes, b: Bytes, c: Bytes)
    requires a == [0, 0, 0, 0] && b == [0x49, 0x45, 0x4e, 0x44] && c == [0xae, 0x42, 0x60, 0x82]
    ensures a + b + [] + c == [0, 0, 0, 0, 0x49, 0x45, 0x4e, 0x44, 0xae, 0x42, 0x60, 0x82]
  {
  }

  /** The whole file: the signature, thirteen bytes of header, one data chunk, and the end. */
  lemma FileInBytes(width: nat, height: nat, stream: Bytes)
    requires width < U32_END && height < U32_END
    ensures var header := BigEndian(width) + BigEndian(height) + [8, 2, 0, 0, 0];
            File(width, height, stream) ==
            [0x89, 0x50, 0x4e, 0x47, 0x0d, 0x0a, 0x1a, 0x0a]
            + (([0, 0, 0, 13] + [0x49, 0x48, 0x44, 0x52] + header + CheckBytes([0x49, 0x48, 0x44, 0x52] + header))
               + (Size(|stream|) + [0x49, 0x44, 0x41, 0x54] + stream + CheckBytes([0x49, 0x44, 0x41, 0x54] + stream))
               + [0, 0, 0, 0, 0x49, 0x45, 0x4e, 0x44, 0xae, 0x42, 0x60, 0x82])
  {
    var parts := Parts(width, height, stream);
    WrittenThree(PNG, parts[0], parts[1], parts[2]);
    SizesInBytes();
    EndChunkInBytes();
  }

  /** What a reader gets from a file with one data chunk. */
  lemma FileReadsBack(width: nat, height: nat, stream: Bytes)
    requires width < U32_END && height < U32_END && |stream| < U32_END
    ensures ReadFile(File(width, height, stream)) ==
            match Zlib.Unstore(stream)
            case None => None
            case Some(raw) => Some(Image(width, height, raw))
  {
    var parts := Parts(width, height, stream);
    FilePartsReadBack(width, height, stream);
    NamesDiffer();
    OneDataChunk(parts[0], parts[1], parts[2]);
    HeaderReadsBack(width, height);
  }

  lemma BehindSignature(s: Bytes)
    ensures (SIGNATURE + s)[..8] == SIGNATURE && (SIGNATURE + s)[8..] == s
  {
  }
}
