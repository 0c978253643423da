/** The zlib stream of stored blocks the image writer produces (RFC 1950, section 2.2;
    RFC 1951, section 3.2.4), and a reader for such streams. */
module Zlib {
  import opened Basics
  import opened ByteOrder
  import Adler32

  const MAX_BLOCK: nat := 0xFFFF

  const HEADER: Bytes := [0x78, 0x01]

  // ----- Writing ------------------------------------------------------------------------------

  function BlockCount(n: nat): nat { (n + MAX_BLOCK - 1) / MAX_BLOCK }

  /** A length, its complement, and the bytes themselves. */
  function Block(final: bool, data: Bytes): (b: Bytes)
    requires |data| <= MAX_BLOCK
    ensures |b| == 5 + |data|
  {
    [Flag(final)] + Length(|data|) + Complement(Length(|data|)) + data
  }

  function Flag(final: bool): bv8 { if final then 1 else 0 }

  /** A 16-bit number, least significant byte first. */
  function Length(n: nat): (b: Bytes)
    requires n <= MAX_BLOCK
    ensures |b| == 2
  {
    [ByteOf(n % 0x100), ByteOf(n / 0x100)]
  }

  function Complement(b: Bytes): (c: Bytes)
    ensures |c| == |b|
  {
    seq(|b|, i requires 0 <= i < |b| => !b[i])
  }

  function Blocks(data: Bytes): Bytes {
    if data == [] then []
    else
      var size := Min(MAX_BLOCK, |data|);
      Block(size == |data|, data[..size]) + Blocks(data[size..])
  }

  // A chunk that is the whole data.
  lemma {:induction false} OnlyBlock(data: Bytes)
    requires 0 < |data| <= MAX_BLOCK
    ensures Blocks(data) == Block(true, data)
  {
    WholeAndNothing(data);
    AddNothing(Block(true, data));
  }

  lemma WholeAndNothing(s: Bytes)
    ensures s[..|s|] == s && s[|s|..] == []
  {
  }

  lemma AddNothing(s: Bytes)
    ensures s + [] == s
  {
  }

  function Trailer(data: Bytes): Bytes
    requires Adler32.Checksum(data) < U32_END
  {
    BigEndian(Adler32.Checksum(data))
  }

  lemma ChecksumFits(data: Bytes)
    ensures Adler32.Checksum(data) < U32_END
  {
  }

  function Stored(data: Bytes): Bytes {
    ChecksumFits(data);
    HEADER + Blocks(data) + Trailer(data)
  }

  /** Where a block lies, and that its index tells whether it is the last one. */
  lemma BlockBounds(n: nat, index: nat)
    requires index * MAX_BLOCK < n
    ensures var from, to := index * MAX_BLOCK, Min((index + 1) * MAX_BLOCK, n);
            from < to <= n && to - from == Min(MAX_BLOCK, n - from)
            && (index == BlockCount(n) - 1 <==> n - from <= MAX_BLOCK)
  {
  }

  lemma {:induction false} FirstBlock(data: Bytes, size: nat)
    requires data != [] && size == Min(MAX_BLOCK, |data|)
    ensures Blocks(data) == Block(size == |data|, data[..size]) + Blocks(data[size..])
  {
  }

  lemma {:induction false} BlockAt(data: Bytes, from: nat, to: nat)
    requires from < |data| && to == from + Min(MAX_BLOCK, |data| - from)
    ensures to <= from + MAX_BLOCK
    ensures Blocks(data[from..]) == Block(|data| - from <= MAX_BLOCK, data[from..to]) + Blocks(data[to..])
  {
    var tail, size := data[from..], to - from;
    SliceInTwo(data, from, to);
    FirstBlock(tail, size);
  }

  /** What the loop writes in one turn, and when it calls the block final. */
  lemma {:induction false} NextBlock(data: Bytes, index: nat)
    requires index * MAX_BLOCK < |data|
    ensures var from, to, final := index * MAX_BLOCK, Min((index + 1) * MAX_BLOCK, |data|), index == BlockCount(|data|) - 1;
            from < to <= from + MAX_BLOCK && Blocks(data[from..]) == Block(final, data[from..to]) + Blocks(data[to..])
  {
    BlockBounds(|data|, index);
    BlockAt(data, index * MAX_BLOCK, Min((index + 1) * MAX_BLOCK, |data|));
  }

  lemma SliceInTwo(data: Bytes, from: nat, to: nat)
    requires from <= to <= |data|
    ensures data[from..][..to - from] == data[from..to] && data[from..][to - from..] == data[to..]
  {
  }

  method AppendBlock(out: Bytes, final: bool, chunk: Bytes) returns (next: Bytes)
    requires |chunk| <= MAX_BLOCK
    ensures next == out + Block(final, chunk)
  {
    next := out + [Flag(final)];
    next := next + Length(|chunk|);
    next := next + Complement(Length(|chunk|));
    next := next + chunk;
    RegroupFour(out, [Flag(final)], Length(|chunk|), Complement(Length(|chunk|)), chunk);
  }

  lemma RegroupFour(out: Bytes, a: Bytes, b: Bytes, c: Bytes, d: Bytes)
    ensures out + a + b + c + d == out + (a + b + c + d)
  {
  }

  method WriteBlock(out: Bytes, data: Bytes, index: nat) returns (next: Bytes)
    requires index * MAX_BLOCK < |data|
    ensures next + Blocks(data[Min((index + 1) * MAX_BLOCK, |data|)..]) == out + Blocks(data[index * MAX_BLOCK..])
  {
    var from, to := index * MAX_BLOCK, Min((index + 1) * MAX_BLOCK, |data|);
    var final := index == BlockCount(|data|) - 1;
    NextBlock(data, index);
    next := AppendBlock(out, final, data[from..to]);
    Regroup(out, Block(final, data[from..to]), Blocks(data[to..]));
  }

  method ZlibStore(data: Bytes) returns (out: Bytes)
    ensures out == Stored(data)
  {
    out := HEADER;
    var index := 0;
    while index * MAX_BLOCK < |data|
      invariant out + Blocks(data[Min(index * MAX_BLOCK, |data|)..]) == HEADER + Blocks(data)
    {
      out := WriteBlock(out, data, index);
      index := index + 1;
    }
    assert data[|data|..] == [];
    var sum := Adler32.ComputeAdler32(data);
    out := out + BigEndian(sum);
  }

  lemma Regroup(x: Bytes, y: Bytes, z: Bytes)
    ensures x + (y + z) == (x + y) + z
  {
  }

  // ----- The stream in bytes ------------------------------------------------------------------------

  lemma LengthInBytes(n: nat)
    requires n <= MAX_BLOCK
    ensures Value(Length(n)[0]) + 256 * Value(Length(n)[1]) == n
  {
  }

  lemma BlockInBytes(final: bool, data: Bytes)
    requires |data| <= 65535
    ensures var b := Block(final, data);
            && b[0] == (if final then 1 else 0) && Value(b[1]) + 256 * Value(b[2]) == |data|
            && b[3] == !b[1] && b[4] == !b[2] && b[5..] == data
  {
    LengthInBytes(|data|);
  }

  /** Two bytes of header, a first block of at most 65535 bytes that is marked final if it
      takes everything, further blocks in the same way, and the checksum. */
  lemma StreamInBytes(data: Bytes)
    requires data != []
    ensures var n := Min(65535, |data|);
            exists block: Bytes, later: Bytes ::
              && Stored(data) == [0x78, 0x01] + (block + later) + BigEndian(Adler32.Checksum(data))
              && |block| == 5 + n && block[0] == (if n == |data| then 1 else 0)
              && Value(block[1]) + 256 * Value(block[2]) == n && block[3] == !block[1] && block[4] == !block[2]
              && block[5..] == data[..n] && later == Blocks(data[n..])
  {
    var n := Min(65535, |data|);
    var block, later := Block(n == |data|, data[..n]), Blocks(data[n..]);
    BlockInBytes(n == |data|, data[..n]);
    assert Stored(data) == [0x78, 0x01] + (block + later) + BigEndian(Adler32.Checksum(data));
  }

  // ----- Reading -------------------------------------------------------------------------------

  datatype Stretch = Stretch(final: bool, data: Bytes)

  datatype Split = Split(stretches: seq<Stretch>, rest: Bytes)

  predicate StoredType(header: bv8) { (header >> 1) & 3 == 0 }

  function Prefixed(stretch: Stretch, later: Option<Split>): Option<Split> {
    match later
    case None => None
    case Some(split) => Some(Split([stretch] + split.stretches, split.rest))
  }

  /** Stored blocks up to and including the first one marked final. */
  function ReadBlocks(s: Bytes): Option<Split> {
    if |s| < 5 || !StoredType(s[0]) || s[3] != !s[1] || s[4] != !s[2] then None
    else
      var length := Value(s[1]) + 0x100 * Value(s[2]);
      if |s| < 5 + length then None
      else
        var stretch, rest := Stretch(s[0] & 1 == 1, s[5..5 + length]), s[5 + length..];
        if stretch.final then Some(Split([stretch], rest)) else Prefixed(stretch, ReadBlocks(rest))
  }

  function Joined(stretches: seq<Stretch>): Bytes {
    if stretches == [] then [] else stretches[0].data + Joined(stretches[1..])
  }

  /** Deflate method, a window of at most 32 KiB, a header check that is a multiple of 31
      and no preset dictionary. */
  predicate ValidHeader(method_: bv8, flags: bv8) {
    Value(method_) % 16 == 8 && Value(method_) / 16 <= 7
    && (Value(method_) * 256 + Value(flags)) % 31 == 0 && flags & 0x20 == 0
  }

  function Unstore(s: Bytes): Option<Bytes> {
    if |s| < 2 || !ValidHeader(s[0], s[1]) then None
    else
      match ReadBlocks(s[2..])
      case None => None
      case Some(split) =>
        var data := Joined(split.stretches);
        ChecksumFits(data);
        if split.rest == Trailer(data) then Some(data) else None
  }

  // ----- The reader undoes the writer -------------------------------------------------------------

  function Stretches(data: Bytes): seq<Stretch> {
    if data == [] then []
    else if |data| <= MAX_BLOCK then [Stretch(true, data)]
    else [Stretch(false, data[..MAX_BLOCK])] + Stretches(data[MAX_BLOCK..])
  }

  /** As many blocks as the length calls for, all full but the last, which alone is final;
      together they are the data. */
  lemma {:induction false} StretchesAreTheData(data: Bytes)
    ensures Joined(Stretches(data)) == data
    ensures |Stretches(data)| == BlockCount(|data|)
    ensures forall i :: 0 <= i < |Stretches(data)| ==> (Stretches(data)[i].final <==> i == |Stretches(data)| - 1)
    ensures forall i :: 0 <= i < |Stretches(data)| - 1 ==> |Stretches(data)[i].data| == MAX_BLOCK
  {
    if |data| > MAX_BLOCK {
      StretchesAreTheData(data[MAX_BLOCK..]);
      assert data[..MAX_BLOCK] + data[MAX_BLOCK..] == data;
    } else if data != [] {
      assert Joined([Stretch(true, data)]) == data + Joined([]);
    }
  }

  lemma BlockLayout(final: bool, data: Bytes, rest: Bytes)
    requires |data| <= MAX_BLOCK
    ensures var s := Block(final, data) + rest;
            && |s| >= 5 && StoredType(s[0]) && (s[0] & 1 == 1) == final && s[3] == !s[1] && s[4] == !s[2]
            && Value(s[1]) + 0x100 * Value(s[2]) == |data|
            && s[5..5 + |data|] == data && s[5 + |data|..] == rest
  {
  }

  lemma BlockReadsBack(final: bool, data: Bytes, rest: Bytes)
    requires |data| <= MAX_BLOCK
    ensures ReadBlocks(Block(final, data) + rest) ==
            if final then Some(Split([Stretch(true, data)], rest)) else Prefixed(Stretch(false, data), ReadBlocks(rest))
  {
    BlockLayout(final, data, rest);
  }

  lemma {:induction false} BlocksReadBack(data: Bytes, rest: Bytes)
    requires data != []
    ensures ReadBlocks(Blocks(data) + rest) == Some(Split(Stretches(data), rest))
  {
    if |data| <= MAX_BLOCK {
      OnlyBlock(data);
      BlockReadsBack(true, data, rest);
    } else {
      var later := Blocks(data[MAX_BLOCK..]) + rest;
      BlockReadsBack(false, data[..MAX_BLOCK], later);
      BlocksReadBack(data[MAX_BLOCK..], rest);
      Regroup(Block(false, data[..MAX_BLOCK]), Blocks(data[MAX_BLOCK..]), rest);
    }
  }

  /** The stream reads back as the data, except that no block at all is written for empty
      data, which leaves the stream without a final block. */
  lemma {:induction false} StoredReadsBackIff(data: Bytes)
    ensures Unstore(Stored(data)) == Some(data) <==> data != []
  {
    ChecksumFits(data);
    var s := Stored(data);
    assert s[2..] == Blocks(data) + Trailer(data);
    assert s[0] == 0x78 && s[1] == 0x01;
    HeaderIsValid();
    if data == [] {
      assert |s[2..]| == 4;
    } else {
      BlocksReadBack(data, Trailer(data));
      StretchesAreTheData(data);
    }
  }

  lemma HeaderIsValid()
    ensures ValidHeader(0x78, 0x01)
  {
  }

  /** Five bytes for each block, and six around them. */
  lemma {:induction false} StoredLength(data: Bytes)
    ensures |Stored(data)| == 6 + |data| + 5 * BlockCount(|data|)
  {
    ChecksumFits(data);
    BlocksLength(data);
  }

  lemma OneBlockMore(n: nat)
    requires n > MAX_BLOCK
    ensures BlockCount(n) == 1 + BlockCount(n - MAX_BLOCK)
  {
  }

  lemma {:induction false} BlocksLength(data: Bytes)
    ensures |Blocks(data)| == |data| + 5 * BlockCount(|data|)
  {
    if |data| > MAX_BLOCK {
      OneBlockMore(|data|);
      BlocksLength(data[MAX_BLOCK..]);
    } else if data != [] {
      assert BlockCount(|data|) == 1;
    }
  }
}
