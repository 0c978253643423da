/** Streams of named chunks, each with a length in front and a check behind. How lengths
    and checks are written is the format's business; nothing here looks inside them. */
module Chunks {
  import opened Basics

  import opened ByteOrder

  datatype Format = Format(size: nat -> Bytes, readSize: Bytes -> nat, check: Bytes -> Bytes) {
    predicate Fits(n: nat) { |size(n)| == 4 && readSize(size(n)) == n }

    ghost predicate Valid() { forall b :: |check(b)| == 4 }
  }

  datatype Chunk = Chunk(name: Bytes, data: Bytes) {
    predicate Fits(f: Format) { |name| == 4 && f.Fits(|data|) }
  }

  function Framed(f: Format, name: Bytes, data: Bytes, check: Bytes): Bytes {
    f.size(|data|) + name + data + check
  }

  function Written(f: Format, c: Chunk): Bytes { Framed(f, c.name, c.data, f.check(c.name + c.data)) }

  datatype ChunkRead = ChunkRead(chunk: Chunk, rest: Bytes)

  function ReadChunk(f: Format, s: Bytes): (r: Option<ChunkRead>)
    ensures r.Some? ==> |r.value.rest| < |s|
  {
    if |s| < 12 then None
    else
      var length := f.readSize(s[..4]);
      if |s| < 12 + length then None
      else
        var name, data := s[4..8], s[8..8 + length];
        if s[8 + length..12 + length] == f.check(name + data)
        then Some(ChunkRead(Chunk(name, data), s[12 + length..]))
        else None
  }

  function ReadChunks(f: Format, s: Bytes): Option<seq<Chunk>>
    decreases |s|
  {
    if s == [] then Some([])
    else
      match ReadChunk(f, s)
      case None => None
      case Some(first) =>
        match ReadChunks(f, first.rest)
        case None => None
        case Some(later) => Some([first.chunk] + later)
  }

  function WrittenAll(f: Format, chunks: seq<Chunk>): Bytes {
    if chunks == [] then [] else Written(f, chunks[0]) + WrittenAll(f, chunks[1..])
  }

  lemma Layout(head: Bytes, name: Bytes, data: Bytes, check: Bytes, rest: Bytes)
    requires |head| == |name| == |check| == 4
    ensures var s, n := head + name + data + check + rest, |data|;
            && |s| >= 12 + n && s[..4] == head && s[4..8] == name && s[8..8 + n] == data
            && s[8 + n..12 + n] == check && s[12 + n..] == rest
  {
  }

  /** A chunk is read back exactly if its check is the one its name and data call for. */
  lemma FramedReadsBackIff(f: Format, name: Bytes, data: Bytes, check: Bytes, rest: Bytes)
    requires |name| == |check| == 4 && f.Fits(|data|)
    ensures ReadChunk(f, Framed(f, name, data, check) + rest) ==
            if check == f.check(name + data) then Some(ChunkRead(Chunk(name, data), rest)) else None
  {
    Layout(f.size(|data|), name, data, check, rest);
  }

  /** Reading undoes writing, for any number of chunks. */
  lemma {:induction false} ChunksReadBack(f: Format, chunks: seq<Chunk>)
    requires f.Valid() && forall i :: 0 <= i < |chunks| ==> chunks[i].Fits(f)
    ensures ReadChunks(f, WrittenAll(f, chunks)) == Some(chunks)
  {
    if chunks != [] {
      var c, rest := chunks[0], WrittenAll(f, chunks[1..]);
      assert c.Fits(f);
      FramedReadsBackIff(f, c.name, c.data, f.check(c.name + c.data), rest);
      ChunksReadBack(f, chunks[1..]);
      assert chunks == [c] + chunks[1..];
    }
  }

  lemma WrittenThree(f: Format, a: Chunk, b: Chunk, c: Chunk)
    ensures WrittenAll(f, [a, b, c]) == Written(f, a) + Written(f, b) + Written(f, c)
  {
    assert [a, b, c][1..] == [b, c] && [b, c][1..] == [c] && [c][1..] == [];
    assert WrittenAll(f, [c]) == Written(f, c);
    assert WrittenAll(f, [b, c]) == Written(f, b) + Written(f, c);
  }
}
