/** The GIF89a data stream (sections 16 to 27 of the specification) as a grammar with a reader. */
module GifFormat {
  import opened Bits
  import opened Sequences
  import opened Wrappers

  type Chunk = c: seq<Byte> | 0 < |c| < 256 witness [0]

  datatype Block =
    | Extension(kind: Byte, data: seq<Chunk>)
    | Image(descriptor: seq<Byte>, localTable: seq<Byte>, minCodeSize: Byte, data: seq<Chunk>)

  datatype Gif = Gif(screen: seq<Byte>, globalTable: seq<Byte>, blocks: seq<Block>)

  const EXTENSION: Byte := 0x21
  const IMAGE: Byte := 0x2c
  const TRAILER: Byte := 0x3b

  /** The size in bytes of the colour table announced by a packed field. */
  function TableSize(packed: Byte): nat {
    if packed >= 0x80 then 3 * Pow2(packed % 8 + 1) else 0
  }

  predicate Signature(bytes: seq<Byte>) {
    |bytes| >= 6 && (bytes[..6] == [0x47, 0x49, 0x46, 0x38, 0x37, 0x61] || bytes[..6] == [0x47, 0x49, 0x46, 0x38, 0x39, 0x61])
  }

  predicate WellFormedBlock(block: Block) {
    block.Image? ==> |block.descriptor| == 9 && |block.localTable| == TableSize(block.descriptor[8])
  }

  predicate WellFormedBlocks(blocks: seq<Block>) {
    forall block <- blocks :: WellFormedBlock(block)
  }

  predicate WellFormed(gif: Gif) {
    && |gif.screen| == 13 && Signature(gif.screen) && |gif.globalTable| == TableSize(gif.screen[10])
    && WellFormedBlocks(gif.blocks)
  }

  // -------------------------------------------------------------- the stream

  function Size(chunk: Chunk): Byte {
    |chunk|
  }

  function ChunkBytes(data: seq<Chunk>): (bytes: seq<Byte>)
    ensures |bytes| > 0
  {
    if data == [] then [0] else [Size(data[0])] + data[0] + ChunkBytes(data[1..])
  }

  function BlockBytes(block: Block): (bytes: seq<Byte>)
    ensures |bytes| > 0
  {
    match block
    case Extension(kind, data) => [EXTENSION, kind] + ChunkBytes(data)
    case Image(descriptor, localTable, minCodeSize, data) => [IMAGE] + descriptor + localTable + [minCodeSize] + ChunkBytes(data)
  }

  function BlocksBytes(blocks: seq<Block>): seq<Byte> {
    if blocks == [] then [] else BlockBytes(blocks[0]) + BlocksBytes(blocks[1..])
  }

  function GifBytes(gif: Gif): seq<Byte> {
    gif.screen + gif.globalTable + BlocksBytes(gif.blocks) + [TRAILER]
  }

  // -------------------------------------------------------------- the reader

  /** The chunks at the front of `s`, up to the empty chunk that ends them, and what follows. */
  function ReadChunks(s: seq<Byte>): (r: Option<(seq<Chunk>, seq<Byte>)>)
    ensures r.Some? ==> |r.value.1| < |s|
  {
    if s == [] then None
    else
      var n: nat := s[0];
      if n == 0 then Some(([], s[1..]))
      else if |s| < 1 + n then None
      else
        match ReadChunks(s[1 + n..])
        case None => None
        case Some((data, rest)) => Some(([s[1..1 + n]] + data, rest))
  }

  /** The block at the front of `s` and what follows it. */
  function ReadBlock(s: seq<Byte>): (r: Option<(Block, seq<Byte>)>)
    ensures r.Some? ==> |r.value.1| < |s|
  {
    if |s| >= 2 && s[0] == EXTENSION then
      match ReadChunks(s[2..])
      case None => None
      case Some((data, rest)) => Some((Extension(s[1], data), rest))
    else if |s| >= 10 && s[0] == IMAGE && |s| >= 11 + TableSize(s[9]) then
      var table := TableSize(s[9]);
      match ReadChunks(s[11 + table..])
      case None => None
      case Some((data, rest)) => Some((Image(s[1..10], s[10..10 + table], s[10 + table], data), rest))
    else None
  }

  /** The blocks of `s` up to the trailer; what follows the trailer is ignored. */
  function ReadBlocks(s: seq<Byte>): Option<seq<Block>>
    decreases |s|
  {
    if s == [] then None
    else if s[0] == TRAILER then Some([])
    else
      match ReadBlock(s)
      case None => None
      case Some((block, rest)) =>
        match ReadBlocks(rest)
        case None => None
        case Some(blocks) => Some([block] + blocks)
  }

  function ReadGif(s: seq<Byte>): Option<Gif> {
    if |s| < 13 || !Signature(s) || |s| < 13 + TableSize(s[10]) then None
    else
      var table := TableSize(s[10]);
      match ReadBlocks(s[13 + table..])
      case None => None
      case Some(blocks) => Some(Gif(s[..13], s[13..13 + table], blocks))
  }

  lemma {:induction false} ReadChunkBytes(data: seq<Chunk>, rest: seq<Byte>)
    ensures ReadChunks(ChunkBytes(data) + rest) == Some((data, rest))
  {
    var s := ChunkBytes(data) + rest;
    if data != [] {
      var n := |data[0]|;
      assert s == [Size(data[0])] + data[0] + (ChunkBytes(data[1..]) + rest);
      assert s[0] == n && s[1..1 + n] == data[0] && s[1 + n..] == ChunkBytes(data[1..]) + rest;
      ReadChunkBytes(data[1..], rest);
      assert [data[0]] + data[1..] == data;
    } else {
      assert s[1..] == rest;
    }
  }

  lemma ReadBlockBytes(block: Block, rest: seq<Byte>)
    requires WellFormedBlock(block)
    ensures ReadBlock(BlockBytes(block) + rest) == Some((block, rest))
  {
    ReadChunkBytes(block.data, rest);
    var s, tail := BlockBytes(block) + rest, ChunkBytes(block.data) + rest;
    hide ChunkBytes, ReadChunks, Pow2;
    if block.Extension? {
      assert s == [EXTENSION, block.kind] + tail;
      assert s[2..] == tail;
    } else {
      ReadImageBytes(block, s, tail, rest);
    }
  }

  lemma ReadImageBytes(block: Block, s: seq<Byte>, tail: seq<Byte>, rest: seq<Byte>)
    requires WellFormedBlock(block) && block.Image? && s == BlockBytes(block) + rest
    requires tail == ChunkBytes(block.data) + rest && ReadChunks(tail) == Some((block.data, rest))
    ensures ReadBlock(s) == Some((block, rest))
  {
    hide ChunkBytes, ReadChunks, TableSize;
    var front := [IMAGE] + block.descriptor;
    ConcatAssociative(front + block.localTable + [block.minCodeSize], ChunkBytes(block.data), rest);
    hide BlockBytes;
    ImageSlices(front, block.localTable, block.minCodeSize, tail, s);
    assert front[1..] == block.descriptor && front[9] == block.descriptor[8];
  }

  lemma ImageSlices(front: seq<Byte>, table: seq<Byte>, size: Byte, tail: seq<Byte>, s: seq<Byte>)
    requires |front| == 10 && s == front + table + [size] + tail
    ensures s[..10] == front && s[0] == front[0] && s[9] == front[9] && s[1..10] == front[1..]
    ensures s[10..10 + |table|] == table && s[10 + |table|] == size && s[11 + |table|..] == tail
  {
  }

  lemma BlocksFront(blocks: seq<Block>, end: seq<Byte>)
    requires blocks != []
    ensures BlocksBytes(blocks) + end == BlockBytes(blocks[0]) + (BlocksBytes(blocks[1..]) + end)
  {
    hide BlockBytes;
    ConcatAssociative(BlockBytes(blocks[0]), BlocksBytes(blocks[1..]), end);
  }

  lemma {:induction false} ReadBlocksBytes(blocks: seq<Block>, end: seq<Byte>)
    requires WellFormedBlocks(blocks) && |end| > 0 && end[0] == TRAILER
    ensures ReadBlocks(BlocksBytes(blocks) + end) == Some(blocks)
  {
    if blocks == [] {
      assert BlocksBytes(blocks) + end == end;
    } else {
      var tail := BlocksBytes(blocks[1..]) + end;
      ReadBlockBytes(blocks[0], tail);
      ReadBlocksBytes(blocks[1..], end);
      BlocksFront(blocks, end);
      assert (BlockBytes(blocks[0]) + tail)[0] != TRAILER;
      hide BlockBytes, ReadBlock, BlocksBytes;
      assert [blocks[0]] + blocks[1..] == blocks;
    }
  }

  lemma ScreenSlices(screen: seq<Byte>, table: seq<Byte>, tail: seq<Byte>, s: seq<Byte>)
    requires |screen| == 13 && s == screen + table + tail
    ensures s[..13] == screen && s[..6] == screen[..6] && s[10] == screen[10]
    ensures s[13..13 + |table|] == table && s[13 + |table|..] == tail
  {
  }

  lemma GifParts(gif: Gif, rest: seq<Byte>)
    ensures GifBytes(gif) + rest == gif.screen + gif.globalTable + (BlocksBytes(gif.blocks) + ([TRAILER] + rest))
  {
    hide BlocksBytes;
  }

  /** The stream of a well-formed GIF can be read in only one way, whatever follows it. */
  lemma ReadGifBytes(gif: Gif, rest: seq<Byte>)
    requires WellFormed(gif)
    ensures ReadGif(GifBytes(gif) + rest) == Some(gif)
  {
    var tail := BlocksBytes(gif.blocks) + ([TRAILER] + rest);
    ReadBlocksBytes(gif.blocks, [TRAILER] + rest);
    GifParts(gif, rest);
    hide ReadBlocks, BlocksBytes, TableSize, WellFormedBlocks, GifBytes;
    ScreenSlices(gif.screen, gif.globalTable, tail, GifBytes(gif) + rest);
  }
}
