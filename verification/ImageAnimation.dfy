/** The GIF branch of `detectImageAnimation` (src/lib/image-animation.ts): a walk over the blocks of
    the container that never looks at pixel data. */
module ImageAnimation {
  import opened Bits
  import opened GifFormat
  import opened Sequences
  import opened Wrappers

  /** The walk gives up when it has made this many reads. */
  const READ_LIMIT := 2_000_000
  const READ_AHEAD := 65_536

  // ------------------------------------------------------------- specification

  function Drop(s: seq<Byte>, n: nat): seq<Byte> {
    if n <= |s| then s[n..] else []
  }

  /** What is left of `s` after a chain of sub-blocks, with the number of reads made so far. */
  function SkipBlocks(s: seq<Byte>, steps: nat): (r: Result<(seq<Byte>, nat)>)
    ensures r.Ok? ==> |r.value.0| < |s|
  {
    if steps >= READ_LIMIT || s == [] then Err
    else
      var size: nat := s[0];
      if size == 0 then Ok((s[1..], steps + 1))
      else if |s| < 1 + size then Err
      else SkipBlocks(s[1 + size..], steps + 1)
  }

  /** What is left after the rest of an extension block, which starts with its kind. */
  function PassExtension(s: seq<Byte>, steps: nat): (r: Result<(seq<Byte>, nat)>)
    ensures r.Ok? ==> |r.value.0| < |s|
  {
    SkipBlocks(Drop(s, 1), steps)
  }

  /** What is left after the rest of an image block: descriptor, colour table, code size, data. */
  function PassImage(s: seq<Byte>, steps: nat): (r: Result<(seq<Byte>, nat)>)
    ensures r.Ok? ==> |r.value.0| < |s|
  {
    if steps >= READ_LIMIT || |s| < 9 then Err
    else
      var at := 9 + TableSize(s[8]);
      if steps + 1 >= READ_LIMIT || at >= |s| then Err else SkipBlocks(s[at + 1..], steps + 2)
  }

  datatype Step = Stop(answer: Result<bool>) | Passed(image: bool, rest: seq<Byte>, made: nat)

  /** Passing one block, or stopping at the end, at the trailer or at an unreadable block. */
  function PassBlock(s: seq<Byte>, steps: nat): (step: Step)
    ensures step.Passed? ==> |step.rest| < |s|
    ensures step.Stop? ==> step.answer != Ok(true)
  {
    if s == [] then Stop(Ok(false))
    else if steps >= READ_LIMIT then Stop(Err)
    else if s[0] == TRAILER then Stop(Ok(false))
    else if s[0] == EXTENSION then
      var passed := PassExtension(s[1..], steps + 1);
      if passed.Err? then Stop(Err) else Passed(false, passed.value.0, passed.value.1)
    else if s[0] == IMAGE then
      var passed := PassImage(s[1..], steps + 1);
      if passed.Err? then Stop(Err) else Passed(true, passed.value.0, passed.value.1)
    else Stop(Err)
  }

  /** The verdict on the blocks in `s`, when `frames` images have been seen before. */
  function Walk(s: seq<Byte>, frames: nat, steps: nat): Result<bool>
    decreases |s|
  {
    match PassBlock(s, steps)
    case Stop(answer) => answer
    case Passed(image, rest, made) =>
      if image && frames + 1 > 1 then Ok(true) else Walk(rest, if image then frames + 1 else frames, made)
  }

  datatype Verdict = NotGif | Failed | Still | Animated

  function Judge(walk: Result<bool>): Verdict {
    match walk
    case Err => Failed
    case Ok(animated) => if animated then Animated else Still
  }

  function Detect(blob: seq<Byte>): Verdict {
    if |blob| < 12 then Still
    else if !Signature(blob) then NotGif
    else Judge(Walk(Drop(blob, 13 + TableSize(blob[10])), 0, 2))
  }

  /** One step of `SkipBlocks`, told with a cursor into the blob. */
  lemma SkipBlocksAt(blob: seq<Byte>, offset: nat, steps: nat)
    ensures SkipBlocks(Drop(blob, offset), steps)
         == if steps >= READ_LIMIT || offset >= |blob| then Err
            else if blob[offset] == 0 then Ok((Drop(blob, offset + 1), steps + 1))
            else if offset + 1 + blob[offset] as nat > |blob| then Err
            else SkipBlocks(Drop(blob, offset + 1 + blob[offset] as nat), steps + 1)
  {
    if offset < |blob| && offset + 1 + blob[offset] as nat <= |blob| {
      assert blob[offset..][1 + blob[offset] as nat..] == blob[offset + 1 + blob[offset] as nat..];
    }
  }

  /** `PassImage`, told with a cursor into the blob. */
  lemma PassImageAt(blob: seq<Byte>, from: nat, steps: nat)
    requires from <= |blob|
    ensures PassImage(Drop(blob, from), steps)
         == if steps >= READ_LIMIT || from + 9 > |blob| then Err
            else
              var at := from + 9 + TableSize(blob[from + 8]);
              if steps + 1 >= READ_LIMIT || at >= |blob| then Err else SkipBlocks(Drop(blob, at + 1), steps + 2)
  {
    hide SkipBlocks, TableSize;
    if from + 9 <= |blob| && from + 9 + TableSize(blob[from + 8]) < |blob| {
      assert blob[from..][9 + TableSize(blob[from + 8]) + 1..] == blob[from + 9 + TableSize(blob[from + 8]) + 1..];
    }
  }

  lemma DropDrop(blob: seq<Byte>, a: nat, b: nat)
    requires a <= |blob|
    ensures Drop(Drop(blob, a), b) == Drop(blob, a + b)
  {
  }

  // ------------------------------------------------------------ implementation

  /** The `read` closure: a window of the blob is kept, and moved when a request leaves it. */
  class BlobReader {
    const blob: seq<Byte>
    var start: int
    var buffer: seq<Byte>
    var steps: nat

    ghost predicate Valid()
      reads this
    {
      if start < 0 then start == -1 && buffer == []
      else start + |buffer| <= |blob| && buffer == blob[start..start + |buffer|]
    }

    constructor (blob: seq<Byte>)
      ensures Valid() && this.blob == blob && steps == 0
    {
      this.blob := blob;
      start, buffer, steps := -1, [], 0;
    }

    /** Whatever the window, a successful read is exactly the requested slice. */
    method Read(offset: nat, length: nat) returns (r: Result<seq<Byte>>)
      requires Valid() && length > 0
      modifies this
      ensures Valid() && steps == old(steps) + 1
      ensures r == if steps > READ_LIMIT || offset + length > |blob| then Err else Ok(blob[offset..offset + length])
    {
      steps := steps + 1;
      if steps > READ_LIMIT || offset + length > |blob| {
        return Err;
      }
      if offset < start || offset + length > start + |buffer| {
        start := offset;
        var wanted := offset + if length > READ_AHEAD then length else READ_AHEAD;
        buffer := blob[offset..if wanted < |blob| then wanted else |blob|];
      }
      r := Ok(buffer[offset - start..offset - start + length]);
      SliceOfSlice(blob, start, start + |buffer|, offset - start, offset - start + length);
    }

    /** `skipBlocks`, which moves the cursor past a chain of sub-blocks. */
    method Skip(from: nat) returns (r: Result<nat>)
      requires Valid()
      modifies this
      ensures Valid() && Agrees(SkipBlocks(Drop(blob, from), old(steps)), r)
      ensures r.Ok? ==> from < r.value
    {
      hide SkipBlocks, Drop;
      var offset := from;
      while true
        invariant Valid() && offset >= from
        invariant SkipBlocks(Drop(blob, from), old(steps)) == SkipBlocks(Drop(blob, offset), steps)
        decreases |blob| - offset
      {
        SkipBlocksAt(blob, offset, steps);
        var byte := Read(offset, 1);
        if byte.Err? {
          return Err;
        }
        var size: nat := byte.value[0];
        offset := offset + 1;
        if size == 0 {
          return Ok(offset);
        }
        offset := offset + size;
        if offset > |blob| {
          return Err;
        }
      }
    }

    /** A cursor agrees with the specification when it stands where the specified rest begins. */
    ghost predicate Agrees(specified: Result<(seq<Byte>, nat)>, cursor: Result<nat>)
      reads this
    {
      if specified.Err? then cursor == Err
      else cursor.Ok? && cursor.value <= |blob| && Drop(blob, cursor.value) == specified.value.0 && steps == specified.value.1
    }

    /** The rest of an image block, whose descriptor is at the cursor. */
    method SkipImage(from: nat) returns (r: Result<nat>)
      requires Valid() && from <= |blob|
      modifies this
      ensures Valid() && Agrees(PassImage(Drop(blob, from), old(steps)), r)
      ensures r.Ok? ==> from < r.value
    {
      hide SkipBlocks, TableSize, Drop;
      PassImageAt(blob, from, steps);
      var descriptor := Read(from, 9);
      if descriptor.Err? {
        return Err;
      }
      var offset := from + 9 + TableSize(descriptor.value[8]);
      var minCodeSize := Read(offset, 1);
      if minCodeSize.Err? {
        return Err;
      }
      r := Skip(offset + 1);
    }
  
    /** One round of the block loop, from a cursor inside the blob. */
    method Pass(from: nat) returns (answer: Option<Result<bool>>, image: bool, offset: nat)
      requires Valid() && from < |blob|
      modifies this
      ensures Valid()
      ensures match PassBlock(Drop(blob, from), old(steps))
              case Stop(stopped) => answer == Some(stopped)
              case Passed(isImage, rest, made) =>
                && answer.None? && image == isImage && from < offset <= |blob|
                && Drop(blob, offset) == rest && steps == made
    {
      hide SkipBlocks, PassImage;
      answer, image, offset := None, false, from + 1;
      DropDrop(blob, from, 1);
      DropDrop(blob, from + 1, 1);
      var marker := Read(from, 1);
      if marker.Err? {
        return Some(Err), false, offset;
      }
      var next;
      if marker.value[0] == TRAILER {
        return Some(Ok(false)), false, offset;
      } else if marker.value[0] == EXTENSION {
        next := Skip(offset + 1);
      } else if marker.value[0] == IMAGE {
        image := true;
        next := SkipImage(offset);
      } else {
        return Some(Err), false, offset;
      }
      if next.Err? {
        return Some(Err), image, offset;
      }
      offset := next.value;
    }
  
    /** The block loop. */
    method Watch(from: nat) returns (answer: Result<bool>)
      requires Valid()
      modifies this
      ensures answer == Walk(Drop(blob, from), 0, old(steps))
    {
      hide PassBlock, Walk, Drop, Valid;
      var offset, frames := from, 0;
      while offset < |blob|
        invariant Valid() && frames <= 1
        invariant Walk(Drop(blob, from), 0, old(steps)) == Walk(Drop(blob, offset), frames, steps)
        decreases |blob| - offset
      {
        WalkPasses(Drop(blob, offset), frames, steps);
        var stopped, image, next := Pass(offset);
        if stopped.Some? {
          return stopped.value;
        }
        offset := next;
        if image {
          frames := frames + 1;
          if frames > 1 {
            return Ok(true);
          }
        }
      }
      WalkNothing(blob, offset, frames, steps);
      return Ok(false);
    }
  }

  method DetectGifAnimation(blob: seq<Byte>) returns (verdict: Verdict)
    ensures verdict == Detect(blob)
  {
    if |blob| < 12 {
      return Still;
    }
    hide PassBlock, TableSize, Walk, Signature, Drop, BlobReader.Valid;
    SignatureInHead(blob);
    var reader := new BlobReader(blob);
    var head := reader.Read(0, 12);
    if !Signature(head.value) {
      return NotGif;
    }
    var packed := reader.Read(10, 1);
    assert packed.value == [blob[10]];
    var answer := reader.Watch(13 + TableSize(packed.value[0]));
    verdict := Judge(answer);
  }

  lemma SignatureInHead(blob: seq<Byte>)
    requires |blob| >= 12
    ensures Signature(blob[0..12]) == Signature(blob)
  {
    assert blob[0..12][..6] == blob[..6];
  }

  lemma WalkNothing(blob: seq<Byte>, offset: nat, frames: nat, steps: nat)
    requires offset >= |blob|
    ensures Walk(Drop(blob, offset), frames, steps) == Ok(false)
  {
  }

  // ------------------------------------------------------------- what it means

  function Images(blocks: seq<Block>): nat {
    if blocks == [] then 0 else (if blocks[0].Image? then 1 else 0) + Images(blocks[1..])
  }

  /** The number of reads that walking over a block takes. */
  function BlockReads(block: Block): nat {
    |block.data| + if block.Image? then 4 else 2
  }

  function Reads(blocks: seq<Block>): nat {
    if blocks == [] then 0 else BlockReads(blocks[0]) + Reads(blocks[1..])
  }

  /** The number of reads for the blocks up to the one that brings the number of images to two. */
  function ReadsToSecondImage(blocks: seq<Block>, frames: nat): nat {
    if blocks == [] || frames >= 2 then 0
    else BlockReads(blocks[0]) + ReadsToSecondImage(blocks[1..], if blocks[0].Image? then frames + 1 else frames)
  }

  lemma {:induction false} SkipChunks(data: seq<Chunk>, rest: seq<Byte>, steps: nat)
    ensures SkipBlocks(ChunkBytes(data) + rest, steps) == if steps + |data| < READ_LIMIT then Ok((rest, steps + |data| + 1)) else Err
  {
    var s := ChunkBytes(data) + rest;
    if data != [] {
      var n: nat := |data[0]|;
      assert s == [Size(data[0])] + data[0] + (ChunkBytes(data[1..]) + rest);
      assert s[0] == n && s[1 + n..] == ChunkBytes(data[1..]) + rest;
      SkipChunks(data[1..], rest, steps + 1);
    } else {
      assert s[1..] == rest;
    }
  }

  lemma PassedImage(block: Block, rest: seq<Byte>, steps: nat)
    requires block.Image? && WellFormedBlock(block)
    ensures PassImage(BlockBytes(block)[1..] + rest, steps)
         == if steps + 3 + |block.data| <= READ_LIMIT then Ok((rest, steps + 3 + |block.data|)) else Err
  {
    var tail := ChunkBytes(block.data) + rest;
    var s := block.descriptor + block.localTable + [block.minCodeSize] + tail;
    SkipChunks(block.data, rest, steps + 2);
    ImageParts(block, rest);
    hide ChunkBytes, SkipBlocks, TableSize, BlockBytes;
    assert ([IMAGE] + s)[1..] == s;
    DescriptorSlices(block.descriptor, block.localTable, block.minCodeSize, tail, s);
  }

  lemma ImageParts(block: Block, rest: seq<Byte>)
    requires block.Image?
    ensures BlockBytes(block) + rest
         == [IMAGE] + (block.descriptor + block.localTable + [block.minCodeSize] + (ChunkBytes(block.data) + rest))
    ensures (BlockBytes(block) + rest)[1..] == BlockBytes(block)[1..] + rest
  {
    hide ChunkBytes;
    var body := block.descriptor + block.localTable + [block.minCodeSize] + ChunkBytes(block.data);
    assert BlockBytes(block) == [IMAGE] + body;
    hide BlockBytes;
    ConcatAssociative([IMAGE], body, rest);
    ConcatAssociative(block.descriptor + block.localTable + [block.minCodeSize], ChunkBytes(block.data), rest);
  }

  lemma DescriptorSlices(descriptor: seq<Byte>, table: seq<Byte>, size: Byte, tail: seq<Byte>, s: seq<Byte>)
    requires |descriptor| == 9 && s == descriptor + table + [size] + tail
    ensures s[8] == descriptor[8] && |s| > 9 + |table| && s[10 + |table|..] == tail
  {
  }

  lemma PassedExtension(block: Block, rest: seq<Byte>, steps: nat)
    requires block.Extension?
    ensures (BlockBytes(block) + rest)[0] == EXTENSION
    ensures PassExtension((BlockBytes(block) + rest)[1..], steps)
         == if steps + |block.data| < READ_LIMIT then Ok((rest, steps + |block.data| + 1)) else Err
  {
    hide ChunkBytes, SkipBlocks;
    assert BlockBytes(block) + rest == [EXTENSION, block.kind] + (ChunkBytes(block.data) + rest);
    assert Drop((BlockBytes(block) + rest)[1..], 1) == ChunkBytes(block.data) + rest;
    SkipChunks(block.data, rest, steps);
  }

  lemma PassedBlock(block: Block, rest: seq<Byte>, steps: nat)
    requires WellFormedBlock(block)
    ensures PassBlock(BlockBytes(block) + rest, steps)
         == if steps + BlockReads(block) > READ_LIMIT then Stop(Err) else Passed(block.Image?, rest, steps + BlockReads(block))
  {
    hide PassExtension, PassImage, BlockBytes;
    if block.Extension? {
      PassedExtension(block, rest, steps + 1);
    } else {
      PassedImage(block, rest, steps + 1);
      ImageParts(block, rest);
    }
  }

  lemma WalkTrailer(blocks: seq<Block>, end: seq<Byte>, frames: nat, steps: nat)
    requires blocks == [] && |end| > 0 && end[0] == TRAILER
    ensures Walk(BlocksBytes(blocks) + end, frames, steps) == if steps < READ_LIMIT then Ok(false) else Err
  {
    assert BlocksBytes(blocks) + end == end;
  }

  lemma WalkPasses(s: seq<Byte>, frames: nat, steps: nat)
    ensures Walk(s, frames, steps)
         == match PassBlock(s, steps)
            case Stop(answer) => answer
            case Passed(image, rest, made) =>
              if image && frames > 0 then Ok(true) else Walk(rest, if image then frames + 1 else frames, made)
  {
  }

  /** On any well-formed GIF, whatever follows its trailer, the walk answers whether there are two
      or more images, unless the blocks up to the second image take too many reads. */
  lemma {:induction false} WalkBlocks(blocks: seq<Block>, end: seq<Byte>, frames: nat, steps: nat)
    requires WellFormedBlocks(blocks) && frames <= 1 && |end| > 0 && end[0] == TRAILER
    ensures var animated := frames + Images(blocks) >= 2;
            var made := steps + ReadsToSecondImage(blocks, frames) + if animated then 0 else 1;
            Walk(BlocksBytes(blocks) + end, frames, steps) == if made <= READ_LIMIT then Ok(animated) else Err
  {
    hide BlockBytes, BlockReads, PassBlock, BlocksBytes, WellFormedBlock, Walk;
    if blocks == [] {
      WalkTrailer(blocks, end, frames, steps);
    } else {
      var tail := BlocksBytes(blocks[1..]) + end;
      BlocksFront(blocks, end);
      PassedBlock(blocks[0], tail, steps);
      WalkPasses(BlockBytes(blocks[0]) + tail, frames, steps);
      var frames' := if blocks[0].Image? then frames + 1 else frames;
      if frames' <= 1 {
        WalkBlocks(blocks[1..], end, frames', steps + BlockReads(blocks[0]));
      }
    }
  }

  lemma DetectWellFormed(gif: Gif, rest: seq<Byte>)
    requires WellFormed(gif)
    ensures var animated := Images(gif.blocks) >= 2;
            var made := 2 + ReadsToSecondImage(gif.blocks, 0) + if animated then 0 else 1;
            Detect(GifBytes(gif) + rest) == if made > READ_LIMIT then Failed else if animated then Animated else Still
  {
    var tail := BlocksBytes(gif.blocks) + ([TRAILER] + rest);
    WalkBlocks(gif.blocks, [TRAILER] + rest, 0, 2);
    GifParts(gif, rest);
    hide Walk, BlocksBytes, TableSize, ReadsToSecondImage, Images, GifBytes, WellFormedBlocks;
    ScreenSlices(gif.screen, gif.globalTable, tail, GifBytes(gif) + rest);
  }

  lemma {:induction false} SkippedChunks(s: seq<Byte>, steps: nat) returns (data: seq<Chunk>)
    requires SkipBlocks(s, steps).Ok?
    ensures var (rest, made) := SkipBlocks(s, steps).value;
            s == ChunkBytes(data) + rest && made == steps + |data| + 1 <= READ_LIMIT
  {
    var size: nat := s[0];
    if size == 0 {
      data := [];
    } else {
      var later := SkippedChunks(s[1 + size..], steps + 1);
      var chunk: Chunk := s[1..1 + size];
      data := [chunk] + later;
      assert data[1..] == later;
      hide SkipBlocks;
      assert s == [s[0]] + chunk + s[1 + size..];
    }
  }

  /** Conversely, an answer "animated" is never given without a reason: the file begins with
      well-formed blocks, of which the last is the second image. */
  lemma {:induction false} WalkedToSecondImage(s: seq<Byte>, frames: nat, steps: nat) returns (blocks: seq<Block>, rest: seq<Byte>)
    requires Walk(s, frames, steps) == Ok(true) && frames <= 1
    ensures s == BlocksBytes(blocks) + rest && WellFormedBlocks(blocks)
    ensures frames + Images(blocks) == 2 && blocks != [] && blocks[|blocks| - 1].Image?
    ensures steps + Reads(blocks) <= READ_LIMIT
    decreases |s|
  {
    hide *;
    WalkPasses(s, frames, steps);
    var block := WalkedBlock(s, steps);
    var tail := PassBlock(s, steps).rest;
    if block.Image? && frames == 1 {
      blocks, rest := [block], tail;
      PrependBlock(block, []);
      assert [block] + [] == blocks;
      NoBlocks();
      ConcatAssociative(BlockBytes(block), [], rest);
      assert [] + rest == rest;
    } else {
      var later;
      later, rest := WalkedToSecondImage(tail, if block.Image? then frames + 1 else frames, steps + BlockReads(block));
      blocks := [block] + later;
      PrependBlock(block, later);
      ConcatAssociative(BlockBytes(block), BlocksBytes(later), rest);
    }
  }

  lemma NoBlocks()
    ensures BlocksBytes([]) == [] && Reads([]) == 0 && Images([]) == 0 && WellFormedBlocks([])
  {
  }

  lemma PrependBlock(block: Block, later: seq<Block>)
    ensures BlocksBytes([block] + later) == BlockBytes(block) + BlocksBytes(later)
    ensures Reads([block] + later) == BlockReads(block) + Reads(later)
    ensures Images([block] + later) == Images(later) + if block.Image? then 1 else 0
    ensures WellFormedBlock(block) && WellFormedBlocks(later) ==> WellFormedBlocks([block] + later)
  {
    assert ([block] + later)[1..] == later;
  }

  /** The part of the file after the header begins with well-formed blocks, of which the last is the
      second image, and few enough reads walk over them. */
  ghost predicate BeginsWithTwoImages(blob: seq<Byte>, blocks: seq<Block>, rest: seq<Byte>) {
    && |blob| >= 13 && Drop(blob, 13 + TableSize(blob[10])) == BlocksBytes(blocks) + rest
    && WellFormedBlocks(blocks) && Images(blocks) == 2 && blocks[|blocks| - 1].Image?
    && 2 + Reads(blocks) <= READ_LIMIT
  }

  lemma {:induction false} WalkReachesSecondImage(blocks: seq<Block>, rest: seq<Byte>, frames: nat, steps: nat)
    requires WellFormedBlocks(blocks) && frames <= 1 && frames + Images(blocks) == 2
    requires blocks[|blocks| - 1].Image? && steps + Reads(blocks) <= READ_LIMIT
    ensures Walk(BlocksBytes(blocks) + rest, frames, steps) == Ok(true)
  {
    hide BlockBytes, BlockReads, PassBlock, BlocksBytes, WellFormedBlock, Walk;
    var tail := BlocksBytes(blocks[1..]) + rest;
    BlocksFront(blocks, rest);
    PassedBlock(blocks[0], tail, steps);
    WalkPasses(BlockBytes(blocks[0]) + tail, frames, steps);
    if !(blocks[0].Image? && frames == 1) {
      assert blocks[1..] != [];
      WalkReachesSecondImage(blocks[1..], rest, if blocks[0].Image? then frames + 1 else frames, steps + BlockReads(blocks[0]));
    }
  }

  /** For every file with a GIF signature: "animated" is answered exactly when the file begins so. */
  lemma AnimatedExactly(blob: seq<Byte>)
    requires |blob| >= 12 && Signature(blob)
    ensures Detect(blob) == Animated <==> exists blocks, rest :: BeginsWithTwoImages(blob, blocks, rest)
  {
    var s := Drop(blob, 13 + TableSize(blob[10]));
    if Detect(blob) == Animated {
      var blocks, rest := WalkedToSecondImage(s, 0, 2);
      hide Walk, BlocksBytes;
      assert BeginsWithTwoImages(blob, blocks, rest);
    }
    if blocks, rest :| BeginsWithTwoImages(blob, blocks, rest) {
      WalkReachesSecondImage(blocks, rest, 0, 2);
    }
  }

  /** The block that a walk has just passed. */
  lemma WalkedBlock(s: seq<Byte>, steps: nat) returns (block: Block)
    requires PassBlock(s, steps).Passed?
    ensures WellFormedBlock(block) && s == BlockBytes(block) + PassBlock(s, steps).rest
    ensures PassBlock(s, steps).image == block.Image? && PassBlock(s, steps).made == steps + BlockReads(block) <= READ_LIMIT
  {
    var tail;
    if s[0] == EXTENSION {
      block, tail := WalkedExtension(s, steps + 1);
    } else {
      block, tail := WalkedImage(s, steps + 1);
    }
    hide PassBlock, BlockBytes, BlockReads;
    PassedBlock(block, tail, steps);
  }

  lemma WalkedExtension(s: seq<Byte>, steps: nat) returns (block: Block, tail: seq<Byte>)
    requires |s| > 0 && s[0] == EXTENSION && PassExtension(s[1..], steps).Ok?
    ensures block.Extension? && s == BlockBytes(block) + tail && |tail| < |s| && steps + |block.data| + 1 <= READ_LIMIT
  {
    var data := SkippedChunks(s[1..][1..], steps);
    tail := SkipBlocks(s[1..][1..], steps).value.0;
    block := Extension(s[1], data);
    hide SkipBlocks, ChunkBytes;
    assert s == [s[0], s[1]] + s[1..][1..];
    ConcatAssociative([s[0], s[1]], ChunkBytes(data), tail);
  }

  lemma WalkedImage(s: seq<Byte>, steps: nat) returns (block: Block, tail: seq<Byte>)
    requires |s| > 0 && s[0] == IMAGE && PassImage(s[1..], steps).Ok?
    ensures block.Image? && WellFormedBlock(block)
    ensures s == BlockBytes(block) + tail && |tail| < |s| && steps + |block.data| + 3 <= READ_LIMIT
  {
    var body, at := s[1..], 9 + TableSize(s[1..][8]);
    var later := body[at + 1..];
    var data := SkippedChunks(later, steps + 2);
    tail := SkipBlocks(later, steps + 2).value.0;
    hide SkipBlocks, ChunkBytes, TableSize;
    block := Image(body[..9], body[9..at], body[at], data);
    ImageParts(block, tail);
    hide BlockBytes, PassImage;
    BodySplit(body, at);
    assert s == [s[0]] + body;
  }

  lemma BodySplit(body: seq<Byte>, at: nat)
    requires 9 <= at < |body|
    ensures body == body[..9] + body[9..at] + [body[at]] + body[at + 1..]
  {
  }
}
