/** The animated GIF writer of src/lib/display-copy.ts (`subBlocks`, `encodeAnimatedGif`), and a
    reader that puts together the container grammar, the LZW decoder and the colour table. */
module DisplayCopy {
  import opened Bits
  import opened GifFormat
  import opened Palette
  import opened Sequences
  import opened Wrappers
  import Dither
  import ImageAnimation
  import Lzw

  const CODE_SIZE: Byte := 8
  const MAX_ANIMATED_PIXELS := 12_000_000

  datatype Shot = Shot(rgba: Frame, delayCs: int)

  // -------------------------------------------------------------- sub-blocks

  function Join(data: seq<Chunk>): seq<Byte> {
    if data == [] then [] else data[0] + Join(data[1..])
  }

  function Split(bytes: seq<Byte>): seq<Chunk> {
    if bytes == [] then []
    else if |bytes| <= 255 then [bytes]
    else [bytes[..255]] + Split(bytes[255..])
  }

  lemma {:induction false} JoinSplit(bytes: seq<Byte>)
    ensures Join(Split(bytes)) == bytes
    ensures |Split(bytes)| <= |bytes| / 255 + 1
  {
    if |bytes| > 255 {
      JoinSplit(bytes[255..]);
      assert Split(bytes)[1..] == Split(bytes[255..]);
      assert bytes == bytes[..255] + bytes[255..];
    } else if bytes != [] {
      assert Split(bytes)[1..] == [];
    }
  }

  lemma ChunkBytesStep(bytes: seq<Byte>)
    requires bytes != []
    ensures var n := if |bytes| < 255 then |bytes| else 255;
            ChunkBytes(Split(bytes)) == [n as Byte] + bytes[..n] + ChunkBytes(Split(bytes[n..]))
  {
    var n := if |bytes| < 255 then |bytes| else 255;
    assert Split(bytes)[1..] == Split(bytes[n..]);
    assert bytes[..n] == Split(bytes)[0];
  }

  method SubBlocks(minCodeSize: Byte, bytes: seq<Byte>) returns (output: seq<Byte>)
    ensures output == [minCodeSize] + ChunkBytes(Split(bytes))
  {
    hide ChunkBytes, Split;
    output := [minCodeSize];
    var offset := 0;
    assert bytes[offset..] == bytes;
    while offset < |bytes|
      invariant 0 <= offset <= |bytes|
      invariant output + ChunkBytes(Split(bytes[offset..])) == [minCodeSize] + ChunkBytes(Split(bytes))
    {
      var end := if offset + 255 < |bytes| then offset + 255 else |bytes|;
      var slice := bytes[offset..end];
      ChunkBytesStep(bytes[offset..]);
      assert bytes[offset..][..end - offset] == slice && bytes[offset..][end - offset..] == bytes[end..];
      ConcatAssociative(output, [|slice| as Byte] + slice, ChunkBytes(Split(bytes[end..])));
      ConcatAssociative(output, [|slice| as Byte], slice);
      output := output + [|slice| as Byte] + slice;
      offset := end;
    }
    assert bytes[offset..] == [];
    NoChunkBytes();
    output := output + [0];
  }

  lemma NoChunkBytes()
    ensures ChunkBytes(Split([])) == [0]
  {
  }

  // ------------------------------------------------------------------ reading

  datatype Control = Control(delay: nat, transparent: Option<nat>)

  datatype Shown = Shown(left: nat, top: nat, width: nat, height: nat, control: Option<Control>, indices: seq<nat>)

  datatype Picture = Picture(width: nat, height: nat, palette: seq<Color>, frames: seq<Shown>)

  function Word(low: Byte, high: Byte): nat {
    low + 256 * high
  }

  function ReadColors(table: seq<Byte>): seq<Color> {
    if |table| < 3 then [] else [Color(table[0], table[1], table[2])] + ReadColors(table[3..])
  }

  /** The frames of a chain of blocks; a graphic control extension applies to the next image. */
  function ReadFrames(blocks: seq<Block>, control: Option<Control>): Option<seq<Shown>> {
    if blocks == [] then Some([])
    else
      match blocks[0]
      case Extension(kind, data) =>
        var control' := if kind == 0xf9 && |data| == 1 && |data[0]| == 4
                        then Some(Control(Word(data[0][1], data[0][2]), if data[0][0] % 2 == 1 then Some(data[0][3] as nat) else None))
                        else control;
        ReadFrames(blocks[1..], control')
      case Image(d, _, minCodeSize, data) =>
        if |d| != 9 || !Lzw.ValidMinCodeSize(minCodeSize) then None
        else
          match Lzw.Decode(minCodeSize, Join(data))
          case None => None
          case Some(indices) =>
            match ReadFrames(blocks[1..], None)
            case None => None
            case Some(later) =>
              Some([Shown(Word(d[0], d[1]), Word(d[2], d[3]), Word(d[4], d[5]), Word(d[6], d[7]), control, indices)] + later)
  }

  function ReadPicture(bytes: seq<Byte>): Option<Picture> {
    match ReadGif(bytes)
    case None => None
    case Some(gif) =>
      if |gif.screen| < 10 then None
      else
        match ReadFrames(gif.blocks, None)
        case None => None
        case Some(frames) =>
          Some(Picture(Word(gif.screen[6], gif.screen[7]), Word(gif.screen[8], gif.screen[9]), ReadColors(gif.globalTable), frames))
  }

  // ------------------------------------------------------------------ writing

  function Low(x: nat): Byte {
    x % 256
  }

  function High(x: nat): Byte {
    x / 256 % 256
  }

  lemma WordOfHalves(x: nat)
    ensures Word(Low(x), High(x)) == x % 65536
  {
    assert x == x / 256 * 256 + x % 256;
    assert x / 256 == x / 256 / 256 * 256 + x / 256 % 256;
  }

  function TableBytes(palette: seq<Color>): seq<Byte> {
    if palette == [] then [] else [palette[0].r, palette[0].g, palette[0].b] + TableBytes(palette[1..])
  }

  lemma {:induction false} ReadTable(palette: seq<Color>)
    ensures |TableBytes(palette)| == 3 * |palette|
    ensures ReadColors(TableBytes(palette)) == palette
  {
    if palette != [] {
      ReadTable(palette[1..]);
      assert TableBytes(palette)[3..] == TableBytes(palette[1..]);
      assert palette == [palette[0]] + palette[1..];
    }
  }

  /** A frame as written: its clamped delay and the LZW code of its indices. */
  datatype Coded = Coded(delay: nat, payload: seq<Byte>)

  /** What all frames share. `transparentIndex` is `None` when no pixel is transparent. */
  datatype Style = Style(width: nat, height: nat, transparentIndex: Option<Byte>)

  const NETSCAPE: Chunk := [0x4e, 0x45, 0x54, 0x53, 0x43, 0x41, 0x50, 0x45, 0x32, 0x2e, 0x30]
  const FOREVER: Chunk := [0x01, 0x00, 0x00]
  const LOOP := Extension(0xff, [NETSCAPE, FOREVER])

  function ControlChunk(style: Style, delay: nat): Chunk {
    [if style.transparentIndex.Some? then 0x05 else 0x04, Low(delay), High(delay),
     if style.transparentIndex.Some? then style.transparentIndex.value else 0]
  }

  function Descriptor(style: Style): seq<Byte> {
    [0, 0, 0, 0, Low(style.width), High(style.width), Low(style.height), High(style.height), 0]
  }

  function FrameBlocks(style: Style, coded: Coded): seq<Block> {
    [Extension(0xf9, [ControlChunk(style, coded.delay)]), Image(Descriptor(style), [], CODE_SIZE, Split(coded.payload))]
  }

  function AllFrameBlocks(style: Style, coded: seq<Coded>): seq<Block> {
    if coded == [] then [] else FrameBlocks(style, coded[0]) + AllFrameBlocks(style, coded[1..])
  }

  function Screen(style: Style): seq<Byte> {
    [0x47, 0x49, 0x46, 0x38, 0x39, 0x61, Low(style.width), High(style.width), Low(style.height), High(style.height), 0xf7, 0, 0]
  }

  function Written(style: Style, palette: seq<Color>, coded: seq<Coded>): Gif {
    Gif(Screen(style), TableBytes(palette), [LOOP] + AllFrameBlocks(style, coded))
  }

  lemma {:induction false} AllFrameBlocksAppend(style: Style, coded: seq<Coded>, last: Coded)
    ensures AllFrameBlocks(style, coded + [last]) == AllFrameBlocks(style, coded) + FrameBlocks(style, last)
  {
    hide FrameBlocks;
    if coded == [] {
      assert coded + [last] == [last] && [last][1..] == [];
    } else {
      AllFrameBlocksAppend(style, coded[1..], last);
      assert (coded + [last])[1..] == coded[1..] + [last];
      ConcatAssociative(FrameBlocks(style, coded[0]), AllFrameBlocks(style, coded[1..]), FrameBlocks(style, last));
    }
  }

  lemma {:induction false} BlocksBytesAppend(blocks: seq<Block>, more: seq<Block>)
    ensures BlocksBytes(blocks + more) == BlocksBytes(blocks) + BlocksBytes(more)
  {
    hide BlockBytes;
    if blocks == [] {
      assert blocks + more == more;
    } else {
      BlocksBytesAppend(blocks[1..], more);
      assert (blocks + more)[1..] == blocks[1..] + more;
      ConcatAssociative(BlockBytes(blocks[0]), BlocksBytes(blocks[1..]), BlocksBytes(more));
    }
  }

  // --------------------------------------------------------- what is displayed

  function ShownAs(style: Style, delay: nat, indices: seq<nat>): Shown {
    var transparent := match style.transparentIndex case None => None case Some(index) => Some(index as nat);
    Shown(0, 0, style.width % 65536, style.height % 65536, Some(Control(delay, transparent)), indices)
  }

  predicate Decodes(coded: Coded, indices: seq<nat>) {
    coded.delay < 65536 && Lzw.Decode(CODE_SIZE, coded.payload) == Some(indices)
  }

  lemma ReadFrame(style: Style, coded: Coded, indices: seq<nat>, later: seq<Block>, laterFrames: seq<Shown>)
    requires Decodes(coded, indices) && ReadFrames(later, None) == Some(laterFrames)
    ensures ReadFrames(FrameBlocks(style, coded) + later, None) == Some([ShownAs(style, coded.delay, indices)] + laterFrames)
  {
    JoinSplit(coded.payload);
    WordOfHalves(style.width);
    WordOfHalves(style.height);
    WordOfHalves(coded.delay);
    hide Lzw.Decode, Join, Split, Low, High, Word;
    var blocks := FrameBlocks(style, coded) + later;
    assert blocks[1..][1..] == later;
    ZeroWord();
  }

  lemma ZeroWord()
    ensures Word(0, 0) == 0
  {
  }

  lemma {:induction false} ReadAllFrames(style: Style, coded: seq<Coded>, pictures: seq<seq<nat>>, shown: seq<Shown>)
    requires |coded| == |pictures| == |shown|
    requires forall i :: 0 <= i < |coded| ==> Decodes(coded[i], pictures[i]) && shown[i] == ShownAs(style, coded[i].delay, pictures[i])
    ensures ReadFrames(AllFrameBlocks(style, coded), None) == Some(shown)
  {
    if coded != [] {
      ReadAllFrames(style, coded[1..], pictures[1..], shown[1..]);
      ReadFrame(style, coded[0], pictures[0], AllFrameBlocks(style, coded[1..]), shown[1..]);
      hide ReadFrames, FrameBlocks, Decodes, ShownAs;
      assert shown == [shown[0]] + shown[1..];
    }
  }

  // ------------------------------------------------------------------ encoding

  const BLACK := Color(0, 0, 0)

  predicate SeesThrough(shots: seq<Shot>) {
    exists f, p :: 0 <= f < |shots| && 0 <= p < |shots[f].rgba| && !Opaque(shots[f].rgba[p])
  }

  function Frames(shots: seq<Shot>): (frames: seq<Frame>)
    ensures |frames| == |shots|
  {
    seq(|shots|, f requires 0 <= f < |shots| => shots[f].rgba)
  }

  /** One table entry is kept for transparent pixels, if there are any. */
  function Limit(shots: seq<Shot>): nat {
    if SeesThrough(shots) then 255 else 256
  }

  function Usable(shots: seq<Shot>): (palette: seq<Color>)
    ensures 0 < |palette| <= Limit(shots)
  {
    var colors := PaletteFor(Frames(shots), Limit(shots));
    if colors == [] then [BLACK] else colors
  }

  function Padded(colors: seq<Color>): (palette: seq<Color>)
    requires |colors| <= 256
    ensures |palette| == 256
  {
    colors + seq(256 - |colors|, _ => BLACK)
  }

  function StyleOf(width: nat, height: nat, shots: seq<Shot>): Style {
    Style(width, height, if SeesThrough(shots) then Some(|Usable(shots)| as Byte) else None)
  }

  function TransparentIndex(style: Style): Byte {
    match style.transparentIndex case None => 0 case Some(index) => index
  }

  function Delay(delayCs: int): nat {
    if delayCs < 2 then 2 else if delayCs > 65535 then 65535 else delayCs
  }

  /** The indices of a frame; the coder writes a single index 0 for a frame without pixels. */
  function FrameIndices(style: Style, usable: seq<Color>, rgba: Frame): seq<nat>
    requires (style.width > 0 || rgba == []) && usable != []
  {
    if rgba == [] then [0] else Dither.Indexed(rgba, usable, TransparentIndex(style), style.width)
  }

  predicate Wide(width: nat, shots: seq<Shot>) {
    width > 0 || forall shot <- shots :: shot.rgba == []
  }

  function Displayed(width: nat, height: nat, shots: seq<Shot>): Picture
    requires Wide(width, shots)
  {
    var style, usable := StyleOf(width, height, shots), Usable(shots);
    var frames := seq(|shots|, f requires 0 <= f < |shots| =>
      ShownAs(style, Delay(shots[f].delayCs), FrameIndices(style, usable, shots[f].rgba)));
    Picture(width % 65536, height % 65536, Padded(usable), frames)
  }

  method AnyTransparent(shots: seq<Shot>) returns (found: bool)
    ensures found == SeesThrough(shots)
  {
    for f := 0 to |shots|
      invariant forall i, p :: 0 <= i < f && 0 <= p < |shots[i].rgba| ==> Opaque(shots[i].rgba[p])
    {
      var rgba := shots[f].rgba;
      for p := 0 to |rgba|
        invariant forall q :: 0 <= q < p ==> Opaque(rgba[q])
      {
        if !Opaque(rgba[p]) {
          return true;
        }
      }
    }
    return false;
  }

  method Pad(colors: seq<Color>) returns (palette: seq<Color>)
    requires |colors| <= 256
    ensures palette == Padded(colors)
  {
    palette := colors;
    while |palette| < 256
      invariant |colors| <= |palette| <= 256 && palette == colors + seq(|palette| - |colors|, _ => BLACK)
    {
      palette := palette + [BLACK];
    }
  }

  method ColorBytes(palette: seq<Color>) returns (bytes: seq<Byte>)
    ensures bytes == TableBytes(palette)
  {
    bytes := [];
    for i := 0 to |palette|
      invariant bytes + TableBytes(palette[i..]) == TableBytes(palette)
    {
      assert palette[i..][1..] == palette[i + 1..];
      var color := palette[i];
      ConcatAssociative(bytes, [color.r, color.g, color.b], TableBytes(palette[i + 1..]));
      bytes := bytes + [color.r, color.g, color.b];
    }
  }

  lemma FrameBytes(style: Style, coded: Coded)
    ensures BlocksBytes(FrameBlocks(style, coded))
         == [0x21, 0xf9, 0x04] + ControlChunk(style, coded.delay) + [0] + [0x2c] + Descriptor(style) + ([CODE_SIZE] + ChunkBytes(Split(coded.payload)))
  {
    var blocks := FrameBlocks(style, coded);
    var control, image := blocks[0], blocks[1];
    ControlBytes(ControlChunk(style, coded.delay));
    hide ChunkBytes, Split, Low, High;
    assert BlockBytes(image) == [0x2c] + Descriptor(style) + ([CODE_SIZE] + ChunkBytes(image.data));
    assert blocks[1..] == [image] && [image][1..] == [];
    hide BlockBytes, ControlChunk;
    assert BlocksBytes([image]) == BlockBytes(image);
  }

  lemma ControlBytes(chunk: Chunk)
    requires |chunk| == 4
    ensures BlockBytes(Extension(0xf9, [chunk])) == [0x21, 0xf9, 0x04] + chunk + [0]
  {
    assert [chunk][1..] == [];
    assert ChunkBytes([chunk]) == [4] + chunk + [0];
  }

  lemma IndicesFit(style: Style, usable: seq<Color>, rgba: Frame)
    requires (style.width > 0 || rgba == []) && 0 < |usable| <= 256
    ensures var indices := Dither.Indexed(rgba, usable, TransparentIndex(style), style.width);
            forall p :: 0 <= p < |indices| ==> indices[p] < 256
  {
    var indices := Dither.Indexed(rgba, usable, TransparentIndex(style), style.width);
    forall p | 0 <= p < |indices|
      ensures indices[p] < 256
    {
      hide Dither.Diffused;
    }
  }

  /** The body of the frame loop: the bytes of one frame, and the blocks that they spell. */
  method EncodeFrame(style: Style, usable: seq<Color>, shot: Shot) returns (bytes: seq<Byte>, ghost coded: Coded)
    requires (style.width > 0 || shot.rgba == []) && 0 < |usable| <= 256
    ensures bytes == BlocksBytes(FrameBlocks(style, coded))
    ensures coded.delay == Delay(shot.delayCs) && Decodes(coded, FrameIndices(style, usable, shot.rgba))
    ensures |coded.payload| <= 3 * |shot.rgba| + 8
  {
    hide ChunkBytes, Split, Low, High, BlocksBytes, FrameBlocks, Lzw.Decode, Lzw.ClearCode, Dither.Indexed;
    var delay := Delay(shot.delayCs);
    var transparentIndex := TransparentIndex(style);
    var packed := if style.transparentIndex.Some? then 0x05 else 0x04;
    bytes := [0x21, 0xf9, 0x04, packed, Low(delay), High(delay), transparentIndex, 0];
    bytes := bytes + [0x2c, 0, 0, 0, 0, Low(style.width), High(style.width), Low(style.height), High(style.height), 0];
    assert bytes == [0x21, 0xf9, 0x04] + ControlChunk(style, delay) + [0] + [0x2c] + Descriptor(style) by {
      FrameFront(style, delay, packed);
    }
    hide ControlChunk, Descriptor;
    var indices := Dither.IndexFrame(shot.rgba, usable, transparentIndex, style.width);
    IndicesFit(style, usable, shot.rgba);
    CodeSizeRoom();
    var payload := Lzw.Encode(indices, CODE_SIZE as nat);
    coded := Coded(delay, payload);
    FrameBytes(style, coded);
    var blocks := SubBlocks(CODE_SIZE, payload);
    bytes := bytes + blocks;
  }

  lemma FrameFront(style: Style, delay: nat, packed: Byte)
    requires packed == if style.transparentIndex.Some? then 0x05 else 0x04
    ensures [0x21, 0xf9, 0x04, packed, Low(delay), High(delay), TransparentIndex(style), 0]
          + [0x2c, 0, 0, 0, 0, Low(style.width), High(style.width), Low(style.height), High(style.height), 0]
         == [0x21, 0xf9, 0x04] + ControlChunk(style, delay) + [0] + [0x2c] + Descriptor(style)
  {
    hide Low, High;
  }

  lemma CodeSizeRoom()
    ensures Lzw.ClearCode(CODE_SIZE as nat) == 256
  {
  }

  /** The frames written so far decode to what the shots before `count` should display. */
  predicate Spells(style: Style, usable: seq<Color>, shots: seq<Shot>, count: nat, coded: seq<Coded>)
    requires count <= |shots| && usable != [] && Wide(style.width, shots)
  {
    && |coded| == count
    && forall i :: 0 <= i < count ==>
         && coded[i].delay == Delay(shots[i].delayCs) && |coded[i].payload| <= 3 * |shots[i].rgba| + 8
         && Decodes(coded[i], FrameIndices(style, usable, shots[i].rgba))
  }

  lemma WrittenIsWellFormed(style: Style, palette: seq<Color>, coded: seq<Coded>)
    requires |palette| == 256
    ensures WellFormed(Written(style, palette, coded))
  {
    ReadTable(palette);
    FrameBlocksWellFormed(style, coded);
    assert Screen(style)[..6] == [0x47, 0x49, 0x46, 0x38, 0x39, 0x61];
    FullTable();
    hide TableBytes, TableSize, AllFrameBlocks, Low, High;
  }

  lemma FullTable()
    ensures TableSize(0xf7) == 768 && TableSize(0) == 0
  {
  }

  lemma {:induction false} FrameBlocksWellFormed(style: Style, coded: seq<Coded>)
    ensures WellFormedBlocks(AllFrameBlocks(style, coded))
  {
    hide Split, Low, High;
    FullTable();
    if coded != [] {
      FrameBlocksWellFormed(style, coded[1..]);
    }
  }

  /** What was written is read back, whatever shots the codes came from. */
  lemma ReadWritten(style: Style, palette: seq<Color>, coded: seq<Coded>, pictures: seq<seq<nat>>, shown: seq<Shown>)
    requires |palette| == 256 && |coded| == |pictures| == |shown|
    requires forall i :: 0 <= i < |coded| ==> Decodes(coded[i], pictures[i]) && shown[i] == ShownAs(style, coded[i].delay, pictures[i])
    ensures ReadPicture(GifBytes(Written(style, palette, coded)))
         == Some(Picture(style.width % 65536, style.height % 65536, palette, shown))
  {
    var gif := Written(style, palette, coded);
    WrittenIsWellFormed(style, palette, coded);
    ReadGifBytes(gif, []);
    assert GifBytes(gif) + [] == GifBytes(gif);
    ReadAllFrames(style, coded, pictures, shown);
    hide GifBytes, ReadGif, AllFrameBlocks, Decodes, ShownAs, TableBytes, WellFormed;
    ReadLoop(AllFrameBlocks(style, coded));
    hide ReadFrames;
    ReadTable(palette);
    WordOfHalves(style.width);
    WordOfHalves(style.height);
  }

  lemma ReadLoop(blocks: seq<Block>)
    ensures ReadFrames([LOOP] + blocks, None) == ReadFrames(blocks, None)
  {
    assert ([LOOP] + blocks)[1..] == blocks;
  }

  // ------------------------------------------------------ the walker's verdict

  lemma {:induction false} FrameImages(style: Style, coded: seq<Coded>)
    ensures ImageAnimation.Images(AllFrameBlocks(style, coded)) == |coded|
  {
    if coded != [] {
      FrameImages(style, coded[1..]);
      TwoBlocks(FrameBlocks(style, coded[0]), AllFrameBlocks(style, coded[1..]));
    }
  }

  lemma TwoBlocks(two: seq<Block>, later: seq<Block>)
    requires |two| == 2 && two[0].Extension? && two[1].Image?
    ensures ImageAnimation.Images(two + later) == 1 + ImageAnimation.Images(later)
    ensures forall frames: nat | frames < 2 ::
              ImageAnimation.ReadsToSecondImage(two + later, frames)
              == |two[0].data| + |two[1].data| + 6 + ImageAnimation.ReadsToSecondImage(later, frames + 1)
  {
    var all := two + later;
    assert all[1..] == [two[1]] + later && all[1..][1..] == later;
  }

  lemma LoopBlock(later: seq<Block>)
    ensures ImageAnimation.Images([LOOP] + later) == ImageAnimation.Images(later)
    ensures ImageAnimation.ReadsToSecondImage([LOOP] + later, 0) == 4 + ImageAnimation.ReadsToSecondImage(later, 0)
  {
    assert ([LOOP] + later)[1..] == later;
  }

  const MAX_PAYLOAD := 3 * MAX_ANIMATED_PIXELS + 8

  lemma FrameReads(style: Style, coded: seq<Coded>, frames: nat)
    requires frames <= 1 && forall c <- coded :: |c.payload| <= MAX_PAYLOAD
    ensures ImageAnimation.ReadsToSecondImage(AllFrameBlocks(style, coded), frames) <= (2 - frames) * 200_000
  {
    if coded != [] {
      JoinSplit(coded[0].payload);
      var later := AllFrameBlocks(style, coded[1..]);
      TwoBlocks(FrameBlocks(style, coded[0]), later);
      hide AllFrameBlocks, Split;
      if frames == 0 {
        FrameReads(style, coded[1..], 1);
      }
    }
  }

  lemma DetectWritten(style: Style, palette: seq<Color>, coded: seq<Coded>)
    requires |palette| == 256
    ensures var verdict := ImageAnimation.Detect(GifBytes(Written(style, palette, coded)));
            && (verdict == ImageAnimation.Failed || verdict == if |coded| >= 2 then ImageAnimation.Animated else ImageAnimation.Still)
            && ((forall c <- coded :: |c.payload| <= MAX_PAYLOAD) ==> verdict != ImageAnimation.Failed)
  {
    var gif := Written(style, palette, coded);
    WrittenIsWellFormed(style, palette, coded);
    FrameImages(style, coded);
    LoopBlock(AllFrameBlocks(style, coded));
    if forall c <- coded :: |c.payload| <= MAX_PAYLOAD {
      FrameReads(style, coded, 0);
    }
    hide *;
    assert GifBytes(gif) + [] == GifBytes(gif);
    ImageAnimation.DetectWellFormed(gif, []);
  }

  // ---------------------------------------------------------------- the encoder

  lemma HeadBytes(style: Style, palette: seq<Color>, coded: seq<Coded>)
    ensures GifBytes(Written(style, palette, coded))
         == Screen(style) + TableBytes(palette) + ([0x21, 0xff, 0x0b] + NETSCAPE + [0x03] + FOREVER + [0])
            + BlocksBytes(AllFrameBlocks(style, coded)) + [TRAILER]
  {
    LoopBytes();
    hide BlockBytes, TableBytes, AllFrameBlocks;
    assert ([LOOP] + AllFrameBlocks(style, coded))[1..] == AllFrameBlocks(style, coded);
    ConcatAssociative(Screen(style) + TableBytes(palette), BlockBytes(LOOP), BlocksBytes(AllFrameBlocks(style, coded)));
  }

  lemma LoopBytes()
    ensures BlockBytes(LOOP) == [0x21, 0xff, 0x0b] + NETSCAPE + [0x03] + FOREVER + [0]
  {
    assert [NETSCAPE, FOREVER][1..] == [FOREVER] && [FOREVER][1..] == [];
    assert ChunkBytes([FOREVER]) == [3] + FOREVER + [0];
  }

  /** The frame loop. */
  method EncodeFrames(style: Style, usable: seq<Color>, shots: seq<Shot>, head: seq<Byte>) returns (bytes: seq<Byte>, ghost coded: seq<Coded>)
    requires Wide(style.width, shots) && 0 < |usable| <= 256
    ensures bytes == head + BlocksBytes(AllFrameBlocks(style, coded))
    ensures Spells(style, usable, shots, |shots|, coded)
  {
    hide BlocksBytes, AllFrameBlocks, FrameBlocks, FrameIndices, Decodes, Delay;
    bytes, coded := head, [];
    NoFrames(style);
    for f := 0 to |shots|
      invariant bytes == head + BlocksBytes(AllFrameBlocks(style, coded))
      invariant Spells(style, usable, shots, f, coded)
    {
      var frameBytes, last := EncodeFrame(style, usable, shots[f]);
      AllFrameBlocksAppend(style, coded, last);
      BlocksBytesAppend(AllFrameBlocks(style, coded), FrameBlocks(style, last));
      ConcatAssociative(head, BlocksBytes(AllFrameBlocks(style, coded)), frameBytes);
      bytes, coded := bytes + frameBytes, coded + [last];
    }
  }

  lemma NoFrames(style: Style)
    ensures BlocksBytes(AllFrameBlocks(style, [])) == []
  {
  }

  /** The encoder. Its output can be read back: every frame shows the indexed pixels, and the walker
      calls the file animated exactly when there are two or more frames. */
  method EncodeAnimatedGif(width: nat, height: nat, shots: seq<Shot>) returns (bytes: seq<Byte>)
    requires Wide(width, shots)
    ensures ReadPicture(bytes) == Some(Displayed(width, height, shots))
    ensures var verdict := ImageAnimation.Detect(bytes);
            && (verdict == ImageAnimation.Failed || verdict == if |shots| >= 2 then ImageAnimation.Animated else ImageAnimation.Still)
            && ((forall shot <- shots :: |shot.rgba| <= MAX_ANIMATED_PIXELS) ==> verdict != ImageAnimation.Failed)
  {
    hide *;
    var transparent := AnyTransparent(shots);
    var colors := PaletteFromFrames(Frames(shots), if transparent then 255 else 256);
    var usable := if colors == [] then [BLACK] else colors;
    UsableIs(shots, colors);
    var style := Style(width, height, if transparent then Some(|usable| as Byte) else None);
    StyleIs(width, height, shots);
    var palette := Pad(usable + if transparent then [BLACK] else []);
    PaddedMore(usable);
    bytes := [0x47, 0x49, 0x46, 0x38, 0x39, 0x61, Low(width), High(width), Low(height), High(height), 0xf7, 0, 0];
    ScreenIs(style);
    var table := ColorBytes(palette);
    bytes := bytes + table;
    bytes := bytes + ([0x21, 0xff, 0x0b] + NETSCAPE + [0x03] + FOREVER + [0]);
    ghost var coded;
    bytes, coded := EncodeFrames(style, usable, shots, bytes);
    bytes := bytes + [TRAILER];
    HeadBytes(style, palette, coded);
    DetectWritten(style, palette, coded);
    ReadsAsDisplayed(width, height, shots, coded);
    SpelledSizes(style, usable, shots, coded);
  }

  lemma UsableIs(shots: seq<Shot>, colors: seq<Color>)
    requires colors == PaletteFor(Frames(shots), if SeesThrough(shots) then 255 else 256)
    ensures Usable(shots) == if colors == [] then [BLACK] else colors
    ensures 0 < |Usable(shots)| <= (if SeesThrough(shots) then 255 else 256)
  {
  }

  lemma StyleIs(width: nat, height: nat, shots: seq<Shot>)
    ensures StyleOf(width, height, shots) == Style(width, height, if SeesThrough(shots) then Some(|Usable(shots)| as Byte) else None)
  {
  }

  lemma ScreenIs(style: Style)
    ensures Screen(style)
         == [0x47, 0x49, 0x46, 0x38, 0x39, 0x61, Low(style.width), High(style.width), Low(style.height), High(style.height), 0xf7, 0, 0]
  {
  }

  lemma PaddedMore(colors: seq<Color>)
    ensures |colors| < 256 ==> Padded(colors + [BLACK]) == Padded(colors)
    ensures |colors| <= 256 ==> Padded(colors + []) == Padded(colors)
  {
    assert colors + [] == colors;
  }

  lemma ReadsAsDisplayed(width: nat, height: nat, shots: seq<Shot>, coded: seq<Coded>)
    requires Wide(width, shots)
    requires Spells(StyleOf(width, height, shots), Usable(shots), shots, |shots|, coded)
    ensures ReadPicture(GifBytes(Written(StyleOf(width, height, shots), Padded(Usable(shots)), coded))) == Some(Displayed(width, height, shots))
  {
    var style, usable, picture := StyleOf(width, height, shots), Usable(shots), Displayed(width, height, shots);
    var pictures := seq(|shots|, f requires 0 <= f < |shots| => FrameIndices(style, usable, shots[f].rgba));
    hide FrameIndices, Decodes, Delay, ShownAs, Usable, Padded, SeesThrough, GifBytes, ReadPicture;
    ReadWritten(style, Padded(usable), coded, pictures, picture.frames);
  }

  lemma SpelledSizes(style: Style, usable: seq<Color>, shots: seq<Shot>, coded: seq<Coded>)
    requires usable != [] && Wide(style.width, shots) && Spells(style, usable, shots, |shots|, coded)
    ensures |coded| == |shots|
    ensures (forall shot <- shots :: |shot.rgba| <= MAX_ANIMATED_PIXELS) ==> forall c <- coded :: |c.payload| <= MAX_PAYLOAD
  {
    hide Decodes, FrameIndices;
  }

  // ----------------------------------------------------------- when it is exact

  /** Every opaque pixel shows its own colour, and exactly the others show the transparent index. */
  predicate Faithful(picture: Picture, shots: seq<Shot>) {
    && |picture.frames| == |shots|
    && forall f :: 0 <= f < |shots| ==> FrameFaithful(picture.palette, picture.frames[f], shots[f].rgba)
  }

  predicate FrameFaithful(palette: seq<Color>, shown: Shown, rgba: Frame) {
    && shown.control.Some? && |rgba| <= |shown.indices|
    && forall p :: 0 <= p < |rgba| ==> PixelFaithful(palette, shown.control.value.transparent, shown.indices[p], rgba[p])
  }

  predicate PixelFaithful(palette: seq<Color>, transparent: Option<nat>, index: nat, pixel: Pixel) {
    if Opaque(pixel) then index < |palette| && palette[index] == pixel.color && transparent != Some(index)
    else transparent == Some(index)
  }

  lemma DisplayedFrame(width: nat, height: nat, shots: seq<Shot>, f: nat)
    requires width > 0 && f < |shots| && |Distinct(AllOpaqueColors(Frames(shots)))| <= Limit(shots)
    ensures FrameFaithful(Padded(Usable(shots)), Displayed(width, height, shots).frames[f], shots[f].rgba)
  {
    var style, usable, rgba := StyleOf(width, height, shots), Usable(shots), shots[f].rgba;
    forall p | 0 <= p < |rgba| && Opaque(rgba[p])
      ensures rgba[p].color in usable
    {
      ColorIsUsable(shots, f, p);
    }
    assert forall p :: 0 <= p < |rgba| && !Opaque(rgba[p]) ==> SeesThrough(shots);
    hide Usable, SeesThrough;
    hide Dither.Indexed;
    forall p | 0 <= p < |rgba|
      ensures PixelFaithful(Padded(usable), if SeesThrough(shots) then Some(|usable|) else None, FrameIndices(style, usable, rgba)[p], rgba[p])
    {
      Dither.IndexedIsLossless(rgba, usable, TransparentIndex(style), width, p);
    }
  }

  lemma ColorIsUsable(shots: seq<Shot>, f: nat, p: nat)
    requires f < |shots| && p < |shots[f].rgba| && Opaque(shots[f].rgba[p])
    requires |Distinct(AllOpaqueColors(Frames(shots)))| <= Limit(shots)
    ensures shots[f].rgba[p].color in Usable(shots)
  {
    FrameColorsAreAll(Frames(shots), f, p);
    DistinctElements(AllOpaqueColors(Frames(shots)));
    PaletteIsExact(Frames(shots), Limit(shots));
  }

  lemma {:induction false} DistinctAtMost<T>(a: seq<T>, b: seq<T>)
    requires forall i, j :: 0 <= i < j < |a| ==> a[i] != a[j]
    requires forall i :: 0 <= i < |a| ==> a[i] in b
    ensures |a| <= |b|
  {
    if a != [] {
      var last := a[|a| - 1];
      var k :| 0 <= k < |b| && b[k] == last;
      DistinctAtMost(a[..|a| - 1], b[..k] + b[k + 1..]);
    }
  }

  /** The colours that an opaque pixel may show: all but the transparent entry. */
  function Visible(shots: seq<Shot>): (colors: seq<Color>)
    ensures |colors| == Limit(shots)
  {
    var palette, t := Padded(Usable(shots)), |Usable(shots)|;
    if SeesThrough(shots) then palette[..t] + palette[t + 1..] else palette
  }

  lemma VisibleEntry(shots: seq<Shot>, index: nat)
    requires index < 256 && !(SeesThrough(shots) && index == |Usable(shots)|)
    ensures Padded(Usable(shots))[index] in Visible(shots)
  {
    hide Usable, Padded, SeesThrough;
    var i := if SeesThrough(shots) && |Usable(shots)| < index then index - 1 else index;
    assert Visible(shots)[i] == Padded(Usable(shots))[index];
  }

  lemma FaithfulColor(width: nat, height: nat, shots: seq<Shot>, c: Color)
    requires width > 0 && Faithful(Displayed(width, height, shots), shots) && c in AllOpaqueColors(Frames(shots))
    ensures c in Visible(shots)
  {
    var f, p := ColorComesFrom(Frames(shots), c);
    var picture := Displayed(width, height, shots);
    var index := picture.frames[f].indices[p];
    hide FrameIndices, Usable, Padded, SeesThrough;
    assert FrameFaithful(picture.palette, picture.frames[f], shots[f].rgba);
    assert PixelFaithful(picture.palette, picture.frames[f].control.value.transparent, index, shots[f].rgba[p]);
    VisibleEntry(shots, index);
  }

  /** Encoding loses nothing exactly when the opaque colours fit the limit. */
  lemma LosslessExactly(width: nat, height: nat, shots: seq<Shot>)
    requires width > 0
    ensures Faithful(Displayed(width, height, shots), shots) <==> |Distinct(AllOpaqueColors(Frames(shots)))| <= Limit(shots)
  {
    hide AllOpaqueColors, Distinct, Visible, SeesThrough, StyleOf, FrameFaithful, FrameIndices, Usable, Padded;
    var distinct := Distinct(AllOpaqueColors(Frames(shots)));
    if |distinct| <= Limit(shots) {
      forall f | 0 <= f < |shots|
        ensures FrameFaithful(Padded(Usable(shots)), Displayed(width, height, shots).frames[f], shots[f].rgba)
      {
        DisplayedFrame(width, height, shots, f);
      }
    }
    if Faithful(Displayed(width, height, shots), shots) {
      DistinctElements(AllOpaqueColors(Frames(shots)));
      forall i | 0 <= i < |distinct|
        ensures distinct[i] in Visible(shots)
      {
        FaithfulColor(width, height, shots, distinct[i]);
      }
      DistinctAtMost(distinct, Visible(shots));
    }
  }

  /** Sizes and delays that fit their fields are shown as they are. */
  lemma TimesAndSizesSurvive(width: nat, height: nat, shots: seq<Shot>, f: nat)
    requires Wide(width, shots) && width < 65536 && height < 65536 && f < |shots|
    ensures var picture := Displayed(width, height, shots);
            && picture.width == width && picture.height == height && |picture.frames| == |shots|
            && var frame := picture.frames[f];
               && frame.left == 0 && frame.top == 0 && frame.width == width && frame.height == height && frame.control.Some?
               && (2 <= shots[f].delayCs <= 65535 ==> frame.control.value.delay == shots[f].delayCs)
               && (shots[f].delayCs < 2 ==> frame.control.value.delay == 2)
               && (shots[f].delayCs > 65535 ==> frame.control.value.delay == 65535)
  {
    hide FrameIndices, Usable, Padded, SeesThrough;
  }

  /** Beyond the limit, the table that is read back begins with the mean colours of the most frequent
      kinds of sampled pixels. */
  lemma LossyPalette(width: nat, height: nat, shots: seq<Shot>) returns (kinds: seq<Color>)
    requires Wide(width, shots) && |Distinct(AllOpaqueColors(Frames(shots)))| > Limit(shots)
    ensures |kinds| <= |Displayed(width, height, shots).palette|
    ensures IsPopular(Displayed(width, height, shots).palette[..|kinds|], kinds, AllSampledColors(Frames(shots)), Limit(shots))
  {
    hide PaletteFor, IsPopular, AllSampledColors, AllOpaqueColors, Distinct, SeesThrough, FrameIndices, StyleOf;
    kinds := PopularPalette(Frames(shots), Limit(shots));
    var colors := PaletteFor(Frames(shots), Limit(shots));
    PopularIsAsLong(colors, kinds, AllSampledColors(Frames(shots)), Limit(shots));
    assert Displayed(width, height, shots).palette[..|colors|] == colors;
  }

  lemma PopularIsAsLong(palette: seq<Color>, kinds: seq<Color>, samples: seq<Color>, limit: nat)
    requires IsPopular(palette, kinds, samples, limit)
    ensures |kinds| == |palette|
  {
  }
}
