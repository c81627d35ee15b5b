/** The LZW coder of src/lib/display-copy.ts, and the decoder that Appendix F of the GIF89a
    specification ("Variable-Length-Code LZW Compression") prescribes for its output. */
module Lzw {
  import opened Bits
  import opened Sequences
  import opened Wrappers

  const MAX_CODES := 4096
  const MAX_WIDTH := 12

  type Phrase = seq<nat>

  /** GIF89a allows 2 as the smallest minimum code size; twelve-bit codes leave room for 11. */
  predicate ValidMinCodeSize(m: nat) {
    2 <= m <= 11
  }

  function ClearCode(m: nat): nat {
    Pow2(m)
  }

  function EndCode(m: nat): nat {
    ClearCode(m) + 1
  }

  /** The code that the next table entry will get: the entries follow the end code. */
  function NextCode(m: nat, table: seq<Phrase>): nat {
    EndCode(m) + 1 + |table|
  }

  predicate IsDataCode(m: nat, table: seq<Phrase>, code: nat) {
    code < ClearCode(m) || EndCode(m) < code < NextCode(m, table)
  }

  function PhraseOf(m: nat, table: seq<Phrase>, code: nat): Phrase
    requires IsDataCode(m, table, code)
  {
    if code < ClearCode(m) then [code] else table[code - EndCode(m) - 1]
  }

  // ---------------------------------------------------------------- decoder

  /** `previous` is empty exactly after a clear code, when no data code has been read yet. */
  datatype Decoder = Decoder(width: nat, table: seq<Phrase>, previous: seq<nat>, output: seq<nat>)

  function Start(m: nat): Decoder {
    Decoder(m + 1, [], [], [])
  }

  function First(phrase: Phrase): nat {
    if phrase == [] then 0 else phrase[0]
  }

  function Learn(m: nat, d: Decoder, phrase: Phrase): Decoder
  {
    var table := if NextCode(m, d.table) < MAX_CODES then d.table + [d.previous + [First(phrase)]] else d.table;
    var width := if NextCode(m, table) == Pow2(d.width) && d.width < MAX_WIDTH then d.width + 1 else d.width;
    Decoder(width, table, phrase, d.output + phrase)
  }

  /** Reading one code that is not the end code; `None` when the stream is corrupt. */
  function Read(m: nat, d: Decoder, code: nat): (r: Option<Decoder>)
    ensures r.Some? && d.width > 0 ==> r.value.width > 0
  {
    if code == ClearCode(m) then Some(Decoder(m + 1, [], [], d.output))
    else if d.previous == [] then
      if code < ClearCode(m) then Some(d.(previous := [code], output := d.output + [code])) else None
    else if IsDataCode(m, d.table, code) then Some(Learn(m, d, PhraseOf(m, d.table, code)))
    else if code == NextCode(m, d.table) then Some(Learn(m, d, d.previous + [First(d.previous)]))
    else None
  }

  /** Decoding stops at the end code, or when too few bits are left for another code. */
  function DecodeBits(m: nat, d: Decoder, bits: seq<bool>): Option<seq<nat>>
    requires d.width > 0
    decreases |bits|
  {
    if |bits| < d.width then Some(d.output)
    else
      var code := FromBits(bits[..d.width]);
      if code == EndCode(m) then Some(d.output)
      else
        match Read(m, d, code)
        case None => None
        case Some(next) => DecodeBits(m, next, bits[d.width..])
  }

  function Decode(m: nat, bytes: seq<Byte>): Option<seq<nat>> {
    DecodeBits(m, Start(m), BytesToBits(bytes))
  }

  // ------------------------------------------------ what the coder has emitted

  /** The decoder that `bits` leads to, if every code in them is read in the width it was written
      with, no end code is among them, and the last code ends where they end. */
  ghost function Run(m: nat, d: Decoder, bits: seq<bool>): Option<Decoder>
    requires d.width > 0
    decreases |bits|
  {
    if bits == [] then Some(d)
    else if |bits| < d.width || FromBits(bits[..d.width]) == EndCode(m) then None
    else
      match Read(m, d, FromBits(bits[..d.width]))
      case None => None
      case Some(next) => Run(m, next, bits[d.width..])
  }

  ghost predicate Leads(m: nat, bits: seq<bool>, to: Decoder) {
    Run(m, Start(m), bits) == Some(to)
  }

  lemma {:induction false} RunWidth(m: nat, d: Decoder, bits: seq<bool>)
    requires d.width > 0 && Run(m, d, bits).Some?
    ensures Run(m, d, bits).value.width > 0
    decreases |bits|
  {
    if bits != [] {
      RunWidth(m, Read(m, d, FromBits(bits[..d.width])).value, bits[d.width..]);
    }
  }

  /** Appending one code, in the decoder's width, appends one decoder step. */
  lemma {:induction false} RunStep(m: nat, d: Decoder, bits: seq<bool>, to: Decoder, code: nat)
    requires d.width > 0 && to.width > 0 && Run(m, d, bits) == Some(to)
    requires code < Pow2(to.width) && code != EndCode(m)
    ensures Run(m, d, bits + ToBits(code, to.width)) == Read(m, to, code)
    decreases |bits|
  {
    var whole := bits + ToBits(code, to.width);
    if bits == [] {
      FromToBits(code, to.width);
      assert whole == ToBits(code, to.width) && whole[..to.width] == whole && whole[to.width..] == [];
    } else {
      assert whole[..d.width] == bits[..d.width];
      assert whole[d.width..] == bits[d.width..] + ToBits(code, to.width);
      RunStep(m, Read(m, d, FromBits(bits[..d.width])).value, bits[d.width..], to, code);
    }
  }

  /** Decoding may be resumed where such a run ends. */
  lemma {:induction false} DecodeAfterRun(m: nat, d: Decoder, bits: seq<bool>, to: Decoder, tail: seq<bool>)
    requires d.width > 0 && to.width > 0 && Run(m, d, bits) == Some(to)
    ensures DecodeBits(m, d, bits + tail) == DecodeBits(m, to, tail)
    decreases |bits|
  {
    if bits == [] {
      assert bits + tail == tail;
    } else {
      assert (bits + tail)[..d.width] == bits[..d.width];
      assert (bits + tail)[d.width..] == bits[d.width..] + tail;
      DecodeAfterRun(m, Read(m, d, FromBits(bits[..d.width])).value, bits[d.width..], to, tail);
    }
  }

  /** The coder's dictionary is one entry ahead of the decoder's table: the entry it made after
      the last data code is the one the decoder makes when it reads the code of `pending`. */
  predicate InStep(m: nat, d: Decoder, grown: seq<Phrase>, pending: Phrase) {
    && NextCode(m, grown) <= MAX_CODES && pending != []
    && if d.previous == [] then grown == [] && d.table == [] && d.width == m + 1
       else grown == d.table + [d.previous + [First(pending)]]
  }

  /** A width is wide enough for every code of `grown`, and grows as late as possible. */
  predicate WidthFits(m: nat, grown: seq<Phrase>, width: nat) {
    m < width <= MAX_WIDTH && NextCode(m, grown) <= Pow2(width)
  }

  function WidthAfter(m: nat, grown: seq<Phrase>, width: nat): nat {
    if NextCode(m, grown) == Pow2(width) && width < MAX_WIDTH then width + 1 else width
  }

  /** Emitting the code of `pending` makes the decoder output `pending` and catch up with the
      coder's dictionary, including the case where the decoder has not made that entry yet. */
  lemma ReadPending(m: nat, d: Decoder, grown: seq<Phrase>, pending: Phrase, code: nat)
    requires ValidMinCodeSize(m) && InStep(m, d, grown, pending)
    requires IsDataCode(m, grown, code) && PhraseOf(m, grown, code) == pending
    ensures Read(m, d, code) == Some(Decoder(WidthAfter(m, grown, d.width), grown, pending, d.output + pending))
  {
    if d.previous == [] {
      assert Pow2(m + 1) == 2 * Pow2(m);
      Pow2Monotone(2, m);
      assert Pow2(2) == 4;
    } else {
      if code < NextCode(m, d.table) {
        assert PhraseOf(m, d.table, code) == pending;
      } else {
        assert pending == d.previous + [First(pending)];
        assert First(pending) == First(d.previous);
      }
    }
  }

  /** The end code may be written one bit narrower than the decoder would read it; the zero
      padding of the last byte, or the end of the data, makes that harmless. */
  lemma EndStops(m: nat, d: Decoder, width: nat, padding: nat)
    requires 0 < width && (d.width == width || d.width == width + 1) && EndCode(m) < Pow2(width)
    ensures DecodeBits(m, d, ToBits(EndCode(m), width) + Zeros(padding)) == Some(d.output)
  {
    var bits := ToBits(EndCode(m), width) + Zeros(padding);
    if |bits| >= d.width {
      var extra := d.width - width;
      assert Zeros(padding)[..extra] == Zeros(extra);
      assert bits[..d.width] == ToBits(EndCode(m), width) + Zeros(extra);
      FromToBits(EndCode(m), width);
      FromBitsPadded(ToBits(EndCode(m), width), extra);
    }
  }

  // ------------------------------------------------------------------ coder

  lemma PackCode(bytes: seq<Byte>, buffer: nat, bits: nat, code: nat, size: nat)
    requires buffer < Pow2(bits) && code < Pow2(size)
    ensures buffer + ShiftLeft(code, bits) < Pow2(bits + size)
    ensures BytesToBits(bytes) + ToBits(buffer + ShiftLeft(code, bits), bits + size)
         == BytesToBits(bytes) + ToBits(buffer, bits) + ToBits(code, size)
  {
    ToBitsConcat(buffer, bits, code, size);
    FitsAbove(buffer, bits, code, size);
    assert BytesToBits(bytes) + (ToBits(buffer, bits) + ToBits(code, size)) == BytesToBits(bytes) + ToBits(buffer, bits) + ToBits(code, size);
  }

  lemma FlushByte(bytes: seq<Byte>, buffer: nat, bits: nat)
    requires 8 <= bits && buffer < Pow2(bits)
    ensures buffer / 256 < Pow2(bits - 8)
    ensures BytesToBits(bytes + [buffer % 256]) + ToBits(buffer / 256, bits - 8) == BytesToBits(bytes) + ToBits(buffer, bits)
  {
    hide *;
    AppendByte(bytes, buffer % 256);
    ShiftByte(buffer / 256, bits);
    ToBitsConcat(buffer % 256, 8, buffer / 256, bits - 8);
    ConcatAssociative(BytesToBits(bytes), ToBits(buffer % 256, 8), ToBits(buffer / 256, bits - 8));
  }

  lemma AppendByte(bytes: seq<Byte>, byte: Byte)
    ensures BytesToBits(bytes + [byte]) == BytesToBits(bytes) + ToBits(byte, 8)
  {
    var longer := bytes + [byte];
    assert longer[..|longer| - 1] == bytes;
  }

  lemma LastByte(bytes: seq<Byte>, buffer: nat, bits: nat)
    requires 0 < bits < 8 && buffer < Pow2(bits)
    ensures buffer % 256 == buffer
    ensures BytesToBits(bytes + [buffer]) == BytesToBits(bytes) + ToBits(buffer, bits) + Zeros(8 - bits)
  {
    hide *;
    ShiftByte(0, 8);
    Pow2Monotone(bits, 8);
    AppendByte(bytes, buffer);
    ToBitsConcat(buffer, bits, 0, 8 - bits);
    ShiftZero(bits);
    ToBitsZero(8 - bits);
    ConcatAssociative(BytesToBits(bytes), ToBits(buffer, bits), Zeros(8 - bits));
  }

  lemma ReservedCodesFit(m: nat, width: nat)
    requires m < width <= MAX_WIDTH
    ensures EndCode(m) < Pow2(width) || m == 0
    ensures Pow2(width) == MAX_CODES <==> width == MAX_WIDTH
    ensures Pow2(width + 1) == 2 * Pow2(width)
  {
    Pow2Monotone(m + 1, width);
    Pow2Monotone(width, MAX_WIDTH);
    assert Pow2(12) == 4096 && Pow2(11) == 2048;
    if width < MAX_WIDTH {
      Pow2Monotone(width, 11);
    }
    Pow2Monotone(0, m);
  }

  /** The dictionary key for a phrase, given by its code, followed by an index. */
  function KeyOf(code: nat, next: nat): nat {
    code * 256 + next
  }

  lemma KeyOfInjective(code: nat, next: nat, code': nat, next': nat)
    requires next < 256 && next' < 256 && KeyOf(code, next) == KeyOf(code', next')
    ensures code == code' && next == next'
  {
  }

  /** Every dictionary entry gives the code of the phrase that its key describes. */
  ghost predicate DictionarySound(m: nat, dictionary: map<nat, nat>, grown: seq<Phrase>) {
    forall code: nat, next: nat | next < 256 && KeyOf(code, next) in dictionary ::
      && IsDataCode(m, grown, code) && IsDataCode(m, grown, dictionary[KeyOf(code, next)])
      && PhraseOf(m, grown, dictionary[KeyOf(code, next)]) == PhraseOf(m, grown, code) + [next]
  }

  lemma DictionaryGrows(m: nat, dictionary: map<nat, nat>, grown: seq<Phrase>, code: nat, next: nat)
    requires DictionarySound(m, dictionary, grown) && IsDataCode(m, grown, code) && next < 256
    ensures DictionarySound(m, dictionary[KeyOf(code, next) := NextCode(m, grown)], grown + [PhraseOf(m, grown, code) + [next]])
  {
    var bigger := grown + [PhraseOf(m, grown, code) + [next]];
    var dictionary' := dictionary[KeyOf(code, next) := NextCode(m, grown)];
    forall code': nat, next': nat | next' < 256 && KeyOf(code', next') in dictionary'
      ensures IsDataCode(m, bigger, code') && IsDataCode(m, bigger, dictionary'[KeyOf(code', next')])
      ensures PhraseOf(m, bigger, dictionary'[KeyOf(code', next')]) == PhraseOf(m, bigger, code') + [next']
    {
      if KeyOf(code', next') == KeyOf(code, next) {
        KeyOfInjective(code, next, code', next');
      }
    }
  }

  /** Writing the code of `pending` in the coder's width: the decoder outputs `pending`, and its
      table and width are then the coder's. */
  lemma EmitPhrase(m: nat, stream: seq<bool>, d: Decoder, grown: seq<Phrase>, pending: Phrase, code: nat)
    requires ValidMinCodeSize(m) && Leads(m, stream, d)
    requires InStep(m, d, grown, pending) && WidthFits(m, grown, d.width)
    requires IsDataCode(m, grown, code) && PhraseOf(m, grown, code) == pending
    ensures code < Pow2(d.width)
    ensures Leads(m, stream + ToBits(code, d.width), Decoder(WidthAfter(m, grown, d.width), grown, pending, d.output + pending))
  {
    ReadPending(m, d, grown, pending, code);
    RunStep(m, Start(m), stream, d, code);
  }

  lemma EmitClear(m: nat, stream: seq<bool>, d: Decoder)
    requires Leads(m, stream, d) && m < d.width <= MAX_WIDTH && m > 0
    ensures ClearCode(m) < Pow2(d.width)
    ensures Leads(m, stream + ToBits(ClearCode(m), d.width), Decoder(m + 1, [], [], d.output))
  {
    ReservedCodesFit(m, d.width);
    RunStep(m, Start(m), stream, d, ClearCode(m));
  }

  /** After the end code and the padding of the last byte, decoding has produced the output. */
  lemma DecodeFinished(m: nat, bytes: seq<Byte>, data: seq<bool>, stream: seq<bool>, d: Decoder, width: nat, padding: nat)
    requires Leads(m, data, d)
    requires m < width <= MAX_WIDTH && m > 0 && (d.width == width || d.width == width + 1)
    requires stream == data + ToBits(EndCode(m), width) && BytesToBits(bytes) == stream + Zeros(padding)
    ensures Decode(m, bytes) == Some(d.output)
  {
    ReservedCodesFit(m, width);
    EndStops(m, d, width, padding);
    hide DecodeBits, Run, ToBits, Zeros, BytesToBits, Pow2;
    ConcatAssociative(data, ToBits(EndCode(m), width), Zeros(padding));
    DecodeAfterRun(m, Start(m), data, d, ToBits(EndCode(m), width) + Zeros(padding));
  }

  /** What holds whenever the coder looks at the next index: `input[..start]` has been emitted,
      and `code` stands for the pending phrase `input[start..index]`. */
  ghost predicate Coding(m: nat, input: seq<nat>, start: nat, index: nat, d: Decoder, grown: seq<Phrase>, code: nat) {
    && start < index <= |input|
    && d.output == input[..start]
    && InStep(m, d, grown, input[start..index]) && WidthFits(m, grown, d.width)
    && IsDataCode(m, grown, code) && PhraseOf(m, grown, code) == input[start..index]
  }

  /** The decoder once the pending phrase has been emitted. */
  function Emitted(m: nat, input: seq<nat>, start: nat, index: nat, d: Decoder, grown: seq<Phrase>): Decoder
    requires start < index <= |input|
  {
    Decoder(WidthAfter(m, grown, d.width), grown, input[start..index], d.output + input[start..index])
  }

  lemma CodingStarts(m: nat, input: seq<nat>)
    requires ValidMinCodeSize(m) && input != [] && input[0] < ClearCode(m)
    ensures Coding(m, input, 0, 1, Start(m), [], input[0])
  {
    InitialWidthFits(m);
    assert input[0..1] == [input[0]];
  }

  lemma CodingExtends(m: nat, input: seq<nat>, start: nat, index: nat, d: Decoder, grown: seq<Phrase>,
                      dictionary: map<nat, nat>, code: nat)
    requires Coding(m, input, start, index, d, grown, code) && DictionarySound(m, dictionary, grown)
    requires index < |input| && input[index] < 256 && KeyOf(code, input[index]) in dictionary
    ensures Coding(m, input, start, index + 1, d, grown, dictionary[KeyOf(code, input[index])])
  {
    assert input[start..index + 1] == input[start..index] + [input[index]];
  }

  lemma CodingEmits(m: nat, input: seq<nat>, start: nat, index: nat, stream: seq<bool>, d: Decoder, grown: seq<Phrase>, code: nat)
    requires ValidMinCodeSize(m) && Coding(m, input, start, index, d, grown, code) && Leads(m, stream, d)
    ensures code < Pow2(d.width) && d.width <= MAX_WIDTH
    ensures IsDataCode(m, grown, code) && PhraseOf(m, grown, code) == input[start..index]
    ensures Leads(m, stream + ToBits(code, d.width), Emitted(m, input, start, index, d, grown))
    ensures Emitted(m, input, start, index, d, grown).output == input[..index]
    ensures index == |input| ==> Emitted(m, input, start, index, d, grown).output == input
    ensures m < Emitted(m, input, start, index, d, grown).width <= MAX_WIDTH && NextCode(m, grown) <= MAX_CODES
    ensures NextCode(m, grown) == MAX_CODES ==> Emitted(m, input, start, index, d, grown).width == d.width
  {
    hide Run, ToBits, Pow2, Leads;
    GrownWidthFits(m, grown, d.width);
    EmitPhrase(m, stream, d, grown, input[start..index], code);
    assert input[..index] == input[..start] + input[start..index];
    assert index == |input| ==> input[..index] == input;
  }

  lemma CodingLearns(m: nat, input: seq<nat>, start: nat, index: nat, d: Decoder, grown: seq<Phrase>, code: nat)
    returns (d': Decoder, grown': seq<Phrase>)
    requires ValidMinCodeSize(m) && Coding(m, input, start, index, d, grown, code)
    requires index < |input| && input[index] < ClearCode(m) && NextCode(m, grown) < MAX_CODES
    ensures d' == Emitted(m, input, start, index, d, grown)
    ensures grown' == grown + [PhraseOf(m, grown, code) + [input[index]]]
    ensures Coding(m, input, index, index + 1, d', grown', input[index])
    ensures d'.width == if NextCode(m, grown') > Pow2(d.width) && d.width < MAX_WIDTH then d.width + 1 else d.width
  {
    GrownWidthFits(m, grown, d.width);
    assert input[..index] == input[..start] + input[start..index];
    assert input[index..index + 1] == [input[index]];
    d', grown' := Emitted(m, input, start, index, d, grown), grown + [input[start..index] + [input[index]]];
  }

  lemma CodingClears(m: nat, input: seq<nat>, index: nat)
    requires ValidMinCodeSize(m) && 0 < index < |input| && input[index] < ClearCode(m)
    ensures DictionarySound(m, map[], [])
    ensures Coding(m, input, index, index + 1, Start(m).(output := input[..index]), [], input[index])
  {
    InitialWidthFits(m);
    assert input[index..index + 1] == [input[index]];
  }

  lemma InitialWidthFits(m: nat)
    requires ValidMinCodeSize(m)
    ensures WidthFits(m, [], m + 1) && NextCode(m, []) <= MAX_CODES
    ensures ClearCode(m) >= 4
  {
    Pow2Monotone(2, m);
    Pow2Monotone(m, 11);
    assert Pow2(2) == 4 && Pow2(11) == 2048;
  }

  lemma GrownWidthFits(m: nat, grown: seq<Phrase>, width: nat)
    requires m > 0 && WidthFits(m, grown, width) && NextCode(m, grown) <= MAX_CODES
    ensures NextCode(m, grown) == MAX_CODES ==> WidthAfter(m, grown, width) == width
    ensures NextCode(m, grown) < MAX_CODES ==> NextCode(m, grown) + 1 <= Pow2(WidthAfter(m, grown, width))
  {
    ReservedCodesFit(m, width);
  }

  /** The variables of the coder, and its `write` and `reset` closures. The ghost fields follow
      the decoder: its state after the bits written so far, and the phrases of the dictionary. */
  class Coder {
    const m: nat
    var bytes: seq<Byte>
    var buffer: nat
    var bits: nat
    var dictionary: map<nat, nat>
    var codeSize: nat
    var nextCode: nat
    ghost var d: Decoder
    ghost var grown: seq<Phrase>

    /** Everything written so far: the finished bytes, then the bits still in the buffer. */
    ghost function Stream(): seq<bool>
      reads this
    {
      BytesToBits(bytes) + ToBits(buffer, bits)
    }

    ghost predicate Valid()
      reads this
    {
      && ValidMinCodeSize(m) && bits < 8 && buffer < Pow2(bits)
      && Leads(m, Stream(), d) && codeSize == d.width && codeSize <= MAX_WIDTH
      && DictionarySound(m, dictionary, grown) && nextCode == NextCode(m, grown)
    }

    constructor (m: nat)
      requires ValidMinCodeSize(m)
      ensures Valid() && Stream() == [] && this.m == m
      ensures d == Start(m) && grown == []
    {
      this.m := m;
      bytes, buffer, bits := [], 0, 0;
      dictionary, codeSize, nextCode := map[], m + 1, EndCode(m) + 1;
      d, grown := Start(m), [];
    }

    /** The buffered bits lie below `bits`, so or-ing in the shifted code is an addition; the
        buffer never holds more than nineteen bits. */
    method Write(code: nat)
      requires bits < 8 && buffer < Pow2(bits) && codeSize <= MAX_WIDTH && code < Pow2(codeSize)
      modifies this`bytes, this`buffer, this`bits
      ensures bits < 8 && buffer < Pow2(bits)
      ensures Stream() == old(Stream()) + ToBits(code, codeSize)
    {
      hide ToBits, BytesToBits, Pow2, ShiftLeft;
      PackCode(bytes, buffer, bits, code, codeSize);
      buffer := buffer + ShiftLeft(code, bits);
      bits := bits + codeSize;
      assert bits <= 19 && buffer < Pow2(bits);
      while bits >= 8
        invariant bits <= 19 && buffer < Pow2(bits)
        invariant Stream() == old(Stream()) + ToBits(code, codeSize)
      {
        FlushByte(bytes, buffer, bits);
        bytes := bytes + [buffer % 256];
        buffer := buffer / 256;
        bits := bits - 8;
      }
    }

    /** The stream opens with a clear code. */
    method Begin(ghost input: seq<nat>)
      requires Valid() && Stream() == [] && d == Start(m) && grown == []
      requires input != [] && input[0] < ClearCode(m)
      modifies this`bytes, this`buffer, this`bits
      ensures Valid() && Coding(m, input, 0, 1, d, grown, input[0]) && |Stream()| <= 24
    {
      hide Run, ToBits, BytesToBits, Pow2;
      EmitClear(m, Stream(), Start(m));
      CodingStarts(m, input);
      Write(ClearCode(m));
    }

    method Reset()
      modifies this`dictionary, this`codeSize, this`nextCode, this`grown
      ensures dictionary == map[] && codeSize == m + 1 && nextCode == EndCode(m) + 1 && grown == []
    {
      dictionary, codeSize, nextCode := map[], m + 1, EndCode(m) + 1;
      grown := [];
    }

    /** The pending phrase cannot be extended by `next`: its code is written, and either the
        longer phrase is learned or, when all codes are taken, everything starts afresh. */
    method EmitPending(code: nat, ghost input: seq<nat>, ghost start: nat, ghost index: nat, next: nat)
      requires Valid() && Coding(m, input, start, index, d, grown, code)
      requires index < |input| && next == input[index] && next < 256 && next < ClearCode(m)
      modifies this
      ensures Valid() && Coding(m, input, index, index + 1, d, grown, next)
      ensures |Stream()| <= |old(Stream())| + 24
    {
      hide Run, ToBits, BytesToBits, Pow2;
      CodingEmits(m, input, start, index, Stream(), d, grown, code);
      Write(code);
      if nextCode < MAX_CODES {
        Learn(code, input, start, index, next);
      } else {
        Restart(input, start, index);
      }
    }

    method Learn(code: nat, ghost input: seq<nat>, ghost start: nat, ghost index: nat, next: nat)
      requires ValidMinCodeSize(m) && bits < 8 && buffer < Pow2(bits)
      requires Coding(m, input, start, index, d, grown, code) && Leads(m, Stream(), Emitted(m, input, start, index, d, grown))
      requires DictionarySound(m, dictionary, grown) && nextCode == NextCode(m, grown) < MAX_CODES && codeSize == d.width
      requires index < |input| && next == input[index] && next < 256 && next < ClearCode(m)
      modifies this`dictionary, this`nextCode, this`codeSize, this`d, this`grown
      ensures Valid() && Coding(m, input, index, index + 1, d, grown, next)
      ensures dictionary == old(dictionary)[KeyOf(code, next) := old(nextCode)] && nextCode == old(nextCode) + 1
    {
      hide Run, ToBits, BytesToBits, Pow2;
      DictionaryGrows(m, dictionary, grown, code, next);
      dictionary := dictionary[KeyOf(code, next) := nextCode];
      d, grown := CodingLearns(m, input, start, index, d, grown, code);
      nextCode := nextCode + 1;
      if nextCode > Pow2(codeSize) && codeSize < MAX_WIDTH {
        codeSize := codeSize + 1;
      }
    }

    method Restart(ghost input: seq<nat>, ghost start: nat, ghost index: nat)
      requires ValidMinCodeSize(m) && bits < 8 && buffer < Pow2(bits) && start < index < |input| && input[index] < ClearCode(m)
      requires Leads(m, Stream(), Emitted(m, input, start, index, d, grown))
      requires Emitted(m, input, start, index, d, grown).output == input[..index]
      requires codeSize == Emitted(m, input, start, index, d, grown).width && m < codeSize <= MAX_WIDTH
      modifies this
      ensures Valid() && Coding(m, input, index, index + 1, d, grown, input[index])
      ensures |Stream()| <= |old(Stream())| + 12
    {
      hide Run, ToBits, BytesToBits, Pow2, Emitted;
      CodingClears(m, input, index);
      EmitClear(m, Stream(), Emitted(m, input, start, index, d, grown));
      Write(ClearCode(m));
      Reset();
      d := Start(m).(output := input[..index]);
    }

    /** The last pending phrase, the end code, and the last, partly filled byte. */
    method Finish(code: nat, ghost input: seq<nat>, ghost start: nat)
      requires Valid() && Coding(m, input, start, |input|, d, grown, code)
      modifies this
      ensures Decode(m, bytes) == Some(input)
      ensures 8 * |bytes| <= |old(Stream())| + 32
    {
      hide ToBits, BytesToBits, Run, Pow2, Zeros, DecodeBits;
      CodingEmits(m, input, start, |input|, Stream(), d, grown, code);
      Write(code);
      ReservedCodesFit(m, codeSize);
      ghost var data := Stream();
      Write(EndCode(m));
      ghost var stream, padding := Stream(), 0;
      if bits > 0 {
        LastByte(bytes, buffer, bits);
        padding := 8 - bits;
        bytes := bytes + [buffer % 256];
      }
      assert BytesToBits(bytes) == stream + Zeros(padding);
      DecodeFinished(m, bytes, data, stream, Emitted(m, input, start, |input|, d, grown), codeSize, padding);
    }
  }

  /** The coder. For every non-empty input the prescribed decoder gives the input back; the
      empty input is coded as if it were a single index 0. */
  method Encode(indices: seq<nat>, m: nat) returns (bytes: seq<Byte>)
    requires ValidMinCodeSize(m)
    requires forall i :: 0 <= i < |indices| ==> indices[i] < 256 && indices[i] < ClearCode(m)
    ensures Decode(m, bytes) == Some(if indices == [] then [0] else indices)
    ensures |bytes| <= 3 * |indices| + 8
  {
    hide Run, ToBits, BytesToBits, Pow2, Decode, Leads, DictionarySound, InStep, WidthFits, Coding;
    ghost var input := if indices == [] then [0] else indices;
    var coder := new Coder(m);
    coder.Begin(input);
    var code := if |indices| > 0 then indices[0] else 0;
    ghost var start := 0;
    var index := 1;
    while index < |indices|
      invariant 1 <= index <= |input|
      invariant coder.Valid() && coder.m == m && fresh(coder)
      invariant Coding(m, input, start, index, coder.d, coder.grown, code)
      invariant |coder.Stream()| <= 24 * index
    {
      var next := indices[index];
      var key := KeyOf(code, next);
      if key in coder.dictionary {
        CodingExtends(m, input, start, index, coder.d, coder.grown, coder.dictionary, code);
        code := coder.dictionary[key];
      } else {
        coder.EmitPending(code, input, start, index, next);
        code := next;
        start := index;
      }
      index := index + 1;
    }
    coder.Finish(code, input, start);
    bytes := coder.bytes;
  }
}
