/** Which files the WAV parser accepts, and what it reports of them. */
module WavAcceptance {
  import opened Wrappers
  import opened ByteCodec
  import opened Wav

  /** Any chunk, with the byte that pads an odd body. */
  datatype Chunk = Chunk(tag: Bytes, body: Bytes, pad: byte) {
    function Raw(): Bytes {
      tag + (LittleEndian(|body|, 4) + (body + if |body| % 2 == 1 then [pad] else []))
    }
  }

  predicate Other(c: Chunk) {
    |c.tag| == 4 && c.tag != FMT && c.tag != DATA && |c.body| <= U32_MAX
  }

  function RawAll(cs: seq<Chunk>): Bytes {
    if cs == [] then [] else cs[0].Raw() + RawAll(cs[1..])
  }

  predicate Others(cs: seq<Chunk>) {
    forall i {:trigger cs[i]} :: 0 <= i < |cs| ==> Other(cs[i])
  }

  /** The fields of a fmt chunk, in their order, and whatever extension follows them. */
  datatype Format = Format(
    tag: nat, channels: nat, rate: nat, byteRate: nat, block: nat, bits: nat, extension: Bytes)
  {
    function Fields(): Bytes {
      LittleEndian(tag, 2) + (LittleEndian(channels, 2) + (LittleEndian(rate, 4)
      + (LittleEndian(byteRate, 4) + (LittleEndian(block, 2) + LittleEndian(bits, 2)))))
    }

    function Body(): Bytes {
      Fields() + extension
    }
  }

  predicate Encodable(f: Format) {
    && f.tag < 0x1_0000 && f.channels < 0x1_0000 && f.rate < 0x1_0000_0000
    && f.byteRate < 0x1_0000_0000 && f.block < 0x1_0000 && f.bits < 0x1_0000
    && 16 + |f.extension| <= U32_MAX
  }

  /** Uncompressed integers of 16 or 32 bits or floats of 32 bits, at least one channel,
      and a rate that is positive as a signed number. */
  predicate Playable(f: Format) {
    && ((f.tag == 1 && (f.bits == 16 || f.bits == 32)) || (f.tag == 3 && f.bits == 32))
    && f.channels >= 1 && 0 < f.rate < 0x8000_0000
  }

  function Report(f: Format, offset: nat, size: nat): Option<WavInfo> {
    if Playable(f) then Some(WavInfo(f.rate, f.channels, f.bits, f.tag == 3, offset, size)) else None
  }

  // ----- Reading a fmt chunk --------------------------------------------------------------

  /** The sixteen bytes are read as the fields they were made of. */
  lemma FmtRead(data: Bytes, pos: nat, f: Format)
    requires Encodable(f) && Holds(data, pos, f.Fields())
    ensures pos + 16 <= |data|
    ensures FmtAt(data, pos)
         == Fmt(f.tag, f.channels, if f.rate < 0x8000_0000 then f.rate else f.rate - 0x1_0000_0000, f.bits)
  {
    hide LittleEndian, FromLittleEndian, Pow256;
    Pow256Values();
    var tag, channels, rate := LittleEndian(f.tag, 2), LittleEndian(f.channels, 2), LittleEndian(f.rate, 4);
    var byteRate, block, bits := LittleEndian(f.byteRate, 4), LittleEndian(f.block, 2), LittleEndian(f.bits, 2);
    HoldsParts(data, pos, tag, channels + (rate + (byteRate + (block + bits))));
    HoldsParts(data, pos + 2, channels, rate + (byteRate + (block + bits)));
    HoldsParts(data, pos + 4, rate, byteRate + (block + bits));
    HoldsParts(data, pos + 8, byteRate, block + bits);
    HoldsParts(data, pos + 12, block, bits);
    NumberAt(data, pos, f.tag, 2);
    NumberAt(data, pos + 2, f.channels, 2);
    NumberAt(data, pos + 4, f.rate, 4);
    NumberAt(data, pos + 14, f.bits, 2);
  }

  lemma Reported(f: Format, offset: nat, size: nat)
    ensures Checked(Fmt(f.tag, f.channels, if f.rate < 0x8000_0000 then f.rate else f.rate - 0x1_0000_0000, f.bits),
                    Range(offset, size))
         == if f.rate < 0x1_0000_0000 then Report(f, offset, size)
            else Checked(Fmt(f.tag, f.channels, f.rate - 0x1_0000_0000, f.bits), Range(offset, size))
  {}

  // ----- Walking the chunks ------------------------------------------------------------------

  /** Tag and size at the start of a chunk. */
  lemma ChunkStart(data: Bytes, pos: nat, tag: Bytes, size: nat)
    requires |tag| == 4 && size <= U32_MAX && Holds(data, pos, tag + LittleEndian(size, 4))
    ensures pos + 8 <= |data| && data[pos..pos + 4] == tag && U32At(data, pos + 4) == size
  {
    hide LittleEndian, FromLittleEndian, Pow256;
    Pow256Values();
    HoldsParts(data, pos, tag, LittleEndian(size, 4));
    NumberAt(data, pos + 4, size, 4);
  }

  /** One step over a chunk of another kind, and over a fmt or a data chunk. */
  lemma Walk(data: Bytes, pos: nat, size: nat, fmt: Option<Fmt>, range: Option<Range>)
    requires pos + 8 <= |data| && U32At(data, pos + 4) == size && pos + 8 + size + size % 2 <= |data|
    requires fmt.None? || range.None?
    requires range.Some? ==> range.value.offset + range.value.size <= |data|
    ensures var next := pos + 8 + size + size % 2;
            && (!IsTag(data, pos, FMT) && !IsTag(data, pos, DATA) ==>
                  Scan(data, pos, fmt, range) == Scan(data, next, fmt, range))
            && (IsTag(data, pos, FMT) && size >= 16 && range.None? ==>
                  Scan(data, pos, fmt, range) == Scan(data, next, Some(FmtAt(data, pos + 8)), range))
            && (!IsTag(data, pos, FMT) && IsTag(data, pos, DATA) && fmt.None? ==>
                  Scan(data, pos, fmt, range) == Scan(data, next, fmt, Some(Range(pos + 8, size))))
            && (IsTag(data, pos, FMT) && size >= 16 && range.Some? ==>
                  Scan(data, pos, fmt, range) == Some((FmtAt(data, pos + 8), range.value)))
  {
    hide U32At, FmtAt, IsTag;
  }

  /** A chunk of another kind is skipped with its padding. */
  lemma OtherSkipped(data: Bytes, pos: nat, c: Chunk, fmt: Option<Fmt>, range: Option<Range>)
    requires Other(c) && Holds(data, pos, c.Raw()) && (fmt.None? || range.None?)
    requires range.Some? ==> range.value.offset + range.value.size <= |data|
    ensures pos + |c.Raw()| <= |data|
    ensures Scan(data, pos, fmt, range) == Scan(data, pos + |c.Raw()|, fmt, range)
  {
    hide LittleEndian, U32At, Scan;
    RawHolds(data, pos, c);
    ChunkStart(data, pos, c.tag, |c.body|);
    Walk(data, pos, |c.body|, fmt, range);
  }

  /** What a chunk begins with, and where it ends. */
  lemma RawHolds(data: Bytes, pos: nat, c: Chunk)
    requires |c.tag| == 4 && Holds(data, pos, c.Raw())
    ensures |c.Raw()| == 8 + |c.body| + |c.body| % 2 && pos + |c.Raw()| <= |data|
    ensures Holds(data, pos, c.tag + LittleEndian(|c.body|, 4)) && Holds(data, pos + 8, c.body)
  {
    hide LittleEndian;
    var pad := if |c.body| % 2 == 1 then [c.pad] else [];
    var head := c.tag + LittleEndian(|c.body|, 4);
    assert c.Raw() == head + (c.body + pad);
    assert |head| == 8 && |pad| == |c.body| % 2;
    HoldsParts(data, pos, head, c.body + pad);
    HoldsParts(data, pos + 8, c.body, pad);
  }

  lemma {:induction false} OthersSkipped(data: Bytes, pos: nat, cs: seq<Chunk>, fmt: Option<Fmt>, range: Option<Range>)
    requires pos <= |data| && Others(cs) && Holds(data, pos, RawAll(cs)) && (fmt.None? || range.None?)
    requires range.Some? ==> range.value.offset + range.value.size <= |data|
    ensures pos + |RawAll(cs)| <= |data|
    ensures Scan(data, pos, fmt, range) == Scan(data, pos + |RawAll(cs)|, fmt, range)
    decreases |cs|
  {
    hide Scan, Holds;
    hide Chunk.Raw;
    if cs != [] {
      HoldsParts(data, pos, cs[0].Raw(), RawAll(cs[1..]));
      OtherSkipped(data, pos, cs[0], fmt, range);
      OthersSkipped(data, pos + |cs[0].Raw()|, cs[1..], fmt, range);
    }
  }

  function FmtChunk(f: Format, pad: byte): Chunk {
    Chunk(FMT, f.Body(), pad)
  }

  lemma FmtStep(data: Bytes, pos: nat, f: Format, pad: byte)
    requires Encodable(f) && Holds(data, pos, FmtChunk(f, pad).Raw())
    ensures var next := pos + |FmtChunk(f, pad).Raw()|;
            && pos + 24 <= |data| && next <= |data|
            && Scan(data, pos, None, None) == Scan(data, next, Some(FmtAt(data, pos + 8)), None)
            && Holds(data, pos + 8, f.Fields())
  {
    hide LittleEndian, FmtAt, U32At, Scan;
    FmtStart(data, pos, f, pad);
    Walk(data, pos, |f.Body()|, None, None);
  }

  lemma FmtStart(data: Bytes, pos: nat, f: Format, pad: byte)
    requires Encodable(f) && Holds(data, pos, FmtChunk(f, pad).Raw())
    ensures var size := |f.Body()|;
            && size >= 16 && |FmtChunk(f, pad).Raw()| == 8 + size + size % 2
            && pos + 8 + size + size % 2 <= |data|
            && IsTag(data, pos, FMT) && U32At(data, pos + 4) == size
            && Holds(data, pos + 8, f.Fields())
  {
    hide LittleEndian, U32At;
    hide Format.Fields, Chunk.Raw;
    FieldsLength(f);
    var c := FmtChunk(f, pad);
    RawHolds(data, pos, c);
    HoldsParts(data, pos + 8, f.Fields(), f.extension);
    ChunkStart(data, pos, FMT, |c.body|);
  }

  /** A fmt chunk behind a data chunk ends the walk. */
  lemma {:induction false} FmtLast(data: Bytes, pos: nat, f: Format, pad: byte, range: Range)
    requires Encodable(f) && Holds(data, pos, FmtChunk(f, pad).Raw())
    requires range.offset + range.size <= |data|
    ensures pos + 24 <= |data| && Holds(data, pos + 8, f.Fields())
    ensures Scan(data, pos, None, Some(range)) == Some((FmtAt(data, pos + 8), range))
  {
    hide LittleEndian, FmtAt, U32At, Scan;
    FmtStart(data, pos, f, pad);
    Walk(data, pos, |f.Body()|, None, Some(range));
  }

  lemma FieldsLength(f: Format)
    ensures |f.Fields()| == 16
  {}

  /** The data chunk ends the walk; what it claims is cut down to what is there. */
  lemma DataStep(data: Bytes, pos: nat, size: nat, fmt: Fmt)
    requires size <= U32_MAX && Holds(data, pos, DATA + LittleEndian(size, 4))
    ensures var there := |data| - (pos + 8);
            there >= 0 && Scan(data, pos, Some(fmt), None)
                            == Some((fmt, Range(pos + 8, if size > there then there else size)))
  {
    hide LittleEndian, U32At;
    ChunkStart(data, pos, DATA, size);
    assert DATA[0] != FMT[0];
  }

  // ----- Whole files ------------------------------------------------------------------------

  /** A fmt chunk and a data chunk, with other chunks before and between; behind the data
      chunk's size comes whatever is left of the file. */
  datatype File = File(
    riffSize: nat, before: seq<Chunk>, format: Format, pad: byte, between: seq<Chunk>, dataSize: nat, rest: Bytes)
  {
    function Lead(): Bytes {
      RIFF + (LittleEndian(riffSize, 4) + WAVE)
    }

    function Front(): Bytes {
      Lead() + (RawAll(before) + (FmtChunk(format, pad).Raw() + RawAll(between)))
    }

    function Raw(): Bytes {
      Front() + ((DATA + LittleEndian(dataSize, 4)) + rest)
    }
  }

  lemma LeadRead(data: Bytes, f: File)
    requires Holds(data, 0, f.Lead())
    ensures |data| >= 12 && IsTag(data, 0, RIFF) && IsTag(data, 8, WAVE)
  {
    hide LittleEndian;
    HoldsParts(data, 0, RIFF, LittleEndian(f.riffSize, 4) + WAVE);
    HoldsParts(data, 4, LittleEndian(f.riffSize, 4), WAVE);
  }

  /** Such a file is accepted exactly when its format is playable, and then with the
      values of its fields and the data that is there. */
  lemma AcceptedExactly(f: File)
    requires Others(f.before) && Others(f.between) && Encodable(f.format) && f.dataSize <= U32_MAX
    ensures Parse(f.Raw())
         == Report(f.format, |f.Front()| + 8, if f.dataSize > |f.rest| then |f.rest| else f.dataSize)
  {
    hide LittleEndian, Scan, FmtAt, Checked, IsTag, RawAll;
    hide Chunk.Raw, File.Lead, Format.Fields;
    var data := f.Raw();
    var claim := DATA + LittleEndian(f.dataSize, 4);
    var fmt, between := FmtChunk(f.format, f.pad).Raw(), RawAll(f.between);
    assert Holds(data, 0, f.Front() + (claim + f.rest));
    HoldsParts(data, 0, f.Front(), claim + f.rest);
    HoldsParts(data, |f.Front()|, claim, f.rest);
    HoldsParts(data, 0, f.Lead(), RawAll(f.before) + (fmt + between));
    LeadRead(data, f);
    LeadLength(f);
    HoldsParts(data, 12, RawAll(f.before), fmt + between);
    var p := 12 + |RawAll(f.before)|;
    HoldsParts(data, p, fmt, between);
    OthersSkipped(data, 12, f.before, None, None);
    FmtStep(data, p, f.format, f.pad);
    FmtRead(data, p + 8, f.format);
    OthersSkipped(data, p + |fmt|, f.between, Some(FmtAt(data, p + 8)), None);
    DataStep(data, |f.Front()|, f.dataSize, FmtAt(data, p + 8));
    Reported(f.format, |f.Front()| + 8, if f.dataSize > |f.rest| then |f.rest| else f.dataSize);
  }

  lemma LeadLength(f: File)
    ensures |f.Lead()| == 12
  {}

  /** The other order: a whole data chunk, and the fmt chunk behind it. */
  function Reversed(f: File, payload: Bytes, padding: byte): Bytes {
    f.Lead() + (RawAll(f.before) + (Chunk(DATA, payload, padding).Raw()
    + (RawAll(f.between) + (FmtChunk(f.format, f.pad).Raw() + f.rest))))
  }

  /** It makes no difference, but nothing is cut down. */
  lemma ReversedAccepted(f: File, payload: Bytes, padding: byte)
    requires Others(f.before) && Others(f.between) && Encodable(f.format) && |payload| <= U32_MAX
    ensures Parse(Reversed(f, payload, padding))
         == Report(f.format, |f.Lead()| + |RawAll(f.before)| + 8, |payload|)
  {
    hide LittleEndian, Scan, FmtAt, Checked, IsTag, RawAll, U32At;
    hide Chunk.Raw, File.Lead, Format.Fields;
    var data := Reversed(f, payload, padding);
    var chunk, between, fmt := Chunk(DATA, payload, padding), RawAll(f.between), FmtChunk(f.format, f.pad).Raw();
    var tail := between + (fmt + f.rest);
    assert Holds(data, 0, f.Lead() + (RawAll(f.before) + (chunk.Raw() + tail)));
    HoldsParts(data, 0, f.Lead(), RawAll(f.before) + (chunk.Raw() + tail));
    LeadRead(data, f);
    LeadLength(f);
    HoldsParts(data, 12, RawAll(f.before), chunk.Raw() + tail);
    var p := 12 + |RawAll(f.before)|;
    OthersSkipped(data, 12, f.before, None, None);
    HoldsParts(data, p, chunk.Raw(), tail);
    DataSkipped(data, p, chunk);
    var q, range := p + |chunk.Raw()|, Range(p + 8, |payload|);
    HoldsParts(data, q, between, fmt + f.rest);
    OthersSkipped(data, q, f.between, None, Some(range));
    var r := q + |between|;
    HoldsParts(data, r, fmt, f.rest);
    FmtLast(data, r, f.format, f.pad, range);
    FmtRead(data, r + 8, f.format);
    Reported(f.format, p + 8, |payload|);
  }

  lemma DataSkipped(data: Bytes, pos: nat, c: Chunk)
    requires c.tag == DATA && |c.body| <= U32_MAX && Holds(data, pos, c.Raw())
    ensures pos + |c.Raw()| <= |data| && pos + 8 + |c.body| <= |data|
    ensures Scan(data, pos, None, None) == Scan(data, pos + |c.Raw()|, None, Some(Range(pos + 8, |c.body|)))
  {
    hide LittleEndian, U32At, Scan;
    hide Chunk.Raw;
    RawHolds(data, pos, c);
    ChunkStart(data, pos, DATA, |c.body|);
    assert DATA[0] != FMT[0];
    Walk(data, pos, |c.body|, None, None);
  }
}
