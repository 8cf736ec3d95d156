/** RIFF/WAVE files: what the writer lays out and the parser finds in it. */
module Wav {
  import opened Wrappers
  import opened ByteCodec
  import opened SampleConversion

  const U32_MAX: nat := 0xFFFF_FFFF

  const RIFF: Bytes := [0x52, 0x49, 0x46, 0x46]
  const WAVE: Bytes := [0x57, 0x41, 0x56, 0x45]
  const FMT: Bytes := [0x66, 0x6D, 0x74, 0x20]
  const DATA: Bytes := [0x64, 0x61, 0x74, 0x61]

  datatype WavInfo = WavInfo(
    sampleRate: int, channels: nat, bitsPerSample: nat, isFloat: bool, dataOffset: nat, dataSize: nat)

  // ----- What a file is ---------------------------------------------------------------

  /** The two's complement bytes of a 16-bit sample. */
  function S16(v: int): (b: Bytes)
    ensures |b| == 2
  {
    LittleEndian(v % 0x1_0000, 2)
  }

  /** Every sample, converted and stored in order. */
  function Payload(value: Float32 -> Option<real>, samples: seq<Float32>): (b: Bytes)
    ensures |b| == 2 * |samples|
  {
    if samples == [] then []
    else Payload(value, samples[..|samples| - 1]) + S16(ToS16(value(samples[|samples| - 1])))
  }

  /** The bytes from `offset` on are these numbers as signed 16-bit samples. */
  ghost predicate HoldsSamples(data: Bytes, offset: nat, numbers: seq<int>) {
    && offset + 2 * |numbers| == |data|
    && forall k {:trigger numbers[k]} :: 0 <= k < |numbers| ==>
         var u := data[offset + 2 * k] as int + 0x100 * data[offset + 2 * k + 1] as int;
         numbers[k] == if u >= 0x8000 then u - 0x1_0000 else u
  }

  function Converted(value: Float32 -> Option<real>, samples: seq<Float32>): (numbers: seq<int>)
    ensures |numbers| == |samples|
    ensures forall k {:trigger numbers[k]} :: 0 <= k < |samples| ==> numbers[k] == ToS16(value(samples[k]))
  {
    seq(|samples|, k requires 0 <= k < |samples| => ToS16(value(samples[k])))
  }

  lemma S16Exactly(v: int)
    requires -0x8000 <= v < 0x8000
    ensures var u := S16(v)[0] as int + 0x100 * S16(v)[1] as int;
            v == if u >= 0x8000 then u - 0x1_0000 else u
  {
    TwoBytes(v % 0x1_0000);
  }

  /** The payload is every sample's number, in order. */
  lemma {:induction false} PayloadExactly(value: Float32 -> Option<real>, samples: seq<Float32>)
    ensures HoldsSamples(Payload(value, samples), 0, Converted(value, samples))
  {
    hide ToS16, S16;
    if samples != [] {
      var front, last := samples[..|samples| - 1], samples[|samples| - 1];
      PayloadExactly(value, front);
      var v := ToS16(value(last));
      LaneIsScalar(value(last));
      S16Exactly(v);
      var b := Payload(value, samples);
      assert b == Payload(value, front) + S16(v);
      forall k {:trigger samples[k]} | 0 <= k < |samples|
        ensures var u := b[2 * k] as int + 0x100 * b[2 * k + 1] as int;
                ToS16(value(samples[k])) == if u >= 0x8000 then u - 0x1_0000 else u
      {
        if k < |front| { assert Converted(value, front)[k] == ToS16(value(samples[k])); }
      }
    }
  }

  lemma SamplesBehind(lead: Bytes, data: Bytes, numbers: seq<int>)
    requires HoldsSamples(data, 0, numbers)
    ensures HoldsSamples(lead + data, |lead|, numbers)
  {
    forall k {:trigger numbers[k]} | 0 <= k < |numbers|
      ensures (lead + data)[|lead| + 2 * k] == data[2 * k]
      ensures (lead + data)[|lead| + 2 * k + 1] == data[2 * k + 1]
    {
    }
  }

  function RiffPart(dataBytes: nat): (b: Bytes)
    ensures |b| == 12
  {
    RIFF + (LittleEndian(36 + dataBytes, 4) + WAVE)
  }

  /** The fmt chunk: 16 bytes describing one channel of 16-bit integers. */
  function FmtPart(rate: nat): (b: Bytes)
    ensures |b| == 24
  {
    FMT + (LittleEndian(16, 4) + (LittleEndian(1, 2) + (LittleEndian(1, 2) + (LittleEndian(rate, 4)
    + (LittleEndian(2 * rate, 4) + (LittleEndian(2, 2) + LittleEndian(16, 2)))))))
  }

  function DataPart(dataBytes: nat): (b: Bytes)
    ensures |b| == 8
  {
    DATA + LittleEndian(dataBytes, 4)
  }

  function Header(rate: nat, dataBytes: nat): (b: Bytes)
    ensures |b| == 44
  {
    RiffPart(dataBytes) + (FmtPart(rate) + DataPart(dataBytes))
  }

  function WavFile(value: Float32 -> Option<real>, rate: nat, samples: seq<Float32>): Bytes {
    Header(rate, 2 * |samples|) + Payload(value, samples)
  }

  /** The sizes fit the header's 32-bit fields. */
  predicate Fits(rate: int, n: nat) {
    0 < rate && 2 * rate <= U32_MAX && n <= (U32_MAX - 44) / 2
  }

  // ----- Writing -------------------------------------------------------------------------

  method PutU16(dst: array<byte>, p: nat, v: nat) returns (q: nat)
    requires p + 2 <= dst.Length && v < 0x1_0000
    modifies dst
    ensures q == p + 2 && dst[..q] == old(dst[..p]) + LittleEndian(v, 2)
  {
    dst[p] := (v % 256) as byte;
    dst[p + 1] := (v / 256 % 256) as byte;
    q := p + 2;
    TwoBytes(v);
  }

  lemma TwoBytes(v: nat)
    ensures LittleEndian(v, 2) == [(v % 256) as byte, (v / 256 % 256) as byte]
  {
    assert LittleEndian(v / 256, 1) == [(v / 256 % 256) as byte] + LittleEndian(v / 256 / 256, 0);
  }

  method PutU32(dst: array<byte>, p: nat, v: nat) returns (q: nat)
    requires p + 4 <= dst.Length && v <= U32_MAX
    modifies dst
    ensures q == p + 4 && dst[..q] == old(dst[..p]) + LittleEndian(v, 4)
  {
    dst[p] := (v % 256) as byte;
    dst[p + 1] := (v / 0x100 % 256) as byte;
    dst[p + 2] := (v / 0x1_0000 % 256) as byte;
    dst[p + 3] := (v / 0x100_0000 % 256) as byte;
    q := p + 4;
    FourBytes(v);
  }

  lemma FourBytes(v: nat)
    ensures LittleEndian(v, 4) == [(v % 256) as byte, (v / 0x100 % 256) as byte,
                                   (v / 0x1_0000 % 256) as byte, (v / 0x100_0000 % 256) as byte]
  {
    TwoBytes(v / 0x1_0000);
    assert v / 256 / 256 == v / 0x1_0000;
    assert v / 0x1_0000 / 256 == v / 0x100_0000;
    assert LittleEndian(v / 256, 3) == [(v / 256 % 256) as byte] + LittleEndian(v / 256 / 256, 2);
  }

  method PutAscii(dst: array<byte>, p: nat, s: Bytes) returns (q: nat)
    requires p + |s| <= dst.Length
    modifies dst
    ensures q == p + |s| && dst[..q] == old(dst[..p]) + s
  {
    for i := 0 to |s|
      invariant dst[..p + i] == old(dst[..p]) + s[..i]
    {
      dst[p + i] := s[i];
      assert dst[..p + i + 1] == dst[..p + i] + [s[i]];
    }
    q := p + |s|;
  }

  /** Converts every sample behind position p: eight at a time, then one at a time. */
  method PcmToS16(value: Float32 -> Option<real>, samples: seq<Float32>, dst: array<byte>, p: nat)
    requires dst.Length == p + 2 * |samples|
    modifies dst
    ensures dst[..] == old(dst[..p]) + Payload(value, samples)
  {
    hide Payload, ToS16, LaneToS16;
    ghost var lead := dst[..p];
    NoPayload(value, samples);
    var i := 0;
    while i + 7 < |samples|
      invariant i <= |samples| && dst[..p + 2 * i] == lead + Payload(value, samples[..i])
    {
      StoreEight(value, samples, i, lead, dst, p);
      i := i + 8;
    }
    while i < |samples|
      invariant i <= |samples| && dst[..p + 2 * i] == lead + Payload(value, samples[..i])
    {
      StoreSample(value, samples, i, lead, ToS16(value(samples[i])), dst, p);
      i := i + 1;
    }
    assert samples[..|samples|] == samples;
    assert dst[..] == dst[..p + 2 * |samples|];
  }

  /** Stores the eight samples from number i. */
  method StoreEight(value: Float32 -> Option<real>, samples: seq<Float32>, i: nat, ghost lead: Bytes,
                    dst: array<byte>, p: nat)
    requires i + 8 <= |samples| && p + 2 * i + 16 <= dst.Length
    requires dst[..p + 2 * i] == lead + Payload(value, samples[..i])
    modifies dst
    ensures dst[..p + 2 * (i + 8)] == lead + Payload(value, samples[..i + 8])
  {
    hide Payload, ToS16, LaneToS16;
    var lanes := seq(8, k requires 0 <= k < 8 => LaneToS16(value(samples[i + k])));
    for k := 0 to 8
      invariant dst[..p + 2 * (i + k)] == lead + Payload(value, samples[..i + k])
    {
      LaneIsScalar(value(samples[i + k]));
      StoreSample(value, samples, i + k, lead, lanes[k], dst, p);
    }
  }

  /** Stores sample number i. */
  method StoreSample(value: Float32 -> Option<real>, samples: seq<Float32>, i: nat, ghost lead: Bytes,
                     v: int, dst: array<byte>, p: nat)
    requires i < |samples| && p + 2 * i + 2 <= dst.Length && v == ToS16(value(samples[i]))
    requires dst[..p + 2 * i] == lead + Payload(value, samples[..i])
    modifies dst
    ensures dst[..p + 2 * (i + 1)] == lead + Payload(value, samples[..i + 1])
  {
    hide Payload, ToS16;
    var q := PutU16(dst, p + 2 * i, v % 0x1_0000);
    OneMoreSample(value, samples, i);
    assert lead + (Payload(value, samples[..i]) + S16(v)) == (lead + Payload(value, samples[..i])) + S16(v);
  }

  lemma NoPayload(value: Float32 -> Option<real>, samples: seq<Float32>)
    ensures Payload(value, samples[..0]) == []
  {}

  lemma OneMoreSample(value: Float32 -> Option<real>, samples: seq<Float32>, i: nat)
    requires i < |samples|
    ensures Payload(value, samples[..i + 1]) == Payload(value, samples[..i]) + S16(ToS16(value(samples[i])))
  {
    assert samples[..i + 1][..i] == samples[..i];
  }

  /** A complete file, or None if its sizes do not fit. */
  method WavBytes(value: Float32 -> Option<real>, rate: int, samples: seq<Float32>) returns (r: Option<Bytes>)
    ensures r == if Fits(rate, |samples|) then Some(WavFile(value, rate, samples)) else None
    ensures r.Some? <==> 0 < rate < 0x8000_0000 && 44 + 2 * |samples| <= 0xFFFF_FFFF
    ensures r.Some? ==> Describes(r.value, rate, Converted(value, samples))
  {
    hide Payload, LittleEndian, WavFile, Describes;
    FileExactly(value, rate, samples);
    if rate <= 0 || 2 * rate > U32_MAX || |samples| > (U32_MAX - 44) / 2 {
      return None;
    }
    var dataBytes := 2 * |samples|;
    var out := new byte[44 + dataBytes];
    var p := PutHeader(out, rate, dataBytes);
    PcmToS16(value, samples, out, p);
    FileIs(value, rate, samples);
    r := Some(out[..]);
  }

  lemma FileIs(value: Float32 -> Option<real>, rate: nat, samples: seq<Float32>)
    ensures WavFile(value, rate, samples) == Header(rate, 2 * |samples|) + Payload(value, samples)
  {}

  method PutHeader(out: array<byte>, rate: nat, dataBytes: nat) returns (p: nat)
    requires out.Length >= 44 && 2 * rate <= U32_MAX && 36 + dataBytes <= U32_MAX
    modifies out
    ensures p == 44 && out[..p] == Header(rate, dataBytes)
  {
    hide RiffPart, FmtPart, DataPart;
    p := PutRiff(out, dataBytes);
    p := PutFmt(out, p, rate);
    p := PutData(out, p, dataBytes);
  }

  method PutRiff(out: array<byte>, dataBytes: nat) returns (p: nat)
    requires out.Length >= 12 && 36 + dataBytes <= U32_MAX
    modifies out
    ensures p == 12 && out[..p] == RiffPart(dataBytes)
  {
    hide LittleEndian;
    p := PutAscii(out, 0, RIFF);
    p := PutU32(out, p, 36 + dataBytes);
    p := PutAscii(out, p, WAVE);
  }

  method PutFmt(out: array<byte>, start: nat, rate: nat) returns (p: nat)
    requires start + 24 <= out.Length && 2 * rate <= U32_MAX
    modifies out
    ensures p == start + 24 && out[..p] == old(out[..start]) + FmtPart(rate)
  {
    hide LittleEndian;
    ghost var lead := out[..start];
    p := PutAscii(out, start, FMT);
    p := PutU32(out, p, 16);
    p := PutU16(out, p, 1);
    p := PutU16(out, p, 1);
    assert out[..p] == lead + (FMT + LittleEndian(16, 4) + LittleEndian(1, 2) + LittleEndian(1, 2));
    p := PutRates(out, p, rate);
    assert FmtPart(rate) == (FMT + LittleEndian(16, 4) + LittleEndian(1, 2) + LittleEndian(1, 2)) + RatePart(rate);
  }

  /** Sample rate, byte rate, block size and sample width. */
  function RatePart(rate: nat): Bytes {
    LittleEndian(rate, 4) + (LittleEndian(2 * rate, 4) + (LittleEndian(2, 2) + LittleEndian(16, 2)))
  }

  method PutRates(out: array<byte>, start: nat, rate: nat) returns (p: nat)
    requires start + 12 <= out.Length && 2 * rate <= U32_MAX
    modifies out
    ensures p == start + 12 && out[..p] == old(out[..start]) + RatePart(rate)
  {
    hide LittleEndian;
    p := PutU32(out, start, rate);
    p := PutU32(out, p, 2 * rate);
    p := PutU16(out, p, 2);
    p := PutU16(out, p, 16);
  }

  method PutData(out: array<byte>, start: nat, dataBytes: nat) returns (p: nat)
    requires start + 8 <= out.Length && dataBytes <= U32_MAX
    modifies out
    ensures p == start + 8 && out[..p] == old(out[..start]) + DataPart(dataBytes)
  {
    hide LittleEndian;
    p := PutAscii(out, start, DATA);
    p := PutU32(out, p, dataBytes);
  }

  // ----- Parsing -----------------------------------------------------------------------------

  datatype Fmt = Fmt(tag: nat, channels: nat, rate: int, bits: nat)

  datatype Range = Range(offset: nat, size: nat)

  function U16At(data: Bytes, pos: nat): (n: nat)
    requires pos + 2 <= |data|
    ensures n == data[pos] as nat + 0x100 * data[pos + 1] as nat
  {
    TwoDigits(data[pos..pos + 2]);
    FromLittleEndian(data[pos..pos + 2])
  }

  function U32At(data: Bytes, pos: nat): (n: nat)
    requires pos + 4 <= |data|
    ensures n == data[pos] as nat + 0x100 * data[pos + 1] as nat
                 + 0x1_0000 * data[pos + 2] as nat + 0x100_0000 * data[pos + 3] as nat
  {
    FourDigits(data[pos..pos + 4]);
    FromLittleEndian(data[pos..pos + 4])
  }

  lemma TwoDigits(b: Bytes)
    requires |b| == 2
    ensures FromLittleEndian(b) == b[0] as nat + 0x100 * b[1] as nat
  {
    assert FromLittleEndian(b[1..]) == b[1] as nat + 256 * FromLittleEndian(b[1..][1..]);
  }

  lemma FourDigits(b: Bytes)
    requires |b| == 4
    ensures FromLittleEndian(b)
         == b[0] as nat + 0x100 * b[1] as nat + 0x1_0000 * b[2] as nat + 0x100_0000 * b[3] as nat
  {
    TwoDigits(b[2..]);
    assert FromLittleEndian(b[1..]) == b[1] as nat + 256 * FromLittleEndian(b[1..][1..]);
    assert b[1..][1..] == b[2..];
  }

  function FmtAt(data: Bytes, body: nat): Fmt
    requires body + 16 <= |data|
  {
    Fmt(U16At(data, body), U16At(data, body + 2), Signed(U32At(data, body + 4), 4), U16At(data, body + 14))
  }

  /** A data chunk, clamped to the bytes that are there. */
  function DataAt(data: Bytes, body: nat, chunkSize: nat): (r: Range)
    requires body <= |data|
    ensures r.offset + r.size <= |data|
  {
    Range(body, if chunkSize > |data| - body then |data| - body else chunkSize)
  }

  predicate IsTag(data: Bytes, pos: nat, tag: Bytes)
    requires pos + |tag| <= |data|
  {
    data[pos..pos + |tag|] == tag
  }

  function Both(fmt: Option<Fmt>, range: Option<Range>): Option<(Fmt, Range)> {
    if fmt.Some? && range.Some? then Some((fmt.value, range.value)) else None
  }

  /** Walks the chunks from pos until both a fmt and a data chunk have been seen. */
  function Scan(data: Bytes, pos: nat, fmt: Option<Fmt>, range: Option<Range>): (r: Option<(Fmt, Range)>)
    requires range.Some? ==> range.value.offset + range.value.size <= |data|
    ensures r.Some? ==> r.value.1.offset + r.value.1.size <= |data|
    decreases |data| - pos
  {
    if pos + 8 > |data| then Both(fmt, range)
    else
      var chunkSize, body := U32At(data, pos + 4), pos + 8;
      if IsTag(data, pos, FMT) && (chunkSize < 16 || body + 16 > |data|) then None
      else
        var fmt' := if IsTag(data, pos, FMT) then Some(FmtAt(data, body)) else fmt;
        var isData := !IsTag(data, pos, FMT) && IsTag(data, pos, DATA);
        var range' := if isData then Some(DataAt(data, body, chunkSize)) else range;
        var next := body + chunkSize + chunkSize % 2;
        if (fmt'.Some? && range'.Some?) || next > |data| then Both(fmt', range')
        else Scan(data, next, fmt', range')
  }

  function Checked(fmt: Fmt, range: Range): Option<WavInfo> {
    var isFloat := fmt.tag == 3 && fmt.bits == 32;
    var pcm := fmt.tag == 1 && (fmt.bits == 16 || fmt.bits == 32);
    if (!pcm && !isFloat) || fmt.channels < 1 || fmt.rate <= 0 then None
    else Some(WavInfo(fmt.rate, fmt.channels, fmt.bits, isFloat, range.offset, range.size))
  }

  /** What a buffer describes, if it is an acceptable file. An accepted data range
      lies inside the buffer. */
  function Parse(data: Bytes): (r: Option<WavInfo>)
    ensures r.Some? ==> r.value.dataOffset + r.value.dataSize <= |data|
    ensures r.Some? ==> r.value.channels >= 1 && r.value.sampleRate > 0 && r.value.bitsPerSample in {16, 32}
  {
    if |data| < 12 || !IsTag(data, 0, RIFF) || !IsTag(data, 8, WAVE) then None
    else match Scan(data, 12, None, None)
      case None => None
      case Some((fmt, range)) => Checked(fmt, range)
  }

  method WavParse(data: Bytes) returns (r: Option<WavInfo>)
    ensures r == Parse(data)
  {
    hide FromLittleEndian, Signed, IsTag, FmtAt, Checked, U32At;
    if |data| < 12 || !IsTag(data, 0, RIFF) || !IsTag(data, 8, WAVE) {
      return None;
    }
    var fmt: Option<Fmt> := None;
    var range: Option<Range> := None;
    var pos := 12;
    while pos + 8 <= |data|
      invariant range.Some? ==> range.value.offset + range.value.size <= |data|
      invariant Scan(data, pos, fmt, range) == Scan(data, 12, None, None)
      decreases |data| - pos
    {
      var chunkSize, body := U32At(data, pos + 4), pos + 8;
      if IsTag(data, pos, FMT) {
        if chunkSize < 16 || body + 16 > |data| {
          return None;
        }
        fmt := Some(FmtAt(data, body));
      } else if IsTag(data, pos, DATA) {
        range := Some(DataAt(data, body, chunkSize));
      }
      if fmt.Some? && range.Some? {
        return Checked(fmt.value, range.value);
      }
      var next := body + chunkSize + chunkSize % 2;
      if next > |data| {
        return None;
      }
      pos := next;
    }
    if fmt.None? || range.None? {
      return None;
    }
    return Checked(fmt.value, range.value);
  }

  // ----- Round trip ------------------------------------------------------------------------------

  lemma Pow256Values()
    ensures Pow256(2) == 0x1_0000 && Pow256(4) == 0x1_0000_0000
  {
    assert Pow256(1) == 256;
    assert Pow256(3) == 0x100_0000;
  }

  /** The fields of a written header, where the parser looks for them. */
  lemma HeaderFields(data: Bytes, rate: nat, dataBytes: nat)
    requires 2 * rate <= U32_MAX && 36 + dataBytes <= U32_MAX
    requires |data| >= 44 && data[..44] == Header(rate, dataBytes)
    ensures IsTag(data, 0, RIFF) && IsTag(data, 8, WAVE) && IsTag(data, 12, FMT) && IsTag(data, 36, DATA)
    ensures U32At(data, 16) == 16 && U16At(data, 20) == 1 && U16At(data, 22) == 1
    ensures U32At(data, 24) == rate && U16At(data, 34) == 16 && U32At(data, 40) == dataBytes
    ensures U32At(data, 4) == 36 + dataBytes && U32At(data, 28) == 2 * rate && U16At(data, 32) == 2
  {
    hide LittleEndian, FromLittleEndian, Pow256, RiffPart, FmtPart, DataPart;
    assert Holds(data, 0, Header(rate, dataBytes));
    HoldsParts(data, 0, RiffPart(dataBytes), FmtPart(rate) + DataPart(dataBytes));
    HoldsParts(data, 12, FmtPart(rate), DataPart(dataBytes));
    RiffFields(data, dataBytes);
    FmtFields(data, rate);
    DataFields(data, dataBytes);
  }

  lemma NumberPart(data: Bytes, dataBytes: nat)
    requires 36 + dataBytes <= U32_MAX && Holds(data, 0, RiffPart(dataBytes))
    ensures |data| >= 8 && U32At(data, 4) == 36 + dataBytes
  {
    hide LittleEndian, FromLittleEndian, Pow256;
    Pow256Values();
    HoldsParts(data, 0, RIFF, LittleEndian(36 + dataBytes, 4) + WAVE);
    HoldsParts(data, 4, LittleEndian(36 + dataBytes, 4), WAVE);
    NumberAt(data, 4, 36 + dataBytes, 4);
  }

  lemma RiffFields(data: Bytes, dataBytes: nat)
    requires 36 + dataBytes <= U32_MAX && Holds(data, 0, RiffPart(dataBytes))
    ensures |data| >= 12 && IsTag(data, 0, RIFF) && IsTag(data, 8, WAVE) && U32At(data, 4) == 36 + dataBytes
  {
    hide LittleEndian, FromLittleEndian, Pow256;
    Pow256Values();
    NumberPart(data, dataBytes);
    HoldsParts(data, 0, RIFF, LittleEndian(36 + dataBytes, 4) + WAVE);
    HoldsParts(data, 4, LittleEndian(36 + dataBytes, 4), WAVE);
  }

  lemma DataFields(data: Bytes, dataBytes: nat)
    requires dataBytes <= U32_MAX && Holds(data, 36, DataPart(dataBytes))
    ensures |data| >= 44 && IsTag(data, 36, DATA) && U32At(data, 40) == dataBytes
  {
    hide LittleEndian, FromLittleEndian, Pow256;
    Pow256Values();
    HoldsParts(data, 36, DATA, LittleEndian(dataBytes, 4));
    NumberAt(data, 40, dataBytes, 4);
  }

  lemma FmtFields(data: Bytes, rate: nat)
    requires 2 * rate <= U32_MAX && Holds(data, 12, FmtPart(rate))
    ensures |data| >= 36 && IsTag(data, 12, FMT) && U32At(data, 16) == 16
    ensures U16At(data, 20) == 1 && U16At(data, 22) == 1 && U32At(data, 24) == rate && U16At(data, 34) == 16
    ensures U32At(data, 28) == 2 * rate && U16At(data, 32) == 2
  {
    hide LittleEndian, FromLittleEndian, Pow256;
    Pow256Values();
    var size, one, r4, r8, two, bits := LittleEndian(16, 4), LittleEndian(1, 2), LittleEndian(rate, 4),
                                        LittleEndian(2 * rate, 4), LittleEndian(2, 2), LittleEndian(16, 2);
    HoldsParts(data, 12, FMT, size + (one + (one + (r4 + (r8 + (two + bits))))));
    HoldsParts(data, 16, size, one + (one + (r4 + (r8 + (two + bits)))));
    HoldsParts(data, 20, one, one + (r4 + (r8 + (two + bits))));
    HoldsParts(data, 22, one, r4 + (r8 + (two + bits)));
    HoldsParts(data, 24, r4, r8 + (two + bits));
    HoldsParts(data, 28, r8, two + bits);
    HoldsParts(data, 32, two, bits);
    NumberAt(data, 16, 16, 4);
    NumberAt(data, 20, 1, 2);
    NumberAt(data, 22, 1, 2);
    NumberAt(data, 24, rate, 4);
    NumberAt(data, 28, 2 * rate, 4);
    NumberAt(data, 32, 2, 2);
    NumberAt(data, 34, 16, 2);
  }

  lemma ScanFmt(data: Bytes, fmt: Fmt)
    requires |data| >= 36 && IsTag(data, 12, FMT) && U32At(data, 16) == 16 && FmtAt(data, 20) == fmt
    ensures Scan(data, 12, None, None) == Scan(data, 36, Some(fmt), None)
  {
    hide U32At, FmtAt;
  }

  lemma ScanData(data: Bytes, fmt: Fmt)
    requires |data| >= 44 && IsTag(data, 36, DATA) && U32At(data, 40) == |data| - 44
    ensures Scan(data, 36, Some(fmt), None) == Some((fmt, Range(44, |data| - 44)))
  {
    hide U32At, FmtAt;
    assert data[36..40][0] == 0x64;
  }

  /** A buffer with these fields describes the file. */
  lemma ParseFields(data: Bytes, rate: nat)
    requires |data| >= 44 && IsTag(data, 0, RIFF) && IsTag(data, 8, WAVE)
    requires IsTag(data, 12, FMT) && U32At(data, 16) == 16 && FmtAt(data, 20) == Fmt(1, 1, rate, 16)
    requires IsTag(data, 36, DATA) && U32At(data, 40) == |data| - 44 && rate > 0
    ensures Parse(data) == Some(WavInfo(rate, 1, 16, false, 44, |data| - 44))
  {
    ScanFmt(data, Fmt(1, 1, rate, 16));
    ScanData(data, Fmt(1, 1, rate, 16));
    hide U32At, FmtAt, Scan, IsTag;
  }

  /** What a 16-bit mono file of these numbers holds, field by field. */
  ghost predicate Describes(data: Bytes, rate: nat, numbers: seq<int>) {
    && |data| == 44 + 2 * |numbers|
    && IsTag(data, 0, RIFF) && U32At(data, 4) == |data| - 8 && IsTag(data, 8, WAVE)
    && IsTag(data, 12, FMT) && U32At(data, 16) == 16
    && U16At(data, 20) == 1 && U16At(data, 22) == 1 && U32At(data, 24) == rate
    && U32At(data, 28) == 2 * rate && U16At(data, 32) == 2 && U16At(data, 34) == 16
    && IsTag(data, 36, DATA) && U32At(data, 40) == 2 * |numbers|
    && HoldsSamples(data, 44, numbers)
  }

  lemma TagsSpell()
    ensures AsText(RIFF) == "RIFF" && AsText(WAVE) == "WAVE" && AsText(FMT) == "fmt " && AsText(DATA) == "data"
  {}

  lemma FileExactly(value: Float32 -> Option<real>, rate: int, samples: seq<Float32>)
    ensures Fits(rate, |samples|) ==> Describes(WavFile(value, rate, samples), rate, Converted(value, samples))
  {
    hide Payload, Header, FromLittleEndian, Pow256, IsTag, HoldsSamples;
    if Fits(rate, |samples|) {
      var n := 2 * |samples|;
      var data := WavFile(value, rate, samples);
      assert data[..44] == Header(rate, n);
      HeaderFields(data, rate, n);
      PayloadExactly(value, samples);
      SamplesBehind(Header(rate, n), Payload(value, samples), Converted(value, samples));
    }
  }

  /** The parser accepts every written file and finds its rate, one channel of 16 bits,
      and the converted samples, all of them, behind the 44-byte header. */
  lemma WrittenThenParsed(value: Float32 -> Option<real>, rate: int, samples: seq<Float32>)
    requires Fits(rate, |samples|)
    ensures Parse(WavFile(value, rate, samples))
         == Some(WavInfo(rate, 1, 16, false, 44, 2 * |samples|))
    ensures HoldsSamples(WavFile(value, rate, samples), 44, Converted(value, samples))
  {
    FileExactly(value, rate, samples);
    hide Payload, Header, FromLittleEndian, Pow256, Parse, IsTag, U32At, HoldsSamples;
    var n := 2 * |samples|;
    var data := WavFile(value, rate, samples);
    assert data[..44] == Header(rate, n);
    HeaderFields(data, rate, n);
    Pow256Values();
    ParseFields(data, rate);
  }
}
