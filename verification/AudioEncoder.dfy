/** The streaming audio encoder. */
module AudioEncoder {
  import opened Wrappers
  import opened ByteCodec
  import opened Wav

  datatype Format = PcmF32Le | WavPcm16 | OggOpus

  datatype EncoderError =
    | InvalidRate | NotAvailable | HeaderFailed | AlreadyFinished
    | TooManySamples | EncodeFailed | DrainFailed | TooLong

  const INT_MAX: nat := 0x7FFF_FFFF

  function Flat(blocks: seq<seq<Float32>>): seq<Float32> {
    if blocks == [] then [] else Flat(blocks[..|blocks| - 1]) + blocks[|blocks| - 1]
  }

  /** The Opus encoder, known only by the samples it has taken and whether its calls
      succeed: call number k does if `succeeds(k)`. */
  class OpusSink {
    const succeeds: nat -> bool
    var calls: nat
    var written: seq<Float32>
    var drained: bool

    constructor (succeeds: nat -> bool)
      ensures calls == 0 && written == [] && !drained && this.succeeds == succeeds
    {
      this.succeeds, calls, written, drained := succeeds, 0, [], false;
    }

    method FlushHeader() returns (ok: bool)
      modifies this`calls
      ensures ok == succeeds(old(calls)) && calls == old(calls) + 1
    {
      ok := succeeds(calls);
      calls := calls + 1;
    }

    method Write(samples: seq<Float32>) returns (ok: bool)
      requires |samples| <= INT_MAX
      modifies this`calls, this`written
      ensures ok == succeeds(old(calls)) && calls == old(calls) + 1
      ensures written == if ok then old(written) + samples else old(written)
    {
      ok := succeeds(calls);
      calls := calls + 1;
      if ok { written := written + samples; }
    }

    method Drain() returns (ok: bool)
      modifies this`calls, this`drained
      ensures ok == succeeds(old(calls)) && calls == old(calls) + 1 && (ok ==> drained)
    {
      ok := succeeds(calls);
      calls := calls + 1;
      if ok { drained := true; }
    }
  }

  /** Why an encoder does not start, if it does not; flushed tells whether the header
      page could be flushed. */
  function StartError(format: Format, sampleRate: int, hasOpus: bool, flushed: bool): Option<EncoderError> {
    if sampleRate <= 0 then Some(InvalidRate)
    else if format.OggOpus? && !hasOpus then Some(NotAvailable)
    else if format.OggOpus? && !flushed then Some(HeaderFailed)
    else None
  }

  lemma StartErrorExactly(format: Format, sampleRate: int, hasOpus: bool, flushed: bool)
    ensures var error, opus := StartError(format, sampleRate, hasOpus, flushed), format == OggOpus;
            && (error == Some(InvalidRate) <==> sampleRate <= 0)
            && (error == Some(NotAvailable) <==> sampleRate > 0 && opus && !hasOpus)
            && (error == Some(HeaderFailed) <==> sampleRate > 0 && opus && hasOpus && !flushed)
            && (error == None <==> sampleRate > 0 && (opus ==> hasOpus && flushed))
  {}

  /** The first error of a sink that is given these blocks, one call each, after the
      call for the header. */
  function SinkError(succeeds: nat -> bool, blocks: seq<seq<Float32>>): Option<EncoderError> {
    if blocks == [] then None
    else
      var n := |blocks| - 1;
      var before := SinkError(succeeds, blocks[..n]);
      if before.Some? then before
      else if |blocks[n]| > INT_MAX then Some(TooManySamples)
      else if !succeeds(n + 1) then Some(EncodeFailed)
      else None
  }

  /** More blocks do not change the first error. */
  lemma {:induction false} ErrorPersists(succeeds: nat -> bool, blocks: seq<seq<Float32>>, k: nat)
    requires k <= |blocks| && SinkError(succeeds, blocks[..k]).Some?
    ensures SinkError(succeeds, blocks) == SinkError(succeeds, blocks[..k])
    decreases |blocks|
  {
    if k == |blocks| {
      assert blocks[..k] == blocks;
    } else {
      var front := blocks[..|blocks| - 1];
      assert front[..k] == blocks[..k];
      ErrorPersists(succeeds, front, k);
    }
  }

  predicate NoneEmpty(blocks: seq<seq<Float32>>) {
    forall i {:trigger blocks[i]} :: 0 <= i < |blocks| ==> blocks[i] != []
  }

  /** Fewer blocks hold fewer samples. */
  lemma {:induction false} FlatGrows(blocks: seq<seq<Float32>>, n: nat)
    requires NoneEmpty(blocks) && n < |blocks|
    ensures |Flat(blocks[..n])| < |Flat(blocks)|
    decreases |blocks|
  {
    var front := blocks[..|blocks| - 1];
    if n < |front| {
      FlatGrows(front, n);
      assert front[..n] == blocks[..n];
    } else {
      assert front == blocks[..n];
      assert blocks[|blocks| - 1] != [];
    }
  }

  lemma OneMoreBlock(succeeds: nat -> bool, blocks: seq<seq<Float32>>, samples: seq<Float32>)
    ensures Flat(blocks + [samples]) == Flat(blocks) + samples
    ensures SinkError(succeeds, blocks + [samples])
         == if SinkError(succeeds, blocks).Some? then SinkError(succeeds, blocks)
            else if |samples| > 0x7FFF_FFFF then Some(TooManySamples)
            else if !succeeds(|blocks| + 1) then Some(EncodeFailed)
            else None
  {
    assert (blocks + [samples])[..|blocks|] == blocks;
  }

  class AudioEncoder {
    const format: Format
    const sampleRate: int
    const hasOpus: bool
    const value: Float32 -> Option<real>
    const prebufferTarget: nat
    const sink: OpusSink
    var started: bool
    var finished: bool
    var wavAccumulator: seq<Float32>
    var prebufferReleased: bool
    var prebuffered: seq<seq<Float32>>
    /** The blocks pushed so far that were not empty, and whether every call has
        succeeded. */
    ghost var blocks: seq<seq<Float32>>
    ghost var sound: bool

    /** Nothing pushed is lost, repeated or out of order, and the sink was called once
        for the header and once for every block it has. */
    ghost predicate Valid()
      reads this, sink
    {
      && (!started ==> blocks == [] && !finished && prebuffered == [] && !prebufferReleased)
      && (!started && sound ==> sink.calls == 0 && sink.written == [])
      && (started ==> sampleRate > 0 && (format.OggOpus? ==> hasOpus))
      && NoneEmpty(blocks)
      && (format.WavPcm16? ==> wavAccumulator == Flat(blocks))
      && (format.OggOpus? && sound && started && !finished ==> Handed())
      && (sound && !finished && !Holding() ==> prebuffered == [])
    }

    /** The blocks are still held back. */
    predicate Holding()
      reads this`prebufferReleased
    {
      prebufferTarget > 0 && !prebufferReleased
    }

    /** The sink has all blocks but those held back. */
    ghost predicate Handed()
      reads this`prebuffered, this`blocks, sink
    {
      && Reached(|blocks| - |prebuffered|)
      && prebuffered == blocks[|blocks| - |prebuffered|..]
    }

    constructor (format: Format, sampleRate: int, prebufferChunks: int, hasOpus: bool,
                 value: Float32 -> Option<real>, succeeds: nat -> bool)
      ensures Valid() && !started && sound && blocks == [] && fresh(sink)
      ensures this.format == format && this.sampleRate == sampleRate && this.value == value
      ensures this.hasOpus == hasOpus && sink.succeeds == succeeds
    {
      this.format, this.sampleRate, this.hasOpus, this.value := format, sampleRate, hasOpus, value;
      this.prebufferTarget := if hasOpus && prebufferChunks > 0 then prebufferChunks else 0;
      this.sink := new OpusSink(succeeds);
      started, finished, wavAccumulator, prebufferReleased, prebuffered := false, false, [], false, [];
      blocks, sound := [], true;
    }

    /** Starts once, or tells why it cannot. */
    method Start() returns (error: Option<EncoderError>)
      requires Valid()
      modifies this`started, this`sound, sink`calls
      ensures Valid() && started == (old(started) || error.None?)
      ensures sound == (old(sound) && error.None?)
      ensures error == if old(started) then None
                       else StartError(format, sampleRate, hasOpus, sink.succeeds(old(sink.calls)))
      ensures old(started) ==> sink.calls == old(sink.calls)
    {
      if started { return None; }
      if sampleRate <= 0 {
        sound := false;
        return Some(InvalidRate);
      }
      if format.OggOpus? && !hasOpus {
        sound := false;
        return Some(NotAvailable);
      }
      if format.OggOpus? {
        var ok := sink.FlushHeader();
        if !ok {
          sound := false;
          return Some(HeaderFailed);
        }
      }
      started := true;
      return None;
    }

    method WriteOggSamples(samples: seq<Float32>) returns (error: Option<EncoderError>)
      modifies sink
      ensures error == if |samples| > INT_MAX then Some(TooManySamples)
                       else if !sink.succeeds(old(sink.calls)) then Some(EncodeFailed)
                       else None
      ensures error.None? ==> sink.written == old(sink.written) + samples && sink.calls == old(sink.calls) + 1
    {
      if |samples| > INT_MAX { return Some(TooManySamples); }
      var ok := sink.Write(samples);
      return if ok then None else Some(EncodeFailed);
    }

    /** Hands every held-back block to the sink, in order. */
    method ReleasePrebuffered() returns (error: Option<EncoderError>)
      modifies this`prebuffered, sink
      ensures error.None? ==> prebuffered == []
      ensures old(Handed()) ==> error == SinkError(sink.succeeds, blocks)
      ensures old(Handed()) && error.None? ==> Handed()
    {
      hide SinkError, Flat;
      ghost var handed := Handed();
      ghost var n := |blocks| - |prebuffered|;
      for k := 0 to |prebuffered|
        invariant prebuffered == old(prebuffered)
        invariant handed ==> Reached(n + k)
      {
        if handed {
          assert blocks[..n + k + 1] == blocks[..n + k] + [prebuffered[k]];
          OneMoreBlock(sink.succeeds, blocks[..n + k], prebuffered[k]);
        }
        var e := WriteOggSamples(prebuffered[k]);
        if e.Some? {
          if handed { ErrorPersists(sink.succeeds, blocks, n + k + 1); }
          return e;
        }
      }
      assert blocks[..|blocks|] == blocks;
      prebuffered := [];
      return None;
    }

    /** The sink has taken the first n blocks, without an error. */
    ghost predicate Reached(n: int)
      reads this`blocks, sink
    {
      && 0 <= n <= |blocks|
      && sink.calls == n + 1
      && sink.written == Flat(blocks[..n])
      && SinkError(sink.succeeds, blocks[..n]).None?
    }

    /** Takes more samples. PCM bytes come out at once; the WAV file only at the end. */
    method Push(samples: seq<Float32>, isFinal: bool) returns (out: Bytes, error: Option<EncoderError>)
      requires Valid()
      modifies this`started, this`wavAccumulator, this`prebuffered, this`prebufferReleased, this`blocks, this`sound
      modifies sink
      ensures Valid() && started == (old(started) || StartErrorNow(old(sink.calls)).None?)
      ensures sound == (old(sound) && error.None?)
      ensures blocks == old(blocks) + if started && !finished && samples != [] then [samples] else []
      ensures out == if error.None? && format.PcmF32Le? then RawBytes(samples) else []
      ensures error.None? && format.PcmF32Le? ==> AreBytesOf(out, samples)
      ensures !started ==> error == StartErrorNow(old(sink.calls))
      ensures started && finished ==> error == Some(AlreadyFinished)
      ensures started && !finished && (samples == [] || !format.OggOpus?) ==> error.None?
      ensures started && !finished && samples != [] && format.OggOpus? && old(sound) ==>
                error == if old(Waits(isFinal)) then None else SinkError(sink.succeeds, blocks)
      ensures error.None? && !finished && samples != [] && format.OggOpus? && old(sound) ==>
                prebuffered == if prebufferTarget > 0 && !old(prebufferReleased) && !isFinal
                                  && |old(prebuffered)| + 1 < prebufferTarget
                               then old(prebuffered) + [samples] else []
    {
      hide SinkError, EndError, StartError, Flat, Handed, NoneEmpty;
      out := [];
      error := Start();
      if error.Some? { return; }
      if finished {
        sound := false;
        error := Some(AlreadyFinished);
        return;
      }
      assert blocks + [] == blocks;
      if samples == [] { return; }
      RawBytesExactly(samples);
      out, error := PushFilled(samples, isFinal);
    }

    method PushFilled(samples: seq<Float32>, isFinal: bool) returns (out: Bytes, error: Option<EncoderError>)
      requires Valid() && started && !finished && samples != []
      modifies this`wavAccumulator, this`prebuffered, this`prebufferReleased, this`blocks, this`sound, sink
      ensures Valid() && sound == (old(sound) && error.None?)
      ensures blocks == old(blocks) + [samples]
      ensures out == if format.PcmF32Le? then RawBytes(samples) else []
      ensures !format.OggOpus? ==> error.None?
      ensures format.OggOpus? && old(sound) ==>
                error == if old(Waits(isFinal)) then None else SinkError(sink.succeeds, blocks)
      ensures error.None? && format.OggOpus? && old(sound) ==>
                prebuffered == if prebufferTarget > 0 && !old(prebufferReleased) && !isFinal
                                  && |old(prebuffered)| + 1 < prebufferTarget
                               then old(prebuffered) + [samples] else []
    {
      OneMoreBlock(sink.succeeds, blocks, samples);
      hide SinkError, Flat, RawBytes;
      out, error := [], None;
      match format
      case PcmF32Le =>
        out := RawBytes(samples);
        blocks := blocks + [samples];
      case WavPcm16 =>
        wavAccumulator := wavAccumulator + samples;
        blocks := blocks + [samples];
      case OggOpus =>
        error := PushOgg(samples, isFinal);
    }

    /** Why this encoder would not start with its next call to the sink. */
    function StartErrorNow(call: nat): Option<EncoderError> {
      StartError(format, sampleRate, hasOpus, sink.succeeds(call))
    }

    /** One more block would be held back. */
    predicate Waits(isFinal: bool)
      reads this
    {
      Holding() && |prebuffered| + 1 < prebufferTarget && !isFinal
    }

    method PushOgg(samples: seq<Float32>, isFinal: bool) returns (error: Option<EncoderError>)
      requires Valid() && started && !finished && format.OggOpus? && samples != []
      modifies this`prebuffered, this`prebufferReleased, this`blocks, this`sound, sink
      ensures Valid() && blocks == old(blocks) + [samples]
      ensures sound == (old(sound) && error.None?)
      ensures old(sound) ==> error == if old(Waits(isFinal)) then None else SinkError(sink.succeeds, blocks)
      ensures error.None? && old(sound) ==>
                prebuffered == if prebufferTarget > 0 && !old(prebufferReleased) && !isFinal
                                  && |old(prebuffered)| + 1 < prebufferTarget
                               then old(prebuffered) + [samples] else []
    {
      hide SinkError, Flat;
      ghost var before := blocks;
      OneMoreBlock(sink.succeeds, blocks, samples);
      blocks := blocks + [samples];
      if prebufferTarget > 0 && !prebufferReleased {
        ghost var n := |before| - |prebuffered|;
        assert sound ==> blocks[..n] == before[..n] && blocks[n..] == before[n..] + [samples];
        prebuffered := prebuffered + [samples];
        var ready := |prebuffered| >= prebufferTarget || isFinal;
        if !ready { return None; }
        error := ReleasePrebuffered();
        if error.Some? {
          sound := false;
          return;
        }
        prebufferReleased := true;
      } else {
        assert before[..|before|] == before;
        error := WriteOggSamples(samples);
        if error.Some? {
          sound := false;
          return;
        }
        assert blocks[..|blocks|] == blocks;
      }
    }

    /** Ends the stream. Only a successful end produces the file or drains the sink; an
        unsuccessful one drops what is held back. */
    method Finish(success: bool) returns (out: Bytes, error: Option<EncoderError>)
      requires Valid()
      modifies this`started, this`finished, this`prebuffered, this`sound, sink
      ensures Valid() && started == (old(started) || StartErrorNow(old(sink.calls)).None?)
      ensures finished == (old(finished) || started)
      ensures !started ==> error == StartErrorNow(old(sink.calls))
      ensures started && (old(finished) || !success || format.PcmF32Le?) ==> error.None?
      ensures started && !old(finished) && success && format.WavPcm16? ==>
                error == if Fits(sampleRate, |Flat(blocks)|) then None else Some(TooLong)
      ensures started && !old(finished) && success && format.OggOpus? && old(sound) ==>
                && error == EndError(sink.succeeds, blocks)
                && (error.None? ==> sink.written == Flat(blocks) && sink.drained)
      ensures started && !old(finished) && !success && format.OggOpus? && old(sound) ==>
                && prebuffered == old(prebuffered) && Handed()
                && (sink.written == Flat(blocks) <==> prebuffered == [])
      ensures out == if error.None? && success && !old(finished) && format.WavPcm16?
                     then WavFile(value, sampleRate, Flat(blocks)) else []
      ensures error.None? && success && !old(finished) && format.WavPcm16? ==>
                Describes(out, sampleRate, Converted(value, Flat(blocks)))
    {
      hide SinkError, EndError, StartError, Flat, WavFile, Fits, Handed, Describes;
      out := [];
      error := Start();
      if error.Some? { return; }
      if finished { return; }
      finished := true;
      if !success {
        if format.OggOpus? && sound { HeldOrWritten(); }
        return;
      }
      out, error := FinishWhole();
    }

    /** The sink has everything exactly when nothing is held back. */
    lemma HeldOrWritten()
      requires Handed() && NoneEmpty(blocks)
      ensures sink.written == Flat(blocks) <==> prebuffered == []
    {
      var n := |blocks| - |prebuffered|;
      if n < |blocks| {
        FlatGrows(blocks, n);
      } else {
        assert blocks[..n] == blocks;
      }
    }

    method FinishWhole() returns (out: Bytes, error: Option<EncoderError>)
      requires sampleRate > 0 && (format.WavPcm16? ==> wavAccumulator == Flat(blocks))
      modifies this`prebuffered, sink
      ensures out == if error.None? && format.WavPcm16? then WavFile(value, sampleRate, Flat(blocks)) else []
      ensures error.None? && format.WavPcm16? ==> Describes(out, sampleRate, Converted(value, Flat(blocks)))
      ensures format.PcmF32Le? ==> error.None?
      ensures format.WavPcm16? ==> error == if Fits(sampleRate, |Flat(blocks)|) then None else Some(TooLong)
      ensures format.OggOpus? && old(Handed()) ==> error == EndError(sink.succeeds, blocks)
      ensures format.OggOpus? && old(Handed()) && error.None? ==> sink.written == Flat(blocks) && sink.drained
      ensures !format.OggOpus? ==> prebuffered == old(prebuffered) && sink.calls == old(sink.calls)
    {
      hide SinkError, EndError, Flat, WavFile, Describes;
      out, error := [], None;
      if format.WavPcm16? {
        var file := WavBytes(value, sampleRate, wavAccumulator);
        if file.None? {
          error := Some(TooLong);
          return;
        }
        out := file.value;
      } else if format.OggOpus? {
        error := FinishOgg();
      }
    }

    method FinishOgg() returns (error: Option<EncoderError>)
      modifies this`prebuffered, sink
      ensures old(Handed()) ==> error == EndError(sink.succeeds, blocks)
      ensures old(Handed()) && error.None? ==> sink.written == Flat(blocks) && sink.drained
    {
      assert blocks[..|blocks|] == blocks;
      error := ReleasePrebuffered();
      if error.Some? { return; }
      var ok := sink.Drain();
      if !ok { error := Some(DrainFailed); }
    }
  }

  /** The first error of a sink that is given these blocks and then drained. */
  function EndError(succeeds: nat -> bool, blocks: seq<seq<Float32>>): Option<EncoderError> {
    if SinkError(succeeds, blocks).Some? then SinkError(succeeds, blocks)
    else if !succeeds(|blocks| + 1) then Some(DrainFailed)
    else None
  }

  // ----- Any way of cutting ------------------------------------------------------------------

  datatype Block = Block(samples: seq<Float32>, isFinal: bool)

  function AllSamples(blocks: seq<Block>): seq<Float32> {
    if blocks == [] then [] else AllSamples(blocks[..|blocks| - 1]) + blocks[|blocks| - 1].samples
  }

  /** The blocks that are not empty. */
  function Filled(blocks: seq<Block>): (filled: seq<seq<Float32>>)
    ensures Flat(filled) == AllSamples(blocks)
  {
    if blocks == [] then []
    else
      var last := blocks[|blocks| - 1].samples;
      var before := Filled(blocks[..|blocks| - 1]);
      if last == [] then before
      else
        assert (before + [last])[..|before|] == before;
        before + [last]
  }

  lemma {:induction false} FilledPrefix(blocks: seq<Block>, k: nat)
    requires k <= |blocks|
    ensures Filled(blocks[..k]) <= Filled(blocks)
    decreases |blocks|
  {
    if k == |blocks| {
      assert blocks[..k] == blocks;
    } else {
      var front := blocks[..|blocks| - 1];
      assert front[..k] == blocks[..k];
      FilledPrefix(front, k);
    }
  }

  /** The error of a part is the error of the whole. */
  lemma FirstErrorStays(succeeds: nat -> bool, part: seq<seq<Float32>>, whole: seq<seq<Float32>>)
    requires part <= whole && SinkError(succeeds, part).Some?
    ensures EndError(succeeds, whole) == SinkError(succeeds, part)
  {
    hide SinkError;
    assert whole[..|part|] == part;
    ErrorPersists(succeeds, whole, |part|);
  }

  /** How a whole recording ends: for PCM and WAV it depends on the samples alone, for
      Opus also on the number and sizes of the blocks that are not empty, but never on
      what is held back or marked as final. */
  function Outcome(format: Format, sampleRate: int, hasOpus: bool, succeeds: nat -> bool, blocks: seq<Block>)
    : Option<EncoderError>
  {
    if StartError(format, sampleRate, hasOpus, succeeds(0)).Some? then
      StartError(format, sampleRate, hasOpus, succeeds(0))
    else match format
      case PcmF32Le => None
      case WavPcm16 => if Fits(sampleRate, |AllSamples(blocks)|) then None else Some(TooLong)
      case OggOpus => EndError(succeeds, Filled(blocks))
  }

  /** Pushes all blocks, until the first error. */
  method PushAll(e: AudioEncoder, blocks: seq<Block>) returns (out: Bytes, error: Option<EncoderError>)
    requires e.Valid() && !e.started && e.sound
    modifies e, e.sink
    ensures error.Some? ==> out == [] && error == Outcome(e.format, e.sampleRate, e.hasOpus, e.sink.succeeds, blocks)
    ensures error.None? ==>
              && e.Valid() && e.sound && !e.finished && e.blocks == Filled(blocks)
              && (e.started ==> e.StartErrorNow(0).None?) && (blocks != [] ==> e.started)
              && out == if e.format.PcmF32Le? then RawBytes(AllSamples(blocks)) else []
  {
    hide Flat, SinkError, EndError, StartError, NoneEmpty, AreBytesOf, AllSamples, Filled, Outcome, RawBytes;
    out, error := [], None;
    NoBlocks(blocks);
    for k := 0 to |blocks|
      invariant e.Valid() && e.sound && !e.finished && e.blocks == Filled(blocks[..k])
      invariant k > 0 ==> e.started
      invariant e.started ==> e.StartErrorNow(0).None?
      invariant out == if e.format.PcmF32Le? then RawBytes(AllSamples(blocks[..k])) else []
    {
      BlockTaken(blocks, k);
      var bytes, failed := e.Push(blocks[k].samples, blocks[k].isFinal);
      if failed.Some? {
        FirstFailure(e.format, e.sampleRate, e.hasOpus, e.sink.succeeds, blocks, k, e.started, failed);
        return [], failed;
      }
      RawBytesConcat(AllSamples(blocks[..k]), blocks[k].samples);
      out := out + bytes;
    }
    assert blocks[..|blocks|] == blocks;
  }

  lemma NoBlocks(blocks: seq<Block>)
    ensures Filled(blocks[..0]) == [] && RawBytes(AllSamples(blocks[..0])) == []
  {}

  lemma BlockTaken(blocks: seq<Block>, k: nat)
    requires k < |blocks|
    ensures AllSamples(blocks[..k + 1]) == AllSamples(blocks[..k]) + blocks[k].samples
    ensures Filled(blocks[..k + 1])
         == Filled(blocks[..k]) + if blocks[k].samples != [] then [blocks[k].samples] else []
  {
    assert blocks[..k + 1][..k] == blocks[..k];
    assert Filled(blocks[..k]) + [] == Filled(blocks[..k]);
  }

  /** The error of the start, or of the sink after k + 1 blocks, is that of the whole. */
  lemma FirstFailure(format: Format, sampleRate: int, hasOpus: bool, succeeds: nat -> bool, blocks: seq<Block>,
                     k: nat, started: bool, failed: Option<EncoderError>)
    requires k < |blocks| && failed.Some?
    requires var first := StartError(format, sampleRate, hasOpus, succeeds(0));
             if started then first.None? && format.OggOpus? && failed == SinkError(succeeds, Filled(blocks[..k + 1]))
             else failed == first
    ensures failed == Outcome(format, sampleRate, hasOpus, succeeds, blocks)
  {
    hide SinkError, EndError, StartError, Filled;
    if started {
      FilledPrefix(blocks, k + 1);
      FirstErrorStays(succeeds, Filled(blocks[..k + 1]), Filled(blocks));
    }
  }

  /** Encodes one recording, cut into blocks in whatever way, until the first error:
      what comes out, and whether and how it fails. */
  method Encode(e: AudioEncoder, blocks: seq<Block>) returns (out: Bytes, error: Option<EncoderError>)
    requires e.Valid() && !e.started && e.sound
    modifies e, e.sink
    ensures error == Outcome(e.format, e.sampleRate, e.hasOpus, e.sink.succeeds, blocks)
    ensures out == if error.Some? then []
                   else match e.format
                     case PcmF32Le => RawBytes(AllSamples(blocks))
                     case WavPcm16 => WavFile(e.value, e.sampleRate, AllSamples(blocks))
                     case OggOpus => []
    ensures error.None? && e.format.PcmF32Le? ==> AreBytesOf(out, AllSamples(blocks))
    ensures error.None? && e.format.WavPcm16? ==> Describes(out, e.sampleRate, Converted(e.value, AllSamples(blocks)))
    ensures error.None? && e.format.OggOpus? ==> e.sink.written == AllSamples(blocks) && e.sink.drained
  {
    hide WavFile, Flat, SinkError, EndError, StartError, NoneEmpty, Describes, AreBytesOf, RawBytes;
    out, error := PushAll(e, blocks);
    if error.Some? { return; }
    RawBytesExactly(AllSamples(blocks));
    var tail;
    tail, error := e.Finish(true);
    if error.Some? { return [], error; }
    out := out + tail;
  }
}
