# Verified model of kokopop

This project models five parts of kokopop, a local text-to-speech engine with an
HTTP server, and proves what they are for. One module per file.

* **Inverse STFT** (`Complex`, `Dft`, `BitReversal`, `Fft`, `RealTransform`,
  `IstftPlan`, `IstftKernels`, `Lanes`, `IstftAvx2`, `IstftFrame`, `OverlapAdd`,
  `Istft`, `Reconstruction`, `Analysis`, `WindowEnergy`). Arithmetic is over exact
  reals. The tables of cosines and sines are a parameter that obeys the angle-addition
  laws on the grid of 1/n turns; nothing else is assumed of them, except that `Analysis`
  also asks that no power of the n-th root below n is one. The in-place kernels, scalar and
  AVX2, are methods over arrays; the ring of n_fft slots is proved to be overlap-add
  on the full padded signal; analysis followed by synthesis is the identity.
* **HTTP input** (`HttpText`, `HttpMessage`, `HttpRendering`, `HttpParsing`,
  `AsyncHttpParser`, `Fragmentation`, `ChunkedCoding`, `HttpSession`, `BufferBound`).
  The resumable parser is a class over its buffer, specified by a step function. Whole
  sessions are read back as they were sent, in any letter case, with blanks, extensions
  and trailers; when the outcome does not depend on how the bytes are cut into reads is
  given exactly. Chunked transfer coding follows section 7.1 of RFC 9112.
* **Streaming protocol** (`RequestContext`, `StreamProtocol`, `StreamInvariant`,
  `StreamDelivery`, `StreamEndings`, `Fairness`, `Progress`, `Drainage`,
  `Backpressure`, `Cancellation`, `IdleUnload`). Every load, store and critical
  section of the worker thread, the event loop and the idle monitor is one atomic step; all
  results are about every interleaving. The synthesis session is whatever it yields:
  failure, nothing, or one chunk that may be the last.
* **GGUF** (`ByteCodec`, `GgufValue`, `GgufLayout`, `GgufWriter`, `GgufReader`,
  `GgufRoundTrip`, `GgufFormat`, `BlobCoverage`). Writer and reader are classes; their
  round trip covers metadata, tensor descriptions and tensor bytes, and the written
  bytes are given field by field.
* **Audio framing and the web client** (`SampleConversion`, `Wav`, `WavAcceptance`,
  `AudioEncoder`, `Postprocess`, `WebWorker`, `WebProtocol`).

`Wrappers` and `Arith` are shared helpers. `dafny verify dfyconfig.toml` checks the
whole project.

## Where the code differs from what one might expect

* The radix-2 inverse transform reads the imaginary parts of bins 0 and n_fft/2, the
  direct one ignores them. `IstftFrame.KernelsAgree` gives the exact condition.
* The HTTP size guards fire only while a terminator is missing, so a late terminator
  is accepted or refused depending on where the stream is cut.
  `Fragmentation.GuardIsExact` gives the exact condition, `Fragmentation.EveryLimitHasOne`
  a request for every limit.
* A stream whose synthesis fails ends with the normal terminal chunk
  (src/http/async_server.cpp:401-411), so the client cannot tell it from a complete
  one, although the comment at src/http/async_server.cpp:392-398 says a truncated stream is
  how a failure is signalled. `StreamEndings.FailureShowsExactly` says which responses
  tell a failure, with a failed and a complete stream that look the same.
* The cancelled branch of the drain cannot be reached for an open connection
  (`StreamDelivery.NeverEndsCancelled`).
* Idle unload is safe only if the monitor's own re-check is quick as well
  (`IdleUnload.SafeExactly`), and it can strike just as a stream closes when nothing was
  stamped for the length of the timeout (`IdleUnload.CloseSafeExactly`).
* Below 20 Hz the leading trim drops loud samples (`Postprocess.DropsOnlySilenceExactly`);
  before a boundary one millisecond may be trimmed even with a zero or negative budget
  (`Postprocess.BudgetKeptExactly`).
* The coverage check does not look at the bytes of the tail
  (`BlobCoverage.ZeroOutsideExactly`), and a negative dimension in the header defeats it
  (`BlobCoverage.SoundExactly`).
* The comment at src/audio/istft.cpp:20-22 says that a sample lacks window energy only at
  the edges of a short signal. With a hop of a whole frame it happens at every frame start
  (`WindowEnergy.FullHopLosesSamples`).
* No guard bounds a trailer line that has not ended (`BufferBound.BoundedExactly`).
* A failed write and an encoder failure close the connection without cancelling its
  request, which then stays in the scheduler's queue for ever, unless it ends within three
  more chunks (`Cancellation.AbandonedStalls`).
* A worker error with an empty message resolves the promise (`WebProtocol.FailureSeen`).

## Model

| member | source | states |
|---|---|---|
| `Dft.DecimationInTime` | src/audio/istft.cpp:325-332 | the inverse transform of 2h points is the transforms of its even and odd entries, joined by one twiddle per pair of outputs |
| `BitReversal.ReverseInvolution` | src/audio/istft.cpp:113-125 | the index map of the shift loop is its own inverse on b-bit numbers |
| `BitReversal.ReverseFromLow` | src/audio/istft.cpp:115-118 | the shift loop, which builds the reversal from the low bit, agrees with the recurrence from the top bit |
| `BitReversal.PermutedSplits` | src/audio/istft.cpp:109-125 | bit reversal of a power-of-two sequence is the even entries, reversed, then the odd ones, reversed |
| `Fft.StagesComputeTransform` | src/audio/istft.cpp:338-351 | for every size 2^e, running the stages 1, 2, ..., 2^(e-1) over the bit-reversed input gives the full inverse DFT |
| `Fft.AfterEachStage` | src/audio/istft.cpp:338-351 | after the stages up to h, every block of 2h entries is the transform of its decimated subsequence: the even entries' blocks in the first half, the odd entries' in the second, and so on down |
| `Fft.BlockJoins` | src/audio/istft_kernels.h:137-153 | one block of h butterflies joins the transforms of the even and the odd half into the transform of the whole |
| `RealTransform.ExtendedSum` | src/audio/istft.cpp:315-327 | the sum over all n bins of the Hermitian continuation has the direct kernel's accumulator as real part, and only bins 0 and n/2 leave an imaginary part |
| `RealTransform.DirectIsTextbook` | src/audio/istft.cpp:292-314 | every sample of the direct kernel is the real part of the textbook inverse DFT of the Hermitian half-spectrum divided by n, whatever the spectrum |
| `RealTransform.SplitTransform` | src/audio/istft.cpp:315-337 | entry m of the half-length inverse DFT of the split is samples 2m and 2m+1 of the direct kernel, plus exactly what the imaginary parts of bins 0 and n/2 contribute |
| `IstftPlan.CheckedMulAdd` | src/audio/istft.cpp:31-41 | the product and sum exactly when it fits 64 bits, else nothing: the division guard catches every overflow |
| `IstftPlan.Plan.OutputSamples` | src/audio/istft.cpp:168-185 | the padded length, or (frames-1)*hop for a centred plan, or nothing on overflow |
| `IstftPlan.PowerOfTwoBits` | src/audio/istft.cpp:25-27 | the bit trick accepts exactly the powers of two |
| `IstftPlan.Create` | src/audio/istft.cpp:45-166 | accepts exactly the documented configurations; odd or zero sizes, hops out of range and large sizes that are no power of two each get their own error, in that order; fills every table: windows, DFT rows, swap list, packed stage twiddles, split factors |
| `IstftPlan.FillSwaps` | src/audio/istft.cpp:109-125 | the loop stores each exchanged pair of the bit reversal once, lower index first |
| `IstftPlan.FillStages` | src/audio/istft.cpp:127-141 | the twiddle at offset h-1+k is factor k of stage h, for every stage |
| `IstftPlan.FillDirect` | src/audio/istft.cpp:95-107 | row k of the tables holds the cosine and sine of k*i turns of 1/n |
| `IstftPlan.FillSplit` | src/audio/istft.cpp:143-163 | entry k of the split tables is the k-th n-th root, and the two half windows are the even and odd window samples |
| `IstftPlan.SwapListIsBitReversal` | src/audio/istft.cpp:109-125 | running the stored swaps in order permutes any sequence by bit reversal |
| `IstftPlan.SwapListDisjoint` | src/audio/istft.cpp:109-125 | no index occurs in two swaps, and the indices that occur are exactly those bit reversal moves |
| `IstftKernels.GatherStrided` | src/audio/istft_kernels.h:37-42 | the destination is every stride-th source element from the given start |
| `IstftKernels.AddInplace` | src/audio/istft_kernels.h:45-49 | adds a block onto a slice and leaves the rest |
| `IstftKernels.AccumulateRotation` | src/audio/istft_kernels.h:52-58 | adds one bin's rotation to every sample |
| `IstftKernels.WindowScaled` | src/audio/istft_kernels.h:60-67 | scales and windows every sample, also in place |
| `IstftKernels.InterleaveWindowed` | src/audio/istft_kernels.h:70-78 | even samples from the real parts, odd ones from the imaginary parts, each times its own half window |
| `IstftKernels.Normalise` | src/audio/istft_kernels.h:80-88 | divides by the window energy, or zero at or below the threshold, on the given slice only |
| `IstftKernels.HermitianSplit` | src/audio/istft_kernels.h:98-118 | entry k is the split of bins k and half-k |
| `IstftKernels.SwapPairs` | src/audio/istft.cpp:338-345 | the two arrays become the sequence after all swaps of the list |
| `IstftKernels.FftStagePairs` | src/audio/istft_kernels.h:122-133 | the in-place first stage is stage h=1 of the definition |
| `IstftKernels.FftStage` | src/audio/istft_kernels.h:137-153 | the in-place stage equals the stage definition on the complex sequence, for every power-of-two h |
| `Lanes.InterleaveInverse` | src/audio/istft_kernels.h:180-195 | the interleaving store undoes the deinterleaving load, through the unpacks, shuffles and permutes actually used |
| `IstftAvx2.AddInplace` | src/audio/istft_kernels.h:198-207 | same result as the scalar form, with the tail loop |
| `IstftAvx2.AccumulateRotation` | src/audio/istft_kernels.h:209-222 | same result as the scalar form |
| `IstftAvx2.WindowScaled` | src/audio/istft_kernels.h:224-235 | same result as the scalar form |
| `IstftAvx2.InterleaveWindowed` | src/audio/istft_kernels.h:237-250 | same result as the scalar form |
| `IstftAvx2.Normalise` | src/audio/istft_kernels.h:252-267 | the masked division equals the scalar branch on every lane |
| `IstftAvx2.SplitEight` | src/audio/istft_kernels.h:269-300 | eight split entries from a forward load and a reversed mirror load of exactly indices half-k-7 to half-k |
| `IstftAvx2.HermitianSplit` | src/audio/istft_kernels.h:269-305 | same result as the scalar form for every length, tail included |
| `IstftAvx2.EightPairs` | src/audio/istft_kernels.h:309-322 | deinterleave, add, subtract and interleave give the sums and differences of eight adjacent pairs |
| `IstftAvx2.FftStagePairs` | src/audio/istft_kernels.h:309-328 | same result as the scalar pair stage for every power-of-two size |
| `IstftAvx2.EightButterflies` | src/audio/istft_kernels.h:336-350 | eight butterflies at once equal eight scalar butterflies |
| `IstftAvx2.FftStage` | src/audio/istft_kernels.h:330-356 | same result as the scalar stage, through the block loop or the h < 8 fallback |
| `IstftFrame.DirectFrame` | src/audio/istft.cpp:292-314 | the bin-by-bin accumulation writes the windowed direct inverse DFT of the column |
| `IstftFrame.SplitBins` | src/audio/istft.cpp:328-337 | the split with the folded scale writes the split spectrum times 1/n |
| `IstftFrame.RunStages` | src/audio/istft.cpp:347-351 | the stages h = 1, 2, ... with the packed twiddles, in place and with either kernel family, are the staged transform of what the arrays held |
| `IstftFrame.Radix2Frame` | src/audio/istft.cpp:315-358 | split, swaps, stages and interleave write the windowed direct formula plus the contribution of Im of bins 0 and n/2 |
| `IstftFrame.KernelsAgree` | src/audio/istft.cpp:292-359 | the two kernels give the same frame exactly when the imaginary parts of bins 0 and n/2 are zero |
| `OverlapAdd.OverlapSettled` | src/audio/istft.cpp:253-255 | frames that start after a position do not change its sum, so it may be emitted |
| `OverlapAdd.RingAdvance` | src/audio/istft.cpp:236-250 | clearing the slots of an emitted run leaves the ring holding the sums of the next n positions |
| `OverlapAdd.RingAdd` | src/audio/istft.cpp:361-371 | adding a frame at the first live position keeps every slot equal to the sum at its position |
| `OverlapAdd.AddToRing` | src/audio/istft.cpp:361-371 | at most two contiguous additions put the frame into the ring, wrapped |
| `Istft.EmitRun` | src/audio/istft.cpp:233-246 | one run writes exactly the final values of the output samples it covers |
| `Istft.FlushUntil` | src/audio/istft.cpp:229-251 | everything below the pending position is emitted, the ring freed and moved on |
| `Istft.LoadColumn` | src/audio/istft.cpp:257-266 | the column of a strided spectrum, gathered or read directly |
| `Istft.FrameInverse` | src/audio/istft.cpp:257-359 | the frame buffer holds the column's windowed inverse transform |
| `Istft.PrepareBuffers` | src/audio/istft.cpp:225-240 | fresh cleared buffers of the right sizes, whatever the workspace held |
| `Istft.RunFrames` | src/audio/istft.cpp:253-375 | the whole loop leaves every output sample equal to the sum of the windowed frames covering it over the summed squared window |
| `Istft.Istft` | src/audio/istft.cpp:187-376 | every outcome, error or audio, is the reconstruction defined from the tables and the spectrum, with either kernel family and any workspace |
| `Reconstruction.OverlapOfSlices` | src/audio/istft.cpp:361-371 | overlap-adding windowed slices of one signal gives that signal times the accumulated window energy |
| `Reconstruction.ExactReconstruction` | src/audio/istft.cpp:187-376 | if every inverse-transformed column is the windowed slice of one padded signal, each output sample is the signal where the energy exceeds the threshold and zero elsewhere |
| `Reconstruction.CentredLength` | src/audio/istft.cpp:168-185 | a centred plan yields (frames-1)*hop samples |
| `Analysis.InverseOfSpectrum` | src/audio/istft.cpp:292-359 | either inverse kernel recovers a real frame from its forward transform, when no smaller power of the n-th root is one |
| `Reconstruction.AnalysisThenSynthesis` | src/audio/istft.cpp:187-376 | real and imaginary parts of the windowed forward transforms of a signal, laid out in the two buffers with any strides, followed by the reconstruction give the signal back wherever the energy exceeds the threshold, shifted by half a frame when centred |
| `WindowEnergy.EnoughEnergy` | src/audio/istft.cpp:20-22 | if whole hops make half a frame, every sample of a centred plan longer than that has window energy of at least a half |
| `WindowEnergy.EverySampleBack` | src/audio/istft.cpp:187-376 | then analysis followed by synthesis gives back every sample, to the edges |
| `WindowEnergy.FullHopLosesSamples` | src/audio/istft.cpp:20-22 | with a hop of a whole frame the sample at each interior frame start is emitted as zero, whatever the spectrum |
| `HttpText.TrimAscii` | src/http/http_response_writer.h:21-29 | removes blanks from both ends, and nothing else, until none is left there |
| `HttpText.StrippedOnce` | src/http/http_response_writer.h:21-29 | there is only one text without outer blanks that differs from the given one by outer blanks: the trimmed one |
| `HttpText.LowerAscii` | src/http/http_response_writer.h:13-18 | the result has no capitals and is the given text, each capital replaced by the letter 32 places behind it |
| `HttpText.SpellsExactly` | src/http/http_response_writer.h:13-18 | a text spells another in some mixture of cases exactly when that other is its lower-case form |
| `HttpText.HeaderValueHasToken` | src/http/http_response_writer.cpp:17-30 | true exactly when the token, in whatever case, stands in the value between commas, blanks and the ends |
| `HttpText.TokenFound` | src/http/http_response_writer.cpp:17-30 | splitting at commas, trimming and comparing in lower case finds a token exactly when the value mentions it at some place |
| `HttpText.FindInPrefix` | src/http/async_http_parser.cpp:43-50 | a search in a prefix finds what the search in the whole text finds, or nothing if that ends outside the prefix |
| `HttpRendering.RequestLineRoundTrip` | src/http/async_http_parser.cpp:276-302 | a rendered request line gives back its method, path, query and version, spaces inside the target included |
| `HttpRendering.RequestLineExactly` | src/http/async_http_parser.cpp:276-302 | a request line is accepted exactly when it is a rendered one, with just those parts |
| `HttpRendering.FieldsRoundTrip` | src/http/async_http_parser.cpp:87-112 | rendered header fields, with names in any case, blanks around the values and either line ending, are read back as the map of lower-case names to values, later fields replacing earlier ones, when they are at most a hundred, and refused otherwise |
| `HttpRendering.BadFieldRefused` | src/http/async_http_parser.cpp:95-108 | a line without a colon, with an empty name or with another character in its name, behind good fields, is refused with 400 |
| `HttpRendering.RequestRoundTrip` | src/http/async_http_parser.cpp:67-168 | a rendered request is read back whole: line, fields, keep-alive from the version and the connection field, and framing from length or coding, in any letter case and with any blanks; only a length beyond the limit is refused |
| `HttpRendering.KeepAliveSaid` | src/http/async_http_parser.cpp:114-122 | the connection is kept for HTTP/1.1 unless the field mentions close, for HTTP/1.0 only if it mentions keep-alive, in any case and among other tokens |
| `HttpRendering.FramingRead` | src/http/async_http_parser.cpp:124-167 | no field, a length or the chunked coding in any case frame the body as they say; a length is refused exactly when it exceeds the limit |
| `HttpRendering.CodingExactly` | src/http/async_http_parser.cpp:124-140 | a transfer coding is accepted exactly when it is chunked alone, in any case; another is refused with 501, and one beside a length with 400 |
| `HttpRendering.LengthForms` | src/http/async_http_parser.cpp:142-160 | a decimal Content-Length, perhaps with a plus sign and leading zeros, is accepted exactly when it is within the body limit; past 64 bits it saturates |
| `HttpMessage.HexAppend` | src/http/async_http_parser.cpp:199-209 | appends a digit; refuses as too large exactly when the value would exceed 64 bits, as malformed exactly when the character is no digit |
| `HttpParsing.StepOf` | src/http/async_http_parser.cpp:40-65 | one step consumes something or waits or fails, and keeps the body within the limit |
| `HttpParsing.NextOf` | src/http/async_http_parser.cpp:40-65 | a call terminates, and the body of a finished request never exceeds the limit |
| `BufferBound.LeftIsBounded` | src/http/async_http_parser.cpp:40-65 | when a call asks for more, the bytes left waiting are within the header limit or the body limit and one byte, except in a trailer line that has not ended |
| `BufferBound.BoundedExactly` | src/http/async_http_parser.cpp:40-65 | a state bounds what it lets wait exactly when it is not that of the trailer |
| `BufferBound.NoCeiling` | src/http/async_http_parser.cpp:235-240 | so for all limits there is a stream that leaves any given number of bytes waiting |
| `BufferBound.OverlongRefused` | src/http/async_http_parser.cpp:43-50 | a header or trailer block longer than the header limit that has not ended is refused with 431, such a size line with 400 |
| `BufferBound.NoRequestLine` | src/http/async_http_parser.cpp:67-85 | a header block whose first line is not a rendered request line is refused with 400 |
| `AsyncHttpParser.AsyncHttpRequestParser.Next` | src/http/async_http_parser.cpp:40-65 | the result, the new state and the remaining buffer are those of the step machine |
| `AsyncHttpParser.AsyncHttpRequestParser.ParseHeaders` | src/http/async_http_parser.cpp:67-168 | a header block moves the machine as its meaning says |
| `AsyncHttpParser.AsyncHttpRequestParser.ReadHead` | src/http/async_http_parser.cpp:67-133 | request line, header lines and framing in the order the code checks them |
| `AsyncHttpParser.AsyncHttpRequestParser.ReadHeaderLines` | src/http/async_http_parser.cpp:87-112 | the line loop computes the header map or the first error |
| `AsyncHttpParser.AsyncHttpRequestParser.ParseFixedBody` | src/http/async_http_parser.cpp:170-176 | the body is taken whole or nothing happens |
| `AsyncHttpParser.AsyncHttpRequestParser.ParseChunkSize` | src/http/async_http_parser.cpp:178-221 | mutual recursion with the data state terminates on the buffer length and follows the machine |
| `AsyncHttpParser.AsyncHttpRequestParser.ReadChunkSize` | src/http/async_http_parser.cpp:190-210 | the digit loop gives the size or the first error |
| `AsyncHttpParser.AsyncHttpRequestParser.ParseChunkData` | src/http/async_http_parser.cpp:223-233 | a whole chunk is appended, or nothing, or the missing terminator is refused |
| `AsyncHttpParser.AsyncHttpRequestParser.ParseChunkTrailer` | src/http/async_http_parser.cpp:235-254 | empty trailers, trailers up to a blank line, or waiting |
| `AsyncHttpParser.Replay` | src/http/async_server.cpp:478-503 | the parser object driven by any schedule of reads and calls gives the outcome of the schedule; for a guarded stream that is the outcome of the whole stream |
| `Fragmentation.StepOnPrefix` | src/http/async_http_parser.cpp:40-65 | on a prefix of the stream a step does what it does on the whole, or waits, or both fail alike |
| `Fragmentation.CallOnPrefix` | src/http/async_http_parser.cpp:40-65 | one call on what has arrived takes the whole stream exactly as far as it gets |
| `Fragmentation.AnyCutAgrees` | src/http/async_http_parser.cpp:40-65 | however the stream is cut and whenever the parser is asked, the requests, keep-alive flags, first error and leftover bytes are those of the whole stream, if every terminator comes within the limit |
| `Fragmentation.FailsEarly` | src/http/async_http_parser.cpp:44-48 | where a terminator comes too late, cutting just before its end makes the parser fail with more bytes left over |
| `Fragmentation.GuardIsExact` | src/http/async_http_parser.cpp:44-48 | the outcome is independent of the cutting exactly when at every step the terminator, if the stream has it, ends at most one byte past the header limit |
| `Fragmentation.LongRequest` | src/http/async_http_parser.cpp:43-50 | a valid request line longer than the header limit is accepted when it comes whole with its blank line, and its outcome depends on the cutting |
| `Fragmentation.EveryLimitHasOne` | src/http/async_http_parser.cpp:43-50 | for every limit there is such a request, and its outcome on the whole stream is one finished request |
| `HttpSession.MessageRoundTrip` | src/http/async_http_parser.cpp:40-254 | a whole rendered request, with no body, a fixed body or a chunked one with size lines in any case, extensions and trailers, is read back with its body, and what follows is untouched |
| `HttpSession.SessionRoundTrip` | src/http/async_server.cpp:478-503 | any sequence of rendered requests is read back in order, with the keep-alive flags, and nothing is left |
| `HttpSession.SessionUnderAnyCutting` | src/http/async_http_parser.cpp:40-65 | that is so under every cutting into reads exactly when every header block, size line and trailer is within the header limit |
| `ChunkedCoding.HexRoundTrip` | src/http/async_http_parser.cpp:190-210 | hexadecimal digits of a size, in either case and with leading zeros, give the number back, or report that it cannot fit 64 bits |
| `ChunkedCoding.SizeAnnounced` | src/http/async_http_parser.cpp:178-210 | a size line with blanks and an extension gives the number its digits spell |
| `ChunkedCoding.AppendHttpChunk` | src/http/http_response_writer.cpp:62-69 | appends size, data and line breaks |
| `ChunkedCoding.AppendFinalHttpChunk` | src/http/http_response_writer.cpp:71-73 | what is appended completes any chunked request and leaves what follows untouched |
| `ChunkedCoding.ReadLastChunk` | src/http/async_http_parser.cpp:178-254 | the terminal chunk that the writer appends completes the request and leaves what follows untouched |
| `ChunkedCoding.ReadChunk` | src/http/async_http_parser.cpp:178-233 | reading one chunk, its size line in any accepted form, appends its data to the body, or refuses it when it is too long |
| `ChunkedCoding.DataUnbroken` | src/http/async_http_parser.cpp:223-233 | data that is not followed by a line break is refused with 400 |
| `ChunkedCoding.TrailerRead` | src/http/async_http_parser.cpp:235-254 | trailer lines up to the blank line complete the request and are dropped |
| `ChunkedCoding.PiecesRoundTrip` | src/http/async_http_parser.cpp:178-254 | any list of chunks, a last size line and a trailer give the concatenated data and leave what follows untouched, exactly when it fits the body limit; otherwise the body is refused with 413 |
| `ChunkedCoding.ChunksRoundTrip` | src/http/async_http_parser.cpp:178-254 | so does any list of nonempty chunks as the server writes them, with its terminal chunk |
| `RequestContext.Context.TryPop` | src/http/request_context.h:91-100 | gives the oldest chunk, if any, and takes the pop step of the protocol; the flag keeps telling whether the queue holds anything |
| `RequestContext.Context.OutputHasRoom` | src/http/request_context.h:103-106 | room exactly when the queue keeps its bound whatever is pushed next |
| `StreamDelivery.RoomLasts` | src/http/synthesis_scheduler.cpp:153-190 | the room the worker found is still there when it pushes, in every run, although checking and pushing are separate critical sections |
| `RequestContext.Context.PushAudio` | src/http/request_context.h:109-113 | takes the push step of the protocol |
| `StreamInvariant.StepKeeps` | src/http/async_server.cpp:342-428 | every enabled step of either thread keeps the invariant |
| `StreamInvariant.EveryRun` | src/http/synthesis_scheduler.cpp:84-205 | the invariant holds after every interleaving of worker and event loop |
| `StreamInvariant.StreamGrows` | src/http/async_server.cpp:376-391 | one more chunk adds its HTTP chunk to the stream, if it has any bytes |
| `StreamDelivery.FinishedStream` | src/http/async_server.cpp:360-428 | in every interleaving a finished PCM stream was given the head, one HTTP chunk for every chunk pushed, in order, and exactly one terminal chunk; sent plus buffered bytes are all of it while the connection is open |
| `StreamDelivery.OnlyTheStream` | src/http/async_server.cpp:360-428 | at every moment a PCM client has received a beginning of that stream, or of the error response, and nothing else |
| `StreamDelivery.FinishedFile` | src/http/async_server.cpp:856-886 | a finished WAV response is the success with the file of every sample pushed, in order, field by field, or the error response when they do not fit or the synthesis failed |
| `StreamDelivery.NeverEndsCancelled` | src/http/async_server.cpp:360-428 | an open streaming connection's request is never cancelled, so the drain's cancelled branch is dead, and a stream only ends for the life its request really has |
| `StreamDelivery.OnePlace` | src/http/synthesis_scheduler.cpp:84-205 | every unfinished request is once in the queue or in the worker's hand, a finished one in neither, and at most three chunks wait |
| `StreamDelivery.LifeOnlyAdvances` | src/http/synthesis_scheduler.cpp:84-205 | no step leaves a terminal state, pushes after it, takes back a pushed chunk or forgets a cancellation |
| `StreamDelivery.ConcatOfBodies` | src/http/async_server.cpp:376-391 | the streamed bodies concatenate to the bytes of all samples, empty chunks included |
| `StreamDelivery.ClientDecodes` | src/http/async_server.cpp:360-428 | a client that has read a finished PCM stream and decodes it gets the four bytes of every sample pushed, in order, and nothing is left |
| `StreamEndings.FailureShowsExactly` | src/http/async_server.cpp:401-424 | a response that begins as a success belongs to a request that is done, in every run, exactly for WAV; for a PCM stream there are a failed and a complete run with the same bytes |
| `StreamEndings.WavStatus` | src/http/async_server.cpp:856-886 | a WAV response begins as a success exactly when the request is done and its samples fit a file |
| `StreamEndings.FailedRun` | src/http/async_server.cpp:401-411 | a run in which the synthesis fails and the PCM client gets the head and the normal terminal chunk |
| `Fairness.FirstInFirstOut` | src/http/synthesis_scheduler.cpp:84-99 | over any run, turns taken followed by the final queue are the initial queue followed by the arrivals |
| `Fairness.TakenInPosition` | src/http/synthesis_scheduler.cpp:84-99 | a request at position p is the (p+1)-th taken, whatever is submitted meanwhile |
| `Fairness.ArrivalsWhileHeld` | src/http/synthesis_scheduler.cpp:153-158 | until the held request is put back only new requests arrive, numbered consecutively |
| `Fairness.BetweenTurns` | src/http/synthesis_scheduler.cpp:153-203 | between two turns of a request exactly the requests waiting when its first turn began, then those submitted during that turn, take one turn each, in order |
| `Fairness.AtMostOneTurn` | src/http/synthesis_scheduler.cpp:153-203 | no request gets two turns between two turns of another |
| `Progress.EveryTurnAccounted` | src/http/synthesis_scheduler.cpp:153-203 | in every run each turn of a waiting request pushed one chunk or was spoilt by back-pressure; a finished one took at most one turn more |
| `Progress.FinishedInTurns` | src/http/synthesis_scheduler.cpp:153-203 | a session of k chunks is finished after k turns that back-pressure did not spoil, whatever else happens |
| `Progress.RefusedOnlyWhenFull` | src/http/synthesis_scheduler.cpp:153-158 | a turn is spoilt only while MAX_PENDING chunks wait for the event loop |
| `Progress.WorkerGoesOn` | src/http/synthesis_scheduler.cpp:84-205 | the worker is never stuck while a request is unfinished |
| `Drainage.EndedInPasses` | src/http/async_server.cpp:360-424 | once a request is finished, as many drain passes with an emptied buffer as it has chunks waiting, and one more, end its stream unless it is closed before; that is at most MAX_PENDING + 1 |
| `Backpressure.BufferBounded` | src/http/async_server.cpp:370-391 | in every run the write buffer of a connection holds at most the high-water mark of 256 KiB and one more piece |
| `Backpressure.ClosedWhenSent` | src/http/async_server.cpp:505-525 | in every run a response that is being finished has bytes left to write; it is closed with the last of them |
| `Cancellation.CancelledExactly` | src/http/async_server.cpp:460-475 | a request is cancelled exactly when its client has disconnected or its stream could not be started |
| `Cancellation.StopsAfterCancel` | src/http/synthesis_scheduler.cpp:101-165 | once cancelled, a request gets one more chunk if the worker was already inferring or pushing it, and no other |
| `Cancellation.NeverWorkedOnAgain` | src/http/synthesis_scheduler.cpp:101-105 | a cancelled request that waits for its turn gets no further chunk, and when it ends, it ends as cancelled |
| `Cancellation.AbandonedStalls` | src/http/async_server.cpp:401-409 | a request whose connection is closed without cancelling it is never cancelled nor drained, and gets at most as many chunks as fill its queue of three, in every run |
| `IdleUnload.CountedAndJoined` | src/http/async_server.cpp:912-925 | the stream counter is always the number of open streams, and the model is never freed before its worker has been joined |
| `IdleUnload.WorkerLifecycle` | src/http/async_server.cpp:226-264 | in every run the worker stops only when asked, is joined only after it has left, and is started only where there is none; the model goes only when there is none |
| `IdleUnload.MonitorRests` | src/http/async_server.cpp:226-264 | after at most seventeen of its own events the monitor is at rest and has released the lifecycle lock; it waits for nothing but the worker to leave |
| `IdleUnload.EveryRunWatched` | src/http/async_server.cpp:226-264 | in every timely run with dispatch and re-check together shorter than the timeout, a model in use stays loaded and any re-check of it is recent |
| `IdleUnload.SafeExactly` | src/http/async_server.cpp:226-264 | no unload happens during a dispatch or an open stream, in any timely run, exactly when a dispatch and the monitor's re-check together take less than the idle timeout |
| `IdleUnload.UnloadsUnderAStream` | src/http/async_server.cpp:246-262 | otherwise there is a run in which the monitor is unloading while a stream is open, even with short dispatches |
| `IdleUnload.CloseSafeExactly` | src/http/async_server.cpp:912-925 | no unload goes on between a stream's end and the stamp of that end, in any timely run, exactly when the last activity before a close is always younger than the timeout, however long dispatches and re-checks take |
| `IdleUnload.UnloadsAsAStreamCloses` | src/http/async_server.cpp:912-925 | otherwise there is a run that unloads in the very moment a stream closes, because the counter drops before the activity stamp |
| `ByteCodec.LittleEndianRoundTrip` | tools/convert_sanotts_to_gguf.py:236-238 | k little-endian bytes give back every number that fits them |
| `GgufValue.ValueBack` | tools/gguf_info.py:116-128 | the reader reads back every typed value from its encoding, nested arrays included, and stops at its end |
| `GgufLayout.AlignUpBounds` | tools/convert_sanotts_to_gguf.py:119-120 | rounding up gives the next multiple, less than one alignment away |
| `GgufRoundTrip.ValueIsEncoded` | tools/convert_sanotts_to_gguf.py:240-270 | whatever the writer emits for a value is that value's encoding for its type |
| `GgufRoundTrip.EntryBack` | tools/gguf_info.py:145-148 | a written pair is read back |
| `GgufRoundTrip.InfoBack` | tools/gguf_info.py:151-158 | a written tensor description is read back |
| `GgufRoundTrip.FileRoundTrip` | tools/gguf_info.py:131-162 | reading a written file gives the same pairs, tensor descriptions and data start |
| `GgufRoundTrip.WriteThenRead` | tools/convert_sanotts_to_gguf.py:293-312 | the reader accepts whatever the writer emits: same metadata, last value of a repeated key, same tensors in order, the dimensions reversed, and each element's bytes, lowest first, at the data start plus the tensor's aligned offset |
| `GgufRoundTrip.TensorRanges` | tools/convert_sanotts_to_gguf.py:272-285 | offsets are aligned, tensor ranges are disjoint and in order, and lie inside the data section |
| `GgufRoundTrip.SizeRead` | tools/gguf_info.py:164-171 | the size the reader computes from dimensions and type is the number of bytes written |
| `GgufRoundTrip.BlocksCounted` | tools/gguf_info.py:77-171 | a tensor of k whole blocks takes k times the bytes of a block of its type |
| `GgufRoundTrip.ProductOfShapes` | tools/gguf_info.py:77-81 | the number of elements is the product of the dimensions, one without any |
| `GgufFormat.ValueFormat` | tools/convert_sanotts_to_gguf.py:240-270 | the bytes emitted for a value, by the numbers of the types: little-endian numbers and floats, one byte for a truth value, texts behind their length, arrays behind item type and number |
| `GgufFormat.EntryFormat` | tools/convert_sanotts_to_gguf.py:240-270 | a pair is the key behind its length, the type, and the value |
| `GgufFormat.InfoFormat` | tools/convert_sanotts_to_gguf.py:272-285 | a tensor description is the name behind its length, the number of dimensions, the dimensions with the innermost first, the type and the offset |
| `GgufFormat.ValueWritten` | tools/convert_sanotts_to_gguf.py:240-270 | a value can be written exactly when it is in the range of its type |
| `GgufFormat.WrittenExactly` | tools/convert_sanotts_to_gguf.py:293-312 | a file is written exactly when its counts, its pairs and its descriptions are within the ranges of their fields |
| `GgufFormat.IntegerRead` | tools/gguf_info.py:94-128 | every integer type is read from its number of bytes, to the value in its range that is congruent to them |
| `GgufFormat.FloatRead` | tools/gguf_info.py:116-128 | types 6 and 12 are the bits of four and of eight bytes, and any type beyond 12 is refused |
| `GgufFormat.DataStartAligned` | tools/gguf_info.py:159-162 | the data start the reader reports is a multiple of the alignment in the file, or of 32 if it names none |
| `GgufReader.Reader.Value` | tools/gguf_info.py:116-128 | the recursive read with its cursor, and every error, as the value parse defines it |
| `GgufReader.Reader.Items` | tools/gguf_info.py:122-125 | the item loop reads exactly the announced number of values |
| `GgufReader.LoadEntries` | tools/gguf_info.py:144-148 | the pair loop builds the dictionary with the last value of every key |
| `GgufReader.LoadInfos` | tools/gguf_info.py:150-158 | the tensor loop reads all descriptions or the first error |
| `GgufReader.Load` | tools/gguf_info.py:132-162 | the whole file or the first error, for any bytes |
| `GgufWriter.GgufWriter.AddU32` | tools/convert_sanotts_to_gguf.py:160-163 | adds the pair exactly when the value fits 32 bits |
| `GgufWriter.GgufWriter.AddF32Array` | tools/convert_sanotts_to_gguf.py:180-185 | adds the array exactly when every value is finite |
| `GgufWriter.GgufWriter.AddU32Array` | tools/convert_sanotts_to_gguf.py:187-192 | adds the array exactly when every value fits 32 bits |
| `GgufWriter.GgufWriter.PhysicalName` | tools/convert_sanotts_to_gguf.py:212-233 | the logical name if short and free, else its hash; fails exactly on a collision; the name given is new |
| `GgufWriter.GgufWriter.AddTensor` | tools/convert_sanotts_to_gguf.py:196-210 | appends the tensor exactly when it is nonempty, finite, in range for 16 bits and nameable; physical names stay distinct |
| `GgufWriter.GgufWriter.KvBytes` | tools/convert_sanotts_to_gguf.py:240-270 | packs all pairs in order, or the first error |
| `GgufWriter.GgufWriter.TensorInfoBytes` | tools/convert_sanotts_to_gguf.py:272-285 | assigns every tensor its aligned offset and packs all descriptions |
| `GgufWriter.GgufWriter.DataBytes` | tools/convert_sanotts_to_gguf.py:304-308 | each tensor's bytes at its offset, zeros between |
| `GgufWriter.GgufWriter.Write` | tools/convert_sanotts_to_gguf.py:293-312 | emits exactly the defined file, or the first error; it begins with GGUF, version 3 and the two counts, and whatever it emits the reader reads back, with the alignment and both lists of names |
| `GgufWriter.OwnAlignment` | tools/gguf_info.py:160-162 | the alignment the reader finds is the writer's, whatever pairs were added before |
| `GgufWriter.OwnPairsFound` | tools/convert_sanotts_to_gguf.py:293-300 | the reader finds the writer's alignment and its lists of logical and of physical names, whatever pairs were added before |
| `GgufWriter.KeysSpell` | tools/convert_sanotts_to_gguf.py:293-300 | the keys of the writer's own pairs, by their letters |
| `BlobCoverage.BlobReader.ClaimRange` | tools/convert_sanotts_to_gguf.py:2149-2156 | records a range exactly when it does not start before the blob or end behind it, negative counts included, and returns its bytes |
| `BlobCoverage.BlobReader.CheckCoverage` | tools/convert_sanotts_to_gguf.py:2184-2210 | the cursor loop gives the verdict of the walk over the sorted ranges |
| `BlobCoverage.OrderOfClaimsIsIrrelevant` | tools/convert_sanotts_to_gguf.py:2188-2188 | the same ranges claimed in another order get the same verdict, error included |
| `BlobCoverage.AcceptsExactly` | tools/convert_sanotts_to_gguf.py:2184-2210 | the check accepts exactly when the ranges are pairwise apart, each follows an earlier-starting one or the start by fewer than 16 zero bytes, and the last ends in the final 16-byte block |
| `BlobCoverage.EveryByteAccountedFor` | tools/convert_sanotts_to_gguf.py:2184-2210 | after acceptance of ranges without negative counts every byte is in exactly one range, or is a zero in a gap shorter than 16, or is in a tail shorter than 16 |
| `BlobCoverage.SoundExactly` | tools/convert_sanotts_to_gguf.py:2149-2210 | acceptance accounts for every byte, for all blobs and ranges, exactly when no count may be negative |
| `BlobCoverage.NegativeCount` | tools/convert_sanotts_to_gguf.py:2149-2210 | a range of -1 bytes lets an unclaimed nonzero byte pass |
| `BlobCoverage.ZeroOutsideExactly` | tools/convert_sanotts_to_gguf.py:2184-2210 | in every accepted blob of a given size all bytes outside these ranges are zero, exactly when the last range reaches the end or these ranges are never accepted |
| `Wav.PutHeader` | src/core/wav.cpp:161-173 | the pointer writes leave exactly the 44-byte header |
| `Wav.TagsSpell` | src/core/wav.cpp:161-173 | the tags of the chunks spell RIFF, WAVE, fmt and data |
| `SampleConversion.LaneIsScalar` | src/core/wav.cpp:56-131 | the eight-wide conversion, which clamps in the other order and saturates, gives the scalar result, and the saturation is never needed |
| `SampleConversion.ConversionFaithful` | src/core/wav.cpp:56-63 | within full scale a sample is off by at most half a step, louder ones become full scale, sign and order are kept |
| `Wav.PcmToS16` | src/core/wav.cpp:74-131 | every sample in order behind the header, clamped and rounded to the nearest 16-bit integer, through the eight-wide loop and the tail |
| `Wav.WavBytes` | src/core/wav.cpp:136-176 | the complete file exactly when its sizes fit 32 bits, with every header field and every sample as a signed 16-bit number in its place |
| `Wav.Parse` | src/core/wav.cpp:211-261 | an accepted data range lies inside the buffer; one channel or more, a positive rate and 16 or 32 bits |
| `Wav.WavParse` | src/core/wav.cpp:211-261 | the chunk walk terminates on every buffer and computes the parse |
| `Wav.WrittenThenParsed` | src/core/wav.cpp:136-261 | the parser accepts every written file with the same rate, one channel, 16 bits, data offset 44 and size 2n, and the data are the converted samples |
| `Wav.PayloadExactly` | src/core/wav.cpp:74-131 | the payload is every sample's 16-bit number, lowest byte first, in order |
| `WavAcceptance.FmtRead` | src/core/wav.cpp:222-231 | sixteen bytes made of a tag, channels, rate, byte rate, block size and width are read as those values |
| `WavAcceptance.AcceptedExactly` | src/core/wav.cpp:211-261 | a file with a fmt and a data chunk, others before and between, odd ones padded, is accepted exactly when its format is 16 or 32-bit integers or 32-bit floats with a channel and a positive rate, with just those values and the data that is there |
| `WavAcceptance.ReversedAccepted` | src/core/wav.cpp:211-261 | so is a file whose fmt chunk follows its data chunk |
| `AudioEncoder.AudioEncoder.Start` | src/audio/audio_encoder.cpp:56-82 | succeeds exactly when already started or when rate, build and header allow it, and names the first obstacle otherwise |
| `AudioEncoder.StartErrorExactly` | src/audio/audio_encoder.cpp:56-82 | which of rate, build and header stops the start, each exactly |
| `AudioEncoder.AudioEncoder.ReleasePrebuffered` | src/audio/audio_encoder.cpp:138-144 | hands every held block to the sink, in order; its error is the first error of a sink that is given all blocks |
| `AudioEncoder.AudioEncoder.Push` | src/audio/audio_encoder.cpp:103-157 | nothing pushed is lost, repeated or reordered between sink, prebuffer and accumulator; PCM comes out at once, four bytes a sample in memory order; says when and how it fails |
| `AudioEncoder.AudioEncoder.Finish` | src/audio/audio_encoder.cpp:159-202 | yields the WAV file of everything pushed exactly when it fits, or has handed everything to the Opus sink and drained it, or gives the first error; an unsuccessful end leaves the sink with all that was pushed exactly when nothing was held back |
| `AudioEncoder.Encode` | src/audio/audio_encoder.cpp:103-202 | output and error of a whole recording: for PCM the four bytes of every sample and for WAV the file of all samples, however they are cut; for Opus a function of the nonempty blocks, never of what is held back or marked as final |
| `ByteCodec.RawBytesExactly` | src/audio/audio_encoder.cpp:119-123 | the PCM payload is four bytes a sample, each sample's own bytes in their order |
| `Postprocess.AnyAboveThreshold` | src/audio/audio_postprocess.cpp:22-42 | true exactly when the range has a loud sample, through the eight-wide loop and the tail |
| `Postprocess.ScanTrailingEdge` | src/audio/audio_postprocess.cpp:63-81 | the block scan finds the edge of the sample-by-sample backward scan |
| `Postprocess.ScanLeadingEdge` | src/audio/audio_postprocess.cpp:46-57 | the window at the edge has a loud sample, and no earlier multiple of the step starts such a window |
| `Postprocess.PostprocessChunk` | src/audio/audio_postprocess.cpp:260-305 | a contiguous slice of the input followed by the boundary pause in zeros |
| `Postprocess.KeptExactly` | src/audio/audio_postprocess.cpp:264-290 | the leading cut ends at the first loud window and is skipped for the first chunk; the trailing cut takes silence only, and all of it within a budget that a boundary halves but not below a millisecond |
| `Postprocess.PauseExactly` | src/audio/audio_postprocess.cpp:236-300 | which setting gives the pause behind a chunk; none behind the last or without a boundary |
| `Postprocess.WithinBudgets` | src/audio/audio_postprocess.cpp:270-290 | the cuts respect the leading and trailing budgets at every rate |
| `Postprocess.BudgetKeptExactly` | src/audio/audio_postprocess.cpp:270-290 | neither cut exceeds the configured budget, for all inputs, exactly when the budget is positive, or nothing is trimmed, or no boundary follows, or a millisecond is no sample |
| `Postprocess.DroppedIsSilent` | src/audio/audio_postprocess.cpp:270-290 | at rates of at least 20 Hz every dropped sample is at or below the threshold |
| `Postprocess.LowRatesDropSound` | src/audio/audio_postprocess.cpp:50-57 | between 1 and 19 Hz the window is empty and a loud sample is dropped |
| `Postprocess.DropsOnlySilenceExactly` | src/audio/audio_postprocess.cpp:270-290 | only silence is dropped, for all inputs, exactly at rates of at least 20 Hz or rates that are none |
| `Postprocess.FusedIsChained` | src/audio/audio_postprocess.cpp:204-230 | the fused trim equals the public leading trim, skipped for the first chunk, followed by the trailing one, with half the milliseconds before a boundary |
| `Postprocess.ApplyCrossfade` | src/audio/audio_postprocess.cpp:94-182 | the blended region, eight-wide and tail, between the untouched parts; plain concatenation when too short |
| `Postprocess.BlendStaysBetween` | src/audio/audio_postprocess.cpp:127-172 | the blend starts on the old chunk, ends on the new one in equal steps, and never leaves the interval between them |
| `WebWorker.Kokopop.OnMessage` | web/index.js:31-43 | settles the pending promise of the reply, if there is one |
| `WebWorker.Kokopop.TerminateWorker` | web/index.js:49-57 | rejects every pending promise once and closes |
| `WebWorker.Kokopop.MakeRequest` | web/index.js:59-75 | a promise and a message, or an immediate rejection |
| `WebWorker.Kokopop.SynthesizeText` | web/index.js:120-125 | refused once disposing |
| `WebWorker.Kokopop.DisposeAll` | web/index.js:127-137 | one disposal request; later calls reuse it |
| `WebProtocol.EveryRun` | web/index.js:28-75 | the protocol invariant holds over all interleavings of calls, messages, failures and disposal |
| `WebProtocol.SettledOnce` | web/index.js:28-75 | every promise is pending and unsettled, or settled exactly once |
| `WebProtocol.AnswersInOrder` | web/worker.js:55-64 | replies are delivered in the order of their requests |
| `WebProtocol.OrderlyDisposal` | web/index.js:127-137 | without worker failures, a settled disposal means that every promise has settled and none was terminated |
| `WebProtocol.FailureSeen` | web/index.js:37-42 | a failure reported by the worker rejects the promise exactly when its message is not empty |

## Left out

- Floating-point rounding and the bit-exactness claims between kernels: reals are exact, the value of a 32-bit float and the conversion to half floats are parameters.
- The NEON kernels of src/audio/istft_kernels.h: the same loops four lanes wide.
- 32-bit wrap-around of n_fft and hop: sizes are unbounded naturals; only the 64-bit overflow check of the lengths is modelled.
- IstftAvx2.Normalise: a lane at or below the threshold divides by a value that may be zero; the model gives such a masked lane the quotient 0.
- Sockets, poll, accept limits and the connection idle sweep: a write consumes some prefix of the buffer.
- Text encodings: HTTP bytes are characters, GGUF strings are their UTF-8 bytes, so decoding with replacement is not modelled.
- JSON bodies, routes, the blocking HTTP server; of response heads only the status line is given, the rest is a parameter, with one error text for each kind of failure.
- Encoder failures in mid-stream: the encoder's own failure is modelled for PCM only, closing the connection at once rather than at the end of the loop's pass; Opus bytes are not modelled.
- Termination of the scheduler without a reading client: such a request is put back for ever, so `Progress` counts the turns that back-pressure did not spoil; nothing is claimed after `stop()`.
- The Opus encoder is a sink that takes samples and may fail; its pages and its null-pointer checks are left out.
- GgufLayout.SizeOf: sizes of tensors of unknown type, which the reader takes from the next offset, are not modelled.
- GgufLayout.AlignmentOf: an alignment that is not an integer is an error here; Python would try to convert it.
- Python's recursion limit on deeply nested arrays, and floats that do not fit 32 bits.
- BlobCoverage.BlobReader.ClaimRange: what the caller does with the bytes is left out, with it the zero check of row padding and any failure to decode the bytes of a negative count.
- Wav.WavParse: fields filled in before a rejection are not returned, and the buffer is never null.
- Converter rules, voice tables, K-quants, hash strength, the phonemizers, tensor graphs, backends, bindings and the command line: outside the modelled parts or long lists of one-branch checks.
- Pause lengths: the factor 0.7 for strong clauses is a parameter.
- Web model download, backend choice and voices: only the request and reply protocol is modelled; a failed or aborted load counts as a fault.
