/** What the worker and the event loop share. */
module RequestContext {
  import opened Wrappers
  import opened ByteCodec

  datatype AudioChunk = AudioChunk(samples: seq<Float32>, chunkIndex: nat)

  datatype Life = Preparing | Inferring | Done | Failed | Cancelled

  predicate Terminal(life: Life) {
    life.Done? || life.Failed? || life.Cancelled?
  }

  /** Chunks that may wait in the output queue before the worker holds back. */
  const MAX_PENDING: nat := 3

  datatype Format = Pcm | Wav

  /** A request as both threads see it; `pushed` is the history of its queue. */
  datatype Request = Request(
    format: Format, life: Life, cancelled: bool, output: seq<AudioChunk>, pushed: seq<AudioChunk>)

  // The critical sections of the queue's lock.

  predicate HasRoom(q: Request) {
    |q.output| < MAX_PENDING
  }

  function Pushed(q: Request, chunk: AudioChunk): Request {
    q.(output := q.output + [chunk], pushed := q.pushed + [chunk])
  }

  function Popped(q: Request): Request
    requires q.output != []
  {
    q.(output := q.output[1..])
  }

  class Context {
    const format: Format
    var life: Life
    var cancelled: bool
    var outputHasData: bool
    var output: seq<AudioChunk>
    ghost var pushed: seq<AudioChunk>

    /** The flag tells whether the queue holds anything. */
    ghost predicate Valid()
      reads this
    {
      outputHasData == (output != [])
    }

    /** The request this object holds. */
    ghost function Value(): Request
      reads this
    {
      Request(format, life, cancelled, output, pushed)
    }

    constructor (format: Format)
      ensures Valid() && Value() == Request(format, Preparing, false, [], [])
    {
      this.format := format;
      life, cancelled, outputHasData, output, pushed := Preparing, false, false, [], [];
    }

    /** The oldest waiting chunk, if any. */
    method TryPop() returns (chunk: Option<AudioChunk>)
      requires Valid()
      modifies this`output, this`outputHasData
      ensures Valid() && outputHasData == (output != [])
      ensures chunk == if old(output) == [] then None else Some(old(output)[0])
      ensures Value() == if old(output) == [] then old(Value()) else Popped(old(Value()))
    {
      if output == [] {
        return None;
      }
      chunk := Some(output[0]);
      output := output[1..];
      if output == [] {
        outputHasData := false;
      }
    }

    /** Room means that the queue keeps its bound, whatever is pushed next. */
    method OutputHasRoom() returns (room: bool)
      ensures room == HasRoom(Value())
      ensures room <==> forall chunk: AudioChunk :: |Pushed(Value(), chunk).output| <= MAX_PENDING
    {
      assert |Pushed(Value(), AudioChunk([], 0)).output| == |output| + 1;
      room := |output| < MAX_PENDING;
    }

    method PushAudio(samples: seq<Float32>, chunkIndex: nat)
      requires Valid()
      modifies this`output, this`outputHasData, this`pushed
      ensures Valid() && outputHasData && Value() == Pushed(old(Value()), AudioChunk(samples, chunkIndex))
    {
      output := output + [AudioChunk(samples, chunkIndex)];
      pushed := pushed + [AudioChunk(samples, chunkIndex)];
      outputHasData := true;
    }
  }
}
