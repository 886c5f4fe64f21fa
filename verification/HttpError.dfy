/** How raw responses become errors, as far as the retry decision can tell them apart. */
module HttpError {
  import opened Options
  import opened Config

  /** One error of a chain of sources. */
  datatype Cause =
    | Throttled(retryAfter: Option<nat>)
    | Unavailable
    | RawClient
    | Remote(status: nat)
    | RequestBody
    | Other

  datatype Kind = ServiceKind | ThrottleKind | UnavailableKind

  /** `cause` is the error's cause and `sources` the sources behind it. */
  datatype Error = Error(kind: Kind, cause: Cause, sources: seq<Cause>)

  datatype Outcome = Ok(status: nat) | Err(error: Error)

  /** What the layers below answer; `retryAfter` is the header's value in nanoseconds if it parses. */
  datatype Answer = Response(status: nat, retryAfter: Option<nat>) | Failure(error: Error)

  predicate IsSuccess(status: nat) {
    200 <= status < 300
  }

  function Classify(qos: ServerQos, answer: Answer): Outcome {
    match answer
    case Failure(e) => Err(e)
    case Response(status, retryAfter) =>
      if IsSuccess(status) then Ok(status)
      else if status == 429 then
        Err(Error(if qos.AutomaticRetry? then ServiceKind else ThrottleKind, Throttled(retryAfter), []))
      else if status == 503 then
        Err(Error(if qos.AutomaticRetry? then ServiceKind else UnavailableKind, Unavailable, []))
      else
        Err(Error(ServiceKind, Remote(status), []))
  }

  // ----- reading the body of an error response

  type Byte = bv8
  const ERROR_BODY_LIMIT: nat := 500 * 1024

  /** A chunk of the body, or an error while reading it. */
  datatype Chunk = Data(bytes: seq<Byte>) | ReadError

  function Concat(chunks: seq<Chunk>): seq<Byte> {
    if chunks == [] then []
    else Concat(chunks[..|chunks| - 1]) + (match chunks[|chunks| - 1] case Data(b) => b case ReadError => [])
  }

  /** Chunks follow one another: a chunk is its bytes, and two stretches of chunks are joined in order. */
  lemma {:induction false} ConcatJoins(a: seq<Chunk>, b: seq<Chunk>, bytes: seq<Byte>)
    ensures Concat(a + b) == Concat(a) + Concat(b) && Concat([Data(bytes)]) == bytes
    decreases |b|
  {
    assert [Data(bytes)][..0] == [];
    if b == [] {
      assert a + b == a;
    } else {
      var all := a + b;
      assert all[..|all| - 1] == a + b[..|b| - 1];
      ConcatJoins(a, b[..|b| - 1], bytes);
    }
  }

  /**
   Reads until the stream ends, fails, or has passed the limit: the result is all the data before
   the place `n` where reading stopped, and reading stopped for one of the three reasons only.
   */
  method ReadErrorBody(chunks: seq<Chunk>) returns (body: seq<Byte>, n: nat)
    ensures n <= |chunks| && body == Concat(chunks[..n])
    ensures forall i :: 0 <= i < n ==> chunks[i].Data?
    ensures n == |chunks| || chunks[n].ReadError? || |body| > 512000
    ensures n > 0 ==> |Concat(chunks[..n - 1])| <= 512000
  {
    body, n := [], 0;
    while n < |chunks|
      invariant n <= |chunks| && body == Concat(chunks[..n]) && |body| <= ERROR_BODY_LIMIT
      invariant forall i :: 0 <= i < n ==> chunks[i].Data?
      invariant n > 0 ==> |Concat(chunks[..n - 1])| <= ERROR_BODY_LIMIT
    {
      match chunks[n]
      case ReadError => break;
      case Data(bytes) =>
        assert chunks[..n + 1][..n] == chunks[..n];
        body := body + bytes;
        n := n + 1;
        if |body| > ERROR_BODY_LIMIT {
          break;
        }
    }
  }
}
