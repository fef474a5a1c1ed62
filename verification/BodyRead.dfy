/** `SecureHttp::send`: the status gate, the content-length pre-check and the bounded chunk loop. */
module BodyRead {
  import opened Wrappers
  import opened ProviderErrors

  type Bytes = seq<bv8>

  /** What the client library says about a request or a chunk that failed; it may say both. */
  datatype TransportError = TransportError(isTimeout: bool, isConnect: bool)

  function Classify(error: TransportError): ProviderError {
    if error.isTimeout then Timeout else if error.isConnect then Connection else Transport
  }

  /** The kinds of transport failure: a timeout counts as one even while connecting. */
  ghost predicate FailsWith(r: Result<Bytes, ProviderError>, error: TransportError) {
    && (error.isTimeout ==> r == Failure(Timeout))
    && (!error.isTimeout && error.isConnect ==> r == Failure(Connection))
    && (!error.isTimeout && !error.isConnect ==> r == Failure(Transport))
  }

  /** What the wire delivers after the status line: chunks, then the end or an error. */
  datatype Body = Body(chunks: seq<Bytes>, end: Option<TransportError>)
  datatype Reply = NoReply(error: TransportError) | Reply(status: nat, contentLength: Option<nat>, body: Body)

  function Concat(chunks: seq<Bytes>): Bytes {
    if chunks == [] then [] else Concat(chunks[..|chunks| - 1]) + chunks[|chunks| - 1]
  }

  /** How many bytes the chunks hold. */
  function Total(chunks: seq<Bytes>): nat {
    if chunks == [] then 0 else Total(chunks[..|chunks| - 1]) + |chunks[|chunks| - 1]|
  }

  /** Chunk `k` stands in the bytes right after all the chunks before it. */
  ghost predicate ChunkInPlace(bytes: Bytes, chunks: seq<Bytes>, k: nat)
    requires k < |chunks|
  {
    var offset := Total(chunks[..k]);
    offset + |chunks[k]| <= |bytes| && bytes[offset..offset + |chunks[k]|] == chunks[k]
  }

  ghost predicate Holds(bytes: Bytes, chunks: seq<Bytes>) {
    |bytes| == Total(chunks) && forall k :: 0 <= k < |chunks| ==> ChunkInPlace(bytes, chunks, k)
  }

  lemma StaysInPlace(bytes: Bytes, more: Bytes, chunks: seq<Bytes>, k: nat)
    requires k < |chunks| - 1 && Holds(bytes, chunks[..|chunks| - 1])
    ensures ChunkInPlace(bytes + more, chunks, k)
  {
    var front := chunks[..|chunks| - 1];
    assert ChunkInPlace(bytes, front, k);
    assert front[..k] == chunks[..k];
  }

  /** Concatenation keeps every chunk, in order and in place. */
  lemma {:induction false} ConcatHolds(chunks: seq<Bytes>)
    ensures Holds(Concat(chunks), chunks)
  {
    if chunks != [] {
      var n := |chunks| - 1;
      var front := chunks[..n];
      ConcatHolds(front);
      forall k | 0 <= k < n ensures ChunkInPlace(Concat(chunks), chunks, k) {
        StaysInPlace(Concat(front), chunks[n], chunks, k);
      }
      assert ChunkInPlace(Concat(chunks), chunks, n);
    }
  }

  /** The outcome of reading a body, said of its chunks. */
  ghost predicate Reads(r: Result<Bytes, ProviderError>, body: Body, limit: Usize) {
    && (r == Failure(Exceeded("response")) <==> Total(body.chunks) > limit)
    && (Total(body.chunks) <= limit && body.end.Some? ==> FailsWith(r, body.end.value))
    && (Total(body.chunks) <= limit && body.end.None? ==> r.Success? && Holds(r.value, body.chunks))
  }

  predicate IsSuccess(status: nat) {
    200 <= status <= 299
  }

  /** The result said without a loop: the size of everything delivered decides first, then the
      stream's own end. */
  function BodyResult(body: Body, limit: Usize): Result<Bytes, ProviderError> {
    if |Concat(body.chunks)| > limit then Failure(Exceeded("response"))
    else if body.end.Some? then Failure(Classify(body.end.value))
    else Success(Concat(body.chunks))
  }

  lemma {:induction false} PrefixIsNoLonger(chunks: seq<Bytes>, n: nat)
    requires n <= |chunks|
    ensures |Concat(chunks[..n])| <= |Concat(chunks)|
    decreases |chunks|
  {
    if n == |chunks| {
      assert chunks[..n] == chunks;
    } else {
      PrefixIsNoLonger(chunks[..|chunks| - 1], n);
      assert chunks[..|chunks| - 1][..n] == chunks[..n];
    }
  }

  /** The loop. The buffer is within the limit at every iteration, an overflowing length counts as
      exceeded, and the early exit agrees with the size of the whole body. */
  method ReadBody(body: Body, limit: Usize) returns (r: Result<Bytes, ProviderError>)
    ensures Reads(r, body, limit)
    ensures r == BodyResult(body, limit)
  {
    ConcatHolds(body.chunks);
    var bytes: Bytes := [];
    var n := 0;
    while n < |body.chunks|
      invariant 0 <= n <= |body.chunks|
      invariant bytes == Concat(body.chunks[..n])
      invariant |bytes| <= limit
    {
      var chunk := body.chunks[n];
      assert body.chunks[..n + 1][..n] == body.chunks[..n];
      PrefixIsNoLonger(body.chunks, n + 1);
      var nextLen := CheckedAdd(|bytes|, |chunk|);
      if nextLen.None? || nextLen.value > limit {
        return Failure(Exceeded("response"));
      }
      bytes := bytes + chunk;
      n := n + 1;
    }
    assert body.chunks[..n] == body.chunks;
    if body.end.Some? {
      return Failure(Classify(body.end.value));
    }
    return Success(bytes);
  }

  /** With an accurate content length the pre-check refuses only what the loop would refuse too. */
  method Send(reply: Reply, limit: Usize) returns (r: Result<Bytes, ProviderError>)
    ensures reply.NoReply? ==> FailsWith(r, reply.error)
    ensures reply.Reply? && !(200 <= reply.status <= 299) ==> r == Failure(HttpStatus(reply.status))
    ensures reply.Reply? && 200 <= reply.status <= 299 ==>
      if reply.contentLength.Some? && reply.contentLength.value > limit then r == Failure(Exceeded("response"))
      else Reads(r, reply.body, limit)
    ensures reply.Reply? && 200 <= reply.status <= 299 && reply.contentLength == Some(Total(reply.body.chunks)) ==>
      Reads(r, reply.body, limit)
    ensures r.Success? ==> |r.value| <= limit
  {
    if reply.NoReply? {
      return Failure(Classify(reply.error));
    }
    if !IsSuccess(reply.status) {
      return Failure(HttpStatus(reply.status));
    }
    if reply.contentLength.Some? && reply.contentLength.value > limit {
      return Failure(Exceeded("response"));
    }
    r := ReadBody(reply.body, limit);
  }

  /** The chunking of a body never matters: two bodies of the same bytes with the same end are read
      with the same result, however either of them is cut. */
  method ReadEitherWay(a: Body, b: Body, limit: Usize)
    returns (x: Result<Bytes, ProviderError>, y: Result<Bytes, ProviderError>)
    requires Concat(a.chunks) == Concat(b.chunks) && a.end == b.end
    ensures x == y
    ensures Reads(x, a, limit) && Reads(x, b, limit)
  {
    x := ReadBody(a, limit);
    y := ReadBody(b, limit);
  }
}
