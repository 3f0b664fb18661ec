/**
  Buffering of the raw email stream (`streamToArrayBuffer`): a zero-filled
  `Uint8Array` of the declared size receives the chunks the stream yields, each
  copied at the running offset, in arrival order.

  The stream is modelled by the sequence of chunks its reader returns before it
  reports `done`.
 */
module StreamBuffer {
  import opened Js
  import opened Seqs

  /** `n` zero bytes, the contents of a freshly allocated `Uint8Array(n)`. */
  function Zeros(n: nat): (z: seq<uint8>)
    ensures |z| == n
  {
    seq(n, _ => 0)
  }

  /** Copying chunk `k` at the offset reached before it would run past `size`. */
  predicate OverflowsAt(chunks: seq<seq<uint8>>, size: nat, k: nat)
    requires k < |chunks|
  {
    TotalLength(chunks[..k]) + |chunks[k]| > size
  }

  /** The first chunk whose copy runs past `size`, when the chunks do not fit. */
  function FirstOverflow(chunks: seq<seq<uint8>>, size: nat): (k: nat)
    requires TotalLength(chunks) > size
    ensures k < |chunks|
    ensures OverflowsAt(chunks, size, k)
    ensures TotalLength(chunks[..k]) <= size
    decreases |chunks|
  {
    var n := |chunks| - 1;
    assert chunks[..n + 1] == chunks;
    FlattenStep(chunks, n);
    if TotalLength(chunks[..n]) > size then
      var k := FirstOverflow(chunks[..n], size);
      assert chunks[..n][..k] == chunks[..k];
      assert chunks[..n][..k + 1] == chunks[..k + 1];
      FlattenStep(chunks, k);
      k
    else n
  }

  /** What buffering yields, stated without the loop: the chunks followed by
      zeros up to the declared size, or the `RangeError` raised at the first
      chunk that does not fit. A stream shorter than declared leaves the rest
      of the buffer zero; one of exactly the declared size is copied as is. */
  function Buffered(chunks: seq<seq<uint8>>, size: nat): (r: Result<seq<uint8>>)
    ensures r.Ok? <==> TotalLength(chunks) <= size
    ensures r.Ok? ==> |r.value| == size
    ensures r.Ok? ==> r.value[..TotalLength(chunks)] == Flatten(chunks)
    ensures r.Ok? ==> forall i :: TotalLength(chunks) <= i < size ==> r.value[i] == 0
    ensures TotalLength(chunks) == size ==> r == Ok(Flatten(chunks))
    ensures r.Err? ==> r.error.RangeError? && r.error.capacity == size
                       && r.error.offset <= size < r.error.offset + r.error.length
  {
    FlattenLength(chunks);
    if TotalLength(chunks) <= size then
      var padding := Zeros(size - TotalLength(chunks));
      assert |padding| == 0 ==> Flatten(chunks) + padding == Flatten(chunks);
      Ok(Flatten(chunks) + padding)
    else
      var k := FirstOverflow(chunks, size);
      Err(RangeError(TotalLength(chunks[..k]), |chunks[k]|, size))
  }

  /** The loop of `streamToArrayBuffer`: allocate `streamSize` zero bytes, then
      copy each chunk at `bytesRead` and advance `bytesRead` by its length. */
  method StreamToArrayBuffer(chunks: seq<seq<uint8>>, streamSize: nat) returns (r: Result<seq<uint8>>)
    ensures r == Buffered(chunks, streamSize)
    ensures r.Ok? <==> TotalLength(chunks) <= streamSize
    ensures r.Ok? ==> |r.value| == streamSize
    ensures r.Ok? ==> r.value[..TotalLength(chunks)] == Flatten(chunks)
    ensures r.Ok? ==> forall i :: TotalLength(chunks) <= i < streamSize ==> r.value[i] == 0
    ensures r.Err? ==> r.error.RangeError? && r.error.capacity == streamSize
                       && r.error.offset <= streamSize < r.error.offset + r.error.length
  {
    var result := new uint8[streamSize](_ => 0);
    var bytesRead: nat := 0;
    var i := 0;
    while i < |chunks|
      invariant 0 <= i <= |chunks|
      invariant bytesRead == TotalLength(chunks[..i]) <= streamSize
      invariant result.Length == streamSize
      invariant result[..bytesRead] == Flatten(chunks[..i])
      invariant forall j :: bytesRead <= j < streamSize ==> result[j] == 0
    {
      var value := chunks[i];
      FlattenStep(chunks, i);
      if bytesRead + |value| > streamSize {
        // `result.set(value, bytesRead)` throws: the copy would pass the end
        TotalLengthMonotone(chunks, i + 1, |chunks|);
        assert chunks[..|chunks|] == chunks;
        ghost var k := FirstOverflow(chunks, streamSize);
        if k < i {
          TotalLengthMonotone(chunks, k + 1, i);
          FlattenStep(chunks, k);
        } else if k > i {
          TotalLengthMonotone(chunks, i + 1, k);
        }
        return Err(RangeError(bytesRead, |value|, streamSize));
      }
      forall j | 0 <= j < |value| {
        result[bytesRead + j] := value[j];
      }
      assert result[..bytesRead + |value|] == result[..bytesRead] + value;
      bytesRead := bytesRead + |value|;
      i := i + 1;
    }
    assert chunks[..i] == chunks;
    assert result[..] == result[..bytesRead] + result[bytesRead..];
    assert result[bytesRead..] == Zeros(streamSize - bytesRead);
    return Ok(result[..]);
  }

  /** The buffer the handler receives depends only on the bytes of the stream,
      not on how the stream splits them into chunks. */
  lemma SplitIndependent(a: seq<seq<uint8>>, b: seq<seq<uint8>>, size: nat)
    requires Flatten(a) == Flatten(b)
    requires TotalLength(a) <= size
    ensures Buffered(a, size) == Buffered(b, size)
    ensures Buffered(a, size).Ok?
  {
    FlattenLength(a);
    FlattenLength(b);
  }

  /** Buffering succeeds exactly when no chunk, copied at the offset reached
      before it, runs past the declared size. */
  lemma BufferedOkIff(chunks: seq<seq<uint8>>, size: nat)
    ensures Buffered(chunks, size).Ok?
        <==> forall k :: 0 <= k < |chunks| ==> !OverflowsAt(chunks, size, k)
  {
    if TotalLength(chunks) <= size {
      forall k | 0 <= k < |chunks|
        ensures !OverflowsAt(chunks, size, k)
      {
        FlattenStep(chunks, k);
        TotalLengthMonotone(chunks, k + 1, |chunks|);
        assert chunks[..|chunks|] == chunks;
      }
    } else {
      var k := FirstOverflow(chunks, size);
      assert OverflowsAt(chunks, size, k);
    }
  }
}
