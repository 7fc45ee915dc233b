/** The bounded tee over a response stream. */
module StreamCapture {
  import opened Bytes
  import opened Unicode

  // A blank line starts at position i.
  predicate BoundaryAt(b: seq<Byte>, i: int) {
    0 <= i && i + 2 <= |b| && b[i] == LF && b[i + 1] == LF
  }

  predicate HasBoundary(b: seq<Byte>) {
    LastBoundary(b) >= 0
  }

  // rfind(b"\n\n")
  function LastBoundary(b: seq<Byte>): (i: int)
    ensures i == -1 || BoundaryAt(b, i)
    ensures forall j :: i < j ==> !BoundaryAt(b, j)
  {
    if |b| < 2 then -1
    else if BoundaryAt(b, |b| - 2) then |b| - 2
    else
      var front := b[..|b| - 1];
      assert forall j :: BoundaryAt(b, j) && j < |b| - 2 ==> BoundaryAt(front, j);
      LastBoundary(front)
  }

  function Trim(b: seq<Byte>): (r: seq<Byte>)
    ensures r <= b
  {
    var last := LastBoundary(b);
    if last >= 0 then b[..last + 2] else b
  }

  // What a capture of at most `cap` bytes keeps of a whole stream.
  function Captured(cap: nat, stream: seq<Byte>): (r: seq<Byte>)
    ensures |r| <= cap && r <= stream
  {
    if |stream| <= cap then stream else Trim(stream[..cap])
  }

  class StreamCapture {
    const capBytes: nat
    var accumulator: seq<Byte>
    var bytesSeen: nat
    var wasTruncated: bool
    var truncatedAt: Option<nat>
    // Everything appended so far.
    ghost var stream: seq<Byte>

    // The state is a function of the stream alone, however it was cut into chunks.
    ghost predicate Valid()
      reads this
    {
      && accumulator == Captured(capBytes, stream)
      && bytesSeen == |stream|
      && wasTruncated == (|stream| > capBytes)
      && truncatedAt == if wasTruncated then Some(|accumulator|) else None
    }

    constructor (capBytes: nat)
      ensures Valid() && this.capBytes == capBytes && stream == []
    {
      this.capBytes := capBytes;
      accumulator, bytesSeen, wasTruncated, truncatedAt := [], 0, false, None;
      stream := [];
    }

    method Append(chunk: seq<Byte>)
      requires Valid()
      modifies this
      ensures Valid() && stream == old(stream) + chunk
    {
      bytesSeen := bytesSeen + |chunk|;
      stream := stream + chunk;
      if wasTruncated {
        assert stream[..capBytes] == old(stream)[..capBytes];
        return;
      }
      if |accumulator| + |chunk| <= capBytes {
        accumulator := accumulator + chunk;
        return;
      }
      var remaining := capBytes - |accumulator|;
      accumulator := accumulator + chunk[..remaining];
      assert accumulator == stream[..capBytes];
      var last := LastBoundary(accumulator);
      if last >= 0 {
        accumulator := accumulator[..last + 2];
      }
      wasTruncated, truncatedAt := true, Some(|accumulator|);
    }
  }

  function Flatten(chunks: seq<seq<Byte>>): seq<Byte> {
    if chunks == [] then [] else Flatten(chunks[..|chunks| - 1]) + chunks[|chunks| - 1]
  }

  /** Every way of cutting a stream into chunks leaves the same capture. */
  method CaptureAll(cap: nat, chunks: seq<seq<Byte>>) returns (kept: seq<Byte>, truncatedAt: Option<nat>)
    ensures kept == Captured(cap, Flatten(chunks))
    ensures truncatedAt == if |Flatten(chunks)| > cap then Some(|kept|) else None
  {
    var capture := new StreamCapture(cap);
    for i := 0 to |chunks|
      invariant capture.Valid() && capture.capBytes == cap && fresh(capture)
      invariant capture.stream == Flatten(chunks[..i])
    {
      assert chunks[..i + 1][..i] == chunks[..i];
      capture.Append(chunks[i]);
    }
    assert chunks[..|chunks|] == chunks;
    kept, truncatedAt := capture.accumulator, capture.truncatedAt;
  }

  // A truncated capture that ends at a blank line is the longest prefix within the cap that does.
  lemma CapturedIsLongest(cap: nat, stream: seq<Byte>, other: seq<Byte>)
    requires cap < |stream| && HasBoundary(stream[..cap])
    requires other <= stream && |other| <= cap && BoundaryAt(other, |other| - 2)
    ensures var kept := Captured(cap, stream);
            BoundaryAt(kept, |kept| - 2) && other <= kept
  {
    assert BoundaryAt(stream[..cap], |other| - 2);
  }
}
