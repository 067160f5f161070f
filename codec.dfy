/**
 * `LineCodec` of the serial module: a scan for the two-byte marker 55 AA and a
 * decoder/encoder pair that is still a stub (it never yields a frame).
 */
module Codec {
  import opened Wrappers
  import opened Bytes

  /** `DELIMITER`. */
  const Delimiter: seq<byte> := [0x55, 0xAA]

  /** The marker starts at position `i` of `src`. */
  predicate MarkerAt(src: seq<byte>, i: int)
  {
    0 <= i && i + 2 <= |src| && src[i..i + 2] == Delimiter
  }

  /**
   * `memmem::find_iter(src, DELIMITER)` started at position `from`: the
   * non-overlapping occurrences, found left to right; after a match the search
   * resumes just past it.
   */
  function FindIter(src: seq<byte>, from: nat): (r: seq<nat>)
    ensures forall k :: 0 <= k < |r| ==> from <= r[k] && MarkerAt(src, r[k])
    ensures forall k :: 0 <= k < |r| - 1 ==> r[k] + 2 <= r[k + 1]
    decreases |src| - from
  {
    if from + 2 > |src| then []
    else if MarkerAt(src, from) then [from] + FindIter(src, from + 2)
    else FindIter(src, from + 1)
  }

  /**
   * All marker positions of `src`: what `decode` collects. Each is a marker,
   * two or more past the one before (completeness: `DelimiterPositionsExact`).
   */
  function DelimiterPositions(src: seq<byte>): (r: seq<nat>)
    ensures forall k :: 0 <= k < |r| ==> MarkerAt(src, r[k])
    ensures forall k :: 0 <= k < |r| - 1 ==> r[k] + 2 <= r[k + 1]
  {
    FindIter(src, 0)
  }

  /**
   * The marker cannot overlap itself (its last byte is not its first), so the
   * non-overlapping search misses nothing: every occurrence at or after `from`
   * is reported.
   */
  lemma {:induction false} FindIterComplete(src: seq<byte>, from: nat, i: nat)
    requires from <= i && MarkerAt(src, i)
    ensures i in FindIter(src, from)
    decreases |src| - from
  {
    if from < i {
      if MarkerAt(src, from) {
        assert from + 1 != i by {
          assert src[from + 1] == src[from..from + 2][1] == 0xAA;
          assert src[i] == src[i..i + 2][0] == 0x55;
        }
        FindIterComplete(src, from + 2, i);
      } else {
        FindIterComplete(src, from + 1, i);
      }
    }
  }

  /**
   * The scan returns exactly the marker positions, in strictly increasing order.
   */
  lemma DelimiterPositionsExact(src: seq<byte>)
    ensures forall i :: i in DelimiterPositions(src) <==> MarkerAt(src, i)
    ensures forall k, l :: 0 <= k < l < |DelimiterPositions(src)| ==>
      DelimiterPositions(src)[k] < DelimiterPositions(src)[l]
  {
    var r := DelimiterPositions(src);
    forall i | MarkerAt(src, i) ensures i in r {
      FindIterComplete(src, 0, i);
    }
    forall k, l | 0 <= k < l < |r| ensures r[k] < r[l] {
      IncreasingFromSteps(r, k, l);
    }
  }

  lemma {:induction false} IncreasingFromSteps(r: seq<nat>, k: nat, l: nat)
    requires forall j :: 0 <= j < |r| - 1 ==> r[j] + 2 <= r[j + 1]
    requires k < l < |r|
    ensures r[k] < r[l]
    decreases l - k
  {
    if k + 1 < l {
      IncreasingFromSteps(r, k + 1, l);
    }
  }

  /** `io::Error`, reduced to its message (its kind is always `Other` here). */
  datatype IoError = IoError(message: string)

  /** What one call of the decoder returns, and the buffer it leaves. */
  datatype DecodeStep = DecodeStep(result: Result<Option<seq<byte>>, IoError>, buffer: seq<byte>, logged: seq<nat>)

  /**
   * `LineCodec::decode`: collects (and logs) the marker positions, then
   * reports that no frame is ready and leaves the buffer as it was.
   */
  function Decode(src: seq<byte>): (r: DecodeStep)
    ensures r.result == Ok(None) && r.buffer == src
    ensures r.logged == DelimiterPositions(src)
    ensures forall i :: i in r.logged <==> MarkerAt(src, i)
    ensures forall k, l :: 0 <= k < l < |r.logged| ==> r.logged[k] < r.logged[l]
  {
    DelimiterPositionsExact(src);
    DecodeStep(Ok(None), src, DelimiterPositions(src))
  }

  /** The error `decode_eof` raises when bytes are left at the end of the stream. */
  const BytesRemaining: IoError := IoError("bytes remaining on stream")

  /**
   * `LineCodec::decode_eof`: a frame from `decode` is passed on; otherwise an
   * empty buffer ends the stream cleanly and a non-empty one is an error.
   */
  function DecodeEof(buf: seq<byte>): (r: DecodeStep)
    ensures r.buffer == buf
    ensures r.result == Ok(None) <==> buf == []
    ensures r.result == Err(BytesRemaining) <==> buf != []
  {
    var step := Decode(buf);
    match step.result
    case Err(e) => DecodeStep(Err(e), step.buffer, step.logged)
    case Ok(Some(frame)) => step
    case Ok(None) =>
      if step.buffer == [] then DecodeStep(Ok(None), step.buffer, step.logged)
      else DecodeStep(Err(BytesRemaining), step.buffer, step.logged)
  }

  /** `LineCodec::encode`: succeeds and writes nothing into `dst`. */
  function Encode(item: string, dst: seq<byte>): (r: (Result<(), IoError>, seq<byte>))
    ensures r.0.Ok? && r.1 == dst
  {
    (Ok(()), dst)
  }
}
