/** The incremental parser: a mutable object that stages the chunks of a TCP stream. */
module EslParsing {
  import opened Options
  import opened EslHeaders
  import opened EslDecoder

  function Flatten(chunks: seq<Bytes>): Bytes {
    if chunks == [] then [] else chunks[0] + Flatten(chunks[1..])
  }

  lemma {:induction false} FlattenAppend(a: seq<Bytes>, b: seq<Bytes>)
    ensures Flatten(a + b) == Flatten(a) + Flatten(b)
  {
    if a == [] {
      assert a + b == b;
    } else {
      FlattenAppend(a[1..], b);
      assert (a + b)[1..] == a[1..] + b && (a + b)[0] == a[0];
      assert a[0] + (Flatten(a[1..]) + Flatten(b)) == a[0] + Flatten(a[1..]) + Flatten(b);
    }
  }

  lemma FlattenOne(chunk: Bytes)
    ensures Flatten([chunk]) == chunk
  {
    assert chunk + [] == chunk;
  }

  /** What one push returns and leaves buffered: the decoder's outcome, unless a header block that
    * has not ended yet is already too long. */
  function Pushed(limits: Limits, buffered: Bytes, pending: Option<Pending>, chunk: Bytes): Result<Decoded, ErrorCode> {
    var d :- Decode(limits, buffered + chunk, pending);
    if d.pending.None? && |d.rest| > limits.maxHeaderBytes then Err(HeaderTooLarge) else Ok(d)
  }

  class EslFrameParser {
    const limits: Limits
    var chunks: seq<Bytes>
    var bufferedBytes: nat
    var pending: Option<Pending>

    /** The bytes that concatenation has copied, and what the pushes so far allow it to copy: twice
      * the bytes of each chunk and one header allowance. */
    ghost var copied: nat
    ghost var allowance: nat

    ghost function Buffered(): Bytes
      reads this
    {
      Flatten(chunks)
    }

    /** The staged chunks are never empty and never more than the limits allow. */
    ghost predicate Valid()
      reads this
    {
      && Staged()
      && copied + bufferedBytes <= allowance
      && (pending.None? ==> bufferedBytes <= limits.maxHeaderBytes && FindHeaderBoundary(Buffered()).None?)
      && (pending.Some? ==> bufferedBytes < pending.value.bodyLength <= limits.maxBodyBytes)
    }

    ghost predicate Staged()
      reads this
    {
      bufferedBytes == |Buffered()| && forall i :: 0 <= i < |chunks| ==> chunks[i] != []
    }

    constructor (limits: Limits)
      requires limits.maxHeaderBytes > 0 && limits.maxBodyBytes > 0
      ensures Valid() && this.limits == limits
      ensures Buffered() == [] && pending.None?
      ensures copied == 0 && allowance == 0
    {
      this.limits := limits;
      chunks, bufferedBytes, pending := [], 0, None;
      copied, allowance := 0, 0;
    }

    /** Folds the staged chunks into one, copying them only when there are several. */
    method Coalesce() returns (buffer: Bytes)
      requires Staged()
      modifies this`chunks, this`copied
      ensures Staged() && |chunks| <= 1
      ensures buffer == Buffered() == old(Buffered())
      ensures copied == old(copied) + if old(|chunks|) > 1 then bufferedBytes else 0
    {
      if |chunks| == 0 {
        return [];
      }
      if |chunks| > 1 {
        var whole := Flatten(chunks);
        copied := copied + bufferedBytes;
        assert whole != [] by {
          assert chunks[0] != [] && whole == chunks[0] + Flatten(chunks[1..]);
        }
        chunks := [whole];
      }
      FlattenOne(chunks[0]);
      buffer := chunks[0];
    }

    /** Drops leading bytes of the single staged chunk. */
    method ConsumeFront(length: nat)
      requires Staged() && |chunks| <= 1 && length <= bufferedBytes
      modifies this`chunks, this`bufferedBytes
      ensures Staged() && |chunks| <= 1
      ensures Buffered() == old(Buffered())[length..]
    {
      if length == 0 {
        assert Buffered()[0..] == Buffered();
        return;
      }
      FlattenOne(chunks[0]);
      assert chunks == [chunks[0]];
      var remainder := chunks[0][length..];
      chunks := if remainder != [] then [remainder] else [];
      bufferedBytes := |remainder|;
      FlattenOne(remainder);
    }

    /** The bytes of one push are copied at most once: `start` is what was buffered when it began,
      * after its chunk had been staged. */
    ghost predicate CopiedOnce(before: nat, start: Bytes, startPending: Option<Pending>, arrived: nat)
      reads this
    {
      && bufferedBytes <= |start|
      && (copied == before || (copied == before + |start| && |chunks| <= 1))
      && (|chunks| > 1 ==> Buffered() == start && pending == startPending)
      && (copied != before && startPending.Some? ==> bufferedBytes <= arrived)
    }

    /** Reads one header block, if all of it has arrived. */
    method ReadHeader() returns (r: Result<bool, ErrorCode>)
      requires Staged() && pending.None?
      modifies this`chunks, this`bufferedBytes, this`pending, this`copied
      ensures Staged() && |chunks| <= 1 && bufferedBytes <= old(bufferedBytes)
      ensures copied == old(copied) + if old(|chunks|) > 1 then old(bufferedBytes) else 0
      ensures r == Ok(true) ==> pending.Some? && pending.value.bodyLength <= limits.maxBodyBytes
      ensures r == Ok(true) ==> bufferedBytes < old(bufferedBytes)
      ensures r == Ok(true) ==> Decode(limits, old(Buffered()), None) == Decode(limits, Buffered(), pending)
      ensures r == Ok(false) ==> pending.None? && Buffered() == old(Buffered())
      ensures r == Ok(false) ==> bufferedBytes <= limits.maxHeaderBytes && FindHeaderBoundary(Buffered()).None?
      ensures r.Err? ==> (if FindHeaderBoundary(old(Buffered())).Some?
                         then Decode(limits, old(Buffered()), None) == Err(r.error)
                         else r.error == HeaderTooLarge && |old(Buffered())| > limits.maxHeaderBytes)
    {
      var buffer := Coalesce();
      var boundary := FindHeaderBoundary(buffer);
      if boundary.None? {
        return if bufferedBytes > limits.maxHeaderBytes then Err(HeaderTooLarge) else Ok(false);
      }
      if boundary.value.index > limits.maxHeaderBytes {
        return Err(HeaderTooLarge);
      }
      var headers := ParseHeaderBlock(buffer[..boundary.value.index]);
      if headers.Err? {
        return Err(headers.error);
      }
      var bodyLength := ContentLength(headers.value, limits.maxBodyBytes);
      if bodyLength.Err? {
        return Err(bodyLength.error);
      }
      ConsumeFront(boundary.value.End());
      pending := Some(Pending(headers.value, bodyLength.value));
      r := Ok(true);
    }

    /** Reads the body that is awaited, all of which has arrived. */
    method ReadBody() returns (frame: Frame)
      requires Staged() && pending.Some? && pending.value.bodyLength <= bufferedBytes
      modifies this`chunks, this`bufferedBytes, this`pending, this`copied
      ensures Staged() && |chunks| <= 1 && pending.None?
      ensures bufferedBytes == old(bufferedBytes) - old(pending).value.bodyLength
      ensures copied == old(copied) + if old(|chunks|) > 1 then old(bufferedBytes) else 0
      ensures Decode(limits, old(Buffered()), old(pending)) == After([frame], Decode(limits, Buffered(), None))
    {
      var buffer := Coalesce();
      var current := pending.value;
      ConsumeFront(current.bodyLength);
      pending := None;
      frame := Frame(current.headers, buffer[..current.bodyLength]);
    }

    /** Copies and stages one chunk. */
    method Stage(chunk: Bytes)
      requires Staged()
      modifies this`chunks, this`bufferedBytes, this`allowance
      ensures Staged() && Buffered() == old(Buffered()) + chunk
      ensures allowance == old(allowance) + 2 * |chunk| + limits.maxHeaderBytes
    {
      if |chunk| > 0 {
        FlattenAppend(chunks, [chunk]);
        FlattenOne(chunk);
        chunks := chunks + [chunk];
        bufferedBytes := bufferedBytes + |chunk|;
      } else {
        assert Buffered() == Buffered() + chunk;
      }
      allowance := allowance + 2 * |chunk| + limits.maxHeaderBytes;
    }

    /** What the loop of a push keeps: the frames so far and the bytes still staged make up the outcome, and
      * no byte has been copied twice. */
    ghost predicate Reading(frames: seq<Frame>, before: nat, start: Bytes, startPending: Option<Pending>, arrived: nat)
      reads this
    {
      && Staged()
      && Decode(limits, start, startPending) == After(frames, Decode(limits, Buffered(), pending))
      && (pending.Some? ==> pending.value.bodyLength <= limits.maxBodyBytes)
      && (startPending.Some? ==> |start| <= startPending.value.bodyLength + arrived)
      && CopiedOnce(before, start, startPending, arrived)
    }

    /** The error is that of the decoder, or the header block that it left over is too long. */
    predicate Fails(whole: Result<Decoded, ErrorCode>, error: ErrorCode) {
      match whole
      case Err(e) => error == e
      case Ok(d) => error == HeaderTooLarge && d.pending.None? && |d.rest| > limits.maxHeaderBytes
    }

    /** One turn of the loop: reads a header block if none is pending, and then its body, and says whether
      * that made a frame. */
    method ReadFrame(frames: seq<Frame>, ghost before: nat, ghost start: Bytes, ghost startPending: Option<Pending>,
                     ghost arrived: nat)
      returns (r: Result<Option<Frame>, ErrorCode>)
      requires Reading(frames, before, start, startPending, arrived)
      modifies this`chunks, this`bufferedBytes, this`pending, this`copied
      ensures r == Ok(None) ==> Reading(frames, before, start, startPending, arrived)
      ensures r == Ok(None) && pending.None? ==>
        bufferedBytes <= limits.maxHeaderBytes && FindHeaderBoundary(Buffered()).None?
      ensures r == Ok(None) && pending.Some? ==> bufferedBytes < pending.value.bodyLength
      ensures r.Ok? && r.value.Some? ==>
        && Reading(frames + [r.value.value], before, start, startPending, arrived)
        && (|| bufferedBytes < old(bufferedBytes)
            || (bufferedBytes == old(bufferedBytes) && old(pending).Some? && pending.None?))
      ensures r.Err? ==> Fails(Decode(limits, start, startPending), r.error)
    {
      hide Decode, FindHeaderBoundary, Flatten;
      if pending.None? {
        var progress := ReadHeader();
        if progress.Err? {
          if FindHeaderBoundary(old(Buffered())).None? {
            AtRest(limits, old(Buffered()), None, frames);
          }
          return Err(progress.error);
        }
        if !progress.value {
          return Ok(None);
        }
      }
      // A body that is still incomplete is left staged, without being copied.
      if bufferedBytes < pending.value.bodyLength {
        return Ok(None);
      }
      var frame := ReadBody();
      AfterAfter(frames, [frame], Decode(limits, Buffered(), None));
      r := Ok(Some(frame));
    }

    /** Takes one chunk and returns the frames it completes, or throws. */
    method Push(chunk: Bytes) returns (r: Result<seq<Frame>, ErrorCode>)
      requires Valid()
      modifies this
      ensures match Pushed(limits, old(Buffered()), old(pending), chunk)
              case Err(e) => r == Err(e)
              case Ok(d) => r == Ok(d.frames) && Buffered() == d.rest && pending == d.pending && Valid()
      ensures allowance == old(allowance) + 2 * |chunk| + limits.maxHeaderBytes
    {
      Stage(chunk);
      ghost var start, startPending := Buffered(), pending;
      AfterNothing(Decode(limits, start, startPending));
      hide Decode, FindHeaderBoundary, Flatten;

      var frames: seq<Frame> := [];
      while true
        invariant Reading(frames, old(copied), start, startPending, |chunk|)
        invariant allowance == old(allowance) + 2 * |chunk| + limits.maxHeaderBytes
        decreases bufferedBytes, if pending.Some? then 1 else 0
      {
        var frame := ReadFrame(frames, old(copied), start, startPending, |chunk|);
        if frame.Err? {
          return Err(frame.error);
        }
        if frame.value.None? {
          break;
        }
        frames := frames + [frame.value.value];
      }
      AtRest(limits, Buffered(), pending, frames);
      r := Ok(frames);
    }

    /** Rejects a connection that ended in the middle of a frame. */
    method Finish() returns (r: Result<(), ErrorCode>)
      requires Valid()
      ensures r == if pending.None? && Buffered() == [] then Ok(()) else Err(IncompleteFrame)
    {
      r := if pending.Some? || bufferedBytes > 0 then Err(IncompleteFrame) else Ok(());
    }
  }

  /** Nothing is left to decode when the loop stops. */
  lemma AtRest(limits: Limits, bytes: Bytes, pending: Option<Pending>, frames: seq<Frame>)
    requires pending.None? ==> FindHeaderBoundary(bytes).None?
    requires pending.Some? ==> |bytes| < pending.value.bodyLength
    ensures After(frames, Decode(limits, bytes, pending)) == Ok(Decoded(frames, bytes, pending))
  {
    assert frames + [] == frames;
  }
}
