/**
 * A byte stream cut into chunks: what the incremental parser returns does not depend on the cuts,
 * exactly when it can be cut anywhere, and how much it buffers and copies.
 */
module EslStreams {
  import opened Options
  import opened EslHeaders
  import opened EslDecoder
  import opened EslParsing

  /** Pushing chunk after chunk, up to the first push that throws. */
  function PushAll(limits: Limits, buffered: Bytes, pending: Option<Pending>, chunks: seq<Bytes>)
    : Result<Decoded, ErrorCode>
    decreases |chunks|
  {
    if chunks == [] then Ok(Decoded([], buffered, pending)) else
    var d :- Pushed(limits, buffered, pending, chunks[0]);
    After(d.frames, PushAll(limits, d.rest, d.pending, chunks[1..]))
  }

  /** The parser is between two pushes. */
  ghost predicate AtRest(limits: Limits, buffered: Bytes, pending: Option<Pending>) {
    && Decode(limits, buffered, pending) == Ok(Decoded([], buffered, pending))
    && (pending.Some? ==> pending.value.bodyLength <= limits.maxBodyBytes)
  }

  // --------------------------------------------------------- chunk invariance

  lemma {:induction false} PushAllDecodes(limits: Limits, buffered: Bytes, pending: Option<Pending>, chunks: seq<Bytes>)
    requires AtRest(limits, buffered, pending)
    requires PushAll(limits, buffered, pending, chunks).Ok?
    ensures PushAll(limits, buffered, pending, chunks) == Decode(limits, buffered + Flatten(chunks), pending)
    decreases |chunks|
  {
    if chunks == [] {
      assert buffered + [] == buffered;
    } else {
      var d := Pushed(limits, buffered, pending, chunks[0]).value;
      PushedIsAtRest(limits, buffered, pending, chunks[0]);
      PushAllDecodes(limits, d.rest, d.pending, chunks[1..]);
      FirstChunk(limits, buffered, pending, chunks[0], Flatten(chunks[1..]));
    }
  }

  lemma FirstChunk(limits: Limits, buffered: Bytes, pending: Option<Pending>, chunk: Bytes, more: Bytes)
    requires Pushed(limits, buffered, pending, chunk).Ok?
    ensures var d := Pushed(limits, buffered, pending, chunk).value;
      Decode(limits, buffered + (chunk + more), pending) == After(d.frames, Decode(limits, d.rest + more, d.pending))
  {
    hide Decode;
    assert buffered + (chunk + more) == (buffered + chunk) + more;
    DecodeInTwoParts(limits, buffered + chunk, more, pending);
  }

  lemma PushedIsAtRest(limits: Limits, buffered: Bytes, pending: Option<Pending>, chunk: Bytes)
    requires AtRest(limits, buffered, pending)
    requires Pushed(limits, buffered, pending, chunk).Ok?
    ensures Decode(limits, buffered + chunk, pending) == Pushed(limits, buffered, pending, chunk)
    ensures var d := Pushed(limits, buffered, pending, chunk).value; AtRest(limits, d.rest, d.pending)
  {
    LeftoverIsPartial(limits, buffered + chunk, pending);
  }

  /** However a stream is cut: if no push throws, the frames returned and what is left over are those
    * of the whole-stream decoder. */
  lemma ChunkInvariance(limits: Limits, chunks: seq<Bytes>)
    requires PushAll(limits, [], None, chunks).Ok?
    ensures PushAll(limits, [], None, chunks) == Decode(limits, Flatten(chunks), None)
  {
    PushAllDecodes(limits, [], None, chunks);
    assert [] + Flatten(chunks) == Flatten(chunks);
  }

  // ------------------------------------------------------- which cuts can throw

  /** Every header block of the stream, and a last one that has not ended, fits into the limit even
    * when the last byte of its blank line is still missing. */
  predicate HeadersFit(limits: Limits, bytes: Bytes, pending: Option<Pending>)
    requires Decode(limits, bytes, pending).Ok?
    decreases |bytes|, if pending.Some? then 1 else 0
  {
    match pending
    case None =>
      (match FindHeaderBoundary(bytes)
       case None => |bytes| <= limits.maxHeaderBytes
       case Some(boundary) =>
         && boundary.End() - 1 <= limits.maxHeaderBytes
         && HeadersFit(limits, bytes[boundary.End()..], Some(ReadBlock(limits, bytes[..boundary.index]).value)))
    case Some(p) =>
      |bytes| < p.bodyLength || HeadersFit(limits, bytes[p.bodyLength..], None)
  }

  /** What has been decoded may be followed by `more`, and no header is too long then either. */
  predicate CutFits(limits: Limits, outcome: Result<Decoded, ErrorCode>, more: Bytes) {
    && outcome.Ok?
    && var d := outcome.value;
      && (d.pending.None? ==> |d.rest| <= limits.maxHeaderBytes)
      && Decode(limits, d.rest + more, d.pending).Ok?
      && HeadersFit(limits, d.rest + more, d.pending)
  }

  lemma CutFitsAfter(limits: Limits, frames: seq<Frame>, outcome: Result<Decoded, ErrorCode>, more: Bytes)
    requires CutFits(limits, outcome, more)
    ensures CutFits(limits, After(frames, outcome), more)
  {
  }

  lemma {:induction false} FittingStreamCutInTwo(limits: Limits, a: Bytes, b: Bytes, pending: Option<Pending>)
    requires Decode(limits, a + b, pending).Ok? && HeadersFit(limits, a + b, pending)
    ensures CutFits(limits, Decode(limits, a, pending), b)
    decreases |a|, if pending.Some? then 1 else 0
  {
    hide Decode, HeadersFit, ReadBlock, FindHeaderBoundary, CutFits;
    if pending.Some? && |a| >= pending.value.bodyLength {
      var p := pending.value;
      UnfoldBody(limits, a + b, p);
      UnfoldBody(limits, a, p);
      assert (a + b)[p.bodyLength..] == a[p.bodyLength..] + b;
      FittingStreamCutInTwo(limits, a[p.bodyLength..], b, None);
      CutFitsAfter(limits, [Frame(p.headers, a[..p.bodyLength])], Decode(limits, a[p.bodyLength..], None), b);
    } else if pending.None? && FindHeaderBoundary(a).Some? {
      BoundaryStable(a, b);
      var boundary := FindHeaderBoundary(a).value;
      assert (a + b)[..boundary.index] == a[..boundary.index];
      assert (a + b)[boundary.End()..] == a[boundary.End()..] + b;
      UnfoldHeader(limits, a + b);
      UnfoldHeader(limits, a);
      FittingStreamCutInTwo(limits, a[boundary.End()..], b, Some(ReadBlock(limits, a[..boundary.index]).value));
    } else {
      CutInsidePart(limits, a, b, pending);
    }
  }

  /** The cut falls inside a header block or inside a body. */
  lemma CutInsidePart(limits: Limits, a: Bytes, b: Bytes, pending: Option<Pending>)
    requires Decode(limits, a + b, pending).Ok? && HeadersFit(limits, a + b, pending)
    requires if pending.Some? then |a| < pending.value.bodyLength else FindHeaderBoundary(a).None?
    ensures CutFits(limits, Decode(limits, a, pending), b)
  {
    hide ReadBlock, FindHeaderBoundary;
    assert Decode(limits, a, pending) == Ok(Decoded([], a, pending));
    hide Decode;
    if pending.None? && FindHeaderBoundary(a + b).Some? {
      BoundaryIsNew(a, b);
    }
  }

  // What decoding and `HeadersFit` mean for a stream that starts with a complete header block or body.

  lemma UnfoldHeader(limits: Limits, bytes: Bytes)
    requires FindHeaderBoundary(bytes).Some?
    ensures var boundary := FindHeaderBoundary(bytes).value;
      var announced := ReadBlock(limits, bytes[..boundary.index]);
      && (Decode(limits, bytes, None).Ok? ==> announced.Ok?)
      && (announced.Ok? ==>
          Decode(limits, bytes, None) == Decode(limits, bytes[boundary.End()..], Some(announced.value)))
      && (Decode(limits, bytes, None).Ok? ==>
          (HeadersFit(limits, bytes, None) <==>
           && boundary.End() - 1 <= limits.maxHeaderBytes
           && HeadersFit(limits, bytes[boundary.End()..], Some(announced.value))))
  {
    hide ReadBlock, FindHeaderBoundary;
  }

  lemma UnfoldBody(limits: Limits, bytes: Bytes, p: Pending)
    requires p.bodyLength <= |bytes|
    ensures Decode(limits, bytes, Some(p)) ==
      After([Frame(p.headers, bytes[..p.bodyLength])], Decode(limits, bytes[p.bodyLength..], None))
    ensures Decode(limits, bytes, Some(p)).Ok? ==>
      (HeadersFit(limits, bytes, Some(p)) <==> HeadersFit(limits, bytes[p.bodyLength..], None))
  {
    hide ReadBlock, FindHeaderBoundary;
  }

  lemma {:induction false} FittingStreamCutAnywhere(
      limits: Limits, buffered: Bytes, pending: Option<Pending>, chunks: seq<Bytes>)
    requires Decode(limits, buffered + Flatten(chunks), pending).Ok?
    requires HeadersFit(limits, buffered + Flatten(chunks), pending)
    ensures PushAll(limits, buffered, pending, chunks).Ok?
    decreases |chunks|
  {
    if chunks != [] {
      var chunk, more := chunks[0], Flatten(chunks[1..]);
      assert buffered + Flatten(chunks) == (buffered + chunk) + more;
      FittingStreamCutInTwo(limits, buffered + chunk, more, pending);
      var d := Decode(limits, buffered + chunk, pending).value;
      FittingStreamCutAnywhere(limits, d.rest, d.pending, chunks[1..]);
    }
  }

  lemma BoundaryOfPrefix(bytes: Bytes, n: nat)
    requires FindHeaderBoundary(bytes).Some? && FindHeaderBoundary(bytes).value.End() <= n <= |bytes|
    ensures FindHeaderBoundary(bytes[..n]) == FindHeaderBoundary(bytes)
  {
    var b := FindHeaderBoundary(bytes).value;
    assert bytes[..n] + bytes[n..] == bytes;
    OccursInPrefix(bytes[..n], bytes[n..], if b.length == 2 then LF_LF else CRLF_CRLF, b.index);
    assert IsBoundary(bytes[..n], b);
    BoundaryStable(bytes[..n], bytes[n..]);
  }

  /** A push that leaves a header block unfinished although it is already too long. */
  predicate Overlong(limits: Limits, outcome: Result<Decoded, ErrorCode>) {
    outcome.Ok? && outcome.value.pending.None? && |outcome.value.rest| > limits.maxHeaderBytes
  }

  /** Where to cut a stream whose headers do not fit, so that the first push throws. */
  lemma {:induction false} BadCut(limits: Limits, bytes: Bytes, pending: Option<Pending>) returns (n: nat)
    requires Decode(limits, bytes, pending).Ok? && !HeadersFit(limits, bytes, pending)
    ensures n <= |bytes| && Overlong(limits, Decode(limits, bytes[..n], pending))
    decreases |bytes|, if pending.Some? then 1 else 0, 1
  {
    if pending.Some? {
      n := BadCutInBody(limits, bytes, pending.value);
    } else if FindHeaderBoundary(bytes).Some? {
      n := BadCutInHeader(limits, bytes);
    } else {
      n := |bytes|;
      assert bytes[..n] == bytes;
    }
  }

  lemma {:induction false} BadCutInHeader(limits: Limits, bytes: Bytes) returns (n: nat)
    requires Decode(limits, bytes, None).Ok? && !HeadersFit(limits, bytes, None)
    requires FindHeaderBoundary(bytes).Some?
    ensures n <= |bytes| && Overlong(limits, Decode(limits, bytes[..n], None))
    decreases |bytes|, 0, 0
  {
    var boundary := FindHeaderBoundary(bytes).value;
    assert boundary.index < boundary.End() && |bytes[boundary.End()..]| < |bytes|;
    hide *;
    UnfoldHeader(limits, bytes);
    if boundary.End() - 1 > limits.maxHeaderBytes {
      n := boundary.End() - 1;
      UnfinishedHeaderIsOverlong(limits, bytes, n);
    } else {
      var later := bytes[boundary.End()..];
      var m := BadCut(limits, later, Some(ReadBlock(limits, bytes[..boundary.index]).value));
      n := boundary.End() + m;
      BoundaryOfPrefix(bytes, n);
      PartsOfPrefix(bytes, boundary.index, boundary.End(), m);
      UnfoldHeader(limits, bytes[..n]);
    }
  }

  lemma PartsOfPrefix(bytes: Bytes, k: nat, end: nat, m: nat)
    requires k <= end && end + m <= |bytes|
    ensures bytes[..end + m][..k] == bytes[..k] && bytes[..end + m][end..] == bytes[end..][..m]
  {
  }

  lemma UnfinishedHeaderIsOverlong(limits: Limits, bytes: Bytes, n: nat)
    requires FindHeaderBoundary(bytes).Some? && n < FindHeaderBoundary(bytes).value.End()
    requires n > limits.maxHeaderBytes
    ensures Overlong(limits, Decode(limits, bytes[..n], None))
  {
    BoundaryNeedsItsLastByte(bytes, n);
  }

  lemma {:induction false} BadCutInBody(limits: Limits, bytes: Bytes, p: Pending) returns (n: nat)
    requires Decode(limits, bytes, Some(p)).Ok? && !HeadersFit(limits, bytes, Some(p))
    ensures n <= |bytes| && Overlong(limits, Decode(limits, bytes[..n], Some(p)))
    decreases |bytes|, 1, 0
  {
    hide Decode, HeadersFit, ReadBlock, FindHeaderBoundary, Overlong;
    if |bytes| < p.bodyLength {
      PartialBodyFits(limits, bytes, p);
    }
    UnfoldBody(limits, bytes, p);
    var m := BadCut(limits, bytes[p.bodyLength..], None);
    n := p.bodyLength + m;
    PartsOfPrefix(bytes, p.bodyLength, p.bodyLength, m);
    UnfoldBody(limits, bytes[..n], p);
    OverlongAfter(limits, [Frame(p.headers, bytes[..p.bodyLength])], Decode(limits, bytes[p.bodyLength..][..m], None));
  }

  lemma PartialBodyFits(limits: Limits, bytes: Bytes, p: Pending)
    requires |bytes| < p.bodyLength && Decode(limits, bytes, Some(p)).Ok?
    ensures HeadersFit(limits, bytes, Some(p))
  {
  }

  lemma OverlongAfter(limits: Limits, frames: seq<Frame>, outcome: Result<Decoded, ErrorCode>)
    ensures Overlong(limits, After(frames, outcome)) <==> Overlong(limits, outcome)
  {
  }

  /** A stream may be cut anywhere exactly when it decodes as a whole and its headers fit. A header
    * within three bytes of the limit is accepted or rejected depending on where it is cut. */
  lemma EveryCutSucceedsIffHeadersFit(limits: Limits, bytes: Bytes)
    ensures (forall chunks :: Flatten(chunks) == bytes ==> PushAll(limits, [], None, chunks).Ok?)
        <==> (Decode(limits, bytes, None).Ok? && HeadersFit(limits, bytes, None))
  {
    assert [] + bytes == bytes;
    if Decode(limits, bytes, None).Ok? && HeadersFit(limits, bytes, None) {
      forall chunks | Flatten(chunks) == bytes
        ensures PushAll(limits, [], None, chunks).Ok?
      {
        FittingStreamCutAnywhere(limits, [], None, chunks);
      }
    } else if Decode(limits, bytes, None).Err? {
      FlattenOne(bytes);
      assert PushAll(limits, [], None, [bytes]).Err?;
    } else {
      var n := BadCut(limits, bytes, None);
      var chunks := [bytes[..n], bytes[n..]];
      FlattenOne(bytes[n..]);
      assert chunks[1..] == [bytes[n..]];
      assert Flatten(chunks) == bytes;
      assert [] + chunks[0] == bytes[..n];
      assert PushAll(limits, [], None, chunks).Err?;
    }
  }

  // ----------------------------------------------------- a connection's reader

  lemma {:induction false} PushAllSnoc(
      limits: Limits, buffered: Bytes, pending: Option<Pending>, chunks: seq<Bytes>, chunk: Bytes)
    ensures PushAll(limits, buffered, pending, chunks + [chunk]) ==
      match PushAll(limits, buffered, pending, chunks)
      case Err(e) => Err(e)
      case Ok(d) => After(d.frames, Pushed(limits, d.rest, d.pending, chunk))
    decreases |chunks|
  {
    if chunks == [] {
      assert chunks + [chunk] == [chunk];
      var outcome := Pushed(limits, buffered, pending, chunk);
      if outcome.Ok? {
        assert outcome.value.frames + [] == outcome.value.frames;
        assert [] + outcome.value.frames == outcome.value.frames;
      }
    } else {
      assert (chunks + [chunk])[1..] == chunks[1..] + [chunk];
      var first := Pushed(limits, buffered, pending, chunks[0]);
      if first.Ok? {
        var d := first.value;
        PushAllSnoc(limits, d.rest, d.pending, chunks[1..], chunk);
        var later := PushAll(limits, d.rest, d.pending, chunks[1..]);
        if later.Ok? {
          AfterAfter(d.frames, later.value.frames, Pushed(limits, later.value.rest, later.value.pending, chunk));
        }
      }
    }
  }

  lemma {:induction false} PushAllErrorStays(
      limits: Limits, buffered: Bytes, pending: Option<Pending>, chunks: seq<Bytes>, n: nat)
    requires n <= |chunks| && PushAll(limits, buffered, pending, chunks[..n]).Err?
    ensures PushAll(limits, buffered, pending, chunks) == PushAll(limits, buffered, pending, chunks[..n])
    decreases |chunks| - n
  {
    if n == |chunks| {
      assert chunks[..n] == chunks;
    } else {
      assert chunks[..n + 1] == chunks[..n] + [chunks[n]];
      PushAllSnoc(limits, buffered, pending, chunks[..n], chunks[n]);
      PushAllErrorStays(limits, buffered, pending, chunks, n + 1);
    }
  }

  function Max(a: int, b: int): int {
    if a > b then a else b
  }

  /** Push `n` throws: the frames returned before it are those of the pushes before it, and what this
    * push had decoded is lost. */
  ghost predicate ThrowsAt(limits: Limits, chunks: seq<Bytes>, n: nat, frames: seq<Frame>, error: ErrorCode) {
    && n < |chunks|
    && PushAll(limits, [], None, chunks[..n]).Ok?
    && frames == PushAll(limits, [], None, chunks[..n]).value.frames
    && PushAll(limits, [], None, chunks[..n + 1]) == Err(error)
  }

  /** Reads the chunks of one connection with a new parser, as the socket's data handler does: a push
    * that throws ends the connection, and `finish` judges one that ended by itself. When it did, no more
    * is buffered than the limits allow, and concatenation has copied no more than twice the bytes
    * received and one header allowance for each chunk. */
  method ReadConnection(limits: Limits, chunks: seq<Bytes>)
    returns (frames: seq<Frame>, error: Option<ErrorCode>, complete: bool, ghost copied: nat)
    requires limits.maxHeaderBytes > 0 && limits.maxBodyBytes > 0
    ensures error.None? <==> PushAll(limits, [], None, chunks).Ok?
    ensures error.None? ==>
      var d := PushAll(limits, [], None, chunks).value;
      && Decode(limits, Flatten(chunks), None) == Ok(d)
      && frames == d.frames
      && complete == (d.rest == [] && d.pending.None?)
      && |d.rest| <= Max(limits.maxHeaderBytes, limits.maxBodyBytes - 1)
    ensures error.Some? ==> !complete && exists n :: ThrowsAt(limits, chunks, n, frames, error.value)
    ensures error.None? ==> copied <= 2 * |Flatten(chunks)| + |chunks| * limits.maxHeaderBytes
  {
    hide Decode, Pushed, FindHeaderBoundary;
    var parser := new EslFrameParser(limits);
    frames := [];
    complete, copied, error := false, 0, None;
    for n := 0 to |chunks|
      invariant fresh(parser) && parser.Valid() && parser.limits == limits
      invariant PushAll(limits, [], None, chunks[..n]) == Ok(Decoded(frames, parser.Buffered(), parser.pending))
      invariant parser.allowance == 2 * |Flatten(chunks[..n])| + n * limits.maxHeaderBytes
    {
      assert chunks[..n + 1] == chunks[..n] + [chunks[n]];
      PushAllSnoc(limits, [], None, chunks[..n], chunks[n]);
      FlattenAppend(chunks[..n], [chunks[n]]);
      FlattenOne(chunks[n]);
      var pushed := parser.Push(chunks[n]);
      if pushed.Err? {
        PushAllErrorStays(limits, [], None, chunks, n + 1);
        assert ThrowsAt(limits, chunks, n, frames, pushed.error);
        return frames, Some(pushed.error), false, 0;
      }
      frames := frames + pushed.value;
      OneMoreAllowance(n, limits.maxHeaderBytes);
    }
    assert chunks[..|chunks|] == chunks;
    ChunkInvariance(limits, chunks);
    var finished := parser.Finish();
    copied := parser.copied;
    complete := finished.Ok?;
  }

  lemma OneMoreAllowance(n: nat, allowance: nat)
    ensures (n + 1) * allowance == n * allowance + allowance
  {
  }
}
