/** What a push that throws takes with it. */
module EslLosses {
  import opened Options
  import opened Text
  import opened EslHeaders
  import opened EslDecoder
  import opened EslParsing
  import opened EslStreams
  import opened EslRoundTrip

  /** The frames of `bytes` that come before its first error, or all of them if it has none. */
  function DecodedFrames(limits: Limits, bytes: Bytes, pending: Option<Pending>): seq<Frame>
    decreases |bytes|, if pending.Some? then 1 else 0
  {
    match pending
    case None =>
      (match FindHeaderBoundary(bytes)
       case None => []
       case Some(boundary) =>
         match ReadBlock(limits, bytes[..boundary.index])
         case Err(_) => []
         case Ok(announced) => DecodedFrames(limits, bytes[boundary.End()..], Some(announced)))
    case Some(p) =>
      if |bytes| < p.bodyLength then [] else
      [Frame(p.headers, bytes[..p.bodyLength])] + DecodedFrames(limits, bytes[p.bodyLength..], None)
  }

  lemma FramesAfterHeader(limits: Limits, bytes: Bytes)
    requires FindHeaderBoundary(bytes).Some?
    ensures var boundary := FindHeaderBoundary(bytes).value;
      var announced := ReadBlock(limits, bytes[..boundary.index]);
      announced.Ok? ==>
        DecodedFrames(limits, bytes, None) == DecodedFrames(limits, bytes[boundary.End()..], Some(announced.value))
  {
    hide ReadBlock, FindHeaderBoundary;
  }

  lemma FramesAfterBody(limits: Limits, bytes: Bytes, p: Pending)
    requires p.bodyLength <= |bytes|
    ensures DecodedFrames(limits, bytes, Some(p)) ==
      [Frame(p.headers, bytes[..p.bodyLength])] + DecodedFrames(limits, bytes[p.bodyLength..], None)
  {
  }

  lemma NoFrames(limits: Limits, bytes: Bytes, pending: Option<Pending>)
    requires if pending.Some? then |bytes| < pending.value.bodyLength else FindHeaderBoundary(bytes).None?
    ensures Decode(limits, bytes, pending) == Ok(Decoded([], bytes, pending))
    ensures DecodedFrames(limits, bytes, pending) == []
  {
    hide ReadBlock, FindHeaderBoundary;
  }

  /** For bytes without an error these are the frames of the decoder; more bytes add to their end. */
  lemma {:induction false} FramesInTwoParts(limits: Limits, a: Bytes, b: Bytes, pending: Option<Pending>)
    requires Decode(limits, a, pending).Ok?
    ensures var d := Decode(limits, a, pending).value;
      && DecodedFrames(limits, a, pending) == d.frames
      && DecodedFrames(limits, a + b, pending) == d.frames + DecodedFrames(limits, d.rest + b, d.pending)
    decreases |a|, if pending.Some? then 1 else 0, 1
  {
    hide Decode, DecodedFrames, ReadBlock, FindHeaderBoundary, OccursAt, IsBoundary;
    if pending.None? {
      if FindHeaderBoundary(a).None? {
        NoFrames(limits, a, None);
        assert [] + DecodedFrames(limits, a + b, None) == DecodedFrames(limits, a + b, None);
      } else {
        var end, announced := HeaderInTwoParts(limits, a, b);
        FramesInTwoParts(limits, a[end..], b, Some(announced));
      }
    } else {
      BodyInTwoParts(limits, a, b, pending.value);
    }
  }

  lemma HeaderInTwoParts(limits: Limits, a: Bytes, b: Bytes) returns (end: nat, announced: Pending)
    requires Decode(limits, a, None).Ok? && FindHeaderBoundary(a).Some?
    ensures 0 < end <= |a|
    ensures Decode(limits, a, None) == Decode(limits, a[end..], Some(announced))
    ensures DecodedFrames(limits, a, None) == DecodedFrames(limits, a[end..], Some(announced))
    ensures DecodedFrames(limits, a + b, None) == DecodedFrames(limits, a[end..] + b, Some(announced))
  {
    BoundaryStable(a, b);
    UnfoldHeader(limits, a);
    var boundary := FindHeaderBoundary(a).value;
    end := boundary.End();
    assert end > 0;
    hide Decode, DecodedFrames, ReadBlock, FindHeaderBoundary, OccursAt, IsBoundary;
    assert (a + b)[..boundary.index] == a[..boundary.index];
    assert (a + b)[end..] == a[end..] + b;
    announced := ReadBlock(limits, a[..boundary.index]).value;
    FramesAfterHeader(limits, a);
    FramesAfterHeader(limits, a + b);
  }

  lemma {:induction false} BodyInTwoParts(limits: Limits, a: Bytes, b: Bytes, p: Pending)
    requires Decode(limits, a, Some(p)).Ok?
    ensures var d := Decode(limits, a, Some(p)).value;
      && DecodedFrames(limits, a, Some(p)) == d.frames
      && DecodedFrames(limits, a + b, Some(p)) == d.frames + DecodedFrames(limits, d.rest + b, d.pending)
    decreases |a|, 1, 0
  {
    hide Decode, DecodedFrames, ReadBlock, FindHeaderBoundary;
    if |a| < p.bodyLength {
      NoFrames(limits, a, Some(p));
      assert [] + DecodedFrames(limits, a + b, Some(p)) == DecodedFrames(limits, a + b, Some(p));
    } else {
      UnfoldBody(limits, a, p);
      assert (a + b)[..p.bodyLength] == a[..p.bodyLength];
      assert (a + b)[p.bodyLength..] == a[p.bodyLength..] + b;
      FramesAfterBody(limits, a, p);
      FramesAfterBody(limits, a + b, p);
      FramesInTwoParts(limits, a[p.bodyLength..], b, None);
      var first, d := [Frame(p.headers, a[..p.bodyLength])], Decode(limits, a[p.bodyLength..], None).value;
      Associates(first, d.frames, DecodedFrames(limits, d.rest + b, d.pending));
    }
  }

  lemma Associates(a: seq<Frame>, b: seq<Frame>, c: seq<Frame>)
    ensures a + (b + c) == (a + b) + c
  {
  }

  /** The frames that have arrived in full with chunk `n`. */
  function Arrived(limits: Limits, chunks: seq<Bytes>, n: nat): seq<Frame>
    requires n < |chunks|
  {
    DecodedFrames(limits, Flatten(chunks[..n + 1]), None)
  }

  /** The frames that push `n` completes, up to its first error. */
  function Completed(limits: Limits, chunks: seq<Bytes>, n: nat): seq<Frame>
    requires n < |chunks| && PushAll(limits, [], None, chunks[..n]).Ok?
  {
    var d := PushAll(limits, [], None, chunks[..n]).value;
    DecodedFrames(limits, d.rest + chunks[n], d.pending)
  }

  /** A connection that push `n` ends loses exactly the frames that push completed, those whose last byte
    * arrived with it: what has been returned is what had arrived before. So it loses nothing exactly if the
    * push completed no frame. */
  lemma ThrowingPushLosesItsFrames(limits: Limits, chunks: seq<Bytes>, n: nat, frames: seq<Frame>, error: ErrorCode)
    requires ThrowsAt(limits, chunks, n, frames, error)
    ensures frames == DecodedFrames(limits, Flatten(chunks[..n]), None)
    ensures Arrived(limits, chunks, n) == frames + Completed(limits, chunks, n)
    ensures frames == Arrived(limits, chunks, n) <==> Completed(limits, chunks, n) == []
  {
    hide Decode, DecodedFrames, PushAll;
    ChunkInvariance(limits, chunks[..n]);
    assert chunks[..n + 1] == chunks[..n] + [chunks[n]];
    FlattenAppend(chunks[..n], [chunks[n]]);
    FlattenOne(chunks[n]);
    FramesInTwoParts(limits, Flatten(chunks[..n]), chunks[n], None);
  }

  // ------------------------------------------------------------------------- an input

  /** A frame, and a header block that is not one. */
  function Spoiled(f: WireFrame): Bytes {
    WriteFrame(f) + LF_LF
  }

  lemma BlankIsNoHeader(limits: Limits)
    ensures Decode(limits, LF_LF, None) == Err(InvalidHeader)
    ensures DecodedFrames(limits, LF_LF, None) == []
  {
    assert OccursAt(LF_LF, LF_LF, 0);
    assert IsBoundary(LF_LF, Boundary(0, 2));
    BoundaryIsUnique(LF_LF, Boundary(0, 2));
    assert LF_LF[..0] == [];
  }

  lemma PushOne(limits: Limits, buffered: Bytes, pending: Option<Pending>, chunk: Bytes)
    ensures PushAll(limits, buffered, pending, [chunk]) == Pushed(limits, buffered, pending, chunk)
  {
    if Pushed(limits, buffered, pending, chunk).Ok? {
      var d := Pushed(limits, buffered, pending, chunk).value;
      assert [chunk][1..] == [];
      assert d.frames + [] == d.frames;
    }
    hide Pushed;
  }

  /** For any frame that can be written: pushed together with a header block that is none, it is lost. Pushed
    * on its own first, it is returned. */
  lemma SpoiledFrameIsLost(limits: Limits, f: WireFrame)
    requires Writable(limits, f)
    ensures var frame, bytes := Frame(Group(f.fields), f.body), WriteFrame(f);
      && ThrowsAt(limits, [Spoiled(f)], 0, [], InvalidHeader) && Arrived(limits, [Spoiled(f)], 0) == [frame]
      && ThrowsAt(limits, [bytes, LF_LF], 1, [frame], InvalidHeader)
  {
    var frame, bytes := Frame(Group(f.fields), f.body), WriteFrame(f);
    SpoiledIsLost(limits, f);
    SpoiledIsReturned(limits, f);
    hide *;
  }

  lemma SpoiledIsLost(limits: Limits, f: WireFrame)
    requires Writable(limits, f)
    ensures ThrowsAt(limits, [Spoiled(f)], 0, [], InvalidHeader)
    ensures Arrived(limits, [Spoiled(f)], 0) == [Frame(Group(f.fields), f.body)]
  {
    hide Decode, DecodedFrames, Writable, WriteFrame, Group, FindHeaderBoundary, PushAll;
    DecodeWrittenFrame(limits, f, LF_LF);
    BlankIsNoHeader(limits);
    WholeFrame(limits, f);
    var chunks := [Spoiled(f)];
    PushNone(limits, [], None);
    PushOne(limits, [], None, Spoiled(f));
    assert chunks[..0] == [] && chunks[..1] == chunks && [] + Spoiled(f) == Spoiled(f);
    FlattenOne(Spoiled(f));
    FramesInTwoParts(limits, WriteFrame(f), LF_LF, None);
    assert [] + LF_LF == LF_LF;
  }

  lemma WholeFrame(limits: Limits, f: WireFrame)
    requires Writable(limits, f)
    ensures Decode(limits, WriteFrame(f), None) == Ok(Decoded([Frame(Group(f.fields), f.body)], [], None))
  {
    hide Decode, Writable, WriteFrame, Group;
    DecodeWrittenFrame(limits, f, []);
    EmptyStream(limits);
    assert WriteFrame(f) + [] == WriteFrame(f);
    assert [Frame(Group(f.fields), f.body)] + [] == [Frame(Group(f.fields), f.body)];
  }

  lemma PushNone(limits: Limits, buffered: Bytes, pending: Option<Pending>)
    ensures PushAll(limits, buffered, pending, []) == Ok(Decoded([], buffered, pending))
  {
  }

  lemma SpoiledIsReturned(limits: Limits, f: WireFrame)
    requires Writable(limits, f)
    ensures ThrowsAt(limits, [WriteFrame(f), LF_LF], 1, [Frame(Group(f.fields), f.body)], InvalidHeader)
  {
    hide Decode, Writable, WriteFrame, Group, FindHeaderBoundary;
    var chunks := [WriteFrame(f), LF_LF];
    WholeFrame(limits, f);
    BlankIsNoHeader(limits);
    PushOne(limits, [], None, WriteFrame(f));
    PushAllSnoc(limits, [], None, [WriteFrame(f)], LF_LF);
    assert chunks[..1] == [WriteFrame(f)] && chunks[..2] == chunks == [WriteFrame(f)] + [LF_LF];
    assert [] + WriteFrame(f) == WriteFrame(f) && [] + LF_LF == LF_LF;
    hide PushAll;
  }

  const SHORT := WireFrame([Field("A", "1")], [], Lf)

  lemma ShortIsWritable()
    ensures Writable(Limits(64, 64), SHORT)
  {
    assert WriteLines(SHORT.fields)[0] == WriteLine(Field("A", "1")) == "A" + ": " + "1";
    assert |Join(WriteLines(SHORT.fields), Lf)| == 4;
    assert |Lower("A")| == 1 && |Lower(CONTENT_LENGTH)| == 14;
    assert !SameName("A", CONTENT_LENGTH);
    assert SHORT.fields[1..] == [];
    assert ValuesOf(SHORT.fields, CONTENT_LENGTH) == [];
  }

  /** `A: 1`, a blank line, and another blank line in one chunk: the frame is lost. */
  lemma ShortFrameIsLost()
    ensures var limits, chunks := Limits(64, 64), [Spoiled(SHORT)];
      ThrowsAt(limits, chunks, 0, [], InvalidHeader) && |Arrived(limits, chunks, 0)| == 1
  {
    ShortIsWritable();
    SpoiledFrameIsLost(Limits(64, 64), SHORT);
    hide *;
  }
}
