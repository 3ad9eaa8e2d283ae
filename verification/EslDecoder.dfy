/**
 * The wire format of ESL as a function on whole byte strings: where a header block ends, and the
 * frames of a byte string. The incremental parser is specified by this decoder.
 */
module EslDecoder {
  import opened Options
  import opened EslHeaders

  datatype Limits = Limits(maxHeaderBytes: nat, maxBodyBytes: nat)

  /** A header block whose body is still awaited. */
  datatype Pending = Pending(headers: Headers, bodyLength: nat)

  datatype Frame = Frame(headers: Headers, body: Bytes)

  /** The frames of a byte string, and what is left over after the last of them. */
  datatype Decoded = Decoded(frames: seq<Frame>, rest: Bytes, pending: Option<Pending>)

  // ----------------------------------------------------------------- boundary

  datatype Boundary = Boundary(index: nat, length: nat) {
    function End(): nat {
      index + length
    }
  }

  const LF_LF: Bytes := "\n\n"
  const CRLF_CRLF: Bytes := "\r\n\r\n"

  predicate IsBoundary(bytes: Bytes, b: Boundary) {
    (b.length == 2 && OccursAt(bytes, LF_LF, b.index)) || (b.length == 4 && OccursAt(bytes, CRLF_CRLF, b.index))
  }

  /** The end of the header block: the first blank line of either style. */
  function FindHeaderBoundary(bytes: Bytes): (r: Option<Boundary>)
    ensures r.Some? ==> IsBoundary(bytes, r.value) && r.value.End() <= |bytes|
    ensures r.Some? ==> forall b :: IsBoundary(bytes, b) ==> r.value.index <= b.index
    ensures r.None? ==> forall b :: !IsBoundary(bytes, b)
  {
    var lfIndex := IndexOf(bytes, LF_LF);
    var crlfIndex := IndexOf(bytes, CRLF_CRLF);
    if lfIndex.None? && crlfIndex.None? then None
    else if crlfIndex.Some? && (lfIndex.None? || crlfIndex.value < lfIndex.value)
    then Some(Boundary(crlfIndex.value, 4))
    else Some(Boundary(lfIndex.value, 2))
  }

  lemma OccursInPrefix(a: Bytes, b: Bytes, pattern: Bytes, k: int)
    requires 0 <= k && k + |pattern| <= |a|
    ensures OccursAt(a, pattern, k) == OccursAt(a + b, pattern, k)
  {
    assert (a + b)[k..k + |pattern|] == a[k..k + |pattern|];
  }

  lemma BoundaryStarts(bytes: Bytes, b: Boundary)
    requires IsBoundary(bytes, b)
    ensures 0 <= b.index < |bytes| && bytes[b.index] == if b.length == 2 then '\n' else '\r'
  {
    var found := bytes[b.index..b.index + b.length];
    assert bytes[b.index] == found[0];
  }

  /** Both styles never end a header block at the same position, so the first boundary is unique. */
  lemma BoundaryIsUnique(bytes: Bytes, b: Boundary)
    requires IsBoundary(bytes, b)
    requires forall c :: IsBoundary(bytes, c) ==> b.index <= c.index
    ensures FindHeaderBoundary(bytes) == Some(b)
  {
    var found := FindHeaderBoundary(bytes);
    assert found.Some?;
    assert found.value.index == b.index && found.value.length in {2, 4} && b.length in {2, 4};
    BoundaryStarts(bytes, b);
    BoundaryStarts(bytes, found.value);
    hide FindHeaderBoundary, IsBoundary;
  }

  /** More bytes never move a boundary that has been found. */
  lemma BoundaryStable(a: Bytes, b: Bytes)
    requires FindHeaderBoundary(a).Some?
    ensures FindHeaderBoundary(a + b) == FindHeaderBoundary(a)
  {
    var found := FindHeaderBoundary(a).value;
    OccursInPrefix(a, b, if found.length == 2 then LF_LF else CRLF_CRLF, found.index);
    forall c | IsBoundary(a + b, c)
      ensures found.index <= c.index
    {
      if c.index < found.index {
        // It would end before the boundary found does, because the two styles do not overlap there.
        BoundaryEndsInside(a, b, found, c);
      }
    }
    BoundaryIsUnique(a + b, found);
  }

  lemma BoundaryEndsInside(a: Bytes, b: Bytes, found: Boundary, c: Boundary)
    requires IsBoundary(a, found) && found.index + found.length <= |a|
    requires IsBoundary(a + b, c) && c.index < found.index
    ensures IsBoundary(a, c)
  {
    var whole := a + b;
    OccursInPrefix(a, b, if found.length == 2 then LF_LF else CRLF_CRLF, found.index);
    assert whole[found.index + found.length - 1] == '\n';
    assert found.length == 2 ==> whole[found.index] == '\n';
    assert c.length == 4 ==> whole[c.index + 2] == '\r';
    OccursInPrefix(a, b, if c.length == 2 then LF_LF else CRLF_CRLF, c.index);
  }

  /** A boundary that appears only when more bytes arrive reaches into those bytes. */
  lemma BoundaryIsNew(a: Bytes, b: Bytes)
    requires FindHeaderBoundary(a).None? && FindHeaderBoundary(a + b).Some?
    ensures FindHeaderBoundary(a + b).value.End() > |a|
  {
    var found := FindHeaderBoundary(a + b).value;
    if found.index + found.length <= |a| {
      OccursInPrefix(a, b, if found.length == 2 then LF_LF else CRLF_CRLF, found.index);
    }
  }

  /** Without its last byte a boundary is not seen at all. */
  lemma BoundaryNeedsItsLastByte(bytes: Bytes, n: nat)
    requires FindHeaderBoundary(bytes).Some?
    requires n < FindHeaderBoundary(bytes).value.End()
    ensures FindHeaderBoundary(bytes[..n]).None?
  {
    assert bytes[..n] + bytes[n..] == bytes;
    if FindHeaderBoundary(bytes[..n]).Some? {
      BoundaryStable(bytes[..n], bytes[n..]);
    }
  }

  // ----------------------------------------------------------------- decoding

  /** The body that a complete header block announces. */
  function ReadBlock(limits: Limits, block: Bytes): (r: Result<Pending, ErrorCode>)
    ensures r.Ok? ==> r.value.bodyLength <= limits.maxBodyBytes
  {
    if |block| > limits.maxHeaderBytes then Err(HeaderTooLarge) else
    var headers :- HeadersOf(block);
    var bodyLength :- ContentLength(headers, limits.maxBodyBytes);
    Ok(Pending(headers, bodyLength))
  }

  /** The frames of `bytes`, read from the start: after a header block when `pending` is given. */
  function Decode(limits: Limits, bytes: Bytes, pending: Option<Pending>): Result<Decoded, ErrorCode>
    decreases |bytes|, if pending.Some? then 1 else 0
  {
    match pending
    case None =>
      (match FindHeaderBoundary(bytes)
       case None => Ok(Decoded([], bytes, None))
       case Some(boundary) =>
         var announced :- ReadBlock(limits, bytes[..boundary.index]);
         Decode(limits, bytes[boundary.End()..], Some(announced)))
    case Some(p) =>
      if |bytes| < p.bodyLength then Ok(Decoded([], bytes, pending)) else
      After([Frame(p.headers, bytes[..p.bodyLength])], Decode(limits, bytes[p.bodyLength..], None))
  }

  /** The outcome of decoding when some frames have been taken off the front already. */
  function After(frames: seq<Frame>, outcome: Result<Decoded, ErrorCode>): Result<Decoded, ErrorCode> {
    match outcome
    case Err(e) => Err(e)
    case Ok(d) => Ok(d.(frames := frames + d.frames))
  }

  lemma AfterAfter(f: seq<Frame>, g: seq<Frame>, outcome: Result<Decoded, ErrorCode>)
    ensures After(f, After(g, outcome)) == After(f + g, outcome)
  {
    if outcome.Ok? {
      assert f + (g + outcome.value.frames) == (f + g) + outcome.value.frames;
    }
  }

  /** What has been decoded so far, carried on with more bytes. */
  function Resume(limits: Limits, outcome: Result<Decoded, ErrorCode>, more: Bytes): Result<Decoded, ErrorCode> {
    match outcome
    case Err(e) => Err(e)
    case Ok(d) => After(d.frames, Decode(limits, d.rest + more, d.pending))
  }

  lemma ResumeAfter(limits: Limits, frames: seq<Frame>, outcome: Result<Decoded, ErrorCode>, more: Bytes)
    ensures Resume(limits, After(frames, outcome), more) == After(frames, Resume(limits, outcome, more))
  {
    if outcome.Ok? {
      AfterAfter(frames, outcome.value.frames, Decode(limits, outcome.value.rest + more, outcome.value.pending));
    }
  }

  lemma AfterNothing(outcome: Result<Decoded, ErrorCode>)
    ensures After([], outcome) == outcome
  {
    if outcome.Ok? {
      assert [] + outcome.value.frames == outcome.value.frames;
    }
  }

  lemma DecodeHeader(limits: Limits, bytes: Bytes)
    requires FindHeaderBoundary(bytes).Some?
    ensures var blank := FindHeaderBoundary(bytes).value;
      var announced := ReadBlock(limits, bytes[..blank.index]);
      Decode(limits, bytes, None) ==
        if announced.Err? then Err(announced.error)
        else Decode(limits, bytes[blank.End()..], Some(announced.value))
  {
    hide ReadBlock, FindHeaderBoundary;
  }

  lemma DecodeBody(limits: Limits, bytes: Bytes, p: Pending)
    requires p.bodyLength <= |bytes|
    ensures Decode(limits, bytes, Some(p)) ==
      After([Frame(p.headers, bytes[..p.bodyLength])], Decode(limits, bytes[p.bodyLength..], None))
  {
  }

  lemma DecodeNothing(limits: Limits, bytes: Bytes, pending: Option<Pending>)
    requires if pending.Some? then |bytes| < pending.value.bodyLength else FindHeaderBoundary(bytes).None?
    ensures Decode(limits, bytes, pending) == Ok(Decoded([], bytes, pending))
  {
    hide ReadBlock, FindHeaderBoundary;
  }

  lemma PartsOfWhole(a: Bytes, b: Bytes, n: nat)
    requires n <= |a|
    ensures (a + b)[..n] == a[..n] && (a + b)[n..] == a[n..] + b
  {
  }

  lemma BodyInTwoParts(limits: Limits, a: Bytes, b: Bytes, p: Pending)
    requires p.bodyLength <= |a|
    requires Decode(limits, a[p.bodyLength..] + b, None) == Resume(limits, Decode(limits, a[p.bodyLength..], None), b)
    ensures Decode(limits, a + b, Some(p)) == Resume(limits, Decode(limits, a, Some(p)), b)
  {
    hide *;
    PartsOfWhole(a, b, p.bodyLength);
    DecodeBody(limits, a, p);
    DecodeBody(limits, a + b, p);
    ResumeAfter(limits, [Frame(p.headers, a[..p.bodyLength])], Decode(limits, a[p.bodyLength..], None), b);
  }

  /** More bytes change neither the header block nor what it announces. */
  lemma SameHeader(limits: Limits, a: Bytes, b: Bytes)
    requires FindHeaderBoundary(a).Some?
    ensures FindHeaderBoundary(a + b) == FindHeaderBoundary(a)
    ensures var blank := FindHeaderBoundary(a).value;
      && (a + b)[..blank.index] == a[..blank.index] && (a + b)[blank.End()..] == a[blank.End()..] + b
      && blank.index < blank.End() <= |a|
  {
    BoundaryStable(a, b);
    PartsOfWhole(a, b, FindHeaderBoundary(a).value.index);
    PartsOfWhole(a, b, FindHeaderBoundary(a).value.End());
    hide FindHeaderBoundary;
  }

  /** Decoding can stop anywhere and carry on: the bytes may be cut at any place, in errors too. */
  lemma {:induction false} DecodeInTwoParts(limits: Limits, a: Bytes, b: Bytes, pending: Option<Pending>)
    ensures Decode(limits, a + b, pending) == Resume(limits, Decode(limits, a, pending), b)
    decreases |a|, if pending.Some? then 1 else 0
  {
    hide *;
    if pending.Some? && pending.value.bodyLength <= |a| {
      DecodeInTwoParts(limits, a[pending.value.bodyLength..], b, None);
      BodyInTwoParts(limits, a, b, pending.value);
    } else if pending.None? && FindHeaderBoundary(a).Some? {
      SameHeader(limits, a, b);
      DecodeHeader(limits, a);
      DecodeHeader(limits, a + b);
      var blank := FindHeaderBoundary(a).value;
      var announced := ReadBlock(limits, a[..blank.index]);
      if announced.Ok? {
        DecodeInTwoParts(limits, a[blank.End()..], b, Some(announced.value));
      } else {
        ErrorStays(limits, announced.error, b);
      }
    } else {
      DecodeNothing(limits, a, pending);
      NothingYet(limits, a, b, pending);
    }
  }

  lemma ErrorStays(limits: Limits, error: ErrorCode, more: Bytes)
    ensures Resume(limits, Err(error), more) == Err(error)
  {
  }

  lemma NothingYet(limits: Limits, a: Bytes, b: Bytes, pending: Option<Pending>)
    ensures Resume(limits, Ok(Decoded([], a, pending)), b) == Decode(limits, a + b, pending)
  {
    AfterNothing(Decode(limits, a + b, pending));
    hide Decode;
  }

  /** What a stream fails with at its first header block: the block is longer than allowed; it is empty or has a line
    * that is not accepted; or the length it announces is none, or too large. Otherwise decoding goes on behind the
    * blank line, with the body that is announced. */
  lemma FirstBlockDecides(limits: Limits, bytes: Bytes, blank: Boundary)
    requires IsBoundary(bytes, blank) && forall b :: IsBoundary(bytes, b) ==> blank.index <= b.index
    ensures 0 <= blank.index <= blank.End() <= |bytes|
    ensures var block := bytes[..blank.index];
      Decode(limits, bytes, None) ==
        if |block| > limits.maxHeaderBytes then Err(HeaderTooLarge)
        else if block == [] || ParseLines(Lines(block)).Err? then Err(InvalidHeader)
        else
          var headers := Group(ParseLines(Lines(block)).value);
          var length := ContentLength(headers, limits.maxBodyBytes);
          if length.Err? then Err(length.error)
          else Decode(limits, bytes[blank.End()..], Some(Pending(headers, length.value)))
  {
    BoundaryIsUnique(bytes, blank);
    hide FindHeaderBoundary, ContentLength, Lines;
  }

  /** What is left over is not a frame yet. */
  lemma {:induction false} LeftoverIsPartial(limits: Limits, bytes: Bytes, pending: Option<Pending>)
    requires Decode(limits, bytes, pending).Ok?
    requires pending.Some? ==> pending.value.bodyLength <= limits.maxBodyBytes
    ensures var d := Decode(limits, bytes, pending).value;
      && |d.rest| <= |bytes|
      && Decode(limits, d.rest, d.pending) == Ok(Decoded([], d.rest, d.pending))
      && (d.pending.None? ==> FindHeaderBoundary(d.rest).None?)
      && (d.pending.Some? ==> |d.rest| < d.pending.value.bodyLength <= limits.maxBodyBytes)
    decreases |bytes|, if pending.Some? then 1 else 0
  {
    hide ReadBlock, FindHeaderBoundary;
    match pending
    case None =>
      if FindHeaderBoundary(bytes).Some? {
        var boundary := FindHeaderBoundary(bytes).value;
        var announced := ReadBlock(limits, bytes[..boundary.index]).value;
        LeftoverIsPartial(limits, bytes[boundary.End()..], Some(announced));
      }
    case Some(p) =>
      if |bytes| >= p.bodyLength {
        LeftoverIsPartial(limits, bytes[p.bodyLength..], None);
      }
  }
}
