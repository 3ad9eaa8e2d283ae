/** Writing frames and reading them back, through any chunks. */
module EslRoundTrip {
  import opened Options
  import opened Text
  import opened EslHeaders
  import opened EslDecoder
  import opened EslParsing
  import opened EslStreams

  /** A line ends in a line feed, or in a carriage return and a line feed. */
  datatype LineEnd = Lf | CrLf {
    function Text(): Bytes {
      if Lf? then "\n" else "\r\n"
    }

    /** The end of one line, and of an empty one. */
    function BlankLine(): Bytes {
      Text() + Text()
    }
  }

  /** A frame to be written, with line ends of its own. */
  datatype WireFrame = WireFrame(fields: seq<Field>, body: Bytes, end: LineEnd)

  function WriteLine(f: Field): Bytes {
    f.name + ": " + f.value
  }

  function WriteLines(fields: seq<Field>): (lines: seq<Bytes>)
    ensures |lines| == |fields|
  {
    seq(|fields|, i requires 0 <= i < |fields| => WriteLine(fields[i]))
  }

  function Join(lines: seq<Bytes>, end: LineEnd): Bytes
  {
    if lines == [] then []
    else if |lines| == 1 then lines[0]
    else lines[0] + end.Text() + Join(lines[1..], end)
  }

  function WriteFrame(f: WireFrame): Bytes {
    Join(WriteLines(f.fields), f.end) + f.end.BlankLine() + f.body
  }

  function WriteAll(frames: seq<WireFrame>): Bytes {
    if frames == [] then [] else WriteFrame(frames[0]) + WriteAll(frames[1..])
  }

  /** A name the parser accepts, and a value without line breaks or leading space. */
  predicate WritableField(f: Field) {
    && ValidName(f.name)
    && (forall i :: 0 <= i < |f.value| ==> f.value[i] != '\r' && f.value[i] != '\n')
    && (f.value != [] ==> !IsSpace(f.value[0]))
  }

  /** The Content-Length headers agree with the body; they may be missing when it is empty. */
  predicate LengthDeclared(f: WireFrame) {
    var lengths := ValuesOf(f.fields, CONTENT_LENGTH);
    if lengths == [] then f.body == [] else
    && AllDigits(lengths[0])
    && DecimalValue(lengths[0]) == |f.body|
    && forall i :: 0 <= i < |lengths| ==> lengths[i] == lengths[0]
  }

  predicate Writable(limits: Limits, f: WireFrame) {
    && f.fields != []
    && (forall i :: 0 <= i < |f.fields| ==> WritableField(f.fields[i]))
    && LengthDeclared(f)
    && |f.body| <= limits.maxBodyBytes && |f.body| <= MAX_SAFE_INTEGER
    && |Join(WriteLines(f.fields), f.end)| + |f.end.BlankLine()| - 1 <= limits.maxHeaderBytes
  }

  function ReadBack(frames: seq<WireFrame>): (r: seq<Frame>)
    ensures |r| == |frames|
  {
    seq(|frames|, i requires 0 <= i < |frames| => Frame(Group(frames[i].fields), frames[i].body))
  }

  // -------------------------------------------------------------------- lines

  predicate PlainLine(line: Bytes) {
    line != [] && forall i :: 0 <= i < |line| ==> line[i] != '\r' && line[i] != '\n'
  }

  /** A text in which every line break is of one style and no line is empty. */
  predicate LineShaped(text: Bytes, end: LineEnd) {
    && text != [] && text[0] != '\r' && text[0] != '\n'
    && text[|text| - 1] != '\n'
    && (forall k :: 0 <= k < |text| && text[k] == '\n' ==>
          0 < k && k + 1 < |text| && text[k + 1] != '\r' && text[k + 1] != '\n')
    && (forall k :: 0 <= k < |text| && text[k] == '\r' ==> end.CrLf? && k + 1 < |text| && text[k + 1] == '\n')
  }

  lemma {:induction false} JoinIsLineShaped(lines: seq<Bytes>, end: LineEnd)
    requires lines != [] && forall i :: 0 <= i < |lines| ==> PlainLine(lines[i])
    ensures LineShaped(Join(lines, end), end)
    decreases |lines|
  {
    assert PlainLine(lines[0]);
    if |lines| > 1 {
      JoinIsLineShaped(lines[1..], end);
      LineShapedCons(lines[0], Join(lines[1..], end), end);
    }
  }

  lemma LineShapedCons(first: Bytes, rest: Bytes, end: LineEnd)
    requires PlainLine(first) && LineShaped(rest, end)
    ensures LineShaped(first + end.Text() + rest, end)
  {
    var text := first + end.Text() + rest;
    var n := |first| + |end.Text()|;
    assert forall k :: 0 <= k < |first| ==> text[k] == first[k];
    assert forall k :: n <= k < |text| ==> text[k] == rest[k - n];
    assert text[n - 1] == '\n' && (end.CrLf? ==> text[n - 2] == '\r');
    assert text[n] == rest[0] && text[|text| - 1] == rest[|rest| - 1];
    forall k | 0 <= k < |text| && text[k] == '\n'
      ensures 0 < k && k + 1 < |text| && text[k + 1] != '\r' && text[k + 1] != '\n'
    {
      if k >= n {
        assert rest[k - n] == '\n' && text[k + 1] == rest[k - n + 1];
      }
    }
    forall k | 0 <= k < |text| && text[k] == '\r'
      ensures end.CrLf? && k + 1 < |text| && text[k + 1] == '\n'
    {
      if k >= n {
        assert rest[k - n] == '\r' && text[k + 1] == rest[k - n + 1];
      }
    }
  }

  /** The header block ends where the written lines do. */
  lemma BlankLineIsBoundary(text: Bytes, end: LineEnd, rest: Bytes)
    requires LineShaped(text, end)
    ensures FindHeaderBoundary(text + end.BlankLine() + rest) == Some(Boundary(|text|, |end.BlankLine()|))
  {
    var whole := text + end.BlankLine() + rest;
    var blank := Boundary(|text|, |end.BlankLine()|);
    assert whole[|text|..|text| + |end.BlankLine()|] == end.BlankLine();
    assert IsBoundary(whole, blank);
    assert forall k :: 0 <= k < |text| ==> whole[k] == text[k];
    assert whole[|text|] == end.BlankLine()[0];
    forall c | IsBoundary(whole, c)
      ensures |text| <= c.index
    {
      NoBlankLineBefore(whole, text, end, c);
    }
    BoundaryIsUnique(whole, blank);
  }

  lemma NoBlankLineBefore(whole: Bytes, text: Bytes, end: LineEnd, c: Boundary)
    requires LineShaped(text, end) && |text| < |whole| && IsBoundary(whole, c)
    requires forall k :: 0 <= k < |text| ==> whole[k] == text[k]
    requires whole[|text|] == end.BlankLine()[0]
    ensures |text| <= c.index
  {
    var k := c.index;
    var pattern := if c.length == 2 then LF_LF else CRLF_CRLF;
    var found := whole[k..k + c.length];
    assert found == pattern;
    assert whole[k] == found[0] && whole[k + 1] == found[1];
    assert c.length == 4 ==> whole[k + 2] == found[2];
  }

  lemma FirstLineFeed(line: Bytes, more: Bytes)
    requires forall i :: 0 <= i < |line| ==> line[i] != '\n'
    ensures IndexOf(line + "\n" + more, "\n") == Some(|line|)
  {
    var text := line + "\n" + more;
    assert OccursAt(text, "\n", |line|);
    forall k | 0 <= k < |line|
      ensures !OccursAt(text, "\n", k)
    {
      assert text[k] == line[k] != '\n';
      assert text[k..k + 1][0] == text[k];
    }
  }

  lemma FirstLine(line: Bytes, more: Bytes)
    requires forall i :: 0 <= i < |line| ==> line[i] != '\n'
    ensures Lines(line + "\n" + more) == [DropCarriageReturn(line)] + Lines(more)
  {
    var text := line + "\n" + more;
    FirstLineFeed(line, more);
    assert text[..|line|] == line && text[|line| + 1..] == more;
  }

  lemma LastLine(line: Bytes)
    requires forall i :: 0 <= i < |line| ==> line[i] != '\n'
    ensures Lines(line) == [line]
  {
    forall k | 0 <= k < |line|
      ensures !OccursAt(line, "\n", k)
    {
      assert line[k..k + 1][0] == line[k];
    }
  }

  lemma {:induction false} LinesOfJoin(lines: seq<Bytes>, end: LineEnd)
    requires lines != [] && forall i :: 0 <= i < |lines| ==> PlainLine(lines[i])
    ensures Lines(Join(lines, end)) == lines
    decreases |lines|
  {
    var first := lines[0];
    assert PlainLine(first);
    if |lines| == 1 {
      LastLine(first);
    } else {
      LinesOfJoin(lines[1..], end);
      JoinCons(first, lines[1..], end);
      assert [first] + lines[1..] == lines;
    }
  }

  lemma JoinCons(first: Bytes, rest: seq<Bytes>, end: LineEnd)
    requires rest != [] && PlainLine(first)
    ensures Lines(Join([first] + rest, end)) == [first] + Lines(Join(rest, end))
  {
    var upTo := if end.Lf? then first else first + "\r";
    assert ([first] + rest)[1..] == rest;
    assert Join([first] + rest, end) == upTo + "\n" + Join(rest, end);
    FirstLine(upTo, Join(rest, end));
    assert DropCarriageReturn(upTo) == first;
  }

  lemma {:induction false} NothingToTrim(s: Bytes)
    requires s != [] && !IsSpace(s[0]) && !IsSpace(s[|s| - 1])
    ensures Trim(s) == s
  {
  }

  lemma ParseWrittenLine(f: Field)
    requires WritableField(f)
    ensures ParseLine(WriteLine(f)) == Ok(f)
    ensures PlainLine(WriteLine(f))
  {
    var line := WriteLine(f);
    assert line[|f.name|..|f.name| + 1] == ":";
    assert OccursAt(line, ":", |f.name|);
    forall k | 0 <= k < |f.name|
      ensures !OccursAt(line, ":", k)
    {
      assert IsNameChar(f.name[k]);
      assert line[k..k + 1][0] == f.name[k];
    }
    assert IndexOf(line, ":") == Some(|f.name|);
    assert line[..|f.name|] == f.name;
    assert IsNameChar(f.name[0]) && IsNameChar(f.name[|f.name| - 1]);
    NothingToTrim(f.name);
    var tail := line[|f.name| + 1..];
    assert tail == " " + f.value && tail[1..] == f.value;
    assert TrimStart(tail) == TrimStart(f.value) == f.value;
    assert forall i :: 0 <= i < |f.name| ==> IsNameChar(f.name[i]) && line[i] == f.name[i];
  }

  lemma {:induction false} ParseWrittenLines(fields: seq<Field>)
    requires forall i :: 0 <= i < |fields| ==> WritableField(fields[i])
    ensures ParseLines(WriteLines(fields)) == Ok(fields)
    decreases |fields|
  {
    if fields != [] {
      hide *;
      var n := |fields| - 1;
      ParseWrittenLines(fields[..n]);
      ParseWrittenLine(fields[n]);
      WriteLinesSnoc(fields);
      ParseLinesSnoc(WriteLines(fields[..n]), WriteLine(fields[n]));
      assert fields[..n] + [fields[n]] == fields;
    }
  }

  lemma WriteLinesSnoc(fields: seq<Field>)
    requires fields != []
    ensures var n := |fields| - 1; WriteLines(fields) == WriteLines(fields[..n]) + [WriteLine(fields[n])]
  {
    hide WriteLine;
  }

  lemma WrittenLinesArePlain(fields: seq<Field>)
    requires forall i :: 0 <= i < |fields| ==> WritableField(fields[i])
    ensures forall i :: 0 <= i < |fields| ==> PlainLine(WriteLines(fields)[i])
  {
    forall i | 0 <= i < |fields|
      ensures PlainLine(WriteLines(fields)[i])
    {
      ParseWrittenLine(fields[i]);
    }
  }

  // ------------------------------------------------------------------- frames

  lemma WrittenLength(limits: Limits, f: WireFrame)
    requires LengthDeclared(f) && |f.body| <= limits.maxBodyBytes && |f.body| <= MAX_SAFE_INTEGER
    ensures ContentLength(Group(f.fields), limits.maxBodyBytes) == Ok(|f.body|)
  {
    LookupReturnsAllValues(f.fields, CONTENT_LENGTH);
    hide Group, Lookup, ValuesOf;
  }

  lemma WrittenBlock(fields: seq<Field>, end: LineEnd)
    requires fields != [] && forall i :: 0 <= i < |fields| ==> WritableField(fields[i])
    ensures LineShaped(Join(WriteLines(fields), end), end)
    ensures HeadersOf(Join(WriteLines(fields), end)) == Ok(Group(fields))
  {
    ParseWrittenLines(fields);
    WrittenLinesArePlain(fields);
    JoinIsLineShaped(WriteLines(fields), end);
    LinesOfJoin(WriteLines(fields), end);
    hide Join, WriteLines, ParseLines, Lines, Group, PlainLine;
  }

  lemma WrittenHeaders(limits: Limits, f: WireFrame)
    requires Writable(limits, f)
    ensures var block := Join(WriteLines(f.fields), f.end);
      && LineShaped(block, f.end)
      && ReadBlock(limits, block) == Ok(Pending(Group(f.fields), |f.body|))
  {
    WrittenBlock(f.fields, f.end);
    WrittenLength(limits, f);
    hide Join, WriteLines, HeadersOf, ContentLength, Group, LineShaped, LengthDeclared;
  }

  lemma DecodeBlock(limits: Limits, block: Bytes, blank: Bytes, more: Bytes)
    requires FindHeaderBoundary(block + blank + more) == Some(Boundary(|block|, |blank|))
    requires |block| + |blank| - 1 <= limits.maxHeaderBytes && |blank| > 0
    requires ReadBlock(limits, block).Ok?
    ensures var pending := Some(ReadBlock(limits, block).value);
      && Decode(limits, block + blank + more, None) == Decode(limits, more, pending)
      && (Decode(limits, more, pending).Ok? && HeadersFit(limits, more, pending)
          ==> HeadersFit(limits, block + blank + more, None))
  {
    hide ReadBlock, FindHeaderBoundary;
    var bytes := block + blank + more;
    assert bytes[..|block|] == block;
    assert bytes[|block| + |blank|..] == more;
  }

  lemma DecodeBody(limits: Limits, headers: Headers, body: Bytes, more: Bytes)
    ensures var pending := Some(Pending(headers, |body|));
      && Decode(limits, body + more, pending) == After([Frame(headers, body)], Decode(limits, more, None))
      && (Decode(limits, more, None).Ok? && HeadersFit(limits, more, None)
          ==> HeadersFit(limits, body + more, pending))
  {
    assert (body + more)[..|body|] == body && (body + more)[|body|..] == more;
  }

  lemma DecodeWrittenFrame(limits: Limits, f: WireFrame, more: Bytes)
    requires Writable(limits, f)
    ensures var bytes := WriteFrame(f) + more;
      && Decode(limits, bytes, None) == After([Frame(Group(f.fields), f.body)], Decode(limits, more, None))
      && (Decode(limits, more, None).Ok? && HeadersFit(limits, more, None) ==> HeadersFit(limits, bytes, None))
  {
    WrittenHeaders(limits, f);
    hide ReadBlock, FindHeaderBoundary;
    hide Decode;
    var block := Join(WriteLines(f.fields), f.end);
    assert WriteFrame(f) + more == block + f.end.BlankLine() + (f.body + more);
    BlankLineIsBoundary(block, f.end, f.body + more);
    DecodeBlock(limits, block, f.end.BlankLine(), f.body + more);
    DecodeBody(limits, Group(f.fields), f.body, more);
  }

  lemma {:induction false} DecodeWritten(limits: Limits, frames: seq<WireFrame>)
    requires forall i :: 0 <= i < |frames| ==> Writable(limits, frames[i])
    ensures Decode(limits, WriteAll(frames), None) == Ok(Decoded(ReadBack(frames), [], None))
    ensures HeadersFit(limits, WriteAll(frames), None)
    decreases |frames|
  {
    if frames == [] {
      EmptyStream(limits);
    } else {
      DecodeWritten(limits, frames[1..]);
      DecodeWrittenFrame(limits, frames[0], WriteAll(frames[1..]));
      ReadBackCons(frames);
    }
  }

  lemma EmptyStream(limits: Limits)
    ensures Decode(limits, [], None) == Ok(Decoded([], [], None)) && HeadersFit(limits, [], None)
  {
  }

  lemma ReadBackCons(frames: seq<WireFrame>)
    requires frames != []
    ensures ReadBack(frames) == [Frame(Group(frames[0].fields), frames[0].body)] + ReadBack(frames[1..])
  {
  }

  /** Frames written one after the other, each with line ends of its own, are read back exactly, whatever the
    * chunks they arrive in, and nothing is left over. */
  lemma RoundTrip(limits: Limits, frames: seq<WireFrame>, chunks: seq<Bytes>)
    requires forall i :: 0 <= i < |frames| ==> Writable(limits, frames[i])
    requires Flatten(chunks) == WriteAll(frames)
    ensures PushAll(limits, [], None, chunks) == Ok(Decoded(ReadBack(frames), [], None))
  {
    DecodeWritten(limits, frames);
    assert [] + Flatten(chunks) == Flatten(chunks);
    FittingStreamCutAnywhere(limits, [], None, chunks);
    ChunkInvariance(limits, chunks);
  }

  /** Every value written under a name is found again under any spelling of it, in wire order. */
  lemma RoundTripLookup(limits: Limits, frames: seq<WireFrame>, chunks: seq<Bytes>, i: nat, name: Bytes)
    requires forall i :: 0 <= i < |frames| ==> Writable(limits, frames[i])
    requires Flatten(chunks) == WriteAll(frames)
    requires i < |frames|
    ensures PushAll(limits, [], None, chunks).Ok?
    ensures var read := PushAll(limits, [], None, chunks).value.frames;
      && |read| == |frames|
      && read[i].body == frames[i].body
      && Lookup(read[i].headers, name) == ValuesOf(frames[i].fields, name)
  {
    RoundTrip(limits, frames, chunks);
    LookupReturnsAllValues(frames[i].fields, name);
  }
}
