/**
 * The header block of an ESL frame: splitting it into lines, parsing the lines,
 * grouping repeated names, looking a name up and reading Content-Length.
 *
 * A byte is a `char` below 256, so that byte strings can be written as literals.
 */
module EslHeaders {
  import opened Options
  import opened Text

  type Bytes = seq<char>

  datatype ErrorCode =
    | BodyTooLarge
    | HeaderTooLarge
    | IncompleteFrame
    | InvalidContentLength
    | InvalidHeader

  /** One `Name: value` line of a header block. */
  datatype Field = Field(name: Bytes, value: Bytes)

  /** A header under the spelling of its first occurrence, with every value it was given. */
  datatype Header = Header(name: Bytes, values: seq<Bytes>)

  type Headers = seq<Header>

  const MAX_SAFE_INTEGER: nat := 9007199254740991
  const CONTENT_LENGTH: Bytes := "Content-Length"

  // ---------------------------------------------------------------- searching

  /** `pattern` occurs in `bytes` at position `k`. */
  predicate OccursAt(bytes: Bytes, pattern: Bytes, k: int) {
    0 <= k && k + |pattern| <= |bytes| && bytes[k..k + |pattern|] == pattern
  }

  function IndexFrom(bytes: Bytes, pattern: Bytes, start: nat): (r: Option<nat>)
    requires pattern != []
    ensures r.Some? ==> start <= r.value && OccursAt(bytes, pattern, r.value)
    ensures forall k :: start <= k < (if r.Some? then r.value else |bytes|) ==> !OccursAt(bytes, pattern, k)
    decreases |bytes| - start
  {
    if start >= |bytes| then None
    else if OccursAt(bytes, pattern, start) then Some(start)
    else IndexFrom(bytes, pattern, start + 1)
  }

  /** The first position of a non-empty pattern. */
  function IndexOf(bytes: Bytes, pattern: Bytes): (r: Option<nat>)
    requires pattern != []
    ensures r.Some? ==> OccursAt(bytes, pattern, r.value)
    ensures forall k :: 0 <= k < (if r.Some? then r.value else |bytes|) ==> !OccursAt(bytes, pattern, k)
  {
    IndexFrom(bytes, pattern, 0)
  }

  // ------------------------------------------------------------------ lexical

  predicate IsNameStart(c: char) {
    'a' <= c <= 'z' || 'A' <= c <= 'Z' || IsDigit(c)
  }

  predicate IsNameChar(c: char) {
    IsNameStart(c) || c == '_' || c == '-'
  }

  /** The names accepted by the parser's pattern. */
  predicate ValidName(name: Bytes) {
    name != [] && IsNameStart(name[0]) && forall i :: 0 <= i < |name| ==> IsNameChar(name[i])
  }

  predicate SameName(a: Bytes, b: Bytes) {
    Lower(a) == Lower(b)
  }

  // -------------------------------------------------------------------- lines

  function DropCarriageReturn(line: Bytes): Bytes {
    if line != [] && line[|line| - 1] == '\r' then line[..|line| - 1] else line
  }

  /** Splitting at every line feed, each with at most one carriage return before it. */
  function Lines(block: Bytes): (lines: seq<Bytes>)
    ensures lines != []
    decreases |block|
  {
    match IndexOf(block, "\n")
    case None => [block]
    case Some(i) => [DropCarriageReturn(block[..i])] + Lines(block[i + 1..])
  }

  function ParseLine(line: Bytes): Result<Field, ErrorCode> {
    match IndexOf(line, ":")
    case None => Err(InvalidHeader)
    case Some(colon) =>
      if colon == 0 then Err(InvalidHeader) else
      var name := Trim(line[..colon]);
      if !ValidName(name) then Err(InvalidHeader) else
      Ok(Field(name, TrimStart(line[colon + 1..])))
  }

  function ParseLines(lines: seq<Bytes>): (r: Result<seq<Field>, ErrorCode>)
    ensures r.Ok? ==> |r.value| == |lines|
    ensures r.Err? ==> r.error == InvalidHeader
  {
    if lines == [] then Ok([]) else
    var fields :- ParseLines(lines[..|lines| - 1]);
    var field :- ParseLine(lines[|lines| - 1]);
    Ok(fields + [field])
  }

  // ----------------------------------------------------------------- grouping

  /** The values given to a name, in wire order, whatever the case it was written in. */
  function ValuesOf(fields: seq<Field>, name: Bytes): seq<Bytes> {
    if fields == [] then []
    else (if SameName(fields[0].name, name) then [fields[0].value] else []) + ValuesOf(fields[1..], name)
  }

  function Others(fields: seq<Field>, name: Bytes): (r: seq<Field>)
    ensures |r| <= |fields|
  {
    if fields == [] then []
    else (if SameName(fields[0].name, name) then [] else [fields[0]]) + Others(fields[1..], name)
  }

  /** Each distinct name once, at its first occurrence and with all its values. */
  function Group(fields: seq<Field>): Headers
    decreases |fields|
  {
    if fields == [] then [] else
    var name := fields[0].name;
    [Header(name, [fields[0].value] + ValuesOf(fields[1..], name))] + Group(Others(fields[1..], name))
  }

  function HeadersOf(block: Bytes): Result<Headers, ErrorCode> {
    if block == [] then Err(InvalidHeader) else
    var fields :- ParseLines(Lines(block));
    Ok(Group(fields))
  }

  /** The position of the header that carries `name`. */
  function Find(headers: Headers, name: Bytes): (r: Option<nat>)
    ensures r.Some? ==> r.value < |headers| && SameName(headers[r.value].name, name)
    ensures forall i :: 0 <= i < (if r.Some? then r.value else |headers|) ==> !SameName(headers[i].name, name)
  {
    if headers == [] then None
    else if SameName(headers[0].name, name) then Some(0)
    else match Find(headers[1..], name) case None => None case Some(i) => Some(i + 1)
  }

  /** Every value of a header, looked up without regard to case; none if it is absent. */
  function Lookup(headers: Headers, name: Bytes): seq<Bytes> {
    match Find(headers, name)
    case None => []
    case Some(i) => headers[i].values
  }

  // ----------------------------------------------------------- Content-Length

  predicate AllDigits(s: Bytes) {
    s != [] && forall i :: 0 <= i < |s| ==> IsDigit(s[i])
  }

  function DecimalValue(s: Bytes): nat
    requires forall i :: 0 <= i < |s| ==> IsDigit(s[i])
  {
    if s == [] then 0 else
    assert IsDigit(s[|s| - 1]);
    10 * DecimalValue(s[..|s| - 1]) + (s[|s| - 1] as int - '0' as int)
  }

  function ContentLength(headers: Headers, maxBodyBytes: nat): (r: Result<nat, ErrorCode>)
    ensures r.Ok? ==> r.value <= maxBodyBytes
  {
    var values := Lookup(headers, CONTENT_LENGTH);
    if values == [] then Ok(0)
    else if exists i :: 0 <= i < |values| && values[i] != values[0] then Err(InvalidContentLength)
    else if !AllDigits(values[0]) then Err(InvalidContentLength)
    else
      var length := DecimalValue(values[0]);
      if length > MAX_SAFE_INTEGER then Err(InvalidContentLength)
      else if length > maxBodyBytes then Err(BodyTooLarge)
      else Ok(length)
  }

  // ------------------------------------------------------------- what is accepted

  /** A letter or a digit, followed by letters, digits, underscores and dashes. */
  predicate IsPlainName(name: Bytes) {
    && name != [] && name[0] != '_' && name[0] != '-'
    && forall i :: 0 <= i < |name| ==>
         'a' <= name[i] <= 'z' || 'A' <= name[i] <= 'Z' || '0' <= name[i] <= '9' || name[i] == '_' || name[i] == '-'
  }

  /** A line is accepted exactly if it has a colon that is not its first character, and what is before the first
    * colon is, without the white space around it, a plain name. The value is what comes after it, without the white
    * space it starts with. */
  lemma LineAcceptedIff(line: Bytes, colon: nat)
    requires colon <= |line| && (colon < |line| ==> line[colon] == ':')
    requires forall i :: 0 <= i < colon ==> line[i] != ':'
    ensures ParseLine(line) ==
      if 0 < colon < |line| && IsPlainName(Trim(line[..colon]))
      then Ok(Field(Trim(line[..colon]), TrimStart(line[colon + 1..])))
      else Err(InvalidHeader)
  {
    forall k | 0 <= k < |line|
      ensures OccursAt(line, ":", k) <==> line[k] == ':'
    {
      assert line[k..k + 1] == [line[k]];
    }
    assert colon < |line| ==> IndexOf(line, ":") == Some(colon);
    hide Trim, TrimStart;
  }

  /** Names are the same without regard to the case of their letters. */
  lemma SameNameIff(a: Bytes, b: Bytes)
    ensures SameName(a, b) <==>
      && |a| == |b|
      && forall i :: 0 <= i < |a| ==>
           || a[i] == b[i]
           || ('A' <= a[i] <= 'Z' && b[i] as int == a[i] as int + 32)
           || ('a' <= a[i] <= 'z' && b[i] as int == a[i] as int - 32)
  {
    SameLowerIff(a, b);
    hide Lower;
  }

  function Digit(d: nat): char
    requires d < 10
  {
    "0123456789"[d]
  }

  /** A number in decimal digits. */
  function Decimal(n: nat): (s: Bytes)
    ensures s != []
  {
    if n < 10 then [Digit(n)] else Decimal(n / 10) + [Digit(n % 10)]
  }

  /** Decimal digits are read back as the number they were written from, with any zeros before them. */
  lemma {:induction false} DecimalIsRead(n: nat)
    ensures AllDigits(Decimal(n)) && DecimalValue(Decimal(n)) == n
  {
    if n >= 10 {
      DecimalIsRead(n / 10);
      assert Decimal(n)[..|Decimal(n)| - 1] == Decimal(n / 10);
    } else {
      assert Decimal(n)[..0] == [];
    }
  }

  lemma {:induction false} LeadingZero(s: Bytes)
    requires AllDigits(s)
    ensures AllDigits("0" + s) && DecimalValue("0" + s) == DecimalValue(s)
  {
    assert ("0" + s)[..|s|] == "0" + s[..|s| - 1];
    if |s| == 1 {
      assert "0" + s[..0] == "0" && "0"[..0] == [];
    } else {
      LeadingZero(s[..|s| - 1]);
    }
  }

  /** The length that the values of Content-Length announce: 0 if there are none, their decimal value if they are
    * all the same digits and neither too large for an exact number nor for a body, and otherwise an error. */
  lemma LengthAnnounced(fields: seq<Field>, maxBodyBytes: nat)
    ensures var values := ValuesOf(fields, "Content-Length");
      ContentLength(Group(fields), maxBodyBytes) ==
        if values == [] then Ok(0)
        else if (exists v :: v in values && v != values[0])
                || values[0] == [] || (exists i :: 0 <= i < |values[0]| && !('0' <= values[0][i] <= '9'))
        then Err(InvalidContentLength)
        else if DecimalValue(values[0]) > 9_007_199_254_740_991 then Err(InvalidContentLength)
        else if DecimalValue(values[0]) > maxBodyBytes then Err(BodyTooLarge)
        else Ok(DecimalValue(values[0]))
  {
    LookupReturnsAllValues(fields, CONTENT_LENGTH);
    hide Group, Lookup, ValuesOf;
    var values := ValuesOf(fields, CONTENT_LENGTH);
    if i :| 0 <= i < |values| && values[i] != values[0] {
      assert values[i] in values;
    }
  }

  /** A block is accepted exactly if each of its lines is, and then has their fields in order. */
  lemma {:induction false} LinesAcceptedIff(lines: seq<Bytes>)
    ensures ParseLines(lines).Ok? <==> forall n :: 0 <= n < |lines| ==> ParseLine(lines[n]).Ok?
    ensures ParseLines(lines).Ok? ==>
      forall n :: 0 <= n < |lines| ==> ParseLine(lines[n]) == Ok(ParseLines(lines).value[n])
  {
    if lines != [] {
      LinesAcceptedIff(lines[..|lines| - 1]);
      hide ParseLine;
    }
  }

  // ------------------------------------------------------- lookup is complete

  lemma {:induction false} ValuesOfOthers(fields: seq<Field>, dropped: Bytes, name: Bytes)
    ensures ValuesOf(Others(fields, dropped), name) == if SameName(dropped, name) then [] else ValuesOf(fields, name)
  {
    if fields != [] {
      ValuesOfOthers(fields[1..], dropped, name);
      var tail := Others(fields[1..], dropped);
      assert Others(fields, dropped) == if SameName(fields[0].name, dropped) then tail else [fields[0]] + tail;
      assert ([fields[0]] + tail)[1..] == tail;
    }
  }

  /** Looking a name up returns every value the block gave it, in the order they were written. */
  lemma {:induction false} LookupReturnsAllValues(fields: seq<Field>, name: Bytes)
    ensures Lookup(Group(fields), name) == ValuesOf(fields, name)
    decreases |fields|
  {
    if fields != [] {
      var first, tail := fields[0], fields[1..];
      var rest := Others(tail, first.name);
      var headers := Group(fields);
      assert headers[1..] == Group(rest);
      if SameName(first.name, name) {
        SameValues(tail, first.name, name);
      } else {
        LookupReturnsAllValues(rest, name);
        ValuesOfOthers(tail, first.name, name);
      }
    }
  }

  lemma {:induction false} SameValues(fields: seq<Field>, a: Bytes, b: Bytes)
    requires SameName(a, b)
    ensures ValuesOf(fields, a) == ValuesOf(fields, b)
  {
    if fields != [] {
      SameValues(fields[1..], a, b);
    }
  }

  // -------------------------------------------------- the parser's own loop

  lemma {:induction false} ValuesOfSnoc(fields: seq<Field>, f: Field, name: Bytes)
    ensures ValuesOf(fields + [f], name) == ValuesOf(fields, name) + (if SameName(f.name, name) then [f.value] else [])
  {
    if fields != [] {
      ValuesOfSnoc(fields[1..], f, name);
      assert (fields + [f])[1..] == fields[1..] + [f];
    } else {
      assert fields + [f] == [f];
    }
  }

  lemma {:induction false} OthersSnoc(fields: seq<Field>, f: Field, name: Bytes)
    ensures Others(fields + [f], name) == Others(fields, name) + (if SameName(f.name, name) then [] else [f])
  {
    if fields != [] {
      OthersSnoc(fields[1..], f, name);
      assert (fields + [f])[1..] == fields[1..] + [f];
    } else {
      assert fields + [f] == [f];
    }
  }

  /** Recording one more field: append to the header that already has the name, or add a header. */
  function Record(headers: Headers, f: Field): Headers {
    match Find(headers, f.name)
    case None => headers + [Header(f.name, [f.value])]
    case Some(i) => headers[i := Header(headers[i].name, headers[i].values + [f.value])]
  }

  lemma {:induction false} GroupSnoc(fields: seq<Field>, f: Field)
    ensures Group(fields + [f]) == Record(Group(fields), f)
    decreases |fields|
  {
    if fields == [] {
      assert fields + [f] == [f];
      assert [f.value] + ValuesOf([], f.name) == [f.value];
    } else {
      var first, tail := fields[0], fields[1..];
      assert (fields + [f])[1..] == tail + [f];
      ValuesOfSnoc(tail, f, first.name);
      OthersSnoc(tail, f, first.name);
      var rest := Others(tail, first.name);
      var headers := Group(fields);
      assert headers[1..] == Group(rest);
      if SameName(f.name, first.name) {
        assert Others(tail + [f], first.name) == rest;
        assert [first.value] + (ValuesOf(tail, first.name) + [f.value]) == headers[0].values + [f.value];
      } else {
        GroupSnoc(rest, f);
        assert ValuesOf(tail + [f], first.name) == ValuesOf(tail, first.name);
        assert Others(tail + [f], first.name) == rest + [f];
        assert Group(fields + [f]) == [headers[0]] + Group(rest + [f]);
        RecordCons(headers[0], Group(rest), f);
      }
    }
  }

  lemma RecordCons(h: Header, headers: Headers, f: Field)
    requires !SameName(h.name, f.name)
    ensures Record([h] + headers, f) == [h] + Record(headers, f)
  {
    assert ([h] + headers)[1..] == headers;
  }

  lemma ParseLinesSnoc(lines: seq<Bytes>, line: Bytes)
    ensures ParseLines(lines + [line]) ==
      if ParseLines(lines).Err? then ParseLines(lines)
      else if ParseLine(line).Err? then Err(ParseLine(line).error)
      else Ok(ParseLines(lines).value + [ParseLine(line).value])
  {
    assert (lines + [line])[..|lines|] == lines;
  }

  lemma {:induction false} BadLineStaysBad(lines: seq<Bytes>, n: nat)
    requires n < |lines| && ParseLine(lines[n]).Err?
    ensures ParseLines(lines).Err?
    decreases |lines|
  {
    if n + 1 < |lines| {
      BadLineStaysBad(lines[..|lines| - 1], n);
    }
  }

  /** `canonicalNames` leads every lower-case name to the header that carries it. */
  ghost predicate Canonical(headers: Headers, canonicalNames: map<Bytes, nat>) {
    && (forall key :: key in canonicalNames ==>
          canonicalNames[key] < |headers| && Lower(headers[canonicalNames[key]].name) == key)
    && (forall i :: 0 <= i < |headers| ==>
          Lower(headers[i].name) in canonicalNames && canonicalNames[Lower(headers[i].name)] == i)
  }

  lemma CanonicalFind(headers: Headers, canonicalNames: map<Bytes, nat>, name: Bytes)
    requires Canonical(headers, canonicalNames)
    ensures Find(headers, name) ==
      if Lower(name) in canonicalNames then Some(canonicalNames[Lower(name)]) else None
  {
    if Lower(name) in canonicalNames {
      assert SameName(headers[canonicalNames[Lower(name)]].name, name);
    }
    var found := Find(headers, name);
    if found.Some? {
      assert Lower(headers[found.value].name) == Lower(name);
    }
  }

  lemma HeadersOfLines(block: Bytes)
    requires block != []
    ensures HeadersOf(block) ==
      match ParseLines(Lines(block))
      case Err(e) => Err(e)
      case Ok(fields) => Ok(Group(fields))
    ensures forall n :: 0 <= n < |Lines(block)| && ParseLine(Lines(block)[n]).Err? ==>
      ParseLine(Lines(block)[n]).error == InvalidHeader
  {
  }

  lemma NoLinesYet()
    ensures HeadersOf([]) == Err(InvalidHeader)
    ensures Group([]) == [] && ParseLines([]) == Ok([]) && Canonical([], map[])
  {
  }

  /** The loop of the parser: it records the lines one by one and remembers, for every lower-case
    * name, the header under which the first spelling was stored. */
  method ParseHeaderBlock(block: Bytes) returns (r: Result<Headers, ErrorCode>)
    ensures r == HeadersOf(block)
  {
    NoLinesYet();
    hide *;
    if block == [] {
      return Err(InvalidHeader);
    }
    var lines := Lines(block);
    HeadersOfLines(block);
    var headers: Headers := [];
    var canonicalNames: map<Bytes, nat> := map[];
    ghost var fields: seq<Field> := [];
    assert lines[..0] == [];
    for n := 0 to |lines|
      invariant ParseLines(lines[..n]) == Ok(fields)
      invariant headers == Group(fields)
      invariant Canonical(headers, canonicalNames)
    {
      var parsed := ParseLine(lines[n]);
      if parsed.Err? {
        BadLineStaysBad(lines, n);
        return Err(parsed.error);
      }
      var field := parsed.value;
      assert lines[..n + 1] == lines[..n] + [lines[n]];
      ParseLinesSnoc(lines[..n], lines[n]);
      GroupSnoc(fields, field);
      CanonicalFind(headers, canonicalNames, field.name);
      headers, canonicalNames := StoreField(headers, canonicalNames, field);
      fields := fields + [field];
    }
    assert lines[..|lines|] == lines;
    r := Ok(headers);
  }

  method StoreField(headers: Headers, canonicalNames: map<Bytes, nat>, field: Field)
    returns (headers': Headers, canonicalNames': map<Bytes, nat>)
    requires Canonical(headers, canonicalNames)
    ensures headers' == Record(headers, field)
    ensures Canonical(headers', canonicalNames')
  {
    CanonicalFind(headers, canonicalNames, field.name);
    var lowerName := Lower(field.name);
    if lowerName !in canonicalNames {
      canonicalNames' := canonicalNames[lowerName := |headers|];
      headers' := headers + [Header(field.name, [field.value])];
    } else {
      var i := canonicalNames[lowerName];
      canonicalNames' := canonicalNames;
      headers' := headers[i := Header(headers[i].name, headers[i].values + [field.value])];
    }
  }
}
