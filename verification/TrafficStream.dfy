/**
 * Reading the first sample from a chunked `/traffic` stream (`read_first_traffic_sample` and
 * `parse_traffic_sample`).  The stream is ASCII.  The JSON parser is a parameter: all that is
 * asked of it is that it accepts JSON texts only, and ignores blanks at the end.
 */
module TrafficStream {
  import opened Prelude
  import opened JsonText

  const BUFFER_LIMIT := 8192

  /** The integers under `up` and `down`. */
  datatype Sample = Sample(up: int, down: int)

  /** What a parser makes of a line: not JSON, or JSON with or without a sample in it. */
  datatype Parsed = NotJson | Json(sample: Option<Sample>)

  type Parser = string -> Parsed

  ghost predicate Lawful(parser: Parser) {
    && (forall s {:trigger parser(s)} :: parser(s) != NotJson ==> IsJsonText(s))
    && (forall s, blanks {:trigger parser(s + blanks)} :: Blank(blanks) ==> parser(s + blanks) == parser(s))
  }

  /** The text before the first newline, or all of it. */
  function FirstLine(text: string): string {
    if text == [] || text[0] == '\n' then [] else [text[0]] + FirstLine(text[1..])
  }

  /** `parse_traffic_sample` */
  function ParseSample(parser: Parser, buf: string): Option<Sample> {
    match parser(FirstLine(buf))
    case NotJson => None
    case Json(sample) => sample
  }

  datatype Outcome = Got(sample: Sample) | StreamClosed | TooLong

  /** `read_first_traffic_sample`, with `buf` read so far and `chunks` still to come. */
  function ReadFrom(parser: Parser, buf: string, chunks: seq<string>): Outcome
    decreases |chunks|
  {
    if |buf| >= BUFFER_LIMIT then TooLong
    else if chunks == [] then StreamClosed
    else
      var next := buf + chunks[0];
      if ParseSample(parser, next).Some? then Got(ParseSample(parser, next).value)
      else ReadFrom(parser, next, chunks[1..])
  }

  function Concat(chunks: seq<string>): string {
    if chunks == [] then [] else chunks[0] + Concat(chunks[1..])
  }

  method ReadFirstSample(parser: Parser, chunks: seq<string>) returns (r: Outcome)
    ensures r == ReadFrom(parser, [], chunks)
  {
    var buf, i := [], 0;
    while |buf| < BUFFER_LIMIT
      invariant 0 <= i <= |chunks|
      invariant ReadFrom(parser, buf, chunks[i..]) == ReadFrom(parser, [], chunks)
      decreases |chunks| - i
    {
      if i == |chunks| {
        return StreamClosed;
      }
      buf := buf + chunks[i];
      i := i + 1;
      var sample := ParseSample(parser, buf);
      if sample.Some? {
        return Got(sample.value);
      }
    }
    return TooLong;
  }

  /** A stream whose first line is one JSON object, with blanks around it. */
  ghost predicate StartsWithObject(stream: string, lead: string, items: Items, trail: string) {
    && Blank(lead) && Good(Obj(items)) && Blank(trail)
    && FirstLine(stream) == lead + Text(Obj(items)) + trail
  }

  /** Where the object ends. */
  function ObjectEnd(lead: string, items: Items): nat { |lead| + |Text(Obj(items))| }

  lemma {:induction false} FirstLineOfPrefix(stream: string, n: nat)
    requires n <= |stream|
    ensures |FirstLine(stream)| <= |stream|
    ensures FirstLine(stream[..n]) ==
      if n <= |FirstLine(stream)| then FirstLine(stream)[..n] else FirstLine(stream)
  {
    if stream != [] && stream[0] != '\n' {
      if n > 0 {
        assert stream[..n][1..] == stream[1..][..n - 1];
        FirstLineOfPrefix(stream[1..], n - 1);
        assert FirstLine(stream) == [stream[0]] + FirstLine(stream[1..]);
      } else {
        FirstLineOfPrefix(stream[1..], 0);
      }
    }
  }

  /** Having read `n` characters, the sample is there exactly when the whole object is. */
  lemma SampleAt(parser: Parser, stream: string, lead: string, items: Items, trail: string, n: nat)
    requires Lawful(parser) && StartsWithObject(stream, lead, items, trail) && n <= |stream|
    ensures ParseSample(parser, stream[..n]) ==
      if n < ObjectEnd(lead, items) then None else ParseSample(parser, stream)
  {
    var obj := Text(Obj(items));
    var line, read := FirstLine(stream), FirstLine(stream[..n]);
    FirstLineOfPrefix(stream, n);
    if n < ObjectEnd(lead, items) {
      assert read == (lead + obj)[..n];
      ObjectPrefixesAreNotJson(lead, items, read);
    } else {
      var rest := if n <= |line| then trail[..n - ObjectEnd(lead, items)] else trail;
      assert read == lead + obj + rest;
      assert parser((lead + obj) + rest) == parser(lead + obj) == parser((lead + obj) + trail);
    }
  }

  lemma {:induction false} ReadFromPosition(
    parser: Parser, stream: string, lead: string, items: Items, trail: string, n: nat, chunks: seq<string>)
    requires Lawful(parser) && StartsWithObject(stream, lead, items, trail) && ParseSample(parser, stream).Some?
    requires ObjectEnd(lead, items) <= BUFFER_LIMIT
    requires n < ObjectEnd(lead, items) && n <= |stream|
    requires Concat(chunks) <= stream[n..] && n + |Concat(chunks)| >= ObjectEnd(lead, items)
    ensures ReadFrom(parser, stream[..n], chunks) == Got(ParseSample(parser, stream).value)
    decreases |chunks|
  {
    hide ParseSample, Lawful, StartsWithObject, Text;
    assert chunks != [];
    var m := n + |chunks[0]|;
    assert chunks[0] <= stream[n..] && stream[..n] + chunks[0] == stream[..m];
    SampleAt(parser, stream, lead, items, trail, m);
    if m < ObjectEnd(lead, items) {
      assert stream[n..][|chunks[0]|..] == stream[m..];
      ReadFromPosition(parser, stream, lead, items, trail, m, chunks[1..]);
    }
  }

  /**
   * Chunking independence: if the first line is a JSON object with a sample, and the object ends
   * within the buffer limit, every way of splitting the stream yields that sample.
   */
  lemma EveryChunkingYieldsTheSample(
    parser: Parser, stream: string, lead: string, items: Items, trail: string, chunks: seq<string>)
    requires Lawful(parser) && StartsWithObject(stream, lead, items, trail) && ParseSample(parser, stream).Some?
    requires ObjectEnd(lead, items) <= BUFFER_LIMIT
    requires Concat(chunks) <= stream && |Concat(chunks)| >= ObjectEnd(lead, items)
    ensures ReadFrom(parser, [], chunks) == Got(ParseSample(parser, stream).value)
  {
    assert stream[..0] == [] && stream[0..] == stream;
    ReadFromPosition(parser, stream, lead, items, trail, 0, chunks);
  }

  /** An object ending past the limit is missed when the first chunk fills the buffer exactly. */
  lemma LateObjectIsMissed(parser: Parser, stream: string, lead: string, items: Items, trail: string)
    requires Lawful(parser) && StartsWithObject(stream, lead, items, trail)
    requires ObjectEnd(lead, items) > BUFFER_LIMIT
    ensures |stream| >= BUFFER_LIMIT
    ensures Concat([stream[..BUFFER_LIMIT], stream[BUFFER_LIMIT..]]) == stream
    ensures ReadFrom(parser, [], [stream[..BUFFER_LIMIT], stream[BUFFER_LIMIT..]]) == TooLong
  {
    FirstLineOfPrefix(stream, 0);
    SampleAt(parser, stream, lead, items, trail, BUFFER_LIMIT);
    hide Lawful, StartsWithObject, Text, ParseSample;
    var first, second := stream[..BUFFER_LIMIT], stream[BUFFER_LIMIT..];
    assert [first, second][1..] == [second] && [second][1..] == [] && Concat([second]) == second + [] == second;
    assert [] + first == first;
  }

  /** The limit matters: the result is independent of the chunking if and only if the object ends within it. */
  lemma ChunkingIndependence(parser: Parser, stream: string, lead: string, items: Items, trail: string)
    requires Lawful(parser) && StartsWithObject(stream, lead, items, trail) && ParseSample(parser, stream).Some?
    ensures (forall chunks :: Concat(chunks) == stream ==>
        ReadFrom(parser, [], chunks) == Got(ParseSample(parser, stream).value))
      <==> ObjectEnd(lead, items) <= 8192
  {
    FirstLineOfPrefix(stream, 0);
    if ObjectEnd(lead, items) <= BUFFER_LIMIT {
      forall chunks | Concat(chunks) == stream
        ensures ReadFrom(parser, [], chunks) == Got(ParseSample(parser, stream).value)
      {
        EveryChunkingYieldsTheSample(parser, stream, lead, items, trail, chunks);
      }
    } else {
      hide ReadFrom, Concat;
      LateObjectIsMissed(parser, stream, lead, items, trail);
    }
  }

  lemma {:induction false} FirstLineIs(line: string, rest: string)
    requires '\n' !in line
    ensures FirstLine(line) == line && FirstLine(line + ['\n'] + rest) == line
  {
    if line != [] {
      FirstLineIs(line[1..], rest);
      assert (line + ['\n'] + rest)[1..] == line[1..] + ['\n'] + rest;
      assert line == [line[0]] + line[1..];
    } else {
      assert line + ['\n'] + rest == ['\n'] + rest;
    }
  }

  /**
   * In terms of the stream alone: one line that is a JSON object with blanks around it, which the
   * parser reads as a sample, and perhaps more lines after it.  If the object ends within 8192
   * characters, that sample is what is read, however the stream is cut into chunks.
   */
  lemma TheSampleIsRead(
    parser: Parser, lead: string, items: Items, trail: string, more: Option<string>, sample: Sample,
    chunks: seq<string>)
    requires Lawful(parser) && Blank(lead) && Good(Obj(items)) && Blank(trail)
    requires var line := lead + Text(Obj(items)) + trail;
      && '\n' !in line && parser(line) == Json(Some(sample))
      && Concat(chunks) == (if more.Some? then line + ['\n'] + more.value else line)
    requires |lead + Text(Obj(items))| <= 8192
    ensures ReadFrom(parser, [], chunks) == Got(sample)
  {
    var line := lead + Text(Obj(items)) + trail;
    FirstLineIs(line, more.Or([]));
    var stream := Concat(chunks);
    assert FirstLine(stream) == line;
    FirstLineOfPrefix(stream, 0);
    hide FirstLine, Lawful, Text, Good, ReadFrom, Concat;
    EveryChunkingYieldsTheSample(parser, stream, lead, items, trail, chunks);
  }

  // ----- the premise on the parser can be met

  function WithoutEnd(s: string): string {
    if s != [] && IsBlankChar(s[|s| - 1]) then WithoutEnd(s[..|s| - 1]) else s
  }

  lemma {:induction false} BlanksAtTheEnd(s: string, blanks: string)
    requires Blank(blanks)
    ensures WithoutEnd(s + blanks) == WithoutEnd(s)
  {
    if blanks == [] {
      assert s + blanks == s;
    } else {
      var front := blanks[..|blanks| - 1];
      assert (s + blanks)[..|s + blanks| - 1] == s + front;
      BlanksAtTheEnd(s, front);
    }
  }

  lemma JsonIgnoresBlanksAtTheEnd(s: string, blanks: string)
    requires Blank(blanks)
    ensures IsJsonText(s + blanks) <==> IsJsonText(s)
  {
    if IsJsonText(s) {
      JsonWithBlanks(s, blanks);
    }
    if IsJsonText(s + blanks) {
      JsonWithoutBlanks(s, blanks);
    }
  }

  lemma JsonWithBlanks(s: string, blanks: string)
    requires Blank(blanks) && IsJsonText(s)
    ensures IsJsonText(s + blanks)
  {
    hide Text, Good;
    var lead, v, trail :| Blank(lead) && Good(v) && Blank(trail) && s == lead + Text(v) + trail;
    assert s + blanks == lead + Text(v) + (trail + blanks) && Blank(trail + blanks);
  }

  lemma JsonWithoutBlanks(s: string, blanks: string)
    requires Blank(blanks) && IsJsonText(s + blanks)
    ensures IsJsonText(s)
  {
    hide Text, Good;
    var lead, v, trail :| Blank(lead) && Good(v) && Blank(trail) && s + blanks == lead + Text(v) + trail;
    var end := |lead| + |Text(v)|;
    ValueEndsPlainly(v);
    assert end <= |s| by {
      assert (s + blanks)[end - 1] == Text(v)[|Text(v)| - 1];
    }
    assert s == (s + blanks)[..|s|] == lead + Text(v) + trail[..|s| - end];
    assert Blank(trail[..|s| - end]);
  }

  lemma ValueEndsPlainly(v: Value)
    requires Good(v)
    ensures Text(v) != [] && !IsBlankChar(Text(v)[|Text(v)| - 1])
  {
    hide ItemsText, Chars;
  }

  /** Every reading `f` of JSON texts that ignores the blanks at the end makes a lawful parser. */
  lemma ReadingsAreLawful(f: string -> Option<Sample>)
    ensures Lawful(s => if IsJsonText(s) then Json(f(WithoutEnd(s))) else NotJson)
  {
    hide IsJsonText, WithoutEnd;
    var parser: Parser := s => if IsJsonText(s) then Json(f(WithoutEnd(s))) else NotJson;
    forall s, blanks | Blank(blanks)
      ensures parser(s + blanks) == parser(s)
    {
      BlanksAtTheEnd(s, blanks);
      JsonIgnoresBlanksAtTheEnd(s, blanks);
    }
  }
}
