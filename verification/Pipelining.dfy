/** Well-formed requests, written one after the other, come out one by one.

    The grammar here is written from the RFCs and shares no scanning code with the
    parser: a message is built from its parts, and the lemmas say that the parser takes
    it apart at exactly the same places. */
module Pipelining {
  import opened Options
  import opened Bytes
  import opened HttpSyntax
  import opened ParserMachine
  import opened Fragmentation

  /** Section 5 of RFC 9112: optional blanks stand around the value. */
  datatype Field = Field(name: string, lead: string, value: string, trail: string)

  /** Section 7.1 of RFC 9112: the size in hex digits and an extension, before whose
      semicolon blanks may stand. */
  datatype ChunkHead = ChunkHead(digits: string, pad: string, ext: string)

  datatype Chunk = Chunk(head: ChunkHead, data: string)

  datatype Content =
    | NoContent
    | Fixed(data: string)
    | Chunked(chunks: seq<Chunk>, last: ChunkHead, trailers: seq<string>)

  /** `blanks` empty lines may precede the request line (section 2.2 of RFC 9112). */
  datatype Message = Message(blanks: nat, verb: string, path: string, version: string,
                             fields: seq<Field>, content: Content)

  // ---- the wire format ----

  function StartLine(m: Message): string {
    m.verb + " " + m.path + " " + m.version
  }

  function FieldLine(f: Field): string {
    f.name + ":" + f.lead + f.value + f.trail
  }

  function FieldLines(fields: seq<Field>): seq<string> {
    if fields == [] then [] else [FieldLine(fields[0])] + FieldLines(fields[1..])
  }

  function HeadText(h: ChunkHead): string {
    h.digits + h.pad + h.ext
  }

  function EncodeChunk(c: Chunk): string {
    HeadText(c.head) + CRLF + c.data + CRLF
  }

  function EncodeChunks(chunks: seq<Chunk>): string {
    if chunks == [] then "" else EncodeChunk(chunks[0]) + EncodeChunks(chunks[1..])
  }

  function EncodeContent(c: Content): string {
    match c
    case NoContent => ""
    case Fixed(data) => data
    case Chunked(chunks, last, trailers) =>
      EncodeChunks(chunks) + (HeadText(last) + CRLF) + EncodeLines(trailers) + CRLF
  }

  function Head(m: Message): string {
    StartLine(m) + CRLF + EncodeLines(FieldLines(m.fields)) + CRLF
  }

  function Encode(m: Message): string {
    Blanks(m.blanks) + Head(m) + EncodeContent(m.content)
  }

  // ---- well-formedness ----

  /** Optional blanks. */
  predicate Ows(s: string) {
    forall i :: 0 <= i < |s| ==> s[i] in " \t"
  }

  /** Field names ignore case and the last field of a name wins. */
  function LastNamed(fields: seq<Field>, name: string): Option<Field>
    decreases |fields|
  {
    if fields == [] then None
    else match LastNamed(fields[1..], name)
      case Some(f) => Some(f)
      case None => if SameText(fields[0].name, name) then Some(fields[0]) else None
  }

  predicate WellFormedField(f: Field) {
    && NoCR(FieldLine(f))
    && ':' !in f.name
    && Ows(f.lead) && Ows(f.trail)
    && (f.value != "" ==> f.value[0] !in " \t" && f.value[|f.value| - 1] !in " \t")
    && (f.value == "" ==> f.trail == "")
  }

  /** The size as written, within the range of a size_t. */
  predicate WellFormedSize(h: ChunkHead, n: nat) {
    && h.digits != "" && Writes(h.digits, 16, n) && n < SIZE_T
    && Ows(h.pad)
    && NoCR(h.ext) && (if h.ext == "" then h.pad == "" else h.ext[0] == ';')
  }

  predicate WellFormedChunks(chunks: seq<Chunk>) {
    forall c :: c in chunks ==> c.data != "" && WellFormedSize(c.head, |c.data|)
  }

  predicate WellFormedTrailers(trailers: seq<string>) {
    forall t :: t in trailers ==> t != "" && NoCR(t)
  }

  /** The length as declared, within the range of an int. */
  predicate DeclaresLength(fields: seq<Field>, n: nat) {
    var f := LastNamed(fields, "content-length");
    f.Some? && f.value.value != "" && Writes(f.value.value, 10, n) && n <= INT_MAX
  }

  predicate DeclaresChunks(fields: seq<Field>) {
    var f := LastNamed(fields, "transfer-encoding");
    f.Some? && MentionsIgnoringCase(f.value.value, "chunked")
  }

  predicate WellFormedContent(c: Content, fields: seq<Field>) {
    match c
    case NoContent =>
      !DeclaresChunks(fields) && (LastNamed(fields, "content-length").Some? ==> DeclaresLength(fields, 0))
    case Fixed(data) => !DeclaresChunks(fields) && data != "" && DeclaresLength(fields, |data|)
    case Chunked(chunks, last, trailers) =>
      && DeclaresChunks(fields)
      && WellFormedChunks(chunks) && WellFormedSize(last, 0) && WellFormedTrailers(trailers)
  }

  predicate WellFormedStart(m: Message) {
    && m.verb != "" && m.path != "" && m.version != ""
    && ' ' !in m.verb && ' ' !in m.path
    && NoCR(StartLine(m))
  }

  predicate WellFormed(m: Message) {
    && WellFormedStart(m)
    && (forall f :: f in m.fields ==> WellFormedField(f))
    && WellFormedContent(m.content, m.fields)
  }

  // ---- what the parser makes of the blanks ----

  predicate Unpadded(chunks: seq<Chunk>) {
    forall c :: c in chunks ==> c.head.pad == ""
  }

  /** The blanks the parser cannot take: behind the Content-Length that frames a body, and
      before the semicolon of a size line. */
  predicate Readable(m: Message) {
    match m.content
    case NoContent => true
    case Fixed(_) =>
      var f := LastNamed(m.fields, "content-length");
      f.Some? && f.value.trail == ""
    case Chunked(chunks, last, _) => Unpadded(chunks) && last.pad == ""
  }

  /** The value stored for a field keeps the blanks at its end. */
  function FieldMap(h: HeaderMap, fields: seq<Field>): HeaderMap
    decreases |fields|
  {
    if fields == [] then h
    else FieldMap(h[Lower(fields[0].name) := fields[0].value + fields[0].trail], fields[1..])
  }

  /** What is stored under a name in lower case is the last field of that name. */
  lemma {:induction false} StoredUnder(h: HeaderMap, fields: seq<Field>, key: string)
    requires NoUpper(key)
    ensures var stored := FieldMap(h, fields);
            match LastNamed(fields, key)
            case Some(f) => f in fields && key in stored && stored[key] == f.value + f.trail
            case None => (key in stored <==> key in h) && (key in h ==> stored[key] == h[key])
    decreases |fields|
  {
    if fields != [] {
      hide Lower, SameText, NoUpper;
      var f := fields[0];
      LowerIs(f.name, key);
      StoredUnder(h[Lower(f.name) := f.value + f.trail], fields[1..], key);
    }
  }

  /** The request that the parser holds when the message is complete. */
  function RequestOf(m: Message): HttpRequest {
    HttpRequest(m.verb, m.path, m.version, FieldMap(map[], m.fields),
                if m.content.Fixed? then BodyOf(Encode(m), |m.content.data|) else "")
  }

  // ---- eating the encoding piece by piece ----

  /** `bytes` of the unread input have become part of the message. */
  function Ate(s: Core, bytes: string, rest: string, next: Phase): Core
    requires s.Core?
  {
    s.(raw := s.raw + bytes, partial := rest, phase := next)
  }

  lemma EatLine(s: Core, line: string, rest: string, next: Phase)
    requires s.Core? && NoCR(line) && s.partial == line + CRLF + rest
    ensures LineEnd(s.partial) == Some(|line|)
    ensures s.partial[..|line|] == line
    ensures Take(s, |line| + 2, next) == Ate(s, line + CRLF, rest, next)
    ensures line != "" ==> s.partial[..2] != CRLF
  {
    LineEndOf(line, rest);
    assert s.partial[..|line| + 2] == line + CRLF;
    assert s.partial[|line| + 2..] == rest;
    assert line != "" ==> s.partial[0] == line[0];
  }

  lemma EatCrlf(s: Core, rest: string, next: Phase)
    requires s.Core? && s.partial == CRLF + rest
    ensures |s.partial| >= 2 && s.partial[..2] == CRLF
    ensures Take(s, 2, next) == Ate(s, CRLF, rest, next)
  {
  }

  lemma AteTwice(s: Core, a: string, r: string, p: Phase, b: string, rest: string, next: Phase)
    requires s.Core?
    ensures Ate(Ate(s, a, r, p), b, rest, next) == Ate(s, a + b, rest, next)
  {
    assert s.raw + a + b == s.raw + (a + b);
  }

  lemma {:induction false} EatBlanks(s: Core, n: nat, rest: string)
    requires s.Core? && s.phase.RequestLine? && s.partial == Blanks(n) + rest
    requires |s.raw| + |Blanks(n)| <= s.limit
    ensures Run(s) == Run(Ate(s, Blanks(n), rest, RequestLine))
    decreases n
  {
    hide Run, Step;
    if n == 0 {
      assert s == Ate(s, "", rest, RequestLine);
    } else {
      var after := Blanks(n - 1) + rest;
      assert s.partial == "" + CRLF + after;
      EatBlank(s, after);
      var t := Ate(s, CRLF, after, RequestLine);
      EatBlanks(t, n - 1, rest);
      AteTwice(s, CRLF, after, RequestLine, Blanks(n - 1), rest, RequestLine);
    }
  }

  lemma EatBlank(s: Core, rest: string)
    requires s.Core? && s.phase.RequestLine? && s.partial == "" + CRLF + rest
    requires |s.raw| + 2 <= s.limit
    ensures Run(s) == Run(Ate(s, CRLF, rest, RequestLine))
  {
    hide Run;
    EatLine(s, "", rest, RequestLine);
    assert "" + CRLF == CRLF;
    RunStep(s, Ate(s, CRLF, rest, RequestLine));
  }

  lemma EatStartLine(s: Core, m: Message, rest: string)
    requires WellFormedStart(m)
    requires s.Core? && s.phase.RequestLine? && s.partial == StartLine(m) + CRLF + rest
    ensures var req := s.req.(method_ := m.verb, path := m.path, version := m.version);
            Run(s) == Run(Ate(s.(req := req), StartLine(m) + CRLF, rest, Headers))
  {
    hide Run, ParseRequestLine;
    var req := s.req.(method_ := m.verb, path := m.path, version := m.version);
    RequestLineOf(m.verb, m.path, m.version, s.req);
    EatLine(s.(req := req), StartLine(m), rest, Headers);
    RunStep(s, Ate(s.(req := req), StartLine(m) + CRLF, rest, Headers));
  }

  lemma OwsIsBlank(s: string)
    ensures Ows(s) <==> AllBlank(s)
  {
    assert forall c :: c in " \t" <==> IsBlank(c);
  }

  lemma FieldBlanks(f: Field)
    requires WellFormedField(f)
    ensures AllBlank(f.lead) && (f.value + f.trail != "" ==> !IsBlank((f.value + f.trail)[0]))
  {
    OwsIsBlank(f.lead);
  }

  lemma EatField(s: Core, f: Field, rest: string)
    requires WellFormedField(f)
    requires s.Core? && s.phase.Headers? && s.partial == FieldLine(f) + CRLF + rest
    ensures var req := s.req.(headers := s.req.headers[Lower(f.name) := f.value + f.trail]);
            Run(s) == Run(Ate(s.(req := req), FieldLine(f) + CRLF, rest, Headers))
  {
    hide Run, AddHeader, IsChunked, ContentLength;
    var req := s.req.(headers := s.req.headers[Lower(f.name) := f.value + f.trail]);
    FieldBlanks(f);
    HeaderLineOf(s.req.headers, f.name, f.lead, f.value + f.trail);
    assert FieldLine(f) == f.name + ":" + f.lead + (f.value + f.trail);
    EatLine(s.(req := req), FieldLine(f), rest, Headers);
    RunStep(s, Ate(s.(req := req), FieldLine(f) + CRLF, rest, Headers));
  }

  lemma {:induction false} EatFields(s: Core, fields: seq<Field>, rest: string)
    requires forall f :: f in fields ==> WellFormedField(f)
    requires s.Core? && s.phase.Headers? && s.partial == EncodeLines(FieldLines(fields)) + rest
    ensures var req := s.req.(headers := FieldMap(s.req.headers, fields));
            Run(s) == Run(Ate(s.(req := req), EncodeLines(FieldLines(fields)), rest, Headers))
    decreases |fields|
  {
    hide Run, Step;
    if fields == [] {
      assert s == Ate(s, "", rest, Headers);
    } else {
      var line := FieldLine(fields[0]);
      var tail := EncodeLines(FieldLines(fields[1..]));
      assert FieldLines(fields)[1..] == FieldLines(fields[1..]);
      assert EncodeLines(FieldLines(fields)) == line + CRLF + tail;
      assert s.partial == line + CRLF + (tail + rest);
      EatField(s, fields[0], tail + rest);
      var req := s.req.(headers := s.req.headers[Lower(fields[0].name) := fields[0].value + fields[0].trail]);
      var t := Ate(s.(req := req), line + CRLF, tail + rest, Headers);
      EatFields(t, fields[1..], rest);
      var all := s.req.(headers := FieldMap(s.req.headers, fields));
      AteTwice(s.(req := all), line + CRLF, tail + rest, Headers, tail, rest, Headers);
    }
  }

  /** The whole head, up to the decision how the body is framed. */
  lemma EatHead(s: Core, m: Message, rest: string)
    requires WellFormed(m)
    requires s.Core? && s.phase.RequestLine? && s.req == EmptyRequest && s.partial == Head(m) + rest
    ensures var req := HttpRequest(m.verb, m.path, m.version, FieldMap(map[], m.fields), "");
            Run(s) == Run(Finalize(Ate(s.(req := req), Head(m), rest, Headers)))
  {
    hide Run, IsChunked, ContentLength, FieldMap, WellFormedContent, WellFormedStart, WellFormedField, LineEnd;
    var lines := EncodeLines(FieldLines(m.fields));
    var s1 := EmptyRequest.(method_ := m.verb, path := m.path, version := m.version);
    var req := s1.(headers := FieldMap(map[], m.fields));
    assert s.partial == StartLine(m) + CRLF + (lines + (CRLF + rest));
    EatStartLine(s, m, lines + (CRLF + rest));
    var t := Ate(s.(req := s1), StartLine(m) + CRLF, lines + (CRLF + rest), Headers);
    EatFields(t, m.fields, CRLF + rest);
    var u := Ate(t.(req := req), lines, CRLF + rest, Headers);
    EatCrlf(u, rest, Headers);
    RunStep(u, Finalize(Ate(u, CRLF, rest, Headers)));
    assert u.raw + CRLF == s.raw + Head(m);
  }

  // ---- bodies ----

  lemma EatFixed(s: Core, data: string, rest: string)
    requires s.Core? && s.phase == Body(|data|, 0) && data != "" && s.partial == data + rest
    ensures Run(s) == FinishBody(Ate(s, data, rest, Complete), |data|)
  {
    hide Run, BodyOf, StepRequestLine, StepHeaders, StepSizeLine;
    assert s.partial[..|data|] == data && s.partial[|data|..] == rest;
    BodyInOneGo(s, |data|);
    Stops(FinishBody(Ate(s, data, rest, Complete), |data|));
  }

  lemma SizeLineOf(h: ChunkHead, n: nat)
    requires WellFormedSize(h, n)
    ensures NoCR(HeadText(h))
    ensures ChunkSize(BeforeSemicolon(HeadText(h))) == if h.pad == "" then Some(n) else None
  {
    hide HexValue, Writes, Ows;
    var size := h.digits + h.pad;
    HexWrites(h.digits, n);
    OwsIsBlank(h.pad);
    SizeText(h.digits, h.pad);
    hide AllHex;
    BeforeSemicolonOf(size, h.ext);
    assert h.pad == "" ==> size == h.digits;
  }

  lemma SizeText(digits: string, pad: string)
    requires digits != "" && AllHex(digits) && AllBlank(pad)
    ensures var size := digits + pad; NoCR(size) && ';' !in size && (AllHex(size) <==> pad == "")
  {
    var size := digits + pad;
    assert forall i :: 0 <= i < |digits| ==> size[i] == digits[i] && HexDigit(digits[i]).Some?;
    assert forall i :: 0 <= i < |pad| ==> size[|digits| + i] == pad[i] && IsBlank(pad[i]);
    if pad != "" {
      assert HexDigit(size[|digits|]).None?;
    }
  }

  lemma EatSizeLine(s: Core, h: ChunkHead, n: nat, rest: string)
    requires WellFormedSize(h, n) && h.pad == ""
    requires s.Core? && s.phase.SizeLine? && s.partial == HeadText(h) + CRLF + rest
    requires n > 0 ==> |s.raw| + |HeadText(h) + CRLF| <= s.limit
    ensures Run(s) == Run(Ate(s, HeadText(h) + CRLF, rest, if n == 0 then Trailer else Data(n, 0)))
  {
    hide Run, ChunkSize, BeforeSemicolon, HeadText, LineEnd, Writes, Ows;
    SizeLineOf(h, n);
    var next := if n == 0 then Trailer else Data(n, 0);
    EatLine(s, HeadText(h), rest, next);
    RunStep(s, Ate(s, HeadText(h) + CRLF, rest, next));
  }

  /** A blank before the semicolon of a size line is an error. */
  lemma PaddedSizeFails(s: Core, h: ChunkHead, n: nat, rest: string)
    requires WellFormedSize(h, n) && h.pad != ""
    requires s.Core? && s.phase.SizeLine? && s.partial == HeadText(h) + CRLF + rest
    ensures Run(s) == Failed
  {
    hide Run, ChunkSize, BeforeSemicolon, HeadText;
    SizeLineOf(h, n);
    EatLine(s, HeadText(h), rest, SizeLine);
    RunStep(s, Failed);
    Stops(Failed);
  }

  lemma EatData(s: Core, data: string, rest: string)
    requires s.Core? && s.phase == Data(|data|, 0) && data != "" && s.partial == data + CRLF + rest
    requires |s.raw| + |data| <= s.limit
    ensures Run(s) == Run(Ate(s, data + CRLF, rest, SizeLine))
  {
    hide Run;
    var n := |data|;
    assert s.partial[..n] == data && s.partial[n..] == CRLF + rest;
    DataInOneGo(s, n);
    var t := Ate(s, data, CRLF + rest, Data(n, n));
    assert TakeData(s, n) == t;
    EatCrlf(t, rest, SizeLine);
    RunStep(t, Ate(t, CRLF, rest, SizeLine));
    AteTwice(s, data, CRLF + rest, t.phase, CRLF, rest, SizeLine);
  }

  lemma EatChunk(s: Core, c: Chunk, rest: string)
    requires c.data != "" && WellFormedSize(c.head, |c.data|) && c.head.pad == ""
    requires s.Core? && s.phase.SizeLine? && s.partial == EncodeChunk(c) + rest
    requires |s.raw| + |EncodeChunk(c)| <= s.limit
    ensures Run(s) == Run(Ate(s, EncodeChunk(c), rest, SizeLine))
  {
    hide Run, Step, WellFormedSize, HeadText;
    var line := HeadText(c.head) + CRLF;
    var after := c.data + CRLF + rest;
    assert s.partial == line + after;
    EatSizeLine(s, c.head, |c.data|, after);
    var t := Ate(s, line, after, Data(|c.data|, 0));
    EatData(t, c.data, rest);
    AteTwice(s, line, after, t.phase, c.data + CRLF, rest, SizeLine);
    assert line + (c.data + CRLF) == EncodeChunk(c);
  }

  lemma {:induction false} EatChunks(s: Core, chunks: seq<Chunk>, rest: string)
    requires WellFormedChunks(chunks) && Unpadded(chunks)
    requires s.Core? && s.phase.SizeLine? && s.partial == EncodeChunks(chunks) + rest
    requires |s.raw| + |EncodeChunks(chunks)| <= s.limit
    ensures Run(s) == Run(Ate(s, EncodeChunks(chunks), rest, SizeLine))
    decreases |chunks|
  {
    hide Run, Step, WellFormedSize, EncodeChunk;
    if chunks == [] {
      assert s == Ate(s, "", rest, SizeLine);
    } else {
      var c, tail := chunks[0], EncodeChunks(chunks[1..]);
      assert s.partial == EncodeChunk(c) + (tail + rest);
      assert c in chunks;
      EatChunk(s, c, tail + rest);
      var t := Ate(s, EncodeChunk(c), tail + rest, SizeLine);
      EatChunks(t, chunks[1..], rest);
      AteTwice(s, EncodeChunk(c), tail + rest, SizeLine, tail, rest, SizeLine);
    }
  }

  /** A padded size line anywhere: the chunks before it are taken, then it fails. */
  lemma {:induction false} PaddedChunksFail(s: Core, chunks: seq<Chunk>, rest: string)
    requires WellFormedChunks(chunks) && !Unpadded(chunks)
    requires s.Core? && s.phase.SizeLine? && s.partial == EncodeChunks(chunks) + rest
    requires |s.raw| + |EncodeChunks(chunks)| <= s.limit
    ensures Run(s) == Failed
    decreases |chunks|
  {
    hide Run, Step, WellFormedSize, HeadText;
    var c, tail := chunks[0], EncodeChunks(chunks[1..]);
    assert c in chunks && chunks == [c] + chunks[1..];
    if c.head.pad != "" {
      var after := c.data + CRLF + (tail + rest);
      assert s.partial == HeadText(c.head) + CRLF + after;
      PaddedSizeFails(s, c.head, |c.data|, after);
    } else {
      assert s.partial == EncodeChunk(c) + (tail + rest);
      EatChunk(s, c, tail + rest);
      PaddedChunksFail(Ate(s, EncodeChunk(c), tail + rest, SizeLine), chunks[1..], rest);
    }
  }

  lemma EatTrailer(s: Core, line: string, rest: string)
    requires s.Core? && s.phase.Trailer? && line != "" && NoCR(line) && s.partial == line + CRLF + rest
    ensures Run(s) == Run(Ate(s, line + CRLF, rest, Trailer))
  {
    hide Run;
    EatLine(s, line, rest, Trailer);
    RunStep(s, Ate(s, line + CRLF, rest, Trailer));
  }

  lemma {:induction false} EatTrailers(s: Core, lines: seq<string>, rest: string)
    requires WellFormedTrailers(lines)
    requires s.Core? && s.phase.Trailer? && s.partial == EncodeLines(lines) + rest
    ensures Run(s) == Run(Ate(s, EncodeLines(lines), rest, Trailer))
    decreases |lines|
  {
    hide Run, Step;
    if lines == [] {
      assert s == Ate(s, "", rest, Trailer);
    } else {
      var tail := EncodeLines(lines[1..]);
      assert lines[0] in lines && forall t :: t in lines[1..] ==> t in lines;
      assert s.partial == lines[0] + CRLF + (tail + rest);
      EatTrailer(s, lines[0], tail + rest);
      var t := Ate(s, lines[0] + CRLF, tail + rest, Trailer);
      EatTrailers(t, lines[1..], rest);
      AteTwice(s, lines[0] + CRLF, tail + rest, Trailer, tail, rest, Trailer);
    }
  }

  lemma EatEnd(s: Core, rest: string)
    requires s.Core? && s.phase.Trailer? && s.partial == CRLF + rest
    ensures Run(s) == Ate(s, CRLF, rest, Complete)
  {
    hide Run;
    var t := Ate(s, CRLF, rest, End);
    EatCrlf(s, rest, End);
    RunStep(s, t);
    RunStep(t, t.(phase := Complete));
    Stops(t.(phase := Complete));
  }

  /** The last chunk and the trailer section. */
  lemma EatLast(s: Core, last: ChunkHead, trailers: seq<string>, rest: string)
    requires WellFormedSize(last, 0) && last.pad == "" && WellFormedTrailers(trailers)
    requires s.Core? && s.phase.SizeLine?
    requires s.partial == (HeadText(last) + CRLF) + (EncodeLines(trailers) + (CRLF + rest))
    ensures Run(s) == Ate(s, (HeadText(last) + CRLF) + (EncodeLines(trailers) + CRLF), rest, Complete)
  {
    hide Run, Step, WellFormedSize, EncodeLines, HeadText;
    var line, lines := HeadText(last) + CRLF, EncodeLines(trailers);
    var r3 := CRLF + rest;
    var r2 := lines + r3;
    EatSizeLine(s, last, 0, r2);
    var t2 := Ate(s, line, r2, Trailer);
    EatTrailers(t2, trailers, r3);
    var t3 := Ate(t2, lines, r3, Trailer);
    EatEnd(t3, rest);
    AteTwice(t2, lines, r3, Trailer, CRLF, rest, Complete);
    AteTwice(s, line, r2, Trailer, lines + CRLF, rest, Complete);
  }

  /** A chunked body ends precisely at the CRLF after its trailer section, or is an error
      when a size line is padded. */
  lemma EatChunked(s: Core, c: Content, rest: string)
    requires c.Chunked? && WellFormedChunks(c.chunks) && WellFormedSize(c.last, 0) && WellFormedTrailers(c.trailers)
    requires s.Core? && s.phase.SizeLine? && s.partial == EncodeContent(c) + rest
    requires |s.raw| + |EncodeContent(c)| <= s.limit
    ensures Run(s) ==
              if Unpadded(c.chunks) && c.last.pad == "" then Ate(s, EncodeContent(c), rest, Complete) else Failed
  {
    hide Run, Step, WellFormedSize, WellFormedChunks, WellFormedTrailers, Unpadded, EncodeLines, EncodeChunks, HeadText;
    var body, line, lines := EncodeChunks(c.chunks), HeadText(c.last) + CRLF, EncodeLines(c.trailers);
    var r1 := line + (lines + (CRLF + rest));
    Regroup(body, line, lines, rest);
    if !Unpadded(c.chunks) {
      PaddedChunksFail(s, c.chunks, r1);
    } else {
      EatChunks(s, c.chunks, r1);
      var t := Ate(s, body, r1, SizeLine);
      if c.last.pad != "" {
        PaddedSizeFails(t, c.last, 0, lines + (CRLF + rest));
      } else {
        EatLast(t, c.last, c.trailers, rest);
        AteTwice(s, body, r1, SizeLine, line + (lines + CRLF), rest, Complete);
      }
    }
  }

  lemma Regroup(body: string, last: string, lines: string, rest: string)
    ensures body + last + lines + CRLF == body + (last + (lines + CRLF))
    ensures body + last + lines + CRLF + rest == body + (last + (lines + (CRLF + rest)))
  {
  }

  // ---- the theorems ----

  predicate WellFormedFields(fields: seq<Field>) {
    forall f :: f in fields ==> WellFormedField(f)
  }

  lemma FramingNames()
    ensures NoUpper("transfer-encoding") && NoUpper("content-length")
  {
    forall i | 0 <= i < |"transfer-encoding"|
      ensures "transfer-encoding"[i] !in UPPER
    {
      UpperIff("transfer-encoding"[i]);
    }
    forall i | 0 <= i < |"content-length"|
      ensures "content-length"[i] !in UPPER
    {
      UpperIff("content-length"[i]);
    }
  }

  lemma StoredFraming(fields: seq<Field>)
    requires WellFormedFields(fields)
    ensures IsChunked(FieldMap(map[], fields)) <==> DeclaresChunks(fields)
  {
    hide MentionsIgnoringCase, LastNamed, FieldMap, NoUpper, Ows;
    FramingNames();
    StoredUnder(map[], fields, "transfer-encoding");
    var f := LastNamed(fields, "transfer-encoding");
    if f.Some? {
      assert WellFormedField(f.value);
      OwsIsBlank(f.value.trail);
      ChunkedBeforeBlanks(f.value.value, f.value.trail);
    }
  }

  lemma StoredLength(fields: seq<Field>, n: nat)
    requires WellFormedFields(fields)
    requires LastNamed(fields, "content-length").Some? ==> DeclaresLength(fields, n)
    ensures var f := LastNamed(fields, "content-length");
            ContentLength(FieldMap(map[], fields)) == if f.Some? && f.value.trail == "" then n else -1
  {
    hide ParseIntSafe, DecimalValue, Writes, LastNamed, FieldMap, NoUpper, Ows;
    FramingNames();
    StoredUnder(map[], fields, "content-length");
    var g := LastNamed(fields, "content-length");
    if g.Some? {
      var f := g.value;
      assert WellFormedField(f);
      DecimalWrites(f.value, n);
      if f.trail == "" {
        assert f.value + f.trail == f.value;
        PlainDigitsParse(f.value);
      } else {
        OwsIsBlank(f.trail);
        PaddedDigitsRejected(f.value, f.trail);
      }
    }
  }

  /** What becomes of the content after the headers: taken whole, left lying when a blank
      hides its length, or an error when a blank spoils a size. */
  function ContentResult(u: Core, c: Content, fields: seq<Field>, rest: string): Core
    requires u.Core?
  {
    var whole := Ate(u, EncodeContent(c), rest, Complete);
    match c
    case NoContent => whole
    case Fixed(data) =>
      var f := LastNamed(fields, "content-length");
      if f.Some? && f.value.trail == "" then FinishBody(whole, |data|) else u.(phase := Complete)
    case Chunked(chunks, last, _) => if Unpadded(chunks) && last.pad == "" then whole else Failed
  }

  lemma EatContent(u: Core, c: Content, fields: seq<Field>, rest: string)
    requires u.Core? && WellFormedFields(fields) && WellFormedContent(c, fields)
    requires u.req.headers == FieldMap(map[], fields)
    requires u.partial == EncodeContent(c) + rest && |u.raw| + |EncodeContent(c)| <= u.limit
    ensures Run(Finalize(u)) == ContentResult(u, c, fields, rest)
  {
    hide Run, Step, IsChunked, ContentLength, BodyOf, WellFormedSize, EncodeChunks, EncodeLines, HeadText;
    hide FieldMap, LastNamed, Writes, WellFormedFields, MentionsIgnoringCase;
    StoredFraming(fields);
    match c
    case NoContent =>
      StoredLength(fields, 0);
      Stops(Finalize(u));
      assert u.raw + "" == u.raw && "" + rest == rest;
    case Fixed(data) =>
      StoredLength(fields, |data|);
      if LastNamed(fields, "content-length").value.trail == "" {
        EatFixed(u.(phase := Body(|data|, 0)), data, rest);
      } else {
        Stops(Finalize(u));
      }
    case Chunked(_, _, _) =>
      EatChunked(u.(phase := SizeLine), c, rest);
  }

  /** The state after the head of a message. */
  function AfterHead(m: Message, rest: string, limit: nat): Core {
    Core(Headers, HttpRequest(m.verb, m.path, m.version, FieldMap(map[], m.fields), ""),
         Blanks(m.blanks) + Head(m), rest, limit)
  }

  lemma HeadParses(m: Message, rest: string, limit: nat)
    requires WellFormed(m) && |Blanks(m.blanks) + Head(m)| <= limit
    ensures Run(Fresh(Blanks(m.blanks) + Head(m) + rest, limit)) == Run(Finalize(AfterHead(m, rest, limit)))
  {
    hide Run, Step, FieldMap, WellFormed, Finalize, Blanks, Head;
    var s := Fresh(Blanks(m.blanks) + Head(m) + rest, limit);
    assert s.partial == Blanks(m.blanks) + (Head(m) + rest);
    EatBlanks(s, m.blanks, Head(m) + rest);
    EatHead(Ate(s, Blanks(m.blanks), Head(m) + rest, RequestLine), m, rest);
    assert "" + Blanks(m.blanks) == Blanks(m.blanks);
  }

  /** Every well-formed message followed by anything: what the parser comes to. */
  lemma MessageResult(m: Message, rest: string, limit: nat)
    requires WellFormed(m) && |Encode(m)| <= limit
    ensures var u := AfterHead(m, EncodeContent(m.content) + rest, limit);
            Run(Fresh(Encode(m) + rest, limit)) == ContentResult(u, m.content, m.fields, rest)
  {
    hide Run, Step, FieldMap, WellFormedContent, WellFormedField;
    hide EncodeContent, Finalize, Blanks, Head, ContentResult;
    var body := EncodeContent(m.content);
    assert Encode(m) + rest == Blanks(m.blanks) + Head(m) + (body + rest);
    HeadParses(m, body + rest, limit);
    EatContent(AfterHead(m, body + rest, limit), m.content, m.fields, rest);
  }

  /** A readable message followed by anything is parsed into its parts, and what follows
      it is left untouched. */
  lemma MessageParses(m: Message, rest: string, limit: nat)
    requires WellFormed(m) && Readable(m) && |Encode(m)| <= limit
    ensures Run(Fresh(Encode(m) + rest, limit)) == Core(Complete, RequestOf(m), Encode(m), rest, limit)
  {
    hide Run, Step, FieldMap, LastNamed, BodyOf, WellFormed, EncodeContent, Blanks, Head;
    MessageResult(m, rest, limit);
  }

  /** What becomes of a message that is not readable: with a Content-Length it is complete
      without its body, which is left to begin the next request; with chunks it fails. */
  lemma UnreadableResult(m: Message, rest: string, limit: nat)
    requires WellFormed(m) && !Readable(m) && |Encode(m)| <= limit
    ensures var t := Run(Fresh(Encode(m) + rest, limit));
            if m.content.Fixed? then
              && t.Core? && t.phase == Complete && t.raw == Blanks(m.blanks) + Head(m) && |t.raw| < |Encode(m)|
              && t.partial == m.content.data + rest && t.limit == limit
            else t == Failed
  {
    hide Run, Step, FieldMap, LastNamed, BodyOf, WellFormedStart, WellFormedField, WellFormedSize, Blanks, Head;
    MessageResult(m, rest, limit);
    if m.content.Fixed? {
      assert |Encode(m)| > |Blanks(m.blanks) + Head(m)|;
    }
  }

  /** A message whose length is hidden is complete as soon as its head is, whatever follows. */
  lemma HiddenHead(m: Message, rest: string, limit: nat)
    requires WellFormed(m) && m.content.Fixed? && !Readable(m) && |Blanks(m.blanks) + Head(m)| <= limit
    ensures var u := AfterHead(m, rest, limit);
            u.Core? && Run(Fresh(Blanks(m.blanks) + Head(m) + rest, limit)) == u.(phase := Complete)
  {
    hide Run, Step, FieldMap, LastNamed, WellFormedStart, WellFormedField, Blanks, Head;
    hide IsChunked, ContentLength, DeclaresChunks, Writes;
    HeadParses(m, rest, limit);
    StoredFraming(m.fields);
    StoredLength(m.fields, |m.content.data|);
    Stops(Finalize(AfterHead(m, rest, limit)));
  }

  predicate TakenWhole(m: Message, rest: string, t: Core) {
    t.Core? && t.phase == Complete && t.raw == Encode(m) && t.partial == rest
  }

  /** A message is taken whole if and only if it is readable. */
  lemma TakenWholeIff(m: Message, rest: string, limit: nat)
    requires WellFormed(m) && |Encode(m)| <= limit
    ensures TakenWhole(m, rest, Run(Fresh(Encode(m) + rest, limit))) <==> Readable(m)
  {
    hide Run, Step, WellFormed, Readable, Encode, Blanks, Head, RequestOf;
    if Readable(m) {
      MessageParses(m, rest, limit);
    } else {
      UnreadableResult(m, rest, limit);
    }
  }

  function EncodeAll(ms: seq<Message>): seq<string> {
    if ms == [] then [] else [Encode(ms[0])] + EncodeAll(ms[1..])
  }

  ghost predicate AllWithin(ms: seq<Message>, limit: nat) {
    forall m :: m in ms ==> WellFormed(m) && |Encode(m)| <= limit
  }

  ghost predicate AllReadable(ms: seq<Message>) {
    forall m :: m in ms ==> Readable(m)
  }

  /** The parser sees where each message ends, or rejects it. */
  ghost predicate AllFramed(ms: seq<Message>) {
    forall m :: m in ms && m.content.Fixed? ==> Readable(m)
  }

  /** Pipelining: readable requests written back to back are delivered one by one, in
      order, each with exactly its own bytes, and the parser is fresh afterwards. */
  lemma {:induction false} PipelineDelivers(ms: seq<Message>, limit: nat)
    requires AllWithin(ms, limit) && AllReadable(ms)
    ensures Deliver(Fresh(Concat(EncodeAll(ms)), limit)) == Delivery(EncodeAll(ms), Fresh("", limit))
    ensures !SpinsIn(Fresh(Concat(EncodeAll(ms)), limit))
    decreases |ms|
  {
    hide Run, Step, Deliver, SpinsIn, WellFormed, Readable, Encode;
    var s := Fresh(Concat(EncodeAll(ms)), limit);
    DeliverOne(s);
    SpinsOne(s);
    if ms == [] {
      EmptyStalls(s);
    } else {
      var rest := Concat(EncodeAll(ms[1..]));
      assert EncodeAll(ms)[1..] == EncodeAll(ms[1..]);
      assert ms[0] in ms;
      MessageParses(ms[0], rest, limit);
      PipelineDelivers(ms[1..], limit);
    }
  }

  /** And only those: one message that is not readable spoils the delivery. */
  lemma {:induction false} PipelineDeliversIff(ms: seq<Message>, limit: nat)
    requires AllWithin(ms, limit)
    ensures Deliver(Fresh(Concat(EncodeAll(ms)), limit)) == Delivery(EncodeAll(ms), Fresh("", limit)) <==>
              AllReadable(ms)
    decreases |ms|
  {
    hide Run, Step, Deliver, WellFormed, Readable, Encode;
    if AllReadable(ms) {
      PipelineDelivers(ms, limit);
    } else {
      var s, rest := Fresh(Concat(EncodeAll(ms)), limit), Concat(EncodeAll(ms[1..]));
      assert EncodeAll(ms)[1..] == EncodeAll(ms[1..]);
      assert ms[0] in ms && ms == [ms[0]] + ms[1..];
      DeliverOne(s);
      if Readable(ms[0]) {
        MessageParses(ms[0], rest, limit);
        PipelineDeliversIff(ms[1..], limit);
      } else {
        UnreadableResult(ms[0], rest, limit);
      }
    }
  }

  /** What comes of any pipeline: readable messages one by one, up to a chunked one that is
      rejected, or up to one whose length is hidden. That one comes without its body, and
      the body with all that follows is a stream of its own. */
  function Outcome(ms: seq<Message>, limit: nat): Delivery
    decreases |ms|
  {
    if ms == [] then Delivery([], Fresh("", limit))
    else if Readable(ms[0]) then
      var rest := Outcome(ms[1..], limit);
      Delivery([Encode(ms[0])] + rest.messages, rest.core)
    else if ms[0].content.Fixed? then
      var rest := Deliver(Fresh(ms[0].content.data + Concat(EncodeAll(ms[1..])), limit));
      Delivery([Blanks(ms[0].blanks) + Head(ms[0])] + rest.messages, rest.core)
    else Delivery([], Failed)
  }

  lemma {:induction false} PipelineOutcome(ms: seq<Message>, limit: nat)
    requires AllWithin(ms, limit)
    ensures Deliver(Fresh(Concat(EncodeAll(ms)), limit)) == Outcome(ms, limit)
    decreases |ms|
  {
    hide Run, Step, Deliver, WellFormed, Readable, Encode, Blanks, Head;
    var s := Fresh(Concat(EncodeAll(ms)), limit);
    DeliverOne(s);
    if ms == [] {
      EmptyStalls(s);
    } else {
      var rest := Concat(EncodeAll(ms[1..]));
      assert EncodeAll(ms)[1..] == EncodeAll(ms[1..]);
      assert ms[0] in ms;
      if Readable(ms[0]) {
        MessageParses(ms[0], rest, limit);
        PipelineOutcome(ms[1..], limit);
      } else {
        UnreadableResult(ms[0], rest, limit);
      }
    }
  }

  /** A body left behind by such a message that is made of readable requests: each of them
      is handed on as a request of the client's. */
  lemma BodyBecomesRequests(m: Message, inside: seq<Message>, limit: nat)
    requires AllWithin([m], limit) && m.content.Fixed? && !Readable(m)
    requires AllWithin(inside, limit) && AllReadable(inside) && m.content.data == Concat(EncodeAll(inside))
    ensures Deliver(Fresh(Encode(m), limit)) ==
              Delivery([Blanks(m.blanks) + Head(m)] + EncodeAll(inside), Fresh("", limit))
  {
    hide Run, Step, Deliver, WellFormed, Readable, Encode, Blanks, Head;
    PipelineOutcome([m], limit);
    PipelineDelivers(inside, limit);
    assert [m][1..] == [] && EncodeAll([]) == [] && EncodeAll([m]) == [Encode(m)];
    assert [Encode(m)][1..] == [] && Encode(m) + "" == Encode(m) && m.content.data + "" == m.content.data;
  }

  /** The same for every way of cutting the stream into pieces. */
  lemma PipelineDeliversAnyCut(ms: seq<Message>, limit: nat, pieces: seq<string>)
    requires AllWithin(ms, limit)
    requires pieces != [] && Concat(pieces) == Concat(EncodeAll(ms))
    ensures DeliverAll(Fresh("", limit), pieces) == Delivery(EncodeAll(ms), Fresh("", limit)) <==> AllReadable(ms)
  {
    hide Run, Step, Deliver, WellFormed, Readable, Encode;
    AnyCutDeliversTheSame(Fresh("", limit), pieces);
    PipelineDeliversIff(ms, limit);
    assert Extend(Fresh("", limit), Concat(pieces)) == Fresh(Concat(pieces), limit);
  }

  // ---- the two failing inputs ----

  function Post(f: Field, content: Content): Message {
    Message(0, "POST", "/", "HTTP/1.1", [f], content)
  }

  lemma OneField(f: Field, name: string)
    ensures LastNamed([f], name) == if SameText(f.name, name) then Some(f) else None
  {
    assert [f][1..] == [];
  }

  lemma PostWellFormed(f: Field, content: Content)
    requires WellFormedField(f) && WellFormedContent(content, [f])
    ensures WellFormed(Post(f, content))
  {
    hide WellFormedField, WellFormedContent;
  }

  /** Lower-case letters, digits and hyphens. */
  predicate Plain(s: string) {
    forall i :: 0 <= i < |s| ==> 'a' <= s[i] <= 'z' || IsDigit(s[i]) || s[i] == '-'
  }

  lemma PlainField(f: Field)
    requires Plain(f.name) && Plain(f.value) && f.value != "" && Ows(f.lead) && Ows(f.trail)
    ensures WellFormedField(f)
  {
    OwsIsBlank(f.lead);
    OwsIsBlank(f.trail);
    assert NoCR(f.name + ":") && NoCR(f.lead) && NoCR(f.value) && NoCR(f.trail);
  }

  const PaddedLength := Post(Field("content-length", " ", "5", " "), Fixed("hello"))

  lemma LengthField(f: Field)
    requires f == PaddedLength.fields[0]
    ensures WellFormedField(f)
  {
    assert Plain("content-length");
    PlainField(f);
  }

  lemma SameItself(s: string)
    ensures SameText(s, s)
  {
  }

  lemma DifferentNames()
    ensures !SameText("content-length", "transfer-encoding") && !SameText("transfer-encoding", "content-length")
  {
  }

  lemma WritesFive()
    ensures Writes("5", 10, 5) && Writes("5", 16, 5) && Writes("0", 16, 0)
  {
    assert DIGITS[5] == '5' && DIGITS[0] == '0';
    assert "5"[..0] == "" && "0"[..0] == "";
  }

  lemma PaddedLengthShape()
    ensures WellFormed(PaddedLength) && !Readable(PaddedLength)
  {
    hide WellFormedField, SameText, Writes;
    var f := PaddedLength.fields[0];
    LengthField(f);
    SameItself("content-length");
    DifferentNames();
    OneField(f, "content-length");
    OneField(f, "transfer-encoding");
    WritesFive();
    PostWellFormed(f, PaddedLength.content);
  }

  /** A blank behind Content-Length: the request is complete without its body, and the
      body is left to begin the next request. */
  lemma TrailingBlankLosesBody(limit: nat)
    requires |Encode(PaddedLength)| <= limit
    ensures WellFormed(PaddedLength)
    ensures var t := Run(Fresh(Encode(PaddedLength), limit)); t.Core? && t.phase == Complete && t.partial == "hello"
  {
    hide Run, WellFormed, Readable, Encode, Blanks, Head;
    PaddedLengthShape();
    UnreadableResult(PaddedLength, "", limit);
    assert Encode(PaddedLength) + "" == Encode(PaddedLength) && "hello" + "" == "hello";
  }

  const PlainLength := Post(Field("Content-Length", " ", "5", ""), Fixed("hello"))

  lemma CapitalsAside()
    ensures SameText("Content-Length", "content-length") && !SameText("Content-Length", "transfer-encoding")
  {
    var a, b := "Content-Length", "content-length";
    assert UPPER[2] == 'C' && LOWER[2] == 'c' && UPPER[11] == 'L' && LOWER[11] == 'l';
    assert SameLetter('C', 'c') && SameLetter('L', 'l');
    assert a[0] == 'C' && b[0] == 'c' && a[8] == 'L' && b[8] == 'l';
    assert a[1..8] == b[1..8] && a[9..] == b[9..];
    forall i | 0 <= i < |a|
      ensures SameLetter(a[i], b[i])
    {
      if 1 <= i < 8 {
        assert a[i] == a[1..8][i - 1] && b[i] == b[1..8][i - 1];
      } else if i >= 9 {
        assert a[i] == a[9..][i - 9] && b[i] == b[9..][i - 9];
      }
    }
  }

  lemma NameCharacters(s: string)
    requires forall i :: 0 <= i < |s| ==> 'A' <= s[i] <= 'Z' || 'a' <= s[i] <= 'z' || s[i] == '-'
    ensures NoCR(s) && ':' !in s
  {
  }

  lemma PlainLengthField(f: Field)
    requires f == PlainLength.fields[0]
    ensures WellFormedField(f)
  {
    NameCharacters("Content-Length");
    assert FieldLine(f) == "Content-Length" + ":" + " " + "5" + "";
    assert NoCR(":") && NoCR(" ") && NoCR("5");
  }

  /** The usual way of writing it: the body is taken, and nothing is left. */
  lemma CapitalsTakenWhole(limit: nat)
    requires |Encode(PlainLength)| <= limit
    ensures WellFormed(PlainLength) && TakenWhole(PlainLength, "", Run(Fresh(Encode(PlainLength), limit)))
  {
    hide Run, Encode, WellFormedField, SameText, Writes, TakenWhole;
    var f := PlainLength.fields[0];
    PlainLengthField(f);
    CapitalsAside();
    OneField(f, "content-length");
    OneField(f, "transfer-encoding");
    WritesFive();
    PostWellFormed(f, PlainLength.content);
    TakenWholeIff(PlainLength, "", limit);
    assert Encode(PlainLength) + "" == Encode(PlainLength);
  }

  const PaddedSize :=
    Post(Field("transfer-encoding", "", "chunked", ""),
         Chunked([Chunk(ChunkHead("5", " ", ";x=1"), "hello")], ChunkHead("0", "", ""), []))

  lemma PaddedSizeContent()
    ensures var c := PaddedSize.content;
            && WellFormedChunks(c.chunks) && WellFormedSize(c.last, 0) && WellFormedTrailers(c.trailers)
            && !Unpadded(c.chunks)
  {
    hide Writes;
    var c := PaddedSize.content;
    WritesFive();
    assert WellFormedSize(c.chunks[0].head, 5);
    assert c.chunks[0] in c.chunks && c.chunks[0].head.pad == " ";
  }

  lemma ChunkedField(f: Field)
    requires f == PaddedSize.fields[0]
    ensures WellFormedField(f)
  {
    assert Plain("transfer-encoding") && Plain("chunked");
    PlainField(f);
  }

  lemma ChunkedMentioned()
    ensures MentionsIgnoringCase("chunked", "chunked")
  {
    assert "chunked"[0..7] == "chunked" && WordAt("chunked", "chunked", 0);
  }

  lemma PaddedSizeShape()
    ensures WellFormed(PaddedSize) && !Readable(PaddedSize)
  {
    hide WellFormedSize, WellFormedChunks, WellFormedTrailers, Unpadded, WellFormedField;
    hide SameText, MentionsIgnoringCase;
    var f := PaddedSize.fields[0];
    PaddedSizeContent();
    ChunkedField(f);
    ChunkedMentioned();
    SameItself("transfer-encoding");
    OneField(f, "transfer-encoding");
    PostWellFormed(f, PaddedSize.content);
  }

  /** A blank before the semicolon of a size line: the request is rejected. */
  lemma BlankBeforeSemicolonFails(limit: nat)
    requires |Encode(PaddedSize)| <= limit
    ensures WellFormed(PaddedSize)
    ensures Run(Fresh(Encode(PaddedSize), limit)) == Failed
  {
    hide Run, WellFormed, Readable, Encode, Blanks, Head;
    PaddedSizeShape();
    UnreadableResult(PaddedSize, "", limit);
    assert Encode(PaddedSize) + "" == Encode(PaddedSize);
  }

  // ---- what is rejected ----

  /** Anything but a method, a blank, a path, a blank and a version, none of them empty. */
  ghost predicate IsStartLine(line: string) {
    exists verb, path, version ::
      verb != "" && path != "" && version != "" && ' ' !in verb && ' ' !in path &&
      line == verb + " " + path + " " + version
  }

  lemma BadStartLineRejected(n: nat, line: string, rest: string, limit: nat)
    requires line != "" && NoCR(line) && !IsStartLine(line) && |Blanks(n)| <= limit
    ensures Run(Fresh(Blanks(n) + (line + CRLF + rest), limit)) == Failed
  {
    hide Run, ParseRequestLine, Blanks, LineEnd;
    var s := Fresh(Blanks(n) + (line + CRLF + rest), limit);
    EatBlanks(s, n, line + CRLF + rest);
    var t := Ate(s, Blanks(n), line + CRLF + rest, RequestLine);
    EatLine(t, line, rest, Headers);
    if ParseRequestLine(line, t.req).0 {
      RequestLineParts(line, t.req);
    }
    RunStep(t, Failed);
    Stops(Failed);
  }

  /** A size, in hex digits, and an extension. */
  ghost predicate IsSizeLine(line: string) {
    exists size, ext, n: nat ::
      line == size + ext && size != "" && Writes(size, 16, n) && (ext == "" || ext[0] == ';')
  }

  /** The state after the head of a chunked message and some of its chunks. */
  lemma SomeChunksParse(m: Message, chunks: seq<Chunk>, rest: string, limit: nat) returns (s: Core)
    requires WellFormed(m) && m.content.Chunked? && WellFormedChunks(chunks) && Unpadded(chunks)
    requires |Blanks(m.blanks) + Head(m) + EncodeChunks(chunks)| <= limit
    ensures s.Core? && s.phase == SizeLine && s.partial == rest && s.limit == limit
    ensures s.raw == Blanks(m.blanks) + Head(m) + EncodeChunks(chunks)
    ensures Run(Fresh(Blanks(m.blanks) + Head(m) + (EncodeChunks(chunks) + rest), limit)) == Run(s)
  {
    hide Run, Step, FieldMap, WellFormed, WellFormedChunks, Unpadded, IsChunked, EncodeChunks, Blanks, Head;
    HeadParses(m, EncodeChunks(chunks) + rest, limit);
    ChunksAnnounced(m);
    var u := Finalize(AfterHead(m, EncodeChunks(chunks) + rest, limit));
    EatChunks(u, chunks, rest);
    s := Ate(u, EncodeChunks(chunks), rest, SizeLine);
  }

  lemma BadSizeLineRejected(m: Message, chunks: seq<Chunk>, line: string, rest: string, limit: nat)
    requires WellFormed(m) && m.content.Chunked? && WellFormedChunks(chunks) && Unpadded(chunks)
    requires |Blanks(m.blanks) + Head(m) + EncodeChunks(chunks)| <= limit
    requires NoCR(line) && !IsSizeLine(line)
    ensures var body := EncodeChunks(chunks) + (line + CRLF + rest);
            Run(Fresh(Blanks(m.blanks) + Head(m) + body, limit)) == Failed
  {
    hide Run, WellFormed, WellFormedChunks, Unpadded, EncodeChunks, Blanks, Head, ChunkSize, BeforeSemicolon, Writes;
    var s := SomeChunksParse(m, chunks, line + CRLF + rest, limit);
    EatLine(s, line, rest, SizeLine);
    if ChunkSize(BeforeSemicolon(line)).Some? {
      var size, ext, n := ChunkSizeOnly(line);
    }
    RunStep(s, Failed);
    Stops(Failed);
  }

  /** A chunk whose data is longer than it said, or not followed by CRLF. */
  lemma BadChunkEndRejected(m: Message, chunks: seq<Chunk>, c: Chunk, tail: string, limit: nat)
    requires WellFormed(m) && m.content.Chunked? && WellFormedChunks(chunks) && Unpadded(chunks)
    requires c.data != "" && WellFormedSize(c.head, |c.data|) && c.head.pad == ""
    requires |Blanks(m.blanks) + Head(m) + EncodeChunks(chunks)| + |HeadText(c.head) + CRLF + c.data| <= limit
    requires |tail| >= 2 && tail[..2] != CRLF
    ensures var body := EncodeChunks(chunks) + (HeadText(c.head) + CRLF + (c.data + tail));
            Run(Fresh(Blanks(m.blanks) + Head(m) + body, limit)) == Failed
  {
    hide Run, WellFormed, WellFormedChunks, WellFormedSize, Unpadded, EncodeChunks, Blanks, Head, HeadText;
    var line, n := HeadText(c.head) + CRLF, |c.data|;
    var s := SomeChunksParse(m, chunks, line + (c.data + tail), limit);
    EatSizeLine(s, c.head, n, c.data + tail);
    var t := Ate(s, line, c.data + tail, Data(n, 0));
    assert t.partial[..n] == c.data && t.partial[n..] == tail;
    DataInOneGo(t, n);
    RunStep(TakeData(t, n), Failed);
    Stops(Failed);
  }

  // ---- the cut that never returns ----

  /** After the head of a chunked request, any bytes without a carriage return leave the
      dispatch loop spinning. */
  lemma SizeLineCutSpins(m: Message, part: string, limit: nat)
    requires WellFormed(m) && m.content.Chunked? && part != "" && NoCR(part)
    requires |Blanks(m.blanks) + Head(m)| <= limit
    ensures SpinsIn(Fresh(Blanks(m.blanks) + Head(m) + part, limit))
  {
    hide Run, FieldMap, LastNamed, WellFormedStart, WellFormedField, WellFormedSize, Blanks, Head, IsChunked;
    HeadParses(m, part, limit);
    ChunksAnnounced(m);
    var u := Finalize(AfterHead(m, part, limit));
    assert LineEnd(part).None?;
    RunStopped(u);
  }

  /** The stored fields of a chunked message say so. */
  lemma ChunksAnnounced(m: Message)
    requires WellFormed(m)
    ensures IsChunked(FieldMap(map[], m.fields)) <==> m.content.Chunked?
  {
    hide FieldMap, DeclaresChunks, WellFormedStart, WellFormedField, WellFormedSize, IsChunked;
    StoredFraming(m.fields);
  }

  /** So every chunked request can be cut in two such that the first call never returns. */
  lemma FirstDigitCutSpins(m: Message, limit: nat) returns (x: string, y: string)
    requires WellFormed(m) && m.content.Chunked? && |Encode(m)| <= limit
    ensures Encode(m) == x + y && SpinsIn(Fresh(x, limit))
  {
    hide Run, Step, SpinsIn, WellFormed;
    var head, body := Blanks(m.blanks) + Head(m), EncodeContent(m.content);
    FirstByteIsDigit(m);
    x, y := head + body[..1], body[1..];
    assert Encode(m) == head + body;
    SizeLineCutSpins(m, body[..1], limit);
  }

  lemma FirstByteIsDigit(m: Message)
    requires WellFormed(m) && m.content.Chunked?
    ensures |EncodeContent(m.content)| > 1 && NoCR(EncodeContent(m.content)[..1])
  {
    hide DeclaresChunks, HexValue, Writes;
    var c := m.content;
    var h := if c.chunks == [] then c.last else c.chunks[0].head;
    assert c.chunks != [] ==> c.chunks[0] in c.chunks;
    HexWrites(h.digits, if c.chunks == [] then 0 else |c.chunks[0].data|);
    assert AllHex(h.digits) && h.digits != "";
    assert HexDigit(h.digits[0]).Some?;
    assert EncodeContent(c)[0] == h.digits[0];
  }
}
