/** Where exactly a stream of requests may not be cut: the points at which the dispatch
    loop, having come to the end of the bytes, repeats without change. */
module StallPoints {
  import opened Bytes
  import opened HttpSyntax
  import opened ParserMachine
  import opened Fragmentation
  import opened Pipelining
  import opened PipelineCuts

  // ---- the points ----

  /** Strictly inside the size line, or between the two characters that end the data. A
      padded size line is an error, and nothing stalls behind it. */
  predicate StallsInChunk(c: Chunk, k: nat) {
    var line := |HeadText(c.head)| + 2;
    0 < k < line || (c.head.pad == "" && k == line + |c.data| + 1)
  }

  predicate StallsInChunks(chunks: seq<Chunk>, k: nat)
    decreases |chunks|
  {
    chunks != [] &&
    var n := |EncodeChunk(chunks[0])|;
    if k < n then StallsInChunk(chunks[0], k) else chunks[0].head.pad == "" && StallsInChunks(chunks[1..], k - n)
  }

  /** Strictly inside a trailer line, or inside the final CRLF. */
  predicate StallsInTrailers(lines: seq<string>, k: nat)
    decreases |lines|
  {
    if lines == [] then k == 1
    else
      var n := |lines[0]| + 2;
      if k < n then 0 < k else StallsInTrailers(lines[1..], k - n)
  }

  predicate StallsInContent(c: Content, k: nat) {
    c.Chunked? &&
    var body, line := |EncodeChunks(c.chunks)|, |HeadText(c.last)| + 2;
    if k < body then StallsInChunks(c.chunks, k)
    else
      && Unpadded(c.chunks)
      && if k < body + line then k > body else c.last.pad == "" && StallsInTrailers(c.trailers, k - body - line)
  }

  predicate StallsInMessage(m: Message, k: nat) {
    var head := |Blanks(m.blanks) + Head(m)|;
    k >= head && StallsInContent(m.content, k - head)
  }

  predicate StallsInPipeline(ms: seq<Message>, k: nat)
    decreases |ms|
  {
    ms != [] &&
    var n := |Encode(ms[0])|;
    if k < n then StallsInMessage(ms[0], k) else Readable(ms[0]) && StallsInPipeline(ms[1..], k - n)
  }

  /** Behind a message whose length is hidden the parser is on its own: its body and what
      follows it are any bytes. */
  predicate StallsInStream(ms: seq<Message>, k: nat, limit: nat)
    decreases |ms|
  {
    ms != [] &&
    var m := ms[0];
    var n, head := |Encode(m)|, |Blanks(m.blanks) + Head(m)|;
    if m.content.Fixed? && !Readable(m) then
      var left := m.content.data + Concat(EncodeAll(ms[1..]));
      head <= k <= head + |left| && SpinsIn(Fresh(left[..k - head], limit))
    else if k < n then StallsInMessage(m, k)
    else Readable(m) && StallsInStream(ms[1..], k - n, limit)
  }

  // ---- incomplete lines ----

  lemma NoLineYet(line: string, k: nat)
    requires NoCR(line) && k < |line| + 2
    ensures LineEnd((line + CRLF)[..k]).None?
    ensures line != "" && k >= 2 ==> (line + CRLF)[..k][..2] != CRLF
  {
    var whole := line + CRLF;
    var p := whole[..k];
    assert forall i :: 0 <= i < |line| ==> whole[i] == line[i];
    if line != "" && k >= 2 {
      assert p[..2][0] == line[0];
    }
  }

  // ---- inside one chunk ----

  lemma InSizeLine(s: Core, h: ChunkHead, n: nat, k: nat)
    requires WellFormedSize(h, n) && k < |HeadText(h)| + 2
    requires s.Core? && s.phase.SizeLine? && s.partial == (HeadText(h) + CRLF)[..k]
    ensures Stuck(Run(s)) <==> k > 0
  {
    hide Run, HeadText, LineEnd;
    SizeLineOf(h, n);
    NoLineYet(HeadText(h), k);
    RunStopped(s);
  }

  lemma InData(s: Core, data: string, k: nat)
    requires data != "" && k < |data| + 2
    requires s.Core? && s.phase == Data(|data|, 0) && s.partial == (data + CRLF)[..k]
    requires |s.raw| + |data| <= s.limit
    ensures Stuck(Run(s)) <==> k == |data| + 1
  {
    hide Run;
    var n := |data|;
    var taken := if k < n then k else n;
    if taken > 0 {
      DataInOneGo(s, taken);
    }
    var t := if taken > 0 then TakeData(s, taken) else s;
    assert t.Core? && t.phase == Data(n, taken) && |t.partial| == k - taken;
    if k <= n {
      EmptyStalls(t);
    } else {
      RunStopped(t);
    }
  }

  lemma InChunk(s: Core, c: Chunk, k: nat)
    requires c.data != "" && WellFormedSize(c.head, |c.data|)
    requires s.Core? && s.phase.SizeLine? && k < |EncodeChunk(c)| && s.partial == EncodeChunk(c)[..k]
    requires |s.raw| + |EncodeChunk(c)| <= s.limit
    ensures Stuck(Run(s)) <==> StallsInChunk(c, k)
  {
    hide Run, Step, WellFormedSize, HeadText;
    var line, after := HeadText(c.head) + CRLF, c.data + CRLF;
    assert EncodeChunk(c) == line + after;
    if k < |line| {
      assert s.partial == line[..k];
      InSizeLine(s, c.head, |c.data|, k);
    } else {
      var rest := after[..k - |line|];
      assert s.partial == line + rest;
      if c.head.pad == "" {
        EatSizeLine(s, c.head, |c.data|, rest);
        InData(Ate(s, line, rest, Data(|c.data|, 0)), c.data, k - |line|);
      } else {
        PaddedSizeFails(s, c.head, |c.data|, rest);
      }
    }
  }

  lemma {:induction false} InChunks(s: Core, chunks: seq<Chunk>, k: nat)
    requires WellFormedChunks(chunks)
    requires s.Core? && s.phase.SizeLine? && k < |EncodeChunks(chunks)| && s.partial == EncodeChunks(chunks)[..k]
    requires |s.raw| + |EncodeChunks(chunks)| <= s.limit
    ensures Stuck(Run(s)) <==> StallsInChunks(chunks, k)
    decreases |chunks|
  {
    hide Run, Step, WellFormedSize, EncodeChunk, StallsInChunk;
    var c, tail := chunks[0], EncodeChunks(chunks[1..]);
    var e := EncodeChunk(c);
    assert c in chunks;
    if k < |e| {
      assert s.partial == e[..k];
      InChunk(s, c, k);
    } else {
      var rest := tail[..k - |e|];
      assert s.partial == e + rest;
      if c.head.pad == "" {
        EatChunk(s, c, rest);
        InChunks(Ate(s, e, rest, SizeLine), chunks[1..], k - |e|);
      } else {
        PaddedChunkFails(s, c, rest);
      }
    }
  }

  lemma PaddedChunkFails(s: Core, c: Chunk, rest: string)
    requires WellFormedSize(c.head, |c.data|) && c.head.pad != ""
    requires s.Core? && s.phase.SizeLine? && s.partial == EncodeChunk(c) + rest
    ensures Run(s) == Failed
  {
    hide Run, WellFormedSize, HeadText;
    assert s.partial == HeadText(c.head) + CRLF + (c.data + CRLF + rest);
    PaddedSizeFails(s, c.head, |c.data|, c.data + CRLF + rest);
  }

  // ---- the trailer section ----

  lemma InTrailer(s: Core, line: string, k: nat)
    requires line != "" && NoCR(line) && k < |line| + 2
    requires s.Core? && s.phase.Trailer? && s.partial == (line + CRLF)[..k]
    ensures Stuck(Run(s)) <==> k > 0
  {
    hide Run, LineEnd;
    NoLineYet(line, k);
    RunStopped(s);
  }

  lemma InFinal(s: Core, k: nat)
    requires k < 2 && s.Core? && s.phase.Trailer? && s.partial == CRLF[..k]
    ensures Stuck(Run(s)) <==> k == 1
  {
    hide Run;
    RunStopped(s);
  }

  lemma {:induction false} InTrailers(s: Core, lines: seq<string>, k: nat)
    requires WellFormedTrailers(lines)
    requires s.Core? && s.phase.Trailer? && k < |EncodeLines(lines) + CRLF|
    requires s.partial == (EncodeLines(lines) + CRLF)[..k]
    ensures Stuck(Run(s)) <==> StallsInTrailers(lines, k)
    decreases |lines|
  {
    hide Run, Step;
    if lines == [] {
      assert EncodeLines(lines) + CRLF == CRLF;
      InFinal(s, k);
    } else {
      var line, tail := lines[0] + CRLF, EncodeLines(lines[1..]) + CRLF;
      assert EncodeLines(lines) + CRLF == line + tail;
      assert lines[0] in lines;
      if k < |line| {
        assert s.partial == line[..k];
        InTrailer(s, lines[0], k);
      } else {
        var rest := tail[..k - |line|];
        assert s.partial == lines[0] + CRLF + rest;
        EatTrailer(s, lines[0], rest);
        InTrailers(Ate(s, line, rest, Trailer), lines[1..], k - |line|);
      }
    }
  }

  // ---- a chunked content ----

  lemma InContent(s: Core, c: Content, k: nat)
    requires c.Chunked? && WellFormedChunks(c.chunks) && WellFormedSize(c.last, 0) && WellFormedTrailers(c.trailers)
    requires s.Core? && s.phase.SizeLine? && k < |EncodeContent(c)| && s.partial == EncodeContent(c)[..k]
    requires |s.raw| + |EncodeContent(c)| <= s.limit
    ensures Stuck(Run(s)) <==> StallsInContent(c, k)
  {
    hide Run, Step, WellFormedSize, WellFormedChunks, WellFormedTrailers, Unpadded, EncodeLines, EncodeChunks, HeadText;
    hide StallsInChunks, StallsInTrailers;
    var body, line, end := EncodeChunks(c.chunks), HeadText(c.last) + CRLF, EncodeLines(c.trailers) + CRLF;
    assert EncodeContent(c) == body + (line + end);
    if k < |body| {
      assert s.partial == body[..k];
      InChunks(s, c.chunks, k);
    } else {
      var rest := (line + end)[..k - |body|];
      assert s.partial == body + rest;
      if Unpadded(c.chunks) {
        EatChunks(s, c.chunks, rest);
        AfterChunks(Ate(s, body, rest, SizeLine), c, k - |body|);
      } else {
        PaddedChunksFail(s, c.chunks, rest);
      }
    }
  }

  lemma AfterChunks(t: Core, c: Content, k: nat)
    requires c.Chunked? && WellFormedSize(c.last, 0) && WellFormedTrailers(c.trailers)
    requires t.Core? && t.phase.SizeLine? && k < |(HeadText(c.last) + CRLF) + (EncodeLines(c.trailers) + CRLF)|
    requires t.partial == ((HeadText(c.last) + CRLF) + (EncodeLines(c.trailers) + CRLF))[..k]
    ensures Stuck(Run(t)) <==>
              var line := |HeadText(c.last)| + 2;
              if k < line then k > 0 else c.last.pad == "" && StallsInTrailers(c.trailers, k - line)
  {
    hide Run, Step, WellFormedSize, WellFormedTrailers, EncodeLines, HeadText, StallsInTrailers;
    var line, end := HeadText(c.last) + CRLF, EncodeLines(c.trailers) + CRLF;
    if k < |line| {
      assert t.partial == line[..k];
      InSizeLine(t, c.last, 0, k);
    } else {
      var rest := end[..k - |line|];
      assert t.partial == line + rest;
      if c.last.pad == "" {
        EatSizeLine(t, c.last, 0, rest);
        InTrailers(Ate(t, line, rest, Trailer), c.trailers, k - |line|);
      } else {
        PaddedSizeFails(t, c.last, 0, rest);
      }
    }
  }

  // ---- the head ----

  lemma {:induction false} InFields(s: Core, fields: seq<Field>, k: nat)
    requires forall f :: f in fields ==> WellFormedField(f)
    requires s.Core? && s.phase.Headers? && k < |EncodeLines(FieldLines(fields)) + CRLF|
    requires s.partial == (EncodeLines(FieldLines(fields)) + CRLF)[..k]
    ensures Run(s).Core? && Run(s).phase.Headers?
    decreases |fields|
  {
    hide Run, WellFormedField, FieldLine, LineEnd;
    if fields == [] {
      assert EncodeLines([]) + CRLF == CRLF;
      assert |s.partial| < 2;
      RunStopped(s);
    } else {
      var text, tail := FieldLine(fields[0]), EncodeLines(FieldLines(fields[1..])) + CRLF;
      assert FieldLines(fields)[1..] == FieldLines(fields[1..]);
      assert EncodeLines(FieldLines(fields)) + CRLF == text + CRLF + tail;
      assert fields[0] in fields;
      if k < |text| + 2 {
        assert s.partial == (text + CRLF)[..k];
        FieldLineShape(fields[0]);
        NoLineYet(text, k);
        RunStopped(s);
      } else {
        var rest := tail[..k - |text| - 2];
        assert s.partial == text + CRLF + rest;
        EatField(s, fields[0], rest);
        var req := s.req.(headers := s.req.headers[Lower(fields[0].name) := fields[0].value + fields[0].trail]);
        InFields(Ate(s.(req := req), text + CRLF, rest, Headers), fields[1..], k - |text| - 2);
      }
    }
  }

  lemma FieldLineShape(f: Field)
    requires WellFormedField(f)
    ensures FieldLine(f) != "" && NoCR(FieldLine(f))
  {
  }

  lemma {:induction false} InBlanks(s: Core, n: nat, k: nat)
    requires s.Core? && s.phase.RequestLine? && k < |Blanks(n)| && s.partial == Blanks(n)[..k]
    requires |s.raw| + k <= s.limit
    ensures Run(s).Core? && Run(s).phase.RequestLine?
    decreases n
  {
    hide Run, LineEnd;
    if k < 2 {
      assert s.partial == ("" + CRLF)[..k];
      NoLineYet("", k);
      RunStopped(s);
    } else {
      var rest := Blanks(n - 1)[..k - 2];
      assert s.partial == "" + CRLF + rest;
      EatBlank(s, rest);
      InBlanks(Ate(s, CRLF, rest, RequestLine), n - 1, k - 2);
    }
  }

  lemma InHead(m: Message, k: nat, limit: nat)
    requires WellFormed(m) && k < |Blanks(m.blanks) + Head(m)| <= limit
    ensures !Stuck(Run(Fresh((Blanks(m.blanks) + Head(m))[..k], limit)))
  {
    hide Run, Step, WellFormedContent, WellFormedField, WellFormedStart, Blanks, EncodeLines, LastNamed;
    var s := Fresh((Blanks(m.blanks) + Head(m))[..k], limit);
    var blanks := Blanks(m.blanks);
    if k < |blanks| {
      assert s.partial == blanks[..k];
      InBlanks(s, m.blanks, k);
    } else {
      var rest := Head(m)[..k - |blanks|];
      assert s.partial == blanks + rest;
      EatBlanks(s, m.blanks, rest);
      InHeadLines(Ate(s, blanks, rest, RequestLine), m, k - |blanks|);
    }
  }

  lemma InHeadLines(s: Core, m: Message, k: nat)
    requires WellFormed(m) && k < |Head(m)|
    requires s.Core? && s.phase.RequestLine? && s.partial == Head(m)[..k]
    ensures !Stuck(Run(s))
  {
    hide Run, WellFormedContent, WellFormedField, EncodeLines, LineEnd, ParseRequestLine;
    var line, lines := StartLine(m) + CRLF, EncodeLines(FieldLines(m.fields)) + CRLF;
    assert Head(m) == line + lines;
    if k < |line| {
      assert s.partial == line[..k];
      NoLineYet(StartLine(m), k);
      RunStopped(s);
    } else {
      var rest := lines[..k - |line|];
      assert s.partial == line + rest;
      EatStartLine(s, m, rest);
      var req := s.req.(method_ := m.verb, path := m.path, version := m.version);
      InFields(Ate(s.(req := req), line, rest, Headers), m.fields, k - |line|);
    }
  }

  // ---- one message, a pipeline, its cuts ----

  /** Of all prefixes of a well-formed chunked message, the parser is stuck exactly on those
      that end strictly inside a size line, inside the CRLF behind a chunk's data, strictly
      inside a trailer line, or inside the final CRLF, and not behind a padded size line. */
  lemma StuckExactly(m: Message, k: nat, limit: nat)
    requires WellFormed(m) && m.content.Chunked? && k < |Encode(m)| <= limit
    ensures Stuck(Run(Fresh(Encode(m)[..k], limit))) <==> StallsInMessage(m, k)
  {
    hide Run, Step, WellFormedStart, WellFormedField, WellFormedSize, WellFormedChunks, WellFormedTrailers;
    hide DeclaresChunks, FieldMap, Unpadded, Blanks, Head, EncodeContent, StallsInContent;
    var head, body := Blanks(m.blanks) + Head(m), EncodeContent(m.content);
    assert Encode(m) == head + body;
    if k < |head| {
      assert Encode(m)[..k] == head[..k];
      InHead(m, k, limit);
    } else {
      var part := body[..k - |head|];
      assert Encode(m)[..k] == head + part;
      HeadParses(m, part, limit);
      ChunksAnnounced(m);
      InContent(Finalize(AfterHead(m, part, limit)), m.content, k - |head|);
    }
  }

  /** No proper prefix of a framed message is complete: completion would not be changed by
      the bytes that follow. */
  lemma PrefixWaits(m: Message, k: nat, limit: nat)
    requires WellFormed(m) && (m.content.Fixed? ==> Readable(m)) && k < |Encode(m)| <= limit
    ensures !Completes(Fresh(Encode(m)[..k], limit))
  {
    hide Run, Step, WellFormed, Readable, Encode, RequestOf;
    var s, q := Fresh(Encode(m)[..k], limit), Encode(m)[k..];
    assert Encode(m)[..k] + q == Encode(m) + "";
    if Readable(m) {
      MessageParses(m, "", limit);
    } else {
      UnreadableResult(m, "", limit);
    }
    VerdictStays(s, q);
    assert Extend(s, q) == Fresh(Encode(m) + "", limit);
  }

  lemma PrefixSpins(m: Message, k: nat, limit: nat)
    requires WellFormed(m) && (m.content.Fixed? ==> Readable(m)) && k < |Encode(m)| <= limit
    ensures SpinsIn(Fresh(Encode(m)[..k], limit)) <==> StallsInMessage(m, k)
  {
    assert m.content.NoContent? ==> Readable(m);
    hide Run, Step, SpinsIn, WellFormed, Readable, Encode, StallsInContent;
    var p := Encode(m)[..k];
    SpinsOne(Fresh(p, limit));
    PrefixWaits(m, k, limit);
    if m.content.Chunked? {
      StuckExactly(m, k, limit);
    } else {
      ProperPrefixWaits(m, p, limit);
      NotChunkedNeverStalls(m.content);
    }
  }

  lemma NotChunkedNeverStalls(c: Content)
    requires !c.Chunked?
    ensures forall k :: !StallsInContent(c, k)
  {
  }

  /** A message whose length is hidden is complete when its head is, and never before. */
  lemma HiddenLength(m: Message, p: string, limit: nat)
    requires WellFormed(m) && m.content.Fixed? && !Readable(m) && |Encode(m)| <= limit
    requires var head := Blanks(m.blanks) + Head(m); head <= p || p < head
    ensures var head := Blanks(m.blanks) + Head(m);
            SpinsIn(Fresh(p, limit)) <==> |head| <= |p| && SpinsIn(Fresh(p[|head|..], limit))
  {
    hide Run, Step, SpinsIn, Readable, Blanks, Head;
    var head := Blanks(m.blanks) + Head(m);
    SpinsOne(Fresh(p, limit));
    if head <= p {
      assert p == head + p[|head|..];
      HiddenHead(m, p[|head|..], limit);
    } else {
      assert p == head[..|p|];
      InHead(m, |p|, limit);
      HiddenHead(m, "", limit);
      VerdictStays(Fresh(p, limit), head[|p|..]);
      assert Extend(Fresh(p, limit), head[|p|..]) == Fresh(head + "", limit);
    }
  }

  lemma {:induction false} StreamSpinsExactly(ms: seq<Message>, k: nat, limit: nat)
    requires AllWithin(ms, limit) && k <= |Concat(EncodeAll(ms))|
    ensures SpinsIn(Fresh(Concat(EncodeAll(ms))[..k], limit)) <==> StallsInStream(ms, k, limit)
    decreases |ms|
  {
    hide Run, Step, SpinsIn, WellFormed, Readable, Encode, Blanks, Head, StallsInMessage;
    var all := Concat(EncodeAll(ms));
    SpinsOne(Fresh(all[..k], limit));
    if ms == [] {
      EmptyStalls(Fresh(all[..k], limit));
    } else {
      var m, e, rest := ms[0], Encode(ms[0]), Concat(EncodeAll(ms[1..]));
      assert EncodeAll(ms)[1..] == EncodeAll(ms[1..]) && all == e + rest;
      assert m in ms;
      if m.content.Fixed? && !Readable(m) {
        HiddenLengthStream(m, rest, k, limit);
      } else if k < |e| {
        assert all[..k] == e[..k];
        PrefixSpins(m, k, limit);
      } else {
        assert all[..k] == e + rest[..k - |e|];
        if Readable(m) {
          MessageParses(m, rest[..k - |e|], limit);
          StreamSpinsExactly(ms[1..], k - |e|, limit);
        } else {
          UnreadableResult(m, rest[..k - |e|], limit);
        }
      }
    }
  }

  lemma HiddenLengthStream(m: Message, rest: string, k: nat, limit: nat)
    requires WellFormed(m) && m.content.Fixed? && !Readable(m) && |Encode(m)| <= limit && k <= |Encode(m) + rest|
    ensures var head, left := |Blanks(m.blanks) + Head(m)|, m.content.data + rest;
            && |Encode(m) + rest| == head + |left|
            && (SpinsIn(Fresh((Encode(m) + rest)[..k], limit)) <==>
                  head <= k && SpinsIn(Fresh(left[..k - head], limit)))
  {
    hide Run, Step, SpinsIn, WellFormed, Readable, Blanks, Head;
    var head, left := Blanks(m.blanks) + Head(m), m.content.data + rest;
    assert Encode(m) == head + m.content.data;
    assert Encode(m) + rest == head + left;
    var p := (head + left)[..k];
    if |head| <= k {
      assert p == head + left[..k - |head|];
    } else {
      assert p == head[..k];
    }
    HiddenLength(m, p, limit);
  }

  lemma {:induction false} FramedStream(ms: seq<Message>, k: nat, limit: nat)
    requires AllFramed(ms)
    ensures StallsInStream(ms, k, limit) <==> StallsInPipeline(ms, k)
    decreases |ms|
  {
    hide SpinsIn, Readable, Encode, Blanks, Head, StallsInMessage;
    if ms != [] {
      assert ms[0] in ms && forall m :: m in ms[1..] ==> m in ms;
      if k >= |Encode(ms[0])| {
        FramedStream(ms[1..], k - |Encode(ms[0])|, limit);
      }
    }
  }

  /** Where a framed pipeline stalls can be read off its grammar. */
  lemma PipelineSpinsExactly(ms: seq<Message>, k: nat, limit: nat)
    requires AllWithin(ms, limit) && AllFramed(ms) && k <= |Concat(EncodeAll(ms))|
    ensures SpinsIn(Fresh(Concat(EncodeAll(ms))[..k], limit)) <==> StallsInPipeline(ms, k)
  {
    hide SpinsIn, AllWithin, AllFramed, StallsInStream, StallsInPipeline, EncodeAll, Concat;
    StreamSpinsExactly(ms, k, limit);
    FramedStream(ms, k, limit);
  }

  lemma CutPrefix(ms: seq<Message>, pieces: seq<string>, i: nat, limit: nat)
    requires IsCut(pieces, ms) && i <= |pieces|
    ensures var k := |Concat(pieces[..i])|;
            && k <= |Concat(EncodeAll(ms))| && Concat(EncodeAll(ms))[..k] == Concat(pieces[..i])
            && Arrived(Fresh("", limit), pieces, i) == Fresh(Concat(pieces[..i]), limit)
  {
    hide EncodeAll, Concat;
    PrefixOfCut(pieces, i);
  }

  /** Any pipeline, cut in any way: a call never returns if and only if a cut falls on a
      stall point and nothing that arrived before it was rejected. */
  lemma StreamCutSpins(ms: seq<Message>, pieces: seq<string>, limit: nat)
    requires AllWithin(ms, limit) && IsCut(pieces, ms)
    ensures SpinsAll(Fresh("", limit), pieces) <==>
              exists i :: 0 < i <= |pieces| && StallsInStream(ms, |Concat(pieces[..i])|, limit) &&
                          forall j :: 0 < j < i ==> Deliver(Fresh(Concat(pieces[..j]), limit)).core.Core?
  {
    hide Run, Step, SpinsIn, SpinsAll, Deliver, WellFormed, StallsInStream, EncodeAll, Concat;
    var s := Fresh("", limit);
    SpinsExactly(s, pieces);
    forall i | 0 < i <= |pieces|
      ensures SpinsAfter(s, pieces, i) <==>
                StallsInStream(ms, |Concat(pieces[..i])|, limit) &&
                forall j :: 0 < j < i ==> Deliver(Fresh(Concat(pieces[..j]), limit)).core.Core?
    {
      CutPrefix(ms, pieces, i, limit);
      StreamSpinsExactly(ms, |Concat(pieces[..i])|, limit);
      forall j | 0 < j < i
        ensures Arrived(s, pieces, j) == Fresh(Concat(pieces[..j]), limit)
      {
        CutPrefix(ms, pieces, j, limit);
      }
    }
  }

  /** Bytes of a message within the limit are rejected only by an error. */
  lemma RejectedByError(m: Message, p: string, limit: nat)
    requires WellFormed(m) && (m.content.Fixed? ==> Readable(m)) && p < Encode(m) && |Encode(m)| <= limit
    requires Deliver(Fresh(p, limit)).core.Failed?
    ensures Run(Fresh(p, limit)) == Failed
  {
    hide Run, Step, Deliver, WellFormed, Readable, Encode;
    assert p == Encode(m)[..|p|];
    PrefixWaits(m, |p|, limit);
    DeliverOne(Fresh(p, limit));
    if Run(Fresh(p, limit)).Core? {
      RunMoves(Fresh(p, limit));
    }
  }

  lemma ErrorStays(all: string, j: nat, k: nat, limit: nat)
    requires j <= k <= |all| && Run(Fresh(all[..j], limit)) == Failed
    ensures !SpinsIn(Fresh(all[..k], limit))
  {
    hide Run, Step, SpinsIn;
    assert all[..j] + all[j..k] == all[..k];
    RunExtends(Fresh(all[..j], limit), all[j..k]);
    Stops(Failed);
    SpinsOne(Fresh(all[..k], limit));
  }

  /** Once a framed pipeline has been rejected, nothing spins any more. */
  lemma {:induction false} RejectedNeverSpins(ms: seq<Message>, j: nat, k: nat, limit: nat)
    requires AllWithin(ms, limit) && AllFramed(ms) && j <= k <= |Concat(EncodeAll(ms))|
    requires Deliver(Fresh(Concat(EncodeAll(ms))[..j], limit)).core.Failed?
    ensures !StallsInPipeline(ms, k)
    decreases |ms|
  {
    hide Run, Step, Deliver, SpinsIn, WellFormed, Readable, Encode, StallsInMessage;
    var all := Concat(EncodeAll(ms));
    DeliverOne(Fresh(all[..j], limit));
    if ms == [] {
      EmptyStalls(Fresh(all[..j], limit));
    } else {
      var m, e, rest := ms[0], Encode(ms[0]), Concat(EncodeAll(ms[1..]));
      assert EncodeAll(ms)[1..] == EncodeAll(ms[1..]) && all == e + rest;
      assert m in ms && forall x :: x in ms[1..] ==> x in ms;
      if j < |e| {
        assert all[..j] == e[..j];
        RejectedByError(m, e[..j], limit);
        ErrorStays(all, j, k, limit);
        PipelineSpinsExactly(ms, k, limit);
      } else if Readable(m) {
        assert all[..j] == e + rest[..j - |e|];
        MessageParses(m, rest[..j - |e|], limit);
        RejectedNeverSpins(ms[1..], j - |e|, k - |e|, limit);
      }
    }
  }

  /** A way of cutting a framed pipeline is fatal if and only if one of its cuts falls on a
      stall point. */
  lemma CutSpinsExactly(ms: seq<Message>, pieces: seq<string>, limit: nat)
    requires AllWithin(ms, limit) && AllFramed(ms) && IsCut(pieces, ms)
    ensures SpinsAll(Fresh("", limit), pieces)
       <==> exists i :: 0 < i <= |pieces| && StallsInPipeline(ms, |Concat(pieces[..i])|)
  {
    hide Run, Step, SpinsAll, Deliver, WellFormed, StallsInStream, StallsInPipeline;
    hide EncodeAll, Concat, AllWithin, AllFramed;
    StreamCutSpins(ms, pieces, limit);
    forall i | 0 < i <= |pieces|
      ensures StallsInStream(ms, |Concat(pieces[..i])|, limit) <==> StallsInPipeline(ms, |Concat(pieces[..i])|)
    {
      FramedStream(ms, |Concat(pieces[..i])|, limit);
    }
    forall i, j | 0 < j < i <= |pieces| && StallsInPipeline(ms, |Concat(pieces[..i])|)
      ensures Deliver(Fresh(Concat(pieces[..j]), limit)).core.Core?
    {
      EarlierAccepted(ms, pieces, j, i, limit);
    }
  }

  lemma EarlierAccepted(ms: seq<Message>, pieces: seq<string>, j: nat, i: nat, limit: nat)
    requires AllWithin(ms, limit) && AllFramed(ms) && IsCut(pieces, ms) && j < i <= |pieces|
    requires StallsInPipeline(ms, |Concat(pieces[..i])|)
    ensures Deliver(Fresh(Concat(pieces[..j]), limit)).core.Core?
  {
    hide Run, Step, Deliver, StallsInPipeline, EncodeAll, Concat, AllWithin, AllFramed;
    CutPrefix(ms, pieces, i, limit);
    CutPrefix(ms, pieces, j, limit);
    PrefixOfCut(pieces[..i], j);
    assert pieces[..i][..j] == pieces[..j];
    if Deliver(Fresh(Concat(pieces[..j]), limit)).core.Failed? {
      RejectedNeverSpins(ms, |Concat(pieces[..j])|, |Concat(pieces[..i])|, limit);
    }
  }
}
