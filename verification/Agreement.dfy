/** When the one-shot parser agrees with the incremental one on a completed message. */
module Agreement {
  import opened Options
  import opened Bytes
  import opened HttpSyntax
  import opened ParserMachine
  import opened OneShot
  import opened Pipelining

  predicate CompletesFrom(s: Core) {
    s.Core? && Run(s).Core? && Run(s).phase == Complete
  }

  lemma CompletesStep(s: Core)
    requires CompletesFrom(s) && s.phase != Complete
    ensures Step(s).Some? && CompletesFrom(Step(s).value)
    ensures Run(Step(s).value) == Run(s) && Measure(Step(s).value) < Measure(s)
  {
    hide Step;
    if Step(s).Some? {
      RunStep(s, Step(s).value);
      if Step(s).value.Failed? {
        Stops(Failed);
      }
    }
  }

  // ---- the shape of a completed message ----

  lemma OneRequestLine(s: Core) returns (line: string)
    requires CompletesFrom(s) && s.phase.RequestLine?
    ensures NoCR(line) && Step(s).Some? && Step(s).value.Core?
    ensures Step(s).value.raw == s.raw + (line + CRLF) && Step(s).value.limit == s.limit
    ensures if line == "" then Step(s).value.phase.RequestLine? && Step(s).value.req == s.req
            else ParseRequestLine(line, s.req).0 && Step(s).value.phase.Headers?
                 && Step(s).value.req == ParseRequestLine(line, s.req).1
  {
    hide Run, ParseRequestLine;
    CompletesStep(s);
    var i := LineEnd(s.partial).value;
    line := s.partial[..i];
    assert s.partial[..i + 2] == line + CRLF;
  }

  /** The empty lines and the request line that a completed message began with. */
  lemma {:induction false} SplitRequestLine(s: Core) returns (n: nat, line: string, t: Core)
    requires CompletesFrom(s) && s.phase.RequestLine?
    ensures IsLine(line) && ParseRequestLine(line, s.req).0
    ensures CompletesFrom(t) && Run(t) == Run(s) && t.phase.Headers? && t.limit == s.limit
    ensures t.req == ParseRequestLine(line, s.req).1
    ensures t.raw == s.raw + Blanks(n) + line + CRLF
    decreases Measure(s)
  {
    hide Run, Step, ParseRequestLine;
    CompletesStep(s);
    line := OneRequestLine(s);
    t := Step(s).value;
    if line == "" {
      var m;
      m, line, t := SplitRequestLine(t);
      n := m + 1;
      assert s.raw + ("" + CRLF) + Blanks(m) + line + CRLF == s.raw + (CRLF + Blanks(m)) + line + CRLF;
    } else {
      n := 0;
      assert s.raw + (line + CRLF) == s.raw + "" + line + CRLF;
    }
  }

  lemma OneHeader(s: Core) returns (line: string)
    requires CompletesFrom(s) && s.phase.Headers?
    ensures NoCR(line) && Step(s).Some? && Step(s).value.Core?
    ensures Step(s).value.raw == s.raw + (line + CRLF) && Step(s).value.limit == s.limit
    ensures if line == "" then Step(s).value == Finalize(s.(raw := s.raw + CRLF, partial := Step(s).value.partial))
            else Step(s).value.phase.Headers? && Step(s).value.req == s.req.(headers := AddHeader(s.req.headers, line))
  {
    hide Run, AddHeader, IsChunked, ContentLength, LineEnd;
    CompletesStep(s);
    if s.partial[..2] == CRLF {
      line := "";
      assert line + CRLF == CRLF;
    } else {
      var i := LineEnd(s.partial).value;
      line := s.partial[..i];
      assert s.partial[..i + 2] == line + CRLF;
      assert s.partial[i..i + 2] == CRLF;
    }
  }

  /** The header lines, up to the state in which the body is read. */
  lemma {:induction false} SplitHeaders(s: Core) returns (lines: seq<string>, t: Core, u: Core)
    requires CompletesFrom(s) && s.phase.Headers?
    ensures AreLines(lines)
    ensures u.Core? && t == Finalize(u) && u.req == s.req.(headers := AddLines(s.req.headers, lines))
    ensures t.raw == u.raw == s.raw + EncodeLines(lines) + CRLF
    ensures CompletesFrom(t) && Run(t) == Run(s)
    decreases Measure(s)
  {
    hide Run, Step, AddHeader, IsChunked, ContentLength;
    CompletesStep(s);
    var line := OneHeader(s);
    t := Step(s).value;
    if line == "" {
      lines := [];
      u := s.(raw := s.raw + CRLF, partial := t.partial);
      assert s.raw + EncodeLines([]) + CRLF == s.raw + CRLF;
    } else {
      var h := t;
      var more;
      more, t, u := SplitHeaders(h);
      lines := [line] + more;
      assert lines[1..] == more;
      assert s.raw + (line + CRLF) + EncodeLines(more) + CRLF == s.raw + EncodeLines(lines) + CRLF;
    }
  }

  // ---- the body ----

  lemma FixedPhase(s: Core)
    requires CompletesFrom(s) && Placed(s) && s.phase.Body?
    ensures s.raw <= Run(s).raw && |Run(s).raw| == |s.raw| + (s.phase.length - s.phase.read)
    ensures Run(s).req == s.req.(body := BodyOf(Run(s).raw, s.phase.length))
  {
    hide Run, Step, BodyOf, Find;
    var left := s.phase.length - s.phase.read;
    RunBody(s, if |s.partial| < left then |s.partial| else left);
  }

  lemma ChunkStepKeeps(s: Core)
    requires s.InChunks() && Step(s).Some? && Step(s).value.Core?
    ensures Step(s).value.req == s.req
    ensures Step(s).value.InChunks() || Step(s).value.phase == Complete
  {
    hide ChunkSize, LineEnd;
  }

  /** Once the headers are over only the body field of the request can still change, and
      with a Content-Length of n exactly n bytes follow the head. */
  lemma {:induction false} BodyPhases(s: Core)
    requires CompletesFrom(s) && Placed(s)
    requires s.phase.Body? || s.InChunks() || s.phase == Complete
    ensures s.raw <= Run(s).raw
    ensures !s.phase.Body? ==> Run(s).req == s.req
    ensures s.phase.Body? ==>
              && |Run(s).raw| == |s.raw| + (s.phase.length - s.phase.read)
              && Run(s).req == s.req.(body := BodyOf(Run(s).raw, s.phase.length))
    decreases Measure(s)
  {
    hide Run, Step, BodyOf, Placed;
    if s.phase == Complete {
      Stops(s);
    } else if s.phase.Body? {
      FixedPhase(s);
    } else {
      CompletesStep(s);
      ChunkStepKeeps(s);
      StepPlaced(s);
      StepMoves(s);
      BodyPhases(Step(s).value);
    }
  }

  // ---- the one-shot parser on such a message ----

  lemma ParseIgnoresBody(line: string, body: string)
    requires ParseRequestLine(line, EmptyRequest).0
    ensures ParseRequestLine(line, EmptyRequest.(body := body))
         == (true, ParseRequestLine(line, EmptyRequest).1.(body := body))
    ensures ParseRequestLine(line, EmptyRequest).1.headers == map[]
    ensures var r := ParseRequestLine(line, EmptyRequest).1; r.method_ != "" && r.path != "" && r.version != ""
  {
    RequestLineParts(line, EmptyRequest);
  }

  function HeadOf(n: nat, line: string, lines: seq<string>): string {
    Blanks(n) + line + CRLF + EncodeLines(lines) + CRLF
  }

  lemma HeadSearch(n: nat, line: string, lines: seq<string>, tail: string)
    requires IsLine(line) && AreLines(lines) && n < 2
    ensures |HeadOf(n, line, lines)| >= 4
    ensures Find(HeadOf(n, line, lines) + tail, CRLFCRLF, 0) == Some(|HeadOf(n, line, lines)| - 4)
    ensures !(CRLFCRLF <= HeadOf(n, line, lines) + tail)
  {
    hide Find, OccursAt;
    var all := [line] + lines;
    assert all[1..] == lines && AreLines(all);
    HeadEnds(all, tail);
    var rest := EncodeLines(all) + CRLF + tail;
    var raw := HeadOf(n, line, lines) + tail;
    assert rest[0] == line[0];
    if n == 0 {
      assert raw == rest;
      assert raw[0] != CRLFCRLF[0];
    } else {
      assert Blanks(1) == CRLF + Blanks(0);
      assert raw == "" + CRLF + rest;
      InnerLine("", rest);
      assert raw[2] != CRLFCRLF[2];
    }
  }

  lemma StartsEmpty(n: nat, rest: string)
    requires n >= 2
    ensures CRLFCRLF <= Blanks(n) + rest
  {
    assert Blanks(n) == CRLF + (CRLF + Blanks(n - 2));
    assert Blanks(n) + rest == CRLFCRLF + (Blanks(n - 2) + rest);
  }

  lemma ScanSkipsBlank(raw: string, headerEnd: nat, req: HttpRequest)
    requires CRLF <= raw && headerEnd > 0
    ensures ScanLines(raw, 0, headerEnd, req) == ScanLines(raw, 2, headerEnd, req)
  {
    hide Find, AddHeader, ParseRequestLine;
    LineFound("", "", raw[2..]);
    assert raw == "" + "" + CRLF + raw[2..];
  }

  lemma ScanStart(raw: string, from: nat, line: string, headerEnd: nat, req: HttpRequest)
    requires IsLine(line) && from + |line| <= headerEnd && req.method_ == "" && ParseRequestLine(line, req).0
    requires from <= |raw| && line + CRLF <= raw[from..]
    ensures ScanLines(raw, from, headerEnd, req)
         == ScanLines(raw, from + |line| + 2, headerEnd, ParseRequestLine(line, req).1)
  {
    hide Find, AddHeader, ParseRequestLine;
    var rest := raw[from..][|line| + 2..];
    assert raw[from..] == line + CRLF + rest;
    assert raw == raw[..from] + line + CRLF + rest;
    LineFound(raw[..from], line, rest);
  }

  lemma AfterBlanks(blanks: string, line: string, rest: string)
    ensures var raw := blanks + line + CRLF + rest;
            blanks <= raw && line + CRLF <= raw[|blanks|..]
  {
    assert (blanks + line + CRLF + rest)[|blanks|..] == line + CRLF + rest;
  }

  lemma OneBlank()
    ensures Blanks(1) == CRLF
  {
    assert Blanks(1) == CRLF + Blanks(0);
  }

  /** The line scan of a head with at most one empty line in front. */
  lemma ScanHead(n: nat, line: string, lines: seq<string>, tail: string, req: HttpRequest, started: HttpRequest)
    requires IsLine(line) && AreLines(lines) && n < 2
    requires req.method_ == "" && ParseRequestLine(line, req) == (true, started) && started.method_ != ""
    ensures ScanLines(HeadOf(n, line, lines) + tail, 0, |HeadOf(n, line, lines)| - 4, req)
         == (true, started.(headers := AddLines(started.headers, lines)))
  {
    hide Find, OccursAt, ParseRequestLine, AddHeader, ScanLines;
    var headerEnd := |HeadOf(n, line, lines)| - 4;
    var p := Blanks(n) + line + CRLF;
    var raw := HeadOf(n, line, lines) + tail;
    var from := |Blanks(n)|;
    AfterBlanks(Blanks(n), line, EncodeLines(lines) + CRLF + tail);
    assert raw == p + EncodeLines(lines) + CRLF + tail == p + (EncodeLines(lines) + CRLF + tail);
    if n == 1 {
      OneBlank();
      ScanSkipsBlank(raw, headerEnd, req);
    }
    ScanStart(raw, from, line, headerEnd, req);
    ScanCollects(p, lines, tail, started);
  }

  /** With fewer than two empty lines in front, the one-shot parser finds the request
      line, all header lines and takes the rest as body; with two or more it finds an
      empty header block and rejects. */
  lemma OneShotOnHead(n: nat, line: string, lines: seq<string>, tail: string)
    requires IsLine(line) && AreLines(lines) && ParseRequestLine(line, EmptyRequest).0
    ensures var raw := HeadOf(n, line, lines) + tail;
            && (n >= 2 <==> CRLFCRLF <= raw)
            && ParseOnce(raw) ==
                 if n >= 2 then None
                 else Some(ParseRequestLine(line, EmptyRequest).1.(headers := AddLines(map[], lines), body := tail))
  {
    hide Find, OccursAt, ParseRequestLine, AddHeader, ScanLines;
    var raw := HeadOf(n, line, lines) + tail;
    ParseIgnoresBody(line, tail);
    if n >= 2 {
      StartsEmpty(n, line + CRLF + EncodeLines(lines) + CRLF + tail);
      assert raw == Blanks(n) + (line + CRLF + EncodeLines(lines) + CRLF + tail);
      EmptyHeadRejected(raw);
    } else {
      HeadSearch(n, line, lines, tail);
      hide HeadOf;
      assert raw[|HeadOf(n, line, lines)|..] == tail;
      ScanHead(n, line, lines, tail, EmptyRequest.(body := tail),
               ParseRequestLine(line, EmptyRequest).1.(body := tail));
    }
  }

  lemma EmptyHeadRejected(raw: string)
    requires CRLFCRLF <= raw
    ensures ParseOnce(raw) == None
  {
    assert OccursAt(raw, CRLFCRLF, 0);
  }

  // ---- the theorem ----

  /** For every message the incremental parser completes: the one-shot parser accepts
      the very same bytes if and only if they do not begin with two empty lines, and
      then it reads the same method, path, version and headers, and the same body
      unless the message is chunked. A Content-Length body is the end of the bytes. */
  lemma OneShotAgrees(partial: string, limit: nat)
    requires CompletesFrom(Fresh(partial, limit))
    ensures var done := Run(Fresh(partial, limit));
            var again := ParseOnce(done.raw);
            && (again.Some? <==> !(CRLFCRLF <= done.raw))
            && (again.Some? ==>
                  && again.value.(body := "") == done.req.(body := "")
                  && (!IsChunked(done.req.headers) ==> again.value.body == done.req.body)
                  && (!IsChunked(done.req.headers) && ContentLength(done.req.headers) > 0 ==>
                        var n := ContentLength(done.req.headers);
                        n <= |done.raw| && done.req.body == done.raw[|done.raw| - n..]))
  {
    hide Run, Step, Find, ParseRequestLine, AddHeader, ParseOnce, IsChunked, ContentLength;
    var s := Fresh(partial, limit);
    var done := Run(s);
    var n, line, t := SplitRequestLine(s);
    var lines, v, u := SplitHeaders(t);
    var head := HeadOf(n, line, lines);
    assert v.raw == head by {
      assert s.raw + Blanks(n) + line + CRLF == Blanks(n) + line + CRLF;
    }
    ParseIgnoresBody(line, "");
    HeadPlaced(v, head, n, line, lines);
    BodyPhases(v);
    var tail := done.raw[|head|..];
    assert done.raw == head + tail;
    OneShotOnHead(n, line, lines, tail);
    if n < 2 && v.phase.Body? {
      HeadSearch(n, line, lines, tail);
      BodyIsTail(done.raw, |head|, v.phase.length);
    } else if n < 2 && v.phase == Complete {
      Stops(v);
    }
  }

  lemma BodyIsTail(raw: string, h: nat, n: nat)
    requires 4 <= h && h + n == |raw| && Find(raw, CRLFCRLF, 0) == Some(h - 4)
    ensures BodyOf(raw, n) == raw[h..] == raw[|raw| - n..]
  {
  }

  lemma HeadPlaced(v: Core, head: string, n: nat, line: string, lines: seq<string>)
    requires v.Core? && v.raw == head == HeadOf(n, line, lines) && line != ""
    requires v.phase.Body? ==> v.phase.read < v.phase.length && v.phase.read == 0
    requires v.phase.Body? || v.phase.SizeLine? || v.phase == Complete
    ensures Placed(v)
  {
    var before := Blanks(n) + line + CRLF + EncodeLines(lines);
    LinesEnd(Blanks(n) + line + CRLF, lines);
    TwoEnds(before);
  }

  lemma {:induction false} LinesEnd(prefix: string, lines: seq<string>)
    requires EndsAt(prefix, 0, CRLF)
    ensures EndsAt(prefix + EncodeLines(lines), 0, CRLF)
    decreases |lines|
  {
    if lines == [] {
      assert prefix + "" == prefix;
    } else {
      EndsNow(prefix, lines[0] + CRLF);
      LinesEnd(prefix + (lines[0] + CRLF), lines[1..]);
      assert prefix + (lines[0] + CRLF) + EncodeLines(lines[1..]) == prefix + EncodeLines(lines);
    }
  }

  // ---- the body of a well-formed message ----

  lemma {:induction false} FieldLinesAreLines(fields: seq<Field>)
    requires forall f :: f in fields ==> WellFormedField(f)
    ensures AreLines(FieldLines(fields))
    decreases |fields|
  {
    if fields != [] {
      assert fields[0] in fields && IsLine(FieldLine(fields[0]));
      FieldLinesAreLines(fields[1..]);
    }
  }

  /** The body stored for a Content-Length message: its data, unless two or more empty
      lines came before the request line; then the bytes after the second of them. */
  lemma StoredBody(m: Message)
    requires WellFormed(m) && m.content.Fixed?
    ensures var data := m.content.data;
            RequestOf(m).body == if m.blanks < 2 then data else Encode(m)[4..4 + |data|]
  {
    hide Find, BodyOf, EncodeLines, WellFormedContent, WellFormedField, LastNamed, FieldMap;
    var line, lines, data := StartLine(m), FieldLines(m.fields), m.content.data;
    var head := HeadOf(m.blanks, line, lines);
    HeadThenContent(Blanks(m.blanks), line, EncodeLines(lines), data);
    if m.blanks < 2 {
      FieldLinesAreLines(m.fields);
      HeadSearch(m.blanks, line, lines, data);
      BodyIsTail(head + data, |head|, |data|);
      assert (head + data)[|head|..] == data;
    } else {
      var rest := line + CRLF + EncodeLines(lines) + CRLF + data;
      BlanksFirst(Blanks(m.blanks), line, EncodeLines(lines), data);
      StartsEmpty(m.blanks, rest);
      BodyAfterEmpty(Encode(m), |data|);
    }
  }

  lemma HeadThenContent(blanks: string, line: string, lines: string, data: string)
    ensures blanks + (line + CRLF + lines + CRLF) + data == blanks + line + CRLF + lines + CRLF + data
  {
  }

  lemma BlanksFirst(blanks: string, line: string, lines: string, data: string)
    ensures blanks + (line + CRLF + lines + CRLF) + data == blanks + (line + CRLF + lines + CRLF + data)
  {
  }

  lemma BodyAfterEmpty(raw: string, n: nat)
    requires CRLFCRLF <= raw && 4 + n <= |raw|
    ensures BodyOf(raw, n) == raw[4..4 + n]
  {
    FirstIs(raw, CRLFCRLF, 0, 0);
  }

  lemma StartsWithEmptyIff(m: Message)
    requires WellFormed(m)
    ensures CRLFCRLF <= Encode(m) <==> m.blanks >= 2
  {
    hide Find, EncodeLines, EncodeContent, WellFormedContent, WellFormedField, LastNamed, FieldMap;
    var line, lines, tail := StartLine(m), FieldLines(m.fields), EncodeContent(m.content);
    HeadThenContent(Blanks(m.blanks), line, EncodeLines(lines), tail);
    if m.blanks < 2 {
      FieldLinesAreLines(m.fields);
      HeadSearch(m.blanks, line, lines, tail);
    } else {
      BlanksFirst(Blanks(m.blanks), line, EncodeLines(lines), tail);
      StartsEmpty(m.blanks, line + CRLF + EncodeLines(lines) + CRLF + tail);
    }
  }

  /** What the worker gets when it parses a delivered message again: the same request,
      exactly when at most one empty line came before it, and otherwise a refusal. */
  lemma WorkerParsesTheSame(m: Message)
    requires WellFormed(m) && Readable(m)
    ensures ParseOnce(Encode(m)).Some? <==> m.blanks < 2
    ensures m.blanks < 2 ==>
              var again := ParseOnce(Encode(m)).value;
              && again.(body := "") == RequestOf(m).(body := "")
              && (m.content.Fixed? ==> again.body == m.content.data)
              && (m.content.NoContent? ==> again.body == "")
  {
    hide Run, Find, BodyOf, Encode, FieldMap, ParseOnce, ContentLength, IsChunked, WellFormed, Readable;
    var limit := |Encode(m)|;
    MessageParses(m, "", limit);
    assert Encode(m) + "" == Encode(m);
    OneShotAgrees(Encode(m), limit);
    StartsWithEmptyIff(m);
    ChunksAnnounced(m);
    if m.content.Fixed? {
      StoredBody(m);
    }
  }
}
