/** The incremental request parser as a machine over values.

    One `Step` is the smallest move that never depends on bytes still to come: a whole
    line, a CRLF, or a single body byte. The class in HttpParser.dfy does many of these
    at once; here they are separated so that feeding more bytes commutes with stepping. */
module ParserMachine {
  import opened Options
  import opened Bytes
  import opened HttpSyntax

  datatype Phase =
    | RequestLine
    | Headers
    | Body(length: nat, read: nat)   // Content-Length body, `read` bytes already taken
    | SizeLine                       // chunked: waiting for a size line
    | Data(size: nat, read: nat)     // chunked: inside a chunk of `size` bytes
    | Trailer                        // chunked: after the last chunk
    | End
    | Complete

  /** All error states of the source are one value: after an error nothing but the
      verdict is read. `raw` holds the bytes of the current message, `partial` the
      bytes not yet used, `limit` the size limit as an unsigned number. */
  datatype Core =
    | Failed
    | Core(phase: Phase, req: HttpRequest, raw: string, partial: string, limit: nat)
  {
    predicate Terminal() {
      Failed? || phase == Complete
    }

    predicate InChunks() {
      Core? && (phase.SizeLine? || phase.Data? || phase.Trailer? || phase.End?)
    }
  }

  function Fresh(partial: string, limit: nat): Core {
    Core(RequestLine, EmptyRequest, "", partial, limit)
  }

  /** `reset`: a new message begins, the unused bytes stay. */
  function Reset(s: Core): Core
    requires s.Core?
  {
    Fresh(s.partial, s.limit)
  }

  /** `consume_partial`, and the phase entered with it: n bytes move from the unused
      bytes to the message. */
  function Take(s: Core, n: nat, next: Phase): (t: Core)
    requires s.Core? && n <= |s.partial|
    ensures t.Core?
  {
    s.(raw := s.raw + s.partial[..n], partial := s.partial[n..], phase := next)
  }

  /** `check_size_limit`. */
  function Guarded(s: Core): Core {
    if s.Core? && |s.raw| > s.limit then Failed else s
  }

  function Extend(s: Core, d: string): Core {
    if s.Failed? then s else s.(partial := s.partial + d)
  }

  // ---- one move ----

  function StepRequestLine(s: Core): Option<Core>
    requires s.Core?
  {
    match LineEnd(s.partial)
    case None => None
    case Some(i) =>
      if i == 0 then Some(Guarded(Take(s, 2, RequestLine)))
      else
        var (ok, req) := ParseRequestLine(s.partial[..i], s.req);
        if ok then Some(Take(s.(req := req), i + 2, Headers)) else Some(Failed)
  }

  /** `finalize_headers`: the framing of section 6.3 of RFC 9112 as the source decides it. */
  function Finalize(s: Core): Core
    requires s.Core?
  {
    if IsChunked(s.req.headers) then s.(phase := SizeLine)
    else
      var n := ContentLength(s.req.headers);
      s.(phase := if n > 0 then Body(n, 0) else Complete)
  }

  function StepHeaders(s: Core): Option<Core>
    requires s.Core?
  {
    if |s.partial| < 2 then None
    else if s.partial[..2] == CRLF then Some(Finalize(Take(s, 2, Headers)))
    else match LineEnd(s.partial)
      case None => None
      case Some(i) =>
        var req := s.req.(headers := AddHeader(s.req.headers, s.partial[..i]));
        Some(Take(s.(req := req), i + 2, Headers))
  }

  /** The n bytes after the first empty line of `raw`, as process_body cuts them out. */
  function BodyOf(raw: string, n: nat): string {
    match Find(raw, CRLFCRLF, 0)
    case None => ""
    case Some(h) => if h + 4 + n <= |raw| then raw[h + 4..h + 4 + n] else raw[h + 4..]
  }

  function FinishBody(s: Core, n: nat): Core
    requires s.Core?
  {
    s.(req := s.req.(body := BodyOf(s.raw, n)))
  }

  function StepBody(s: Core): Option<Core>
    requires s.Core? && s.phase.Body?
  {
    if s.partial == "" then None
    else
      var Body(length, read) := s.phase;
      if read + 1 < length then Some(Take(s, 1, Body(length, read + 1)))
      else Some(FinishBody(Take(s, 1, Complete), length))
  }

  function StepSizeLine(s: Core): Option<Core>
    requires s.Core?
  {
    match LineEnd(s.partial)
    case None => None
    case Some(i) =>
      match ChunkSize(BeforeSemicolon(s.partial[..i]))
      case None => Some(Failed)
      case Some(n) =>
        if n == 0 then Some(Take(s, i + 2, Trailer))
        else Some(Guarded(Take(s, i + 2, Data(n, 0))))
  }

  function StepData(s: Core): Option<Core>
    requires s.Core? && s.phase.Data?
  {
    var Data(size, read) := s.phase;
    if read < size then
      if s.partial == "" then None else Some(Guarded(Take(s, 1, Data(size, read + 1))))
    else if |s.partial| < 2 then None
    else if s.partial[..2] == CRLF then Some(Take(s, 2, SizeLine))
    else Some(Failed)
  }

  function StepTrailer(s: Core): Option<Core>
    requires s.Core?
  {
    if |s.partial| < 2 then None
    else if s.partial[..2] == CRLF then Some(Take(s, 2, End))
    else match LineEnd(s.partial)
      case None => None
      case Some(i) => Some(Take(s, i + 2, Trailer))
  }

  function Step(s: Core): Option<Core> {
    if s.Failed? then None
    else match s.phase
      case RequestLine => StepRequestLine(s)
      case Headers => StepHeaders(s)
      case Body(_, _) => StepBody(s)
      case SizeLine => StepSizeLine(s)
      case Data(_, _) => StepData(s)
      case Trailer => StepTrailer(s)
      case End => Some(s.(phase := Complete))
      case Complete => None
  }

  /** Unread bytes first, then whether the machine has stopped. */
  function Measure(s: Core): nat {
    if s.Failed? then 0 else 2 * |s.partial| + (if s.phase == Complete then 0 else 1)
  }

  lemma StepLowers(s: Core)
    requires Step(s).Some?
    ensures Measure(Step(s).value) < Measure(s)
  {
  }

  /** Step until nothing more can be done with the bytes at hand. */
  function Run(s: Core): (t: Core)
    decreases Measure(s)
  {
    match Step(s)
    case None => s
    case Some(t) => StepLowers(s); Run(t)
  }

  lemma RunStep(s: Core, t: Core)
    requires Step(s) == Some(t)
    ensures Run(t) == Run(s)
    ensures Measure(t) < Measure(s)
  {
    StepLowers(s);
  }

  lemma RunStopped(s: Core)
    requires Step(s).None?
    ensures Run(s) == s
  {
  }

  lemma Stops(s: Core)
    requires s.Terminal()
    ensures Step(s).None? && Run(s) == s
  {
  }

  lemma EmptyStalls(s: Core)
    requires s.Core? && s.partial == "" && !s.phase.End?
    ensures Step(s).None? && Run(s) == s
  {
  }

  lemma {:induction false} RunStops(s: Core)
    ensures Step(Run(s)).None?
    ensures Run(s).Core? ==> !Run(s).phase.End?
    ensures Measure(Run(s)) <= Measure(s)
    ensures Step(s).Some? ==> Measure(Run(s)) < Measure(s)
    decreases Measure(s)
  {
    if Step(s).Some? {
      StepLowers(s);
      RunStops(Step(s).value);
    }
  }

  /** The machine has stopped and is waiting for bytes. */
  predicate Stalled(s: Core) {
    Step(s).None? && !s.Terminal()
  }

  /** The stall in which the source's dispatch loop does not return: inside a chunked
      body with bytes at hand that do not yet make a line or a CRLF. */
  predicate Stuck(s: Core) {
    Stalled(s) && s.InChunks() && s.partial != ""
  }

  // ---- more bytes never change a move already possible ----

  lemma TakeExtends(s: Core, n: nat, next: Phase, d: string)
    requires s.Core? && n <= |s.partial|
    ensures Take(Extend(s, d), n, next) == Extend(Take(s, n, next), d)
    ensures (s.partial + d)[..n] == s.partial[..n]
  {
    assert (s.partial + d)[..n] == s.partial[..n];
    assert (s.partial + d)[n..] == s.partial[n..] + d;
  }

  lemma LineExtends(s: Core, d: string)
    requires s.Core? && LineEnd(s.partial).Some?
    ensures LineEnd(s.partial + d) == LineEnd(s.partial)
    ensures var i := LineEnd(s.partial).value; (s.partial + d)[..i] == s.partial[..i]
  {
    LineEndExtends(s.partial, d);
  }

  lemma RequestLineExtends(s: Core, d: string)
    requires s.Core? && s.phase.RequestLine? && Step(s).Some?
    ensures Step(Extend(s, d)) == Some(Extend(Step(s).value, d))
  {
    LineExtends(s, d);
    var i := LineEnd(s.partial).value;
    var (ok, req) := ParseRequestLine(s.partial[..i], s.req);
    TakeExtends(s, 2, RequestLine, d);
    TakeExtends(s.(req := req), i + 2, Headers, d);
  }

  lemma HeadersExtends(s: Core, d: string)
    requires s.Core? && s.phase.Headers? && Step(s).Some?
    ensures Step(Extend(s, d)) == Some(Extend(Step(s).value, d))
  {
    TakeExtends(s, 2, Headers, d);
    if s.partial[..2] != CRLF {
      LineExtends(s, d);
      var i := LineEnd(s.partial).value;
      var req := s.req.(headers := AddHeader(s.req.headers, s.partial[..i]));
      TakeExtends(s.(req := req), i + 2, Headers, d);
    }
  }

  lemma BodyExtends(s: Core, d: string)
    requires s.Core? && s.phase.Body? && Step(s).Some?
    ensures Step(Extend(s, d)) == Some(Extend(Step(s).value, d))
  {
    var Body(length, read) := s.phase;
    TakeExtends(s, 1, Body(length, read + 1), d);
    TakeExtends(s, 1, Complete, d);
  }

  lemma ChunksExtend(s: Core, d: string)
    requires s.InChunks() && Step(s).Some?
    ensures Step(Extend(s, d)) == Some(Extend(Step(s).value, d))
  {
    match s.phase
    case SizeLine =>
      LineExtends(s, d);
      var i := LineEnd(s.partial).value;
      TakeExtends(s, i + 2, Trailer, d);
      var n := ChunkSize(BeforeSemicolon(s.partial[..i]));
      if n.Some? {
        TakeExtends(s, i + 2, Data(n.value, 0), d);
      }
    case Data(size, read) =>
      TakeExtends(s, 1, Data(size, read + 1), d);
      if read >= size {
        TakeExtends(s, 2, SizeLine, d);
      }
    case Trailer =>
      TakeExtends(s, 2, End, d);
      if s.partial[..2] != CRLF {
        LineExtends(s, d);
        TakeExtends(s, LineEnd(s.partial).value + 2, Trailer, d);
      }
    case End =>
  }

  lemma StepExtends(s: Core, d: string)
    requires Step(s).Some?
    ensures Step(Extend(s, d)) == Some(Extend(Step(s).value, d))
  {
    if s.phase.RequestLine? {
      RequestLineExtends(s, d);
    } else if s.phase.Headers? {
      HeadersExtends(s, d);
    } else if s.phase.Body? {
      BodyExtends(s, d);
    } else {
      ChunksExtend(s, d);
    }
  }

  lemma {:induction false} RunExtends(s: Core, d: string)
    ensures Run(Extend(s, d)) == Run(Extend(Run(s), d))
    decreases Measure(s)
  {
    if Step(s).Some? {
      StepLowers(s);
      StepExtends(s, d);
      RunExtends(Step(s).value, d);
    }
  }

  // ---- what a run keeps ----

  /** Bytes are only ever moved from `partial` to the end of `raw`. */
  ghost predicate Moved(s: Core, t: Core)
    requires s.Core? && t.Core?
  {
    && s.raw <= t.raw
    && t.raw + t.partial == s.raw + s.partial
    && t.limit == s.limit
  }

  lemma TakeMoves(s: Core, n: nat, t: Core)
    requires s.Core? && t.Core? && n <= |s.partial| && t.limit == s.limit
    requires t.raw == s.raw + s.partial[..n] && t.partial == s.partial[n..]
    ensures Moved(s, t)
  {
    assert s.raw + s.partial[..n] + s.partial[n..] == s.raw + s.partial;
  }

  lemma StepMoves(s: Core)
    requires Step(s).Some? && Step(s).value.Core?
    ensures Moved(s, Step(s).value)
    ensures !s.phase.End? ==> |Step(s).value.partial| < |s.partial|
  {
    var t := Step(s).value;
    match s.phase
    case RequestLine => TakeMoves(s, LineEnd(s.partial).value + 2, t);
    case Headers => TakeMoves(s, if s.partial[..2] == CRLF then 2 else LineEnd(s.partial).value + 2, t);
    case Body(_, _) => TakeMoves(s, 1, t);
    case SizeLine => TakeMoves(s, LineEnd(s.partial).value + 2, t);
    case Data(size, read) => TakeMoves(s, if read < size then 1 else 2, t);
    case Trailer => TakeMoves(s, if s.partial[..2] == CRLF then 2 else LineEnd(s.partial).value + 2, t);
    case End =>
  }

  lemma {:induction false} RunMoves(s: Core)
    requires s.Core? && Run(s).Core?
    ensures Moved(s, Run(s))
    decreases Measure(s)
  {
    if Step(s).Some? {
      var t := Step(s).value;
      if t.Core? {
        StepLowers(s);
        StepMoves(s);
        RunMoves(t);
      }
    }
  }

  /** A message that completes has used at least one byte. */
  lemma RunConsumes(s: Core)
    requires s.Core? && !s.phase.End? && s.phase != Complete
    requires Run(s).Core? && Run(s).phase == Complete
    ensures |Run(s).partial| < |s.partial|
  {
    RunStops(s);
    StepMoves(s);
    RunMoves(Step(s).value);
  }

  lemma OversizeFails(s: Core, t: Core)
    requires s.Core? && |s.raw| > s.limit && t == Run(s)
    ensures Guarded(t).Failed?
  {
    if t.Core? {
      RunMoves(s);
    }
  }

  // ---- where the header block ends inside `raw` ----

  predicate EndsAt(raw: string, k: nat, pat: string) {
    k + |pat| <= |raw| && raw[|raw| - k - |pat|..|raw| - k] == pat
  }

  /** Invariant of every message: header lines end the bytes read so far, a
      Content-Length body follows an empty line directly, and a chunk body is within
      the limit. */
  predicate Placed(s: Core) {
    s.Core? ==>
      match s.phase
      case Headers => EndsAt(s.raw, 0, CRLF)
      case Body(length, read) => read < length && EndsAt(s.raw, read, CRLFCRLF)
      case Data(size, read) => read <= size && |s.raw| <= s.limit
      case _ => true
  }

  lemma EndsEarlier(raw: string, k: nat, pat: string, more: string)
    requires EndsAt(raw, k, pat)
    ensures EndsAt(raw + more, k + |more|, pat)
  {
    var n := |raw| - k;
    assert (raw + more)[n - |pat|..n] == raw[n - |pat|..n];
  }

  lemma EndsNow(raw: string, line: string)
    requires EndsAt(line, 0, CRLF)
    ensures EndsAt(raw + line, 0, CRLF)
  {
    assert (raw + line)[|raw + line| - 2..] == line[|line| - 2..];
  }

  lemma TwoEnds(raw: string)
    requires EndsAt(raw, 0, CRLF)
    ensures EndsAt(raw + CRLF, 0, CRLFCRLF)
  {
    assert raw == raw[..|raw| - 2] + CRLF;
    assert raw + CRLF == raw[..|raw| - 2] + CRLFCRLF;
  }

  lemma FailedPlaced()
    ensures Placed(Failed)
  {
  }

  lemma ExtendPlaced(s: Core, d: string)
    requires Placed(s)
    ensures Placed(Extend(s, d))
  {
  }

  lemma RequestLinePlaced(s: Core)
    requires s.Core? && s.phase.RequestLine? && Step(s).Some?
    ensures Placed(Step(s).value)
  {
    hide ParseRequestLine;
    var i := LineEnd(s.partial).value;
    EndsNow(s.raw, s.partial[..i + 2]);
  }

  lemma FinalizePlaced(s: Core)
    requires s.Core? && EndsAt(s.raw, 0, CRLFCRLF)
    ensures Placed(Finalize(s))
  {
    hide IsChunked, ContentLength, EndsAt;
  }

  lemma HeadersPlaced(s: Core)
    requires s.Core? && s.phase.Headers? && Placed(s) && Step(s).Some?
    ensures Placed(Step(s).value)
  {
    hide AddHeader, Finalize;
    if s.partial[..2] == CRLF {
      TwoEnds(s.raw);
      FinalizePlaced(Take(s, 2, Headers));
    } else {
      var i := LineEnd(s.partial).value;
      hide EndsAt;
      assert EndsAt(s.partial[..i + 2], 0, CRLF) by { LineEnds(s.partial, i); }
      EndsNow(s.raw, s.partial[..i + 2]);
    }
  }

  lemma LineEnds(p: string, i: nat)
    requires LineEnd(p) == Some(i)
    ensures EndsAt(p[..i + 2], 0, CRLF)
  {
    SliceOfPrefix(p, i + 2, i, i + 2);
  }

  lemma StepPlaced(s: Core)
    requires Placed(s) && Step(s).Some?
    ensures Placed(Step(s).value)
  {
    hide StepRequestLine, StepHeaders, BodyOf, ChunkSize;
    if s.phase.RequestLine? {
      RequestLinePlaced(s);
    } else if s.phase.Headers? {
      HeadersPlaced(s);
    } else if s.phase.Body? {
      EndsEarlier(s.raw, s.phase.read, CRLFCRLF, s.partial[..1]);
    }
  }

  /** So cutting the body out of `raw` stays inside `raw`. */
  lemma BodyInside(raw: string, n: nat)
    requires EndsAt(raw, n, CRLFCRLF)
    ensures var h := Find(raw, CRLFCRLF, 0); h.Some? && h.value + 4 + n <= |raw|
  {
    hide Find, OccursAt, EndsAt;
    EndsOccurs(raw, n, CRLFCRLF);
    FirstOccurrence(raw, CRLFCRLF, |raw| - n - 4);
  }

  lemma EndsOccurs(raw: string, n: nat, pat: string)
    requires EndsAt(raw, n, pat)
    ensures |pat| + n <= |raw| && OccursAt(raw, pat, |raw| - n - |pat|)
  {
  }

  // ---- several bytes at once ----

  lemma TakeTwice(s: Core, m: nat, mid: Phase, n: nat, next: Phase)
    requires s.Core? && m + n <= |s.partial|
    ensures Take(Take(s, m, mid), n, next) == Take(s, m + n, next)
  {
    assert s.partial[m..][..n] == s.partial[m..m + n];
    assert s.partial[..m] + s.partial[m..m + n] == s.partial[..m + n];
    assert s.raw + s.partial[..m] + s.partial[m..m + n] == s.raw + (s.partial[..m] + s.partial[m..m + n]);
  }

  /** Taking k body bytes in one go, as process_body does. */
  function TakeBody(s: Core, k: nat): Core
    requires s.Core? && s.phase.Body? && k <= |s.partial|
  {
    var Body(length, read) := s.phase;
    if read + k < length then Take(s, k, Body(length, read + k))
    else FinishBody(Take(s, k, Complete), length)
  }

  lemma {:induction false} BodyInOneGo(s: Core, k: nat)
    requires s.Core? && s.phase.Body? && 1 <= k <= |s.partial| && s.phase.read + k <= s.phase.length
    ensures Run(TakeBody(s, k)) == Run(s)
    decreases k
  {
    hide Run, BodyOf;
    var t := TakeBody(s, 1);
    RunStep(s, t);
    if k > 1 {
      var Body(length, read) := s.phase;
      BodyInOneGo(t, k - 1);
      TakeTwice(s, 1, t.phase, k - 1, Body(length, read + k));
      TakeTwice(s, 1, t.phase, k - 1, Complete);
    }
  }

  /** All of a body that is at hand: the run ends there, and when that is the whole
      body, the cut out of `raw` stays inside it. */
  lemma RunBody(s: Core, k: nat)
    requires Placed(s) && s.Core? && s.phase.Body?
    requires k == var left := s.phase.length - s.phase.read; if |s.partial| < left then |s.partial| else left
    ensures Run(s) == TakeBody(s, k) && Placed(Run(s))
    ensures s.phase.read + k == s.phase.length ==>
              var raw := s.raw + s.partial[..k];
              var h := Find(raw, CRLFCRLF, 0);
              h.Some? && h.value + 4 + s.phase.length <= |raw|
  {
    hide BodyOf, Find, Run;
    EndsEarlier(s.raw, s.phase.read, CRLFCRLF, s.partial[..k]);
    if s.phase.read + k == s.phase.length {
      BodyInside(s.raw + s.partial[..k], s.phase.length);
      RunStopped(TakeBody(s, k));
    } else {
      EmptyStalls(TakeBody(s, k));
    }
    if k > 0 {
      BodyInOneGo(s, k);
    } else {
      assert TakeBody(s, k) == s;
    }
  }

  /** Taking k chunk bytes in one go and then checking the limit. */
  function TakeData(s: Core, k: nat): Core
    requires s.Core? && s.phase.Data? && k <= |s.partial|
  {
    Guarded(Take(s, k, Data(s.phase.size, s.phase.read + k)))
  }

  lemma {:induction false} DataInOneGo(s: Core, k: nat)
    requires s.Core? && s.phase.Data? && 1 <= k <= |s.partial| && s.phase.read + k <= s.phase.size
    ensures Run(TakeData(s, k)) == Run(s)
    decreases k
  {
    hide Run;
    var t := TakeData(s, 1);
    RunStep(s, t);
    if k > 1 {
      var Data(size, read) := s.phase;
      TakeTwice(s, 1, Data(size, read + 1), k - 1, Data(size, read + k));
      if t.Core? {
        DataInOneGo(t, k - 1);
      }
    }
  }
}
