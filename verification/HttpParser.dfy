/** The incremental parser as the source writes it: one object whose methods update its
    fields in nested loops. Every method is proved against the machine of
    ParserMachine.dfy through `Snap()`. */
module Parser {
  import opened Options
  import opened Bytes
  import opened HttpSyntax
  import opened ParserMachine

  datatype State = RequestLine | Headers | Body | ChunkedBody | Complete | Error
  datatype ChunkPhase = SizeLine | Data | Trailer | End

  type Int32 = n: int | -0x8000_0000 <= n < 0x8000_0000

  /** An int compared with a size. */
  function Unsigned(n: Int32): nat {
    if n >= 0 then n else n + SIZE_T
  }

  /** The size that the C++ conversion gives: the one that differs by a multiple of 2^64. */
  lemma UnsignedIs(n: Int32)
    ensures Unsigned(n) < 0x1_0000_0000_0000_0000 && (Unsigned(n) - n) % 0x1_0000_0000_0000_0000 == 0
  {
  }

  class HttpParser {
    var state: State
    var request: HttpRequest
    var raw: string
    var partial: string
    var maxSize: Int32
    var isChunked: bool
    var contentLength: int
    var bodyRead: nat
    var chunkPhase: ChunkPhase
    var chunkSize: nat
    var chunkRead: nat

    /** `static_cast<size_t>(max_size_)`. */
    function Limit(): nat
      reads this
    {
      Unsigned(maxSize)
    }

    function PhaseNow(): Phase
      reads this
    {
      match state
      case RequestLine => Phase.RequestLine
      case Headers => Phase.Headers
      case Body => Phase.Body(if contentLength < 0 then 0 else contentLength, bodyRead)
      case Complete => Phase.Complete
      case Error => Phase.Complete
      case ChunkedBody =>
        match chunkPhase
        case SizeLine => Phase.SizeLine
        case Data => Phase.Data(chunkSize, chunkRead)
        case Trailer => Phase.Trailer
        case End => Phase.End
    }

    /** The machine state this object stands for. */
    function Snap(): Core
      reads this
    {
      if state.Error? then Failed else Core(PhaseNow(), request, raw, partial, Limit())
    }

    ghost predicate Valid()
      reads this
    {
      && (state.Body? ==> bodyRead < contentLength)
      && (state.RequestLine? || state.Headers? ==> !isChunked && contentLength == -1)
      && Placed(Snap())
    }

    constructor (maxSize: Int32)
      ensures Valid() && this.maxSize == maxSize
      ensures Snap() == Fresh("", Limit())
    {
      this.maxSize := maxSize;
      state, request, raw, partial := State.RequestLine, EmptyRequest, "", "";
      isChunked, contentLength, bodyRead := false, -1, 0;
      chunkPhase, chunkSize, chunkRead := ChunkPhase.SizeLine, 0, 0;
    }

    method Reset()
      requires Valid()
      modifies this
      ensures Valid() && maxSize == old(maxSize)
      ensures Snap() == Fresh(old(partial), Limit())
    {
      state, request, raw := State.RequestLine, EmptyRequest, "";
      isChunked, contentLength, bodyRead := false, -1, 0;
      chunkPhase, chunkSize, chunkRead := ChunkPhase.SizeLine, 0, 0;
    }

    method CheckSizeLimit() returns (ok: bool)
      modifies this`state
      ensures ok == (|raw| <= Limit())
      ensures state == if ok then old(state) else State.Error
    {
      ok := |raw| <= Limit();
      if !ok {
        state := State.Error;
      }
    }

    method ConsumePartial(n: nat)
      requires n <= |partial|
      modifies this`raw, this`partial
      ensures raw == old(raw) + old(partial)[..n]
      ensures partial == old(partial)[n..]
    {
      raw, partial := raw + partial[..n], partial[n..];
    }

    // ---- request line and headers ----

    method ProcessRequestLine()
      requires Valid() && state.RequestLine?
      modifies this
      ensures Valid() && maxSize == old(maxSize)
      ensures |old(raw)| <= |raw|
      ensures state.RequestLine? || state.Headers? || state.Error?
      ensures old(Step(Snap())).None? ==> unchanged(this)
      ensures old(Step(Snap())).Some? ==>
                if state.RequestLine? then old(Step(Snap())) == Some(Guarded(Snap())) && |partial| < old(|partial|)
                else old(Step(Snap())) == Some(Snap())
    {
      hide Unsigned, ParseRequestLine;
      var end := LineEnd(partial);
      if end.None? {
        return;
      }
      var line := partial[..end.value];
      if line == "" {
        ConsumePartial(|line| + 2);
        return;
      }
      var parsed := ParseRequestLine(line, request);
      request := parsed.1;
      if !parsed.0 {
        state := State.Error;
        return;
      }
      ConsumePartial(|line| + 2);
      state := State.Headers;
    }

    /** One round of the loop in process_headers: the empty line, or one header line. */
    method ProcessHeaderLine() returns (more: bool)
      requires Valid() && state.Headers?
      modifies this
      ensures Valid() && maxSize == old(maxSize)
      ensures |old(raw)| <= |raw|
      ensures more ==> state.Headers?
      ensures !more && state.Headers? ==> Stalled(Snap())
      ensures state.Headers? || state.Body? || state.ChunkedBody? || state.Complete?
      ensures state.ChunkedBody? ==> chunkPhase.SizeLine?
      ensures Snap() == old(Snap()) || old(Step(Snap())) == Some(Snap())
      ensures more || !state.Headers? ==> Measure(Snap()) < old(Measure(Snap()))
    {
      hide IsChunked, ContentLength, Placed, LineEnd, AddHeader;
      ghost var before := Snap();
      if |partial| < 2 {
        return false;
      }
      if partial[..2] == CRLF {
        ConsumePartial(2);
        FinalizeHeaders();
        StepPlaced(before);
        return false;
      }
      var end := LineEnd(partial);
      if end.None? {
        return false;
      }
      var headers := StoreHeader(request.headers, partial[..end.value]);
      request := request.(headers := headers);
      ConsumePartial(end.value + 2);
      StepPlaced(before);
      return true;
    }

    method ProcessHeaders()
      requires Valid() && state.Headers?
      modifies this
      ensures Valid() && maxSize == old(maxSize)
      ensures |old(raw)| <= |raw|
      ensures Run(Snap()) == old(Run(Snap()))
      ensures state.Headers? ==> Stalled(Snap())
      ensures state.Headers? || state.Body? || state.ChunkedBody? || state.Complete?
      ensures state.ChunkedBody? ==> chunkPhase.SizeLine?
      ensures !state.Headers? ==> Measure(Snap()) < old(Measure(Snap()))
    {
      hide Run, StepHeaders;
      var more := true;
      while more
        invariant Valid() && maxSize == old(maxSize)
        invariant more ==> state.Headers?
        invariant state.Headers? || state.Body? || state.ChunkedBody? || state.Complete?
        invariant state.ChunkedBody? ==> chunkPhase.SizeLine?
        invariant Run(Snap()) == old(Run(Snap())) && |old(raw)| <= |raw|
        invariant Measure(Snap()) <= old(Measure(Snap()))
        invariant !more && state.Headers? ==> Stalled(Snap())
        invariant !state.Headers? ==> Measure(Snap()) < old(Measure(Snap()))
        decreases more, Measure(Snap())
      {
        ghost var before := Snap();
        more := ProcessHeaderLine();
        if Snap() != before {
          RunStep(before, Snap());
        }
      }
    }

    method FinalizeHeaders()
      requires state.Headers? && !isChunked && contentLength == -1
      modifies this`state, this`isChunked, this`contentLength, this`bodyRead
      modifies this`chunkPhase, this`chunkSize, this`chunkRead
      ensures state.Body? ==> bodyRead < contentLength
      ensures state.Body? || state.ChunkedBody? || state.Complete?
      ensures state.ChunkedBody? ==> chunkPhase.SizeLine?
      ensures Snap() == old(Finalize(Snap()))
    {
      isChunked := FindChunked(request.headers);
      if isChunked {
        state, chunkPhase, chunkSize, chunkRead := State.ChunkedBody, ChunkPhase.SizeLine, 0, 0;
      } else {
        if "content-length" in request.headers {
          var parsed := ParseIntSafe(request.headers["content-length"]);
          if parsed.Some? {
            contentLength := parsed.value;
          }
        }
        if contentLength > 0 {
          state, bodyRead := State.Body, 0;
        } else {
          state := State.Complete;
        }
      }
    }

    // ---- bodies ----

    /** The source also tests for a length of zero and for a body already read; a Body
        state never has either. */
    method ProcessBody()
      requires Valid() && state.Body?
      modifies this
      ensures Valid() && maxSize == old(maxSize)
      ensures |old(raw)| <= |raw|
      ensures Snap() == old(Run(Snap()))
      ensures state.Body? || state.Complete?
      ensures state.Body? ==> partial == ""
    {
      hide Run, Placed, Find;
      ghost var before := Snap();
      var remaining := contentLength - bodyRead;
      var consume := if |partial| < remaining then |partial| else remaining;
      RunBody(before, consume);
      ConsumePartial(consume);
      bodyRead := bodyRead + consume;
      if bodyRead >= contentLength {
        var he := Find(raw, CRLFCRLF, 0).value;
        request := request.(body := raw[he + 4..he + 4 + contentLength]);
        state := State.Complete;
      }
    }

    ghost predicate ChunkMove(before: Core, stop: bool)
      reads this
    {
      && Valid()
      && (state.ChunkedBody? || state.Complete? || state.Error?)
      && Run(Snap()) == Run(before)
      && (stop ==> Step(Snap()).None?)
      && (!stop ==> Measure(Snap()) < Measure(before))
      && (Step(before).None? ==> stop)
      && (before.Core? ==> |before.raw| <= |raw|)
    }

    method ProcessSizeLine() returns (stop: bool)
      requires Valid() && state.ChunkedBody? && chunkPhase.SizeLine?
      modifies this
      ensures ChunkMove(old(Snap()), stop) && maxSize == old(maxSize)
      ensures old(Step(Snap())).None? ==> unchanged(this)
    {
      hide Run, ChunkSize, LineEnd;
      ghost var before := Snap();
      var end := LineEnd(partial);
      if end.None? {
        return true;
      }
      var hex := BeforeSemicolon(partial[..end.value]);
      var size := ParseHex(hex);
      if size.None? {
        state := State.Error;
        RunStep(before, Failed);
        return true;
      }
      chunkSize := size.value;
      ConsumePartial(end.value + 2);
      if chunkSize == 0 {
        chunkPhase := ChunkPhase.Trailer;
      } else {
        var ok := CheckSizeLimit();
        if !ok {
          RunStep(before, Failed);
          return true;
        }
        chunkPhase, chunkRead := ChunkPhase.Data, 0;
      }
      RunStep(before, Snap());
      return false;
    }

    method ProcessData() returns (stop: bool)
      requires Valid() && state.ChunkedBody? && chunkPhase.Data?
      modifies this
      ensures ChunkMove(old(Snap()), stop) && maxSize == old(maxSize)
      ensures old(Step(Snap())).None? ==> unchanged(this)
    {
      hide Run, ChunkSize, LineEnd;
      ghost var before := Snap();
      var remaining := chunkSize - chunkRead;
      if remaining == 0 {
        if |partial| < 2 {
          return true;
        }
        if partial[..2] != CRLF {
          state := State.Error;
          RunStep(before, Failed);
          return true;
        }
        ConsumePartial(2);
        chunkPhase := ChunkPhase.SizeLine;
        RunStep(before, Snap());
        return false;
      }
      var consume := if |partial| < remaining then |partial| else remaining;
      if consume > 0 {
        DataInOneGo(before, consume);
      }
      ConsumePartial(consume);
      chunkRead := chunkRead + consume;
      assert consume == 0 ==> raw == old(raw) && partial == old(partial);
      var ok := CheckSizeLimit();
      if !ok {
        return true;
      }
      assert consume > 0 ==> Snap() == TakeData(before, consume);
      stop := chunkRead < chunkSize;
    }

    method ProcessTrailer() returns (stop: bool)
      requires Valid() && state.ChunkedBody? && chunkPhase.Trailer?
      modifies this
      ensures ChunkMove(old(Snap()), stop) && maxSize == old(maxSize)
      ensures old(Step(Snap())).None? ==> unchanged(this)
    {
      hide Run, ChunkSize, LineEnd;
      while true
        invariant Valid() && state.ChunkedBody? && chunkPhase.Trailer? && maxSize == old(maxSize)
        invariant Run(Snap()) == old(Run(Snap())) && |old(raw)| <= |raw|
        invariant |partial| <= old(|partial|)
        invariant unchanged(this) || old(Step(Snap())).Some?
        decreases |partial|
      {
        ghost var before := Snap();
        if |partial| < 2 {
          return true;
        }
        if partial[..2] == CRLF {
          ConsumePartial(2);
          chunkPhase := ChunkPhase.End;
          RunStep(before, Snap());
          return false;
        }
        var end := LineEnd(partial);
        if end.None? {
          return true;
        }
        ConsumePartial(end.value + 2);
        RunStep(before, Snap());
      }
    }

    /** Runs the chunked body as far as the bytes allow. From a stalled state it changes
        nothing, which is why calling it again without new bytes never helps. */
    method ProcessChunked()
      requires Valid() && state.ChunkedBody?
      modifies this
      ensures Valid() && maxSize == old(maxSize)
      ensures |old(raw)| <= |raw|
      ensures state.ChunkedBody? || state.Complete? || state.Error?
      ensures Snap() == old(Run(Snap()))
      ensures old(Stalled(Snap())) ==> unchanged(this)
    {
      hide Run, StepSizeLine, StepData, StepTrailer;
      while state.ChunkedBody?
        invariant Valid() && maxSize == old(maxSize)
        invariant state.ChunkedBody? || state.Complete? || state.Error?
        invariant Run(Snap()) == old(Run(Snap())) && |old(raw)| <= |raw|
        invariant old(Stalled(Snap())) ==> unchanged(this)
        decreases Measure(Snap())
      {
        ghost var before := Snap();
        var stop;
        match chunkPhase {
          case SizeLine => stop := ProcessSizeLine();
          case Data => stop := ProcessData();
          case Trailer => stop := ProcessTrailer();
          case End =>
            state := State.Complete;
            RunStep(before, Snap());
            stop := true;
        }
        if stop {
          RunStopped(Snap());
          return;
        }
      }
      RunStopped(Snap());
    }

    // ---- dispatch ----

    /** One round of the dispatch loop. */
    method Dispatch() returns (ghost skipped: bool)
      requires Valid() && !Snap().Terminal()
      modifies this
      ensures Valid() && maxSize == old(maxSize)
      ensures |old(raw)| <= |raw|
      ensures skipped ==> old(state).RequestLine? && state.RequestLine?
      ensures skipped ==> old(Step(Snap())) == Some(Guarded(Snap())) && |partial| < old(|partial|)
      ensures !skipped ==> Run(Snap()) == old(Run(Snap()))
      ensures state != old(state) ==> Measure(Snap()) < old(Measure(Snap()))
      ensures state.Body? && old(state).Body? ==> partial == ""
      ensures !skipped && Step(Snap()).Some? ==>
                if old(state).RequestLine? then state.Headers?
                else old(state).Headers? && (state.Body? || state.ChunkedBody?) && partial != ""
    {
      hide Run, StepRequestLine, StepHeaders, StepBody, StepSizeLine, StepData, StepTrailer, Placed;
      ghost var before := Snap();
      RunStops(before);
      skipped := false;
      match state {
        case RequestLine =>
          ProcessRequestLine();
          skipped := state.RequestLine? && Step(before).Some?;
          if state.Headers? || state.Error? {
            RunStep(before, Snap());
          }
        case Headers =>
          ProcessHeaders();
          if (state.Body? || state.ChunkedBody?) && partial == "" {
            EmptyStalls(Snap());
          }
        case Body =>
          ProcessBody();
          RunStopped(Snap());
        case ChunkedBody =>
          ProcessChunked();
          RunStopped(Snap());
      }
    }

    /** The dispatch loop. `spins` reports the one way in which the source's loop never
        returns: the chunked body is stalled with bytes left over, and (by the last
        clause of ProcessChunked) every further round is the identity. Otherwise either
        one empty line before the request was skipped, or the machine ran to its end. */
    method Process() returns (spins: bool)
      requires Valid() && !Snap().Terminal()
      modifies this
      ensures Valid() && maxSize == old(maxSize)
      ensures |old(raw)| <= |raw|
      ensures spins ==> Snap() == old(Run(Snap())) && Stuck(Snap())
      ensures !spins ==>
                || (state.RequestLine? && |partial| < old(|partial|) && old(Step(Snap())) == Some(Guarded(Snap())))
                || (Snap() == old(Run(Snap())) && !Stuck(Snap()))
    {
      hide Run, Step, Placed;
      while !state.Complete? && !state.Error?
        invariant Valid() && maxSize == old(maxSize)
        invariant Run(Snap()) == old(Run(Snap())) && |old(raw)| <= |raw|
        invariant state.RequestLine? ==> Snap() == old(Snap())
        decreases Measure(Snap())
      {
        var fromRequestLine := state.RequestLine?;
        var fromChunks := state.ChunkedBody?;
        ghost var skipped := Dispatch();
        if fromRequestLine && state.Headers? {
          continue;
        }
        if !skipped && Step(Snap()).None? {
          RunStopped(Snap());
        }
        if state.RequestLine? || state.Headers? {
          return false;
        }
        if (state.Body? || state.ChunkedBody?) && partial == "" {
          return false;
        }
        if fromChunks && state.ChunkedBody? {
          return true;
        }
      }
      Stops(Snap());
      return false;
    }

    /** `parse`: take all the input, then process. Of the four outcomes, the run ends
        there (with the size limit checked once more), or it has stopped after an empty
        line before the request line, or the loop spins, or the parser was already done
        and takes nothing. */
    method Parse(data: string) returns (n: nat, spins: bool)
      requires Valid()
      modifies this
      ensures Valid() && maxSize == old(maxSize)
      ensures old(Snap().Terminal()) ==> n == 0 && !spins && unchanged(this)
      ensures !old(Snap().Terminal()) ==>
                var s := old(Extend(Snap(), data));
                && (spins <==> Snap() == Run(s) && Stuck(Run(s)))
                && (!spins ==>
                      || (Snap() == Guarded(Run(s)) && !Stuck(Run(s)))
                      || (state.RequestLine? && Step(s) == Some(Snap())))
      ensures !old(Snap().Terminal()) && !spins && !state.Error? ==>
                |raw| <= Limit() && n == if data != "" then |data| else |raw| - |old(raw)|
    {
      hide Run, Step, Placed;
      if state.Error? || state.Complete? {
        return 0, false;
      }
      var oldRawSize := |raw|;
      partial := partial + data;
      ghost var s := Snap();
      assert Placed(s) by { ExtendPlaced(old(Snap()), data); }
      spins := Process();
      if spins {
        return 0, true;
      }
      if Step(s) == Some(Failed) {
        RunStep(s, Failed);
        Stops(Failed);
      }
      FailedPlaced();
      var ok := CheckSizeLimit();
      if !ok {
        return 0, false;
      }
      n := if |data| > 0 then |data| else |raw| - oldRawSize;
    }
  }
}
