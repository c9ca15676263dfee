/** Which pipelines survive every cut: exactly those without a chunked message. */
module PipelineCuts {
  import opened Bytes
  import opened HttpSyntax
  import opened ParserMachine
  import opened Fragmentation
  import opened Pipelining
  import Agreement

  /** Chunk phases are entered only when the headers announce chunks. */
  predicate Announced(s: Core) {
    s.InChunks() ==> IsChunked(s.req.headers)
  }

  lemma StepAnnounced(s: Core)
    requires Announced(s) && Step(s).Some?
    ensures Announced(Step(s).value)
  {
    hide IsChunked, ContentLength, LineEnd, ParseRequestLine, AddHeader, ChunkSize, BodyOf;
  }

  lemma {:induction false} RunKeeps(s: Core)
    requires Announced(s) && Placed(s)
    ensures Announced(Run(s)) && Placed(Run(s))
    decreases Measure(s)
  {
    hide Step, Placed, Announced;
    if Step(s).Some? {
      StepAnnounced(s);
      StepPlaced(s);
      RunStep(s, Step(s).value);
      RunKeeps(Step(s).value);
    } else {
      RunStopped(s);
    }
  }

  /** No proper prefix of a readable message that is not chunked is completed or stuck. */
  lemma ProperPrefixWaits(m: Message, p: string, limit: nat)
    requires WellFormed(m) && Readable(m) && !m.content.Chunked? && |Encode(m)| <= limit
    requires p < Encode(m)
    ensures !Completes(Fresh(p, limit)) && !Stuck(Run(Fresh(p, limit)))
  {
    hide Run, Step, Encode, BodyOf, IsChunked, FieldMap, Placed, WellFormed, Readable;
    var s := Fresh(p, limit);
    var t := Run(s);
    var q := Encode(m)[|p|..];
    assert Encode(m) == p + q;
    assert Extend(s, q) == Fresh(Encode(m) + "", limit) by { assert Encode(m) + "" == Encode(m); }
    MessageParses(m, "", limit);
    ChunksAnnounced(m);
    VerdictStays(s, q);
    RunExtends(s, q);
    RunPlacedFresh(p, limit);
    if t.InChunks() && !Completes(s) {
      ExtendPlaced(t, q);
      Agreement.BodyPhases(Extend(t, q));
    }
  }

  lemma RunPlacedFresh(p: string, limit: nat)
    ensures Announced(Run(Fresh(p, limit))) && Placed(Run(Fresh(p, limit)))
  {
    RunKeeps(Fresh(p, limit));
  }

  predicate NoChunks(ms: seq<Message>) {
    forall m :: m in ms ==> !m.content.Chunked?
  }

  lemma {:induction false} PrefixNeverSpins(ms: seq<Message>, p: string, limit: nat)
    requires AllWithin(ms, limit) && AllReadable(ms) && NoChunks(ms)
    requires p <= Concat(EncodeAll(ms))
    ensures !SpinsIn(Fresh(p, limit))
    decreases |ms|
  {
    hide Run, Step, SpinsIn, Encode, WellFormed, Readable;
    var s := Fresh(p, limit);
    SpinsOne(s);
    if ms == [] {
      EmptyStalls(s);
    } else {
      assert ms[0] in ms;
      var e, rest := Encode(ms[0]), Concat(EncodeAll(ms[1..]));
      assert EncodeAll(ms)[1..] == EncodeAll(ms[1..]);
      assert Concat(EncodeAll(ms)) == e + rest;
      if |p| < |e| {
        assert p < e;
        ProperPrefixWaits(ms[0], p, limit);
      } else {
        var p' := p[|e|..];
        assert p == e + p' && p' <= rest;
        MessageParses(ms[0], p', limit);
        PrefixNeverSpins(ms[1..], p', limit);
      }
    }
  }

  lemma {:induction false} SpinsBehind(ms: seq<Message>, x: string, limit: nat)
    requires AllWithin(ms, limit) && AllReadable(ms)
    ensures SpinsIn(Fresh(Concat(EncodeAll(ms)) + x, limit)) == SpinsIn(Fresh(x, limit))
    decreases |ms|
  {
    hide Run, Step, SpinsIn, Encode, WellFormed, Readable;
    if ms == [] {
      assert Concat(EncodeAll(ms)) + x == x;
    } else {
      assert ms[0] in ms;
      SpinsOne(Fresh(Concat(EncodeAll(ms)) + x, limit));
      var rest := Concat(EncodeAll(ms[1..])) + x;
      assert EncodeAll(ms)[1..] == EncodeAll(ms[1..]);
      assert Concat(EncodeAll(ms)) + x == Encode(ms[0]) + rest;
      MessageParses(ms[0], rest, limit);
      SpinsBehind(ms[1..], x, limit);
    }
  }

  lemma {:induction false} EncodeAllSplits(ms: seq<Message>, j: nat)
    requires j <= |ms|
    ensures EncodeAll(ms) == EncodeAll(ms[..j]) + EncodeAll(ms[j..])
    decreases j
  {
    if j > 0 {
      EncodeAllSplits(ms[1..], j - 1);
      assert ms[..j][1..] == ms[1..][..j - 1] && ms[j..] == ms[1..][j - 1..];
    }
  }

  ghost predicate IsCut(pieces: seq<string>, ms: seq<Message>) {
    Concat(pieces) == Concat(EncodeAll(ms))
  }

  lemma PrefixOfCut(pieces: seq<string>, i: nat)
    requires i <= |pieces|
    ensures Concat(pieces[..i]) <= Concat(pieces)
  {
    assert pieces == pieces[..i] + pieces[i..];
    ConcatAppend(pieces[..i], pieces[i..]);
  }

  lemma SplitAround(ms: seq<Message>, j: nat)
    requires j < |ms|
    ensures Concat(EncodeAll(ms)) == Concat(EncodeAll(ms[..j])) + (Encode(ms[j]) + Concat(EncodeAll(ms[j + 1..])))
  {
    hide Encode;
    EncodeAllSplits(ms, j);
    ConcatAppend(EncodeAll(ms[..j]), EncodeAll(ms[j..]));
    assert ms[j..][0] == ms[j] && ms[j..][1..] == ms[j + 1..];
    assert EncodeAll(ms[j..])[1..] == EncodeAll(ms[j + 1..]);
  }

  lemma TwoPieces(before: string, x: string, y: string, after: string)
    ensures Concat([before + x, y + after]) == before + (x + y + after)
  {
    assert [before + x, y + after][1..] == [y + after];
    assert Concat([y + after]) == y + after + "" == y + after;
    assert before + x + (y + after) == before + (x + y + after);
  }

  /** A chunked message somewhere in the pipeline: the cut behind its first size digit. */
  lemma SpinningCut(ms: seq<Message>, j: nat, limit: nat) returns (pieces: seq<string>)
    requires j < |ms| && ms[j].content.Chunked?
    requires AllWithin(ms, limit) && AllReadable(ms[..j])
    ensures IsCut(pieces, ms) && SpinsAll(Fresh("", limit), pieces)
  {
    hide Run, Step, SpinsIn, Deliver, WellFormed, Readable, Encode, EncodeAll, Concat;
    assert ms[j] in ms;
    SplitAround(ms, j);
    var before, after := Concat(EncodeAll(ms[..j])), Concat(EncodeAll(ms[j + 1..]));
    var x, y := FirstDigitCutSpins(ms[j], limit);
    pieces := [before + x, y + after];
    TwoPieces(before, x, y, after);
    SpinsBehind(ms[..j], x, limit);
    assert Extend(Fresh("", limit), pieces[0]) == Fresh(before + x, limit);
  }

  /** The pipelining promise holds of the code as it stands, for every cut of a framed
      pipeline, if and only if no message is chunked. */
  lemma EveryCutReturnsIffNoChunks(ms: seq<Message>, limit: nat)
    requires AllWithin(ms, limit) && AllFramed(ms)
    ensures (forall pieces :: IsCut(pieces, ms) ==> !SpinsAll(Fresh("", limit), pieces)) <==> NoChunks(ms)
  {
    hide Run, Step, SpinsIn, Deliver, WellFormed, Readable, SpinsAll, IsCut, AllWithin;
    var j := FirstChunked(ms);
    if j < |ms| {
      UnchunkedReadable(ms[..j]);
      var pieces := SpinningCut(ms, j, limit);
    } else {
      UnchunkedReadable(ms);
      forall pieces | IsCut(pieces, ms)
        ensures !SpinsAll(Fresh("", limit), pieces)
      {
        CutReturns(ms, pieces, limit);
      }
    }
  }

  lemma FirstChunked(ms: seq<Message>) returns (j: nat)
    ensures j <= |ms| && NoChunks(ms[..j]) && (j < |ms| ==> ms[j].content.Chunked? && ms[j] in ms)
    ensures j == |ms| ==> NoChunks(ms)
  {
    j := 0;
    while j < |ms| && !ms[j].content.Chunked?
      invariant j <= |ms| && forall i :: 0 <= i < j ==> !ms[i].content.Chunked?
    {
      j := j + 1;
    }
  }

  lemma UnchunkedReadable(ms: seq<Message>)
    requires AllFramed(ms) && NoChunks(ms)
    ensures AllReadable(ms)
  {
    forall m | m in ms
      ensures Readable(m)
    {
      assert m.content.Fixed? ==> Readable(m);
    }
  }

  lemma CutReturns(ms: seq<Message>, pieces: seq<string>, limit: nat)
    requires IsCut(pieces, ms)
    requires AllWithin(ms, limit) && AllReadable(ms) && NoChunks(ms)
    ensures !SpinsAll(Fresh("", limit), pieces)
  {
    hide Run, Step, SpinsIn, Deliver, WellFormed, Readable, SpinsAll;
    var s := Fresh("", limit);
    SpinsExactly(s, pieces);
    forall i | 0 < i <= |pieces|
      ensures !SpinsAfter(s, pieces, i)
    {
      PrefixOfCut(pieces, i);
      PrefixNeverSpins(ms, Concat(pieces[..i]), limit);
      assert Arrived(s, pieces, i) == Fresh(Concat(pieces[..i]), limit);
    }
  }
}
