/** How the stream is cut into `parse` calls does not matter.

    A driver feeds pieces, takes each completed message, resets the parser and goes on
    with what is left. These lemmas say that messages, verdict and left-over bytes depend
    on the concatenation of the pieces alone, with the size limit included. */
module Fragmentation {
  import opened Bytes
  import opened ParserMachine

  // ---- one message ----

  /** Feeding d and driving to quiescence. A parser that is done takes nothing. */
  function Feed(s: Core, d: string): Core {
    if s.Terminal() then s else Guarded(Run(Extend(s, d)))
  }

  /** The parser together with the bytes it has not taken because it was done. */
  datatype Fed = Fed(core: Core, waiting: string)

  function FeedAll(f: Fed, pieces: seq<string>): Fed
    decreases |pieces|
  {
    if pieces == [] then f
    else
      var g := Fed(Feed(f.core, pieces[0]), if f.core.Terminal() then f.waiting + pieces[0] else f.waiting);
      FeedAll(g, pieces[1..])
  }

  lemma FeedTwice(s: Core, a: string, b: string)
    requires s.Core? && s.phase != Complete
    ensures Feed(s, a).Failed? ==> Feed(s, a + b).Failed?
    ensures Feed(s, a).Core? && Feed(s, a).phase == Complete ==> Feed(s, a + b) == Extend(Feed(s, a), b)
    ensures Feed(s, a).Core? && Feed(s, a).phase != Complete ==> Feed(s, a + b) == Feed(Feed(s, a), b)
  {
    hide Run, Step;
    var t := Run(Extend(s, a));
    assert Extend(Extend(s, a), b) == Extend(s, a + b);
    RunExtends(Extend(s, a), b);
    if t.Failed? {
      Stops(t);
    } else if |t.raw| > t.limit {
      OversizeFails(Extend(t, b), Run(Extend(t, b)));
    } else if t.phase == Complete {
      Stops(Extend(t, b));
    }
  }

  /** For every stream and every cut of it: same verdict, and unless that is an error the
      same message bytes, the same request and the same unconsumed suffix as when the
      stream arrives in one piece. */
  lemma {:induction false} OneMessageAnyCut(s: Core, pieces: seq<string>)
    requires s.Core? && s.phase != Complete && pieces != []
    ensures var cut := FeedAll(Fed(s, ""), pieces);
            var whole := Feed(s, Concat(pieces));
            && (cut.core.Failed? <==> whole.Failed?)
            && (cut.core.Core? ==>
                  && whole == cut.core.(partial := cut.core.partial + cut.waiting)
                  && (cut.waiting != "" ==> cut.core.phase == Complete))
    decreases |pieces|
  {
    hide Run;
    var first, rest := pieces[0], Concat(pieces[1..]);
    var f := Feed(s, first);
    FeedTwice(s, first, rest);
    if pieces[1..] == [] {
      assert first + rest == first;
      assert FeedAll(Fed(s, ""), pieces) == FeedAll(Fed(f, ""), []);
    } else if f.Terminal() {
      TerminalTakesNothing(Fed(f, ""), pieces[1..]);
    } else {
      OneMessageAnyCut(f, pieces[1..]);
    }
  }

  lemma {:induction false} TerminalTakesNothing(f: Fed, pieces: seq<string>)
    requires f.core.Terminal()
    ensures FeedAll(f, pieces) == Fed(f.core, f.waiting + Concat(pieces))
    decreases |pieces|
  {
    if pieces != [] {
      TerminalTakesNothing(Fed(f.core, f.waiting + pieces[0]), pieces[1..]);
      assert f.waiting + pieces[0] + Concat(pieces[1..]) == f.waiting + Concat(pieces);
    } else {
      assert f.waiting + "" == f.waiting;
    }
  }

  // ---- a stream of messages ----

  /** The messages handed on, in order, and the parser afterwards. */
  datatype Delivery = Delivery(messages: seq<string>, core: Core)

  predicate Working(s: Core) {
    s.Core? ==> !s.phase.End? && s.phase != Complete
  }

  /** complete / raw / reset until the bytes at hand are used up. */
  function Deliver(s: Core): (r: Delivery)
    requires Working(s)
    decreases if s.Failed? then 0 else |s.partial|
  {
    var t := Guarded(Run(s));
    if t.Core? && t.phase == Complete then
      RunConsumes(s);
      var rest := Deliver(Reset(t));
      Delivery([t.raw] + rest.messages, rest.core)
    else
      Delivery([], t)
  }

  lemma {:induction false} DeliverWorks(s: Core)
    requires Working(s)
    ensures Working(Deliver(s).core)
    ensures Deliver(s).core.Core? ==> Deliver(s).core.phase != Complete && Step(Deliver(s).core).None?
    decreases if s.Failed? then 0 else |s.partial|
  {
    var t := Guarded(Run(s));
    RunStops(s);
    if t.Core? && t.phase == Complete {
      RunConsumes(s);
      DeliverWorks(Reset(t));
    }
  }

  predicate Completes(s: Core) {
    Guarded(Run(s)).Core? && Run(s).phase == Complete
  }

  lemma DeliverOne(s: Core)
    requires Working(s)
    ensures Completes(s) ==>
              Deliver(s) == Delivery([Run(s).raw] + Deliver(Reset(Run(s))).messages, Deliver(Reset(Run(s))).core)
    ensures !Completes(s) ==> Deliver(s) == Delivery([], Guarded(Run(s)))
  {
  }

  /** Completion and failure stay what they are when more bytes follow. */
  lemma VerdictStays(s: Core, d: string)
    requires s.Core? && Working(s)
    ensures Completes(s) ==> Completes(Extend(s, d)) && Run(Extend(s, d)) == Extend(Run(s), d)
    ensures Guarded(Run(s)).Failed? ==> Guarded(Run(Extend(s, d))).Failed?
    ensures Guarded(Run(s)).Core? && !Completes(s) ==> Run(Extend(s, d)) == Run(Extend(Guarded(Run(s)), d))
  {
    hide Run, Step;
    var t := Run(s);
    RunExtends(s, d);
    if Completes(s) {
      Stops(Extend(t, d));
    } else if t.Failed? {
      Stops(t);
    } else if |t.raw| > t.limit {
      OversizeFails(Extend(t, d), Run(Extend(t, d)));
    }
  }

  /** Fed later or fed at once: the later bytes d only add to what came before. */
  lemma {:induction false} DeliverExtends(s: Core, d: string)
    requires Working(s)
    ensures Working(Deliver(s).core)
    ensures Deliver(Extend(s, d)).messages == Deliver(s).messages + Deliver(Extend(Deliver(s).core, d)).messages
    ensures Deliver(Extend(s, d)).core == Deliver(Extend(Deliver(s).core, d)).core
    decreases if s.Failed? then 0 else |s.partial|
  {
    hide Run, Step, Deliver;
    DeliverWorks(s);
    DeliverOne(s);
    if s.Failed? {
      Stops(s);
      return;
    }
    VerdictStays(s, d);
    DeliverOne(Extend(s, d));
    if Completes(s) {
      var t := Run(s);
      RunConsumes(s);
      assert Extend(Reset(t), d) == Reset(Extend(t, d));
      DeliverExtends(Reset(t), d);
      var rest := Deliver(Reset(t));
      assert [t.raw] + (rest.messages + Deliver(Extend(rest.core, d)).messages)
          == ([t.raw] + rest.messages) + Deliver(Extend(rest.core, d)).messages;
    } else {
      Stops(Failed);
      DeliverOne(Extend(Guarded(Run(s)), d));
    }
  }

  /** Piece by piece, as the connection does it. */
  function DeliverAll(s: Core, pieces: seq<string>): Delivery
    requires Working(s)
    decreases |pieces|
  {
    if pieces == [] then Delivery([], s)
    else
      DeliverWorks(Extend(s, pieces[0]));
      var first := Deliver(Extend(s, pieces[0]));
      var rest := DeliverAll(first.core, pieces[1..]);
      Delivery(first.messages + rest.messages, rest.core)
  }

  /** The fragmentation theorem for a connection's whole stream. */
  lemma {:induction false} AnyCutDeliversTheSame(s: Core, pieces: seq<string>)
    requires Working(s) && pieces != []
    ensures DeliverAll(s, pieces) == Deliver(Extend(s, Concat(pieces)))
    decreases |pieces|
  {
    var first, rest := pieces[0], Concat(pieces[1..]);
    DeliverWorks(Extend(s, first));
    DeliverExtends(Extend(s, first), rest);
    assert Extend(Extend(s, first), rest) == Extend(s, first + rest);
    var one := Deliver(Extend(s, first));
    if pieces[1..] == [] {
      assert first + rest == first;
      assert DeliverAll(one.core, pieces[1..]) == Delivery([], one.core);
      assert one.messages + [] == one.messages;
    } else {
      AnyCutDeliversTheSame(one.core, pieces[1..]);
    }
  }

  /** Two cuts of one stream cannot be told apart. */
  lemma CutsAgree(s: Core, a: seq<string>, b: seq<string>)
    requires Working(s) && a != [] && b != []
    requires Concat(a) == Concat(b)
    ensures DeliverAll(s, a) == DeliverAll(s, b)
  {
    AnyCutDeliversTheSame(s, a);
    AnyCutDeliversTheSame(s, b);
  }

  // ---- when a call does not return ----

  /** Feeding these bytes reaches the stall in which the dispatch loop spins. */
  predicate SpinsIn(s: Core)
    requires Working(s)
    decreases if s.Failed? then 0 else |s.partial|
  {
    if Completes(s) then RunConsumes(s); SpinsIn(Reset(Run(s))) else Stuck(Run(s))
  }

  lemma SpinsOne(s: Core)
    requires Working(s)
    ensures SpinsIn(s) == if Completes(s) then SpinsIn(Reset(Run(s))) else Stuck(Run(s))
  {
  }

  lemma {:induction false} SpinsExtends(s: Core, d: string)
    requires Working(s) && Deliver(s).core.Core?
    ensures Working(Deliver(s).core)
    ensures SpinsIn(Extend(s, d)) == SpinsIn(Extend(Deliver(s).core, d))
    decreases if s.Failed? then 0 else |s.partial|
  {
    hide Run, Step, Deliver;
    DeliverWorks(s);
    DeliverOne(s);
    if s.Failed? {
      Stops(s);
      return;
    }
    VerdictStays(s, d);
    if Completes(s) {
      var t := Run(s);
      RunConsumes(s);
      assert Extend(Reset(t), d) == Reset(Extend(t, d));
      SpinsExtends(Reset(t), d);
    }
  }

  predicate SpinsAll(s: Core, pieces: seq<string>)
    requires Working(s)
    decreases |pieces|
  {
    pieces != [] &&
    (SpinsIn(Extend(s, pieces[0])) ||
     (DeliverWorks(Extend(s, pieces[0])); SpinsAll(Deliver(Extend(s, pieces[0])).core, pieces[1..])))
  }

  /** The part of the stream that has arrived after i pieces. */
  function Arrived(s: Core, pieces: seq<string>, i: nat): Core
    requires i <= |pieces|
  {
    Extend(s, Concat(pieces[..i]))
  }

  predicate SpinsAfter(s: Core, pieces: seq<string>, i: nat)
    requires Working(s) && 0 < i <= |pieces|
  {
    && SpinsIn(Arrived(s, pieces, i))
    && forall j :: 0 < j < i ==> Deliver(Arrived(s, pieces, j)).core.Core?
  }

  /** The exact condition: a call never returns iff some cut falls where the bytes that
      have arrived so far, taken alone, end inside a chunk-size line, chunk CRLF or
      trailer line, and nothing before that cut was rejected. */
  lemma {:induction false} SpinsExactly(s: Core, pieces: seq<string>)
    requires Working(s)
    ensures SpinsAll(s, pieces) <==> exists i :: 0 < i <= |pieces| && SpinsAfter(s, pieces, i)
    decreases |pieces|
  {
    hide Run, Step, Deliver;
    if pieces == [] {
      return;
    }
    var first := Extend(s, pieces[0]);
    var later := pieces[1..];
    DeliverWorks(first);
    var next := Deliver(first).core;
    assert Arrived(s, pieces, 1) == first by {
      assert pieces[..1] == [pieces[0]] && Concat([pieces[0]]) == pieces[0] + Concat([]);
      assert pieces[0] + "" == pieces[0];
    }
    SpinsExactly(next, later);
    if SpinsIn(first) {
      assert SpinsAfter(s, pieces, 1);
    } else if SpinsAll(next, later) {
      var i :| 0 < i <= |later| && SpinsAfter(next, later, i);
      if next.Failed? {
        FailedNeverSpins(later);
      } else {
        SpinsAfterShift(s, pieces, i);
      }
      assert SpinsAfter(s, pieces, i + 1);
    } else {
      forall i | 0 < i <= |pieces|
        ensures !SpinsAfter(s, pieces, i)
      {
        if i > 1 && next.Core? {
          assert !SpinsAfter(next, later, i - 1);
          SpinsAfterShift(s, pieces, i - 1);
        } else if i > 1 {
          assert Deliver(Arrived(s, pieces, 1)).core.Failed?;
        }
      }
    }
  }

  lemma {:induction false} FailedNeverSpins(pieces: seq<string>)
    ensures !SpinsAll(Failed, pieces)
    decreases |pieces|
  {
    if pieces != [] {
      FailedNeverSpins(pieces[1..]);
    }
  }

  lemma ArrivedShift(s: Core, pieces: seq<string>, i: nat)
    requires pieces != [] && i < |pieces|
    ensures Arrived(s, pieces, i + 1) == Extend(Extend(s, pieces[0]), Concat(pieces[1..][..i]))
  {
    assert pieces[..i + 1][1..] == pieces[1..][..i];
    assert pieces[..i + 1] == [pieces[0]] + pieces[1..][..i];
  }

  lemma SpinsAfterShift(s: Core, pieces: seq<string>, i: nat)
    requires Working(s) && 0 < i < |pieces|
    requires Deliver(Extend(s, pieces[0])).core.Core?
    ensures Working(Deliver(Extend(s, pieces[0])).core)
    ensures SpinsAfter(Deliver(Extend(s, pieces[0])).core, pieces[1..], i) == SpinsAfter(s, pieces, i + 1)
  {
    hide Run, Step, Deliver, SpinsIn;
    var first := Extend(s, pieces[0]);
    DeliverWorks(first);
    var next := Deliver(first).core;
    var later := pieces[1..];
    ArrivedShift(s, pieces, i);
    SpinsExtends(first, Concat(later[..i]));
    forall j | 0 < j < i
      ensures Deliver(Arrived(next, later, j)).core == Deliver(Arrived(s, pieces, j + 1)).core
    {
      ArrivedShift(s, pieces, j);
      DeliverExtends(first, Concat(later[..j]));
    }
    assert Arrived(s, pieces, 1) == first by {
      assert pieces[..1] == [pieces[0]] && Concat([pieces[0]]) == pieces[0] + Concat([]);
      assert pieces[0] + "" == pieces[0];
    }
    if SpinsAfter(s, pieces, i + 1) {
      forall j | 0 < j < i ensures Deliver(Arrived(next, later, j)).core.Core? {
        assert Deliver(Arrived(s, pieces, j + 1)).core.Core?;
      }
    }
    if SpinsAfter(next, later, i) {
      forall j | 0 < j < i + 1 ensures Deliver(Arrived(s, pieces, j)).core.Core? {
        if j > 1 {
          assert Deliver(Arrived(next, later, j - 1)).core.Core?;
        }
      }
    }
  }
}
