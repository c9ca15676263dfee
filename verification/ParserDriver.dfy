/** Driving the parser object the way its header file and the connection do: parse,
    take a completed message, reset, go on until no progress is made. */
module ParserDriver {
  import opened Options
  import opened ParserMachine
  import opened Fragmentation
  import opened Parser

  /** The object is between two calls, with a message under way. */
  ghost predicate Ready(p: HttpParser)
    reads p
  {
    p.Valid() && p.Snap().Core? && Working(p.Snap()) && |p.raw| <= p.Limit()
  }

  /** What one call leaves behind when the message is still under way. */
  lemma AfterCall(u: Core, v: Core)
    requires u.Core? && Working(u) && v.Core? && v.phase != Phase.Complete
    requires v == Guarded(Run(u)) || (v.phase.RequestLine? && Step(u) == Some(v))
    ensures Working(v) && Run(v) == Run(u)
    ensures |v.raw| + |v.partial| == |u.raw| + |u.partial| && |u.raw| <= |v.raw|
    ensures v == Run(u) || |u.raw| < |v.raw|
    ensures v.partial == "" ==> v == Run(u)
  {
    hide Run, StepRequestLine, StepHeaders, StepBody, StepSizeLine, StepData, StepTrailer;
    if v == Guarded(Run(u)) {
      RunStops(u);
      RunStopped(v);
      RunMoves(u);
    } else {
      RunStep(u, v);
      StepMoves(u);
      if v.partial == "" {
        EmptyStalls(v);
      }
    }
  }

  /** The object has come as far as the bytes of `u` take it. */
  ghost predicate Quiet(p: HttpParser, u: Core)
    reads p
  {
    p.Snap() == Guarded(Run(u)) && !Stuck(Run(u))
  }

  /** One call of `parse` seen from the loop around it: it is done with the bytes of `u`,
      or it has made progress on them. */
  method Advance(p: HttpParser, data: string) returns (n: nat, spins: bool)
    requires Ready(p)
    modifies p
    ensures p.Valid() && p.maxSize == old(p.maxSize)
    ensures spins ==> Stuck(p.Snap()) && p.Snap() == Run(old(Extend(p.Snap(), data)))
    ensures !spins && !p.state.Error? && data != "" ==> n == |data|
    ensures !spins && (n == 0 || p.Snap().Terminal()) ==> Quiet(p, old(Extend(p.Snap(), data)))
    ensures !spins && !p.Snap().Terminal() ==>
              var u := old(Extend(p.Snap(), data));
              && Ready(p) && Run(p.Snap()) == Run(u)
              && |p.partial| <= |u.partial|
              && (data == "" && n > 0 ==> |p.partial| < |u.partial|)
              && (p.partial == "" ==> Quiet(p, u))
  {
    hide Run, Step, Placed;
    ghost var u := Extend(p.Snap(), data);
    n, spins := p.Parse(data);
    if !spins && !p.Snap().Terminal() {
      AfterCall(u, p.Snap());
    }
  }

  /** The parse loop of `try_parse_message` up to a completed message, an error or a
      stall. It comes back unless the bytes end in a stuck chunk. */
  method Drive(p: HttpParser, data: string) returns (spins: bool)
    requires Ready(p)
    modifies p
    ensures p.Valid() && p.maxSize == old(p.maxSize)
    ensures spins <==> Stuck(Run(Extend(old(p.Snap()), data)))
    ensures spins ==> p.Snap() == Run(Extend(old(p.Snap()), data))
    ensures !spins ==> p.Snap() == Feed(old(p.Snap()), data)
  {
    hide Run, Step, Placed;
    var buf := data;
    ghost var s := Extend(p.Snap(), data);
    NothingToDo(p, s);
    while buf != "" || |p.partial| > 0
      invariant Ready(p) && p.maxSize == old(p.maxSize)
      invariant Run(Extend(p.Snap(), buf)) == Run(s)
      invariant buf == "" && p.partial == "" ==> Quiet(p, s)
      decreases |p.partial| + |buf|, |buf|
    {
      var n;
      n, spins := Advance(p, buf);
      if spins || p.state.Error? || p.state.Complete? || n == 0 {
        return;
      }
      buf := if buf == "" then "" else buf[n..];
      assert Extend(p.Snap(), "") == p.Snap();
    }
    return false;
  }

  lemma NothingToDo(p: HttpParser, s: Core)
    requires Ready(p) && s.Core?
    ensures s == p.Snap() && p.partial == "" ==> Quiet(p, s)
  {
    hide Run, Step, Placed;
    if s == p.Snap() && p.partial == "" {
      EmptyStalls(s);
    }
  }

  /** A whole connection's worth of pieces: every completed message is taken and the
      parser reset, as in the usage the parser's header prescribes. When every call
      returns, the outcome is the one that AnyCutDeliversTheSame speaks about. */
  method DrivePieces(p: HttpParser, pieces: seq<string>) returns (messages: seq<string>, spins: bool)
    requires Ready(p)
    modifies p
    ensures p.Valid() && p.maxSize == old(p.maxSize)
    ensures spins <==> SpinsAll(old(p.Snap()), pieces)
    ensures !spins ==> Delivery(messages, p.Snap()) == DeliverAll(old(p.Snap()), pieces)
  {
    hide Run, Step, Placed, Deliver, SpinsIn;
    messages := [];
    for i := 0 to |pieces|
      invariant p.maxSize == old(p.maxSize)
      invariant p.Valid() && (p.Snap().Core? ==> Ready(p))
      invariant SpinsAll(old(p.Snap()), pieces) == SpinsAll(p.Snap(), pieces[i..])
      invariant DeliverAll(old(p.Snap()), pieces)
             == Delivery(messages + DeliverAll(p.Snap(), pieces[i..]).messages, DeliverAll(p.Snap(), pieces[i..]).core)
    {
      ghost var rest := pieces[i..];
      assert rest[0] == pieces[i] && rest[1..] == pieces[i + 1..];
      ghost var s := p.Snap();
      DeliverWorks(Extend(s, pieces[i]));
      if p.state.Error? {
        FailedDelivers(rest);
        FailedNeverSpins(rest);
        return messages, false;
      }
      var more;
      more, spins := DrivePiece(p, pieces[i]);
      if spins {
        return messages, true;
      }
      messages := messages + more;
    }
    assert pieces[|pieces|..] == [];
    assert DeliverAll(p.Snap(), []) == Delivery([], p.Snap());
    assert messages + [] == messages;
    return messages, false;
  }

  lemma {:induction false} FailedDelivers(pieces: seq<string>)
    ensures DeliverAll(Failed, pieces) == Delivery([], Failed)
    decreases |pieces|
  {
    if pieces != [] {
      FailedDelivers(pieces[1..]);
    }
  }

  /** One more message taken out of the bytes of `s`. */
  lemma OneMore(s: Core, todo: Core, messages: seq<string>)
    requires Working(s) && Working(todo) && todo.Core? && Completes(todo)
    requires Deliver(s) == Delivery(messages + Deliver(todo).messages, Deliver(todo).core)
    ensures var next := Reset(Run(todo));
            && |next.partial| < |todo.partial|
            && SpinsIn(todo) == SpinsIn(next)
            && Deliver(s) == Delivery(messages + [Run(todo).raw] + Deliver(next).messages, Deliver(next).core)
  {
    hide Run, Step, Deliver, SpinsIn;
    RunConsumes(todo);
    DeliverOne(todo);
    SpinsOne(todo);
    var later := Deliver(Reset(Run(todo))).messages;
    assert messages + ([Run(todo).raw] + later) == messages + [Run(todo).raw] + later;
  }

  /** One piece: everything it completes is taken. */
  method DrivePiece(p: HttpParser, piece: string) returns (messages: seq<string>, spins: bool)
    requires Ready(p)
    modifies p
    ensures p.Valid() && p.maxSize == old(p.maxSize)
    ensures spins <==> SpinsIn(Extend(old(p.Snap()), piece))
    ensures !spins ==> Delivery(messages, p.Snap()) == Deliver(Extend(old(p.Snap()), piece))
    ensures !spins && p.Snap().Core? ==> Ready(p)
  {
    hide Run, Step, Placed, Deliver, SpinsIn;
    messages := [];
    ghost var s := Extend(p.Snap(), piece);
    ghost var todo := s;
    DeliverOne(s);
    spins := Drive(p, piece);
    while !spins && p.state.Complete?
      invariant p.Valid() && p.maxSize == old(p.maxSize)
      invariant Working(todo) && todo.Core?
      invariant spins <==> Stuck(Run(todo))
      invariant !spins ==> p.Snap() == Guarded(Run(todo))
      invariant SpinsIn(s) == SpinsIn(todo)
      invariant Deliver(s) == Delivery(messages + Deliver(todo).messages, Deliver(todo).core)
      decreases |todo.partial|
    {
      OneMore(s, todo, messages);
      messages := messages + [p.raw];
      p.Reset();
      todo := p.Snap();
      assert Extend(todo, "") == todo;
      spins := Drive(p, "");
    }
    DeliverOne(todo);
    SpinsOne(todo);
    DeliverWorks(todo);
  }
}
