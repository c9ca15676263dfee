/** The connection object: its parser and its two buffers are objects of their own, and
    the handlers update them in place. Each handler is proved against the function of the
    same name in ConnectionMachine.dfy. */
module Connections {
  import opened Options
  import opened Bytes
  import opened ParserMachine
  import opened Fragmentation
  import opened ConnectionMachine
  import opened Buffers
  import Parser
  import ParserDriver

  /** Equal, or both closed with the same history: a closed connection's buffers and
      parser are never looked at again. */
  ghost predicate Alike(a: Conn, b: Conn) {
    if a.state.Closed? && b.state.Closed? then
      && a.fd == b.fd && a.closes == b.closes && a.received == b.received && a.limit == b.limit
      && a.delivered == b.delivered && a.responses == b.responses && a.written == b.written
    else a == b
  }

  /** The object after a handler, with what the handler returned, is in the state that the
      machine's handler leads to. The bytes given to a call that spins lie in the read
      buffer still, but are the parser's already. */
  ghost predicate Leads(view: Conn, message: Option<string>, spins: bool, r: Handled) {
    && (spins <==> r.Spins?) && message == MessageOf(r)
    && (if spins then view.(readBuf := "") == r.conn else Alike(view, r.conn))
  }

  lemma LeadsTo(c: Conn, message: Option<string>)
    ensures Leads(c, message, false, Handled(c, message))
  {
  }

  lemma LeadsToSpin(c: Conn)
    ensures Leads(c, None, true, Spins(c.(readBuf := "")))
  {
  }

  lemma LeadsToClosed(c: Conn, d: Conn)
    requires c.(core := d.core, readBuf := d.readBuf) == d
    ensures Leads(Close(c), None, false, Handled(Close(d), None))
  {
  }

  class Connection {
    var fd: int
    var state: ConnState
    var keepAlive: bool
    const maxRequestSize: Parser.Int32
    const parser: Parser.HttpParser
    const readBuf: Buffer
    const writeBuf: Buffer

    ghost var received: string
    ghost var delivered: seq<string>
    ghost var responses: seq<string>
    ghost var written: string
    ghost var closes: nat

    ghost predicate Valid()
      reads this, parser, readBuf, writeBuf
    {
      && parser.Valid() && parser.maxSize == maxRequestSize
      && readBuf.Valid() && writeBuf.Valid()
      && readBuf != writeBuf && readBuf.buf != writeBuf.buf
    }

    ghost function Footprint(): set<object>
      reads this, readBuf, writeBuf
    {
      {this, parser, readBuf, readBuf.buf, writeBuf, writeBuf.buf}
    }

    ghost function View(): Conn
      requires Valid()
      reads this, parser, readBuf, readBuf.buf, writeBuf, writeBuf.buf
    {
      Conn(fd, state, parser.Snap(), readBuf.Contents(), writeBuf.Contents(), keepAlive, parser.Limit(),
           received, delivered, responses, written, closes)
    }

    constructor (fd: int, maxRequestSize: Parser.Int32)
      ensures Valid() && fresh(Footprint())
      ensures View() == Opened(fd, Parser.Unsigned(maxRequestSize))
      ensures this.maxRequestSize == maxRequestSize
    {
      this.fd, this.state, this.keepAlive, this.maxRequestSize := fd, Reading, false, maxRequestSize;
      parser := new Parser.HttpParser(maxRequestSize);
      readBuf := new Buffer();
      writeBuf := new Buffer();
      received, delivered, responses, written, closes := "", [], [], "", 0;
    }

    /** The descriptor is given up once, whatever comes later. */
    method CloseInternal()
      requires Valid()
      modifies this
      ensures Valid() && View() == Close(old(View()))
    {
      if state.Closed? {
        return;
      }
      fd := -1;
      state := Closed;
      closes := closes + 1;
    }

    /** One call of the parser on what is buffered. */
    method ParseOnce() returns (done: bool, spins: bool)
      requires Valid() && ParserDriver.Ready(parser)
      modifies parser, readBuf`readIdx, readBuf`writeIdx
      ensures Valid()
      ensures spins ==> Stuck(parser.Snap()) && parser.Snap() == Run(old(Extend(parser.Snap(), readBuf.Contents())))
      ensures !spins && done ==> ParserDriver.Quiet(parser, old(Extend(parser.Snap(), readBuf.Contents())))
      ensures !spins && !parser.state.Error? ==> readBuf.Contents() == ""
      ensures !spins && !done ==>
                && ParserDriver.Ready(parser) && !parser.state.Error?
                && Run(parser.Snap()) == Run(old(Extend(parser.Snap(), readBuf.Contents())))
                && (parser.partial == "" ==>
                      ParserDriver.Quiet(parser, old(Extend(parser.Snap(), readBuf.Contents()))))
                && |parser.partial| <= old(|parser.partial| + readBuf.ReadableSize())
                && (old(readBuf.ReadableSize()) == 0 ==> |parser.partial| < |old(parser.partial)|)
    {
      hide Run, Step, Placed, Stuck, Guarded, Parser.Unsigned;
      var n;
      n, spins := ParserDriver.Advance(parser, readBuf.Contents());
      if spins {
        return true, true;
      }
      readBuf.Consume(n);
      done := parser.state.Error? || parser.state.Complete? || n == 0;
    }

    /** The loop of `try_parse_message`: parse what is buffered, then keep going on what
        the parser has left over, until a message is complete, an error, or no progress. */
    method ParseLoop() returns (spins: bool)
      requires Valid() && ParserDriver.Ready(parser)
      modifies parser, readBuf`readIdx, readBuf`writeIdx
      ensures Valid()
      ensures spins <==> Stuck(Run(old(Extend(parser.Snap(), readBuf.Contents()))))
      ensures spins ==> parser.Snap() == Run(old(Extend(parser.Snap(), readBuf.Contents())))
      ensures !spins ==> parser.Snap() == old(Feed(parser.Snap(), readBuf.Contents()))
      ensures !spins && !parser.state.Error? ==> readBuf.Contents() == ""
    {
      ghost var s := Extend(parser.Snap(), readBuf.Contents());
      ParserDriver.NothingToDo(parser, s);
      hide Run, Step, Placed, Stuck, Guarded, Working, Parser.Unsigned;
      while readBuf.ReadableSize() > 0 || |parser.partial| > 0
        invariant Valid() && ParserDriver.Ready(parser)
        invariant Run(Extend(parser.Snap(), readBuf.Contents())) == Run(s)
        invariant readBuf.Contents() == "" && parser.partial == "" ==> ParserDriver.Quiet(parser, s)
        decreases |parser.partial| + readBuf.ReadableSize(), readBuf.ReadableSize()
      {
        var done;
        done, spins := ParseOnce();
        if spins || done {
          return;
        }
        assert Extend(parser.Snap(), "") == parser.Snap();
      }
      return false;
    }

    method TryParseMessage() returns (message: Option<string>, spins: bool)
      requires Valid() && ParserDriver.Ready(parser)
      modifies this, parser, readBuf`readIdx, readBuf`writeIdx
      ensures Valid() && received == old(received)
      ensures Leads(View(), message, spins, TryParse(old(View())))
    {
      ghost var c := View();
      TryParseIs(c);
      hide Run, Step, Placed, TryParse, Guarded, Stuck, Working, Leads, Parser.Unsigned;
      if readBuf.Contents() == "" && parser.partial == "" {
        LeadsTo(c, None);
        return None, false;
      }
      spins := ParseLoop();
      if spins {
        LeadsToSpin(View());
        return None, true;
      }
      if parser.state.Error? {
        LeadsToClosed(View(), c.(core := Failed));
        CloseInternal();
        return None, false;
      }
      message := TakeMessage();
      LeadsTo(View(), message);
    }

    /** A completed message goes to the workers and the parser starts afresh. */
    method TakeMessage() returns (message: Option<string>)
      requires Valid() && parser.Snap().Core?
      modifies this`state, this`delivered, parser
      ensures Valid()
      ensures var c := old(View());
              if c.core.phase == Complete then
                && View() == c.(core := Reset(c.core), state := Processing, delivered := c.delivered + [c.core.raw])
                && message == Some(c.core.raw)
              else View() == c && message == None
    {
      if !parser.state.Complete? {
        return None;
      }
      message := Some(parser.raw);
      delivered := delivered + [parser.raw];
      parser.Reset();
      state := Processing;
    }

    /** `finish_response`. */
    method FinishResponse() returns (message: Option<string>, spins: bool)
      requires Valid() && ParserDriver.Ready(parser)
      modifies this, parser, readBuf`readIdx, readBuf`writeIdx
      ensures Valid()
      ensures Leads(View(), message, spins, ConnectionMachine.FinishResponse(old(View())))
    {
      hide Run, Step, Placed, Faithful, Conserved, Concat, TryParse;
      if keepAlive {
        state := Reading;
        parser.Reset();
        if |parser.partial| > 0 {
          message, spins := TryParseMessage();
          return;
        }
      } else {
        state := Closing;
      }
      return None, false;
    }

    /** `on_write` with the socket's answers to the successive writes. */
    method OnWrite(outputs: seq<WriteResult>) returns (message: Option<string>, spins: bool)
      requires Valid() && (state.Writing? ==> ParserDriver.Ready(parser))
      modifies this, parser, readBuf`readIdx, readBuf`writeIdx, writeBuf`readIdx, writeBuf`writeIdx
      ensures Valid()
      ensures Leads(View(), message, spins, ConnectionMachine.OnWrite(old(View()), outputs))
    {
      hide Run, Step, Placed, Faithful, Conserved, Concat, ConnectionMachine.FinishResponse;
      if !state.Writing? {
        return None, false;
      }
      var drained := WriteOut(outputs);
      if drained {
        message, spins := FinishResponse();
      } else {
        return None, false;
      }
    }

    /** The writes themselves, until all is written or the socket takes no more. */
    method WriteOut(outputs: seq<WriteResult>) returns (drained: bool)
      requires Valid() && ParserDriver.Ready(parser) && state.Writing?
      modifies this, writeBuf`readIdx, writeBuf`writeIdx
      ensures Valid()
      ensures drained ==> WriteLoop(old(View()), outputs) == ConnectionMachine.FinishResponse(View())
      ensures !drained ==> WriteLoop(old(View()), outputs) == Handled(View(), None)
    {
      hide Run, Step, Placed, WriteLoop, ConnectionMachine.FinishResponse;
      var i := 0;
      ghost var start := View();
      while writeBuf.ReadableSize() > 0
        invariant 0 <= i <= |outputs|
        invariant Valid() && state.Writing?
        invariant WriteLoop(View(), outputs[i..]) == WriteLoop(start, outputs)
        decreases |outputs| - i
      {
        WriteLoopIs(View(), outputs[i..]);
        if i == |outputs| || outputs[i].WriteBlocked? {
          return false;
        }
        if outputs[i].WriteFault? {
          CloseInternal();
          return false;
        }
        var n := if outputs[i].n < writeBuf.ReadableSize() then outputs[i].n else writeBuf.ReadableSize();
        if n == 0 {
          return false;
        }
        WriteSome(n);
        assert outputs[i..][1..] == outputs[i + 1..];
        i := i + 1;
      }
      WriteLoopIs(View(), outputs[i..]);
      return true;
    }

    /** One write that the socket takes n bytes of. */
    method WriteSome(n: nat)
      requires Valid() && n <= writeBuf.ReadableSize()
      modifies this`written, writeBuf`readIdx, writeBuf`writeIdx
      ensures Valid()
      ensures View() == Taken(old(View()), n)
    {
      written := written + writeBuf.Contents()[..n];
      writeBuf.WriteToFd(n);
    }

    /** `send_internal`: only a connection that waits for a response takes one. */
    method SendInternal(data: string, keepAlive: bool, outputs: seq<WriteResult>)
        returns (message: Option<string>, spins: bool)
      requires Valid() && (state.Processing? || state.Reading? ==> ParserDriver.Ready(parser))
      modifies this, parser, readBuf`readIdx, readBuf`writeIdx, writeBuf, writeBuf.buf
      ensures Valid() && fresh(Footprint() - old(Footprint()))
      ensures Leads(View(), message, spins, Send(old(View()), data, keepAlive, outputs))
    {
      hide Run, Step, Placed, Leads, ConnectionMachine.OnWrite;
      if !state.Processing? && !state.Reading? {
        LeadsTo(View(), None);
        return None, false;
      }
      Enqueue(data, keepAlive);
      message, spins := OnWrite(outputs);
    }

    method Enqueue(data: string, keepAlive: bool)
      requires Valid()
      modifies this`keepAlive, this`state, this`responses, writeBuf, writeBuf.buf
      ensures Valid() && state.Writing? && (writeBuf.buf == old(writeBuf.buf) || fresh(writeBuf.buf))
      ensures View() ==
              var c := old(View());
              c.(keepAlive := keepAlive, writeBuf := c.writeBuf + data, state := Writing,
                 responses := c.responses + [data])
    {
      this.keepAlive := keepAlive;
      writeBuf.Append(data);
      state := Writing;
      responses := responses + [data];
    }

    /** `on_read`. The socket offers `available`; the i-th read takes at most sizes[i]
        bytes and what the buffer has room for. `last` is the read after that: the socket
        would block, is at its end, or fails. `inputs` is what the reads returned. */
    method OnRead(available: string, sizes: seq<nat>, last: ReadResult)
        returns (message: Option<string>, spins: bool, ghost inputs: seq<ReadResult>)
      requires Valid() && (last.Bytes? ==> last.data == "")
      requires state.Reading? ==> ParserDriver.Ready(parser) && |readBuf.Contents()| <= parser.Limit()
      modifies this, parser, readBuf, readBuf.buf
      ensures Valid() && fresh(Footprint() - old(Footprint()))
      ensures Leads(View(), message, spins, ConnectionMachine.OnRead(old(View()), inputs))
      ensures old(received) <= received && received[|old(received)|..] <= available
    {
      hide Run, Step, Placed, TryParse, ReadLoop;
      inputs := [];
      if state.Closing? {
        CloseInternal();
        return None, false, inputs;
      }
      if !state.Reading? {
        return None, false, inputs;
      }
      message, spins, inputs := ReadAndParse(available, sizes, last);
    }

    method ReadAndParse(available: string, sizes: seq<nat>, last: ReadResult)
        returns (message: Option<string>, spins: bool, ghost inputs: seq<ReadResult>)
      requires Valid() && (last.Bytes? ==> last.data == "")
      requires ParserDriver.Ready(parser) && |readBuf.Contents()| <= parser.Limit()
      modifies this, parser, readBuf, readBuf.buf
      ensures Valid() && fresh(Footprint() - old(Footprint()))
      ensures Leads(View(), message, spins, ReadLoop(old(View()), inputs))
      ensures old(received) <= received && received[|old(received)|..] <= available
    {
      hide Run, Step, Placed, TryParse, ReadLoop, DataOf;
      ghost var start := View();
      var tooBig;
      tooBig, inputs := ReadAll(available, sizes);
      if tooBig {
        ReadLoopStops(start, inputs[..|inputs| - 1], inputs[|inputs| - 1]);
        assert inputs == inputs[..|inputs| - 1] + [inputs[|inputs| - 1]];
        CloseInternal();
        return None, false, inputs;
      }
      ReadLoopGot(start, inputs, [last]);
      inputs := inputs + [last];
      ReadLoopLast(View(), last);
      if !last.ReadBlocked? {
        CloseInternal();
        return None, false, inputs;
      }
      message, spins := TryParseMessage();
    }

    /** The callback registered for the client socket. */
    method OnEvent(readable: bool, writable: bool, available: string, sizes: seq<nat>, last: ReadResult,
                   outputs: seq<WriteResult>)
        returns (message: Option<string>, spins: bool, ghost inputs: seq<ReadResult>)
      requires Valid() && ConnInv(View()) && Calm(View()) && !state.Closed? && (last.Bytes? ==> last.data == "")
      modifies this, parser, readBuf, readBuf.buf, writeBuf`readIdx, writeBuf`writeIdx
      ensures Valid() && fresh(Footprint() - old(Footprint()))
      ensures Leads(View(), message, spins, ConnectionMachine.OnEvent(old(View()), readable, writable, inputs, outputs))
    {
      hide Run, Step, Placed, ConnInv, ConnectionMachine.OnRead, ConnectionMachine.OnWrite;
      message, spins, inputs := None, false, [];
      AlwaysReady(this);
      ghost var c := View();
      if readable {
        message, spins, inputs := OnRead(available, sizes, last);
        OnReadKeeps(c, inputs);
      }
      if writable && !spins {
        assert state.Writing? ==> View() == c;
        if state.Writing? {
          AlwaysReady(this);
        }
        ghost var d := View();
        var late;
        late, spins := OnWrite(outputs);
        NotWriting(d, outputs);
        NotWriting(ConnectionMachine.OnRead(c, inputs).conn, outputs);
        message := if message.Some? then message else late;
      }
    }

    /** The reads so far have returned `inputs`, all of it buffered. */
    ghost predicate SoFar(start: Conn, inputs: seq<ReadResult>)
      reads this, parser, readBuf, readBuf.buf, writeBuf, writeBuf.buf
    {
      Valid() && AllBytes(inputs) && View() == Got(start, DataOf(inputs))
    }

    /** The reads themselves, until the socket is empty or the buffer too large. */
    method ReadAll(available: string, sizes: seq<nat>) returns (tooBig: bool, ghost inputs: seq<ReadResult>)
      requires Valid() && |readBuf.Contents()| <= parser.Limit()
      modifies this`received, readBuf, readBuf.buf
      ensures SoFar(old(View()), inputs) && DataOf(inputs) <= available
      ensures readBuf.buf == old(readBuf.buf) || fresh(readBuf.buf)
      ensures tooBig <==> |View().readBuf| > parser.Limit()
      ensures tooBig ==>
                && inputs != []
                && var before := inputs[..|inputs| - 1];
                && |Got(old(View()), DataOf(before)).readBuf| <= parser.Limit()
                && DataOf(inputs) == DataOf(before) + inputs[|inputs| - 1].data
    {
      hide DataOf, Placed;
      ghost var start := View();
      inputs := [];
      GotNone(start);
      var k := 0;
      for i := 0 to |sizes|
        invariant SoFar(start, inputs) && |Got(start, DataOf(inputs)).readBuf| <= parser.Limit()
        invariant k <= |available| && DataOf(inputs) == available[..k]
        invariant readBuf.buf == old(readBuf.buf) || fresh(readBuf.buf)
      {
        var n := Least(sizes[i], Least(|available| - k, readBuf.ReadCapacity()));
        if n > 0 {
          assert available[..k] + available[k..k + n] == available[..k + n];
          inputs := Receive(available[k..k + n], start, inputs);
          k := k + n;
          if readBuf.ReadableSize() > parser.Limit() {
            return true, inputs;
          }
        }
      }
      return false, inputs;
    }

    /** One read. */
    method Receive(data: string, ghost start: Conn, ghost got: seq<ReadResult>)
        returns (ghost inputs: seq<ReadResult>)
      requires SoFar(start, got) && data != "" && |data| <= readBuf.ReadCapacity()
      modifies this`received, readBuf, readBuf.buf
      ensures SoFar(start, inputs) && inputs == got + [ReadResult.Bytes(data)] && inputs[..|inputs| - 1] == got
      ensures DataOf(inputs) == DataOf(got) + data
      ensures readBuf.ReadableSize() == |Got(start, DataOf(inputs)).readBuf|
      ensures readBuf.buf == old(readBuf.buf) || fresh(readBuf.buf)
    {
      hide DataOf, Placed;
      inputs := GotMore(start, got, data);
      received := received + data;
      var n := readBuf.ReadFromFd(data);
    }
  }

  /** In every state that the invariant allows, the handlers may be called, as long as the
      parser is not spinning. */
  lemma AlwaysReady(c: Connection)
    requires c.Valid() && ConnInv(c.View()) && Calm(c.View()) && !c.state.Closed?
    ensures ParserDriver.Ready(c.parser) && |c.readBuf.Contents()| <= c.parser.Limit()
  {
    hide Run, Step, Concat, Deliver, Placed, Stalled;
  }

  /** The four ways out of `try_parse_message`. */
  lemma TryParseIs(c: Conn)
    requires c.core.Core? && c.core.phase != Complete
    ensures var t := Feed(c.core, c.readBuf);
            if c.readBuf == "" && c.core.partial == "" then TryParse(c) == Handled(c, None)
            else if Stuck(Run(Extend(c.core, c.readBuf))) then
              TryParse(c) == Spins(c.(core := Run(Extend(c.core, c.readBuf)), readBuf := ""))
            else if t.Failed? then TryParse(c) == Handled(Close(c.(core := Failed)), None)
            else if t.phase == Complete then
              var d := c.(core := Reset(t), readBuf := "", state := Processing, delivered := c.delivered + [t.raw]);
              TryParse(c) == Handled(d, Some(t.raw))
            else TryParse(c) == Handled(c.(core := t, readBuf := ""), None)
  {
    hide Run, Step, Placed;
  }

  /** One round of the write loop. */
  lemma WriteLoopIs(c: Conn, outputs: seq<WriteResult>)
    ensures WriteLoop(c, outputs) ==
              if c.writeBuf == "" then ConnectionMachine.FinishResponse(c)
              else if outputs == [] || outputs[0].WriteBlocked? then Handled(c, None)
              else if outputs[0].WriteFault? then Handled(Close(c), None)
              else if outputs[0].n == 0 then Handled(c, None)
              else
                var n := if outputs[0].n < |c.writeBuf| then outputs[0].n else |c.writeBuf|;
                WriteLoop(Taken(c, n), outputs[1..])
  {
    hide ConnectionMachine.FinishResponse;
  }

  lemma NotWriting(c: Conn, outputs: seq<WriteResult>)
    ensures !c.state.Writing? ==> ConnectionMachine.OnWrite(c, outputs) == Handled(c, None)
  {
  }

  // ---- reading in several pieces ----

  function Least(a: nat, b: nat): nat {
    if a < b then a else b
  }

  function Got(c: Conn, data: string): Conn {
    c.(readBuf := c.readBuf + data, received := c.received + data)
  }

  predicate AllBytes(inputs: seq<ReadResult>) {
    forall i :: 0 <= i < |inputs| ==> inputs[i].Bytes? && inputs[i].data != ""
  }

  function DataOf(inputs: seq<ReadResult>): string
    requires AllBytes(inputs)
  {
    if inputs == [] then "" else inputs[0].data + DataOf(inputs[1..])
  }

  lemma {:induction false} DataOfSnoc(inputs: seq<ReadResult>, data: string)
    requires AllBytes(inputs) && data != ""
    ensures DataOf(inputs + [ReadResult.Bytes(data)]) == DataOf(inputs) + data
    decreases |inputs|
  {
    var last := [ReadResult.Bytes(data)];
    if inputs == [] {
      assert inputs + last == last && last[1..] == [];
      assert data + DataOf([]) == data;
    } else {
      DataOfSnoc(inputs[1..], data);
      assert (inputs + last)[1..] == inputs[1..] + last;
    }
  }

  lemma GotTwice(c: Conn, a: string, b: string)
    ensures Got(Got(c, a), b) == Got(c, a + b)
  {
    assert c.readBuf + a + b == c.readBuf + (a + b) && c.received + a + b == c.received + (a + b);
  }

  /** The reads so far and one more. */
  lemma GotMore(c: Conn, got: seq<ReadResult>, data: string) returns (inputs: seq<ReadResult>)
    requires AllBytes(got) && data != ""
    ensures inputs == got + [ReadResult.Bytes(data)] && inputs[..|inputs| - 1] == got && AllBytes(inputs)
    ensures DataOf(inputs) == DataOf(got) + data
    ensures Got(c, DataOf(inputs)) == Got(Got(c, DataOf(got)), data)
  {
    inputs := got + [ReadResult.Bytes(data)];
    DataOfSnoc(got, data);
    GotTwice(c, DataOf(got), data);
  }

  lemma {:induction false} ReadLoopGot(c: Conn, inputs: seq<ReadResult>, more: seq<ReadResult>)
    requires AllBytes(inputs) && |Got(c, DataOf(inputs)).readBuf| <= c.limit
    ensures ReadLoop(c, inputs + more) == ReadLoop(Got(c, DataOf(inputs)), more)
    decreases |inputs|
  {
    hide TryParse;
    if inputs == [] {
      assert inputs + more == more && Got(c, "") == c;
    } else {
      assert (inputs + more)[1..] == inputs[1..] + more;
      GotTwice(c, inputs[0].data, DataOf(inputs[1..]));
      ReadLoopGot(Got(c, inputs[0].data), inputs[1..], more);
    }
  }

  lemma ReadLoopStops(c: Conn, inputs: seq<ReadResult>, last: ReadResult)
    requires AllBytes(inputs) && |Got(c, DataOf(inputs)).readBuf| <= c.limit
    requires last.Bytes? && last.data != "" && |Got(c, DataOf(inputs) + last.data).readBuf| > c.limit
    ensures ReadLoop(c, inputs + [last]) == Handled(Close(Got(c, DataOf(inputs) + last.data)), None)
  {
    hide ReadLoop, DataOf;
    ReadLoopGot(c, inputs, [last]);
    GotTwice(c, DataOf(inputs), last.data);
    ReadLoopOver(Got(c, DataOf(inputs)), [last]);
  }

  lemma ReadLoopOver(c: Conn, inputs: seq<ReadResult>)
    requires inputs != [] && inputs[0].Bytes? && inputs[0].data != ""
    requires |Got(c, inputs[0].data).readBuf| > c.limit
    ensures ReadLoop(c, inputs) == Handled(Close(Got(c, inputs[0].data)), None)
  {
    hide TryParse, Close;
  }

  lemma GotNone(c: Conn)
    ensures Got(c, DataOf([])) == c && DataOf([]) == ""
  {
  }

  lemma ReadLoopLast(c: Conn, last: ReadResult)
    requires last.Bytes? ==> last.data == ""
    ensures ReadLoop(c, [last]) == if last.ReadBlocked? then TryParse(c) else Handled(Close(c), None)
  {
    hide TryParse;
  }
}
