/** One client connection on the loop thread: what its handlers do to its state, its
    parser and its buffers. Socket results come in as inputs. */
module ConnectionMachine {
  import opened Options
  import opened Bytes
  import opened ParserMachine
  import opened Fragmentation

  datatype ConnState = Reading | Processing | Writing | Closing | Closed

  /** The last four lines record what has happened: bytes read from the socket, messages
      handed to the workers, responses accepted for sending, bytes written to the socket
      and calls of the close callback. */
  datatype Conn = Conn(fd: int, state: ConnState, core: Core, readBuf: string, writeBuf: string,
                       keepAlive: bool, limit: nat,
                       received: string,
                       delivered: seq<string>,
                       responses: seq<string>,
                       written: string, closes: nat)

  datatype ReadResult = Bytes(data: string) | ReadBlocked | ReadFault   // no bytes: end of file
  datatype WriteResult = Wrote(n: nat) | WriteBlocked | WriteFault

  /** A handler either comes back, possibly with one message for the workers, or spins in
      the parser forever with the connection as it then is. (Its read buffer still holds
      the bytes that the spinning call was given; they are the parser's already.) */
  datatype Handled = Spins(conn: Conn) | Handled(conn: Conn, message: Option<string>)

  function MessageOf(r: Handled): Option<string> {
    if r.Spins? then None else r.message
  }

  function Opened(fd: int, limit: nat): Conn {
    Conn(fd, Reading, Fresh("", limit), "", "", false, limit, "", [], [], "", 0)
  }

  // ---- handlers ----

  function Close(c: Conn): Conn {
    if c.state.Closed? then c else c.(fd := -1, state := Closed, closes := c.closes + 1)
  }

  /** `try_parse_message`. */
  function TryParse(c: Conn): Handled {
    if c.core.Core? && c.readBuf == "" && c.core.partial == "" then Handled(c, None) else
    var t := Run(Extend(c.core, c.readBuf));
    if Stuck(t) then Spins(c.(core := t, readBuf := ""))
    else if Guarded(t).Failed? then Handled(Close(c.(core := Failed)), None)
    else if t.phase == Complete then
      Handled(c.(core := Reset(t), readBuf := "", state := Processing, delivered := c.delivered + [t.raw]), Some(t.raw))
    else Handled(c.(core := t, readBuf := ""), None)
  }

  /** The edge-triggered read loop: read until the socket is empty, then parse. */
  function ReadLoop(c: Conn, inputs: seq<ReadResult>): Handled
    decreases |inputs|
  {
    if inputs == [] || inputs[0].ReadBlocked? then TryParse(c)
    else if inputs[0].ReadFault? || inputs[0].data == "" then Handled(Close(c), None)
    else
      var d := c.(readBuf := c.readBuf + inputs[0].data, received := c.received + inputs[0].data);
      if |d.readBuf| > c.limit then Handled(Close(d), None) else ReadLoop(d, inputs[1..])
  }

  function OnRead(c: Conn, inputs: seq<ReadResult>): Handled {
    if c.state.Closing? then Handled(Close(c), None)
    else if c.state.Reading? then ReadLoop(c, inputs)
    else Handled(c, None)
  }

  /** `finish_response`: back to reading, with pipelined bytes parsed at once, or a
      graceful close. */
  function FinishResponse(c: Conn): Handled {
    if !c.keepAlive then Handled(c.(state := Closing), None)
    else
      var d := c.(state := Reading, core := if c.core.Core? then Reset(c.core) else Fresh("", c.limit));
      if d.core.partial != "" then TryParse(d) else Handled(d, None)
  }

  /** The socket has taken n bytes. */
  function Taken(c: Conn, n: nat): Conn
    requires n <= |c.writeBuf|
  {
    c.(writeBuf := c.writeBuf[n..], written := c.written + c.writeBuf[..n])
  }

  function WriteLoop(c: Conn, outputs: seq<WriteResult>): Handled
    decreases |outputs|
  {
    if c.writeBuf == "" then FinishResponse(c)
    else if outputs == [] || outputs[0].WriteBlocked? then Handled(c, None)
    else if outputs[0].WriteFault? then Handled(Close(c), None)
    else if outputs[0].n == 0 then Handled(c, None)
    else
      var n := if outputs[0].n < |c.writeBuf| then outputs[0].n else |c.writeBuf|;
      WriteLoop(Taken(c, n), outputs[1..])
  }

  function OnWrite(c: Conn, outputs: seq<WriteResult>): Handled {
    if c.state.Writing? then WriteLoop(c, outputs) else Handled(c, None)
  }

  /** `send_internal`, run as a deferred task. */
  function Send(c: Conn, data: string, keepAlive: bool, outputs: seq<WriteResult>): Handled {
    if !c.state.Processing? && !c.state.Reading? then Handled(c, None)
    else OnWrite(c.(keepAlive := keepAlive, writeBuf := c.writeBuf + data, state := Writing,
                    responses := c.responses + [data]), outputs)
  }

  // ---- what holds of a connection between handlers ----

  /** No byte read from the socket is lost: it is in a delivered message, in the message
      under way, or still unread. */
  predicate Conserved(c: Conn)
    requires c.core.Core?
  {
    c.received == Concat(c.delivered) + c.core.raw + c.core.partial + c.readBuf
  }

  /** The messages handed on so far, continued by those still inside the parser and the
      read buffer, are the messages contained in the bytes received, in order. */
  predicate Faithful(c: Conn)
    requires c.core.Core? && Working(c.core)
  {
    var all := Deliver(Fresh(c.received, c.limit));
    var rest := Deliver(Extend(c.core, c.readBuf));
    all.messages == c.delivered + rest.messages && all.core == rest.core
  }

  predicate Idle(c: Conn)
    requires c.core.Core?
  {
    c.core == Fresh(c.core.partial, c.limit)
  }

  predicate Open(c: Conn) {
    && c.fd >= 0 && c.closes == 0
    && c.core.Core? && c.core.limit == c.limit && Working(c.core) && (|c.core.raw| <= c.limit || Stuck(c.core))
    && Conserved(c) && Faithful(c)
    && c.written + c.writeBuf == Concat(c.responses)
  }

  predicate ConnInv(c: Conn) {
    match c.state
    case Closed =>
      && c.fd == -1 && c.closes == 1
      && |c.responses| <= |c.delivered| && c.written <= Concat(c.responses)
      && c.delivered <= Deliver(Fresh(c.received, c.limit)).messages
    case Reading =>
      && Open(c) && c.readBuf == "" && c.writeBuf == "" && |c.responses| == |c.delivered|
      && Stalled(c.core)
    case Processing =>
      && Open(c) && c.readBuf == "" && c.writeBuf == "" && |c.responses| + 1 == |c.delivered|
      && Idle(c)
    case Writing =>
      && Open(c) && c.readBuf == "" && c.writeBuf != "" && |c.responses| == |c.delivered|
      && Idle(c)
    case Closing =>
      && Open(c) && c.readBuf == "" && c.writeBuf == "" && |c.responses| == |c.delivered|
      && Idle(c)
  }

  /** What one handler may do, seen from the outside. */
  ghost predicate Outcome(c: Conn, r: Handled) {
    && ConnInv(r.conn)
    && r.conn.limit == c.limit
    && c.written <= r.conn.written
    && (!r.conn.state.Closed? ==> r.conn.fd == c.fd)
    && (r.Spins? ==> r.conn.state.Reading?)
    && (match MessageOf(r)
        case None => r.conn.delivered == c.delivered
        case Some(m) => r.conn.state.Processing? && r.conn.delivered == c.delivered + [m])
  }

  /** A connection that waits for bytes without keeping the loop busy. */
  predicate Calm(c: Conn) {
    c.state.Reading? ==> !Stuck(c.core)
  }

  /** A connection that is about to parse. */
  predicate Parsing(c: Conn) {
    c.state.Reading? && Open(c) && c.writeBuf == "" && |c.responses| == |c.delivered|
  }

  lemma CloseKeeps(c: Conn)
    requires !c.state.Closed? && c.closes == 0
    requires |c.responses| <= |c.delivered| && c.written <= Concat(c.responses)
    requires c.delivered <= Deliver(Fresh(c.received, c.limit)).messages
    ensures ConnInv(Close(c))
  {
  }

  lemma ReceivedMore(c: Conn, data: string)
    requires Open(c)
    ensures Open(c.(readBuf := c.readBuf + data, received := c.received + data))
  {
    hide Run, Step, Concat, Deliver;
    var s := Extend(c.core, c.readBuf);
    DeliverExtends(Fresh(c.received, c.limit), data);
    DeliverExtends(s, data);
    assert Extend(Fresh(c.received, c.limit), data) == Fresh(c.received + data, c.limit);
    assert Extend(s, data) == Extend(c.core, c.readBuf + data);
    var more := Deliver(Extend(Deliver(s).core, data)).messages;
    assert (c.delivered + Deliver(s).messages) + more == c.delivered + (Deliver(s).messages + more);
  }

  lemma TakesMessages(c: Conn, t: Core)
    requires c.core.Core? && Working(c.core) && Faithful(c) && t == Run(Extend(c.core, c.readBuf))
    requires t.Core? && (t.phase == Complete ==> |t.raw| <= t.limit)
    ensures t.phase == Complete ==>
              Faithful(c.(core := Reset(t), readBuf := "", delivered := c.delivered + [t.raw]))
    ensures t.phase != Complete && Working(t) ==> Faithful(c.(core := t, readBuf := ""))
  {
    hide Run, Step, Deliver;
    var s := Extend(c.core, c.readBuf);
    RunStops(s);
    DeliverOne(s);
    if t.phase == Complete {
      assert Extend(Reset(t), "") == Reset(t);
      var rest := Deliver(Reset(t)).messages;
      assert c.delivered + ([t.raw] + rest) == c.delivered + [t.raw] + rest;
    } else if Working(t) {
      assert Extend(t, "") == t;
      RunStopped(t);
      DeliverOne(t);
    }
  }

  lemma ConcatSnoc(a: seq<string>, s: string)
    ensures Concat(a + [s]) == Concat(a) + s
  {
    ConcatAppend(a, [s]);
    assert Concat([s]) == s + "" == s;
  }

  lemma Regroup(a: string, raw: string, partial: string, buf: string, raw': string, partial': string)
    requires raw + (partial + buf) == raw' + partial'
    ensures a + raw + partial + buf == a + raw' + partial' + ""
    ensures a + raw + partial + buf == a + raw' + "" + partial' + ""
  {
    assert a + raw + partial + buf == a + (raw + (partial + buf));
    assert a + (raw' + partial') == a + raw' + partial';
  }

  lemma TryParseKeeps(c: Conn)
    requires Parsing(c) && (c.readBuf == "" && c.core.partial == "" ==> Stalled(c.core))
    ensures Outcome(c, TryParse(c))
    ensures var r := TryParse(c);
            && r.conn.responses == c.responses && (MessageOf(r).None? ==> !r.conn.state.Processing?)
            && !r.conn.state.Writing? && (r.Handled? ==> Calm(r.conn))
  {
    hide Run, Step, Concat, Deliver;
    var s := Extend(c.core, c.readBuf);
    var t := Run(s);
    RunStops(s);
    if t.Core? {
      RunMoves(s);
      if t.phase != Complete || |t.raw| <= t.limit {
        TakesMessages(c, t);
      }
      ConcatSnoc(c.delivered, t.raw);
      Regroup(Concat(c.delivered), c.core.raw, c.core.partial, c.readBuf, t.raw, t.partial);
    }
  }

  lemma {:induction false} ReadLoopKeeps(c: Conn, inputs: seq<ReadResult>)
    requires Parsing(c) && (c.readBuf == "" ==> Stalled(c.core))
    ensures Outcome(c, ReadLoop(c, inputs))
    ensures var r := ReadLoop(c, inputs);
            && r.conn.responses == c.responses && (MessageOf(r).None? ==> !r.conn.state.Processing?)
            && !r.conn.state.Writing? && (r.Handled? ==> Calm(r.conn))
    decreases |inputs|
  {
    hide Run, Step, Concat, Deliver;
    if inputs == [] || inputs[0].ReadBlocked? {
      TryParseKeeps(c);
    } else if inputs[0].Bytes? && inputs[0].data != "" {
      var d := c.(readBuf := c.readBuf + inputs[0].data, received := c.received + inputs[0].data);
      ReceivedMore(c, inputs[0].data);
      if |d.readBuf| <= c.limit {
        ReadLoopKeeps(d, inputs[1..]);
      }
    }
  }

  lemma OnReadKeeps(c: Conn, inputs: seq<ReadResult>)
    requires ConnInv(c)
    ensures var r := OnRead(c, inputs);
            && Outcome(c, r) && r.conn.responses == c.responses
            && (MessageOf(r).None? ==> r.conn.state.Processing? == c.state.Processing?)
            && (MessageOf(r).Some? ==> c.state.Reading?)
            && (r.conn.state.Writing? ==> r == Handled(c, None))
            && (r.Spins? ==> c.state.Reading?)
            && (r.Handled? && Calm(c) ==> Calm(r.conn))
  {
    hide Run, Step, Concat, Deliver;
    if c.state.Reading? {
      ReadLoopKeeps(c, inputs);
    }
  }

  /** A connection in the middle of writing, possibly with nothing left to write. */
  predicate Sending(c: Conn) {
    c.state.Writing? && Open(c) && c.readBuf == "" && |c.responses| == |c.delivered| && Idle(c)
  }

  lemma FinishKeeps(c: Conn)
    requires Sending(c) && c.writeBuf == ""
    ensures Outcome(c, FinishResponse(c))
    ensures var r := FinishResponse(c);
            && r.conn.responses == c.responses && (MessageOf(r).None? ==> !r.conn.state.Processing?)
            && (r.Handled? ==> Calm(r.conn))
  {
    hide Run, Step, Concat, Deliver;
    if c.keepAlive {
      var d := c.(state := Reading, core := Reset(c.core));
      assert d.core == c.core;
      if d.core.partial != "" {
        TryParseKeeps(d);
      } else {
        EmptyStalls(d.core);
      }
    }
  }

  lemma TakenKeeps(c: Conn, n: nat)
    requires Sending(c) && n <= |c.writeBuf|
    ensures Sending(Taken(c, n))
  {
    hide Run, Step, Concat, Deliver;
    var d := Taken(c, n);
    assert d.written + d.writeBuf == c.written + (c.writeBuf[..n] + c.writeBuf[n..]);
    assert c.writeBuf == c.writeBuf[..n] + c.writeBuf[n..];
  }

  lemma TakenOutcome(c: Conn, n: nat, r: Handled)
    requires n <= |c.writeBuf| && Outcome(Taken(c, n), r)
    ensures Outcome(c, r)
  {
    hide ConnInv;
  }

  /** Nothing more is written now, or never. */
  lemma StopsWriting(c: Conn)
    requires Sending(c) && c.writeBuf != ""
    ensures Outcome(c, Handled(c, None)) && Outcome(c, Handled(Close(c), None))
  {
    hide Run, Step, Concat, Deliver;
  }

  lemma {:induction false} WriteLoopKeeps(c: Conn, outputs: seq<WriteResult>)
    requires Sending(c)
    ensures Outcome(c, WriteLoop(c, outputs))
    ensures var r := WriteLoop(c, outputs);
            && r.conn.responses == c.responses && (MessageOf(r).None? ==> !r.conn.state.Processing?)
            && (r.Handled? ==> Calm(r.conn))
    decreases |outputs|
  {
    hide Run, Step, Concat, Deliver;
    if c.writeBuf == "" {
      FinishKeeps(c);
    } else if outputs != [] && outputs[0].Wrote? && outputs[0].n > 0 {
      var n := if outputs[0].n < |c.writeBuf| then outputs[0].n else |c.writeBuf|;
      TakenKeeps(c, n);
      hide Sending, Outcome, Calm, FinishResponse;
      WriteLoopKeeps(Taken(c, n), outputs[1..]);
      TakenOutcome(c, n, WriteLoop(Taken(c, n), outputs[1..]));
    } else {
      StopsWriting(c);
    }
  }

  /** The socket takes all of n bytes. */
  predicate Drains(n: nat, outputs: seq<WriteResult>)
    decreases |outputs|
  {
    n == 0 ||
    (outputs != [] && outputs[0].Wrote? && outputs[0].n > 0 &&
     Drains(if outputs[0].n < n then n - outputs[0].n else 0, outputs[1..]))
  }

  lemma FinishLeaves(c: Conn)
    requires Sending(c)
    ensures var d := FinishResponse(c).conn;
            && d.written == c.written && (d.state.Closing? <==> !c.keepAlive) && !d.state.Writing?
            && (d.state.Closed? ==> c.keepAlive)
  {
    hide Run, Step, Concat, Deliver;
  }

  /** A connection that writes goes on, half-closed or reading, exactly when the socket has
      taken everything: half-closed when it is not kept alive. */
  lemma {:induction false} WriteHonoursKeepAlive(c: Conn, outputs: seq<WriteResult>)
    requires Sending(c)
    ensures var d := WriteLoop(c, outputs).conn;
            && (d.state.Closing? <==> !c.keepAlive && Drains(|c.writeBuf|, outputs))
            && (d.state.Reading? || d.state.Processing? ==> c.keepAlive && Drains(|c.writeBuf|, outputs))
            && (Drains(|c.writeBuf|, outputs) ==> !d.state.Writing? && d.written == c.written + c.writeBuf)
    decreases |outputs|
  {
    hide Run, Step, Concat, Deliver;
    if c.writeBuf == "" {
      FinishLeaves(c);
    } else if outputs != [] && outputs[0].Wrote? && outputs[0].n > 0 {
      var n := if outputs[0].n < |c.writeBuf| then outputs[0].n else |c.writeBuf|;
      TakenKeeps(c, n);
      hide Sending, FinishResponse;
      WriteHonoursKeepAlive(Taken(c, n), outputs[1..]);
      assert c.written + c.writeBuf[..n] + c.writeBuf[n..] == c.written + c.writeBuf;
    }
  }

  lemma OnWriteKeeps(c: Conn, outputs: seq<WriteResult>)
    requires ConnInv(c)
    ensures var r := OnWrite(c, outputs);
            && Outcome(c, r) && r.conn.responses == c.responses
            && (MessageOf(r).None? ==> r.conn.state.Processing? == c.state.Processing?)
            && (!c.state.Writing? ==> r == Handled(c, None))
            && (r.Handled? && Calm(c) ==> Calm(r.conn))
  {
    hide Run, Step, Concat, Deliver;
    if c.state.Writing? {
      WriteLoopKeeps(c, outputs);
    }
  }

  /** A response to the request being processed is queued behind all earlier ones; on a
      connection that is writing, closing or closed a send changes nothing at all. */
  lemma SendKeeps(c: Conn, data: string, keepAlive: bool, outputs: seq<WriteResult>)
    requires ConnInv(c)
    ensures c.state.Processing? ==>
              var r := Send(c, data, keepAlive, outputs);
              && Outcome(c, r)
              && r.conn.responses == c.responses + [data]
              && (MessageOf(r).None? ==> !r.conn.state.Processing?)
              && (r.Handled? ==> Calm(r.conn))
    ensures c.state.Writing? || c.state.Closing? || c.state.Closed? ==>
              Send(c, data, keepAlive, outputs) == Handled(c, None)
  {
    hide Run, Step, Concat, Deliver;
    if c.state.Processing? {
      var d := c.(keepAlive := keepAlive, writeBuf := c.writeBuf + data, state := Writing,
                  responses := c.responses + [data]);
      ConcatSnoc(c.responses, data);
      assert d.written + d.writeBuf == c.written + c.writeBuf + data;
      WriteLoopKeeps(d, outputs);
    }
  }

  /** After a response: half-closed if and only if the client is not to be kept and the
      socket has taken every byte; reading again only if it is to be kept, and then too
      all responses are out. */
  lemma SendHonoursKeepAlive(c: Conn, data: string, keepAlive: bool, outputs: seq<WriteResult>)
    requires ConnInv(c) && c.state.Processing?
    ensures var d := Send(c, data, keepAlive, outputs).conn;
            && (d.state.Closing? <==> !keepAlive && Drains(|data|, outputs))
            && (d.state.Reading? || d.state.Processing? ==> keepAlive && Drains(|data|, outputs))
            && (Drains(|data|, outputs) ==> !d.state.Writing? && d.written == Concat(c.responses) + data)
  {
    hide Run, Step, Concat, Deliver, Drains;
    var d := c.(keepAlive := keepAlive, writeBuf := c.writeBuf + data, state := Writing,
                responses := c.responses + [data]);
    assert c.writeBuf + data == data && c.written + c.writeBuf == c.written;
    ConcatSnoc(c.responses, data);
    WriteHonoursKeepAlive(d, outputs);
  }

  /** A handler spins in the parser only while the connection reads. */
  lemma {:induction false} WriteSpins(c: Conn, outputs: seq<WriteResult>)
    ensures WriteLoop(c, outputs).Spins? ==> WriteLoop(c, outputs).conn.state.Reading?
    decreases |outputs|
  {
    hide Run;
    if c.writeBuf != "" && outputs != [] && outputs[0].Wrote? && outputs[0].n > 0 {
      hide FinishResponse;
      WriteSpins(Taken(c, if outputs[0].n < |c.writeBuf| then outputs[0].n else |c.writeBuf|), outputs[1..]);
    }
  }

  lemma {:induction false} ReadSpins(c: Conn, inputs: seq<ReadResult>)
    requires c.state.Reading?
    ensures ReadLoop(c, inputs).Spins? ==> ReadLoop(c, inputs).conn.state.Reading?
    decreases |inputs|
  {
    hide Run;
    if inputs != [] && inputs[0].Bytes? {
      ReadSpins(c.(readBuf := c.readBuf + inputs[0].data, received := c.received + inputs[0].data), inputs[1..]);
    }
  }

  lemma HandlerSpins(c: Conn, readable: bool, writable: bool, inputs: seq<ReadResult>, outputs: seq<WriteResult>)
    ensures var r := OnEvent(c, readable, writable, inputs, outputs); r.Spins? ==> r.conn.state.Reading?
    ensures forall data, keepAlive ::
              var r := Send(c, data, keepAlive, outputs); r.Spins? ==> r.conn.state.Reading?
  {
    hide ReadLoop, WriteLoop;
    if c.state.Reading? {
      ReadSpins(c, inputs);
    }
    WriteSpins(OnRead(c, inputs).conn, outputs);
    WriteSpins(c, outputs);
    forall data, keepAlive
      ensures var r := Send(c, data, keepAlive, outputs); r.Spins? ==> r.conn.state.Reading?
    {
      WriteSpins(c.(keepAlive := keepAlive, writeBuf := c.writeBuf + data, state := Writing,
                    responses := c.responses + [data]), outputs);
    }
  }

  // ---- one event callback ----

  /** The callback registered for a client socket: read, then write. */
  function OnEvent(c: Conn, readable: bool, writable: bool,
                   inputs: seq<ReadResult>, outputs: seq<WriteResult>): Handled
  {
    var r := if readable then OnRead(c, inputs) else Handled(c, None);
    if r.Spins? || !writable then r
    else
      var q := OnWrite(r.conn, outputs);
      if q.Spins? then q else Handled(q.conn, if r.message.Some? then r.message else q.message)
  }

  lemma OnEventKeeps(c: Conn, readable: bool, writable: bool, inputs: seq<ReadResult>, outputs: seq<WriteResult>)
    requires ConnInv(c)
    ensures var r := OnEvent(c, readable, writable, inputs, outputs);
            && Outcome(c, r)
            && r.conn.responses == c.responses
            && (MessageOf(r).None? ==> r.conn.state.Processing? == c.state.Processing?)
            && (MessageOf(r).Some? ==> c.state.Reading? || c.state.Writing?)
            && (r.Spins? ==> c.state.Reading? || c.state.Writing?)
            && (r.Handled? && Calm(c) ==> Calm(r.conn))
  {
    hide ConnInv, OnRead, OnWrite;
    assert Outcome(c, Handled(c, None));
    if readable {
      OnReadKeeps(c, inputs);
    }
    var r := if readable then OnRead(c, inputs) else Handled(c, None);
    if r.Handled? && writable {
      OnWriteKeeps(r.conn, outputs);
    }
  }

  lemma OpenedInv(fd: int, limit: nat)
    requires fd >= 0
    ensures ConnInv(Opened(fd, limit))
  {
    hide Deliver, Run, Step;
    var s := Fresh("", limit);
    EmptyStalls(s);
    DeliverOne(s);
    assert Extend(s, "") == s;
  }

  /** In Reading the parser is truly stalled: the messages contained in the bytes received
      so far are exactly those delivered, so none is left waiting in a buffer. */
  lemma NothingStranded(c: Conn)
    requires ConnInv(c) && c.state.Reading?
    ensures Deliver(Fresh(c.received, c.limit)).messages == c.delivered
    ensures c.received == Concat(c.delivered) + c.core.raw + c.core.partial
  {
    hide Run, Step, Concat, Deliver;
    RunStopped(c.core);
    assert Extend(c.core, c.readBuf) == c.core;
    DeliverOne(c.core);
  }

  // ---- how much a waiting connection may hold ----

  /** Once the headers are over, a waiting connection has given all its bytes to the
      message, and the message is within the limit. */
  lemma HeldAfterHeaders(c: Conn)
    requires ConnInv(c) && c.state.Reading? && Calm(c)
    requires !c.core.phase.RequestLine? && !c.core.phase.Headers?
    ensures c.core.partial == "" && |c.core.raw| <= c.limit
  {
    hide Concat, Deliver, Run, BodyOf, LineEnd;
  }

  function Xs(n: nat): string {
    seq(n, _ => 'x')
  }

  /** One byte at a time, each in a read of its own. */
  function Trickled(c: Conn, n: nat): Conn {
    if n == 0 then c else OnRead(Trickled(c, n - 1), [ReadResult.Bytes("x"), ReadBlocked]).conn
  }

  /** A request line that never ends: every read is within the limit, and the bytes that
      wait for the end of the line grow without bound, exactly when the limit is not zero.
      The size check looks at the message and at the read buffer, never at these. */
  lemma {:induction false} EndlessLineGrows(fd: int, limit: nat, n: nat)
    requires n > 0
    ensures var c := Trickled(Opened(fd, limit), n);
            if limit == 0 then c.state.Closed?
            else c.state.Reading? && c.core == Fresh(Xs(n), limit) && c.readBuf == ""
    decreases n
  {
    hide Run, Step;
    var c := Trickled(Opened(fd, limit), n - 1);
    if n > 1 {
      EndlessLineGrows(fd, limit, n - 1);
    } else {
      assert Xs(0) == "";
    }
    if limit > 0 {
      var s := Extend(Fresh(Xs(n - 1), limit), "x");
      assert Xs(n - 1) + "x" == Xs(n);
      NoLineInXs(n, limit);
      var d := c.(readBuf := "x", received := c.received + "x");
      assert c.readBuf + "x" == "x";
      assert [ReadResult.Bytes("x"), ReadBlocked][1..] == [ReadBlocked];
      assert ReadLoop(c, [ReadResult.Bytes("x"), ReadBlocked]) == ReadLoop(d, [ReadBlocked]) == TryParse(d);
    }
  }

  lemma NoLineInXs(n: nat, limit: nat)
    ensures Run(Fresh(Xs(n), limit)) == Fresh(Xs(n), limit)
  {
    assert LineEnd(Xs(n)).None?;
    RunStopped(Fresh(Xs(n), limit));
  }
}
