/** One client socket between the kernel and its connection. The loop watches it
    edge-triggered: the kernel announces news once, and a handler may be in no state to
    use it. Shown here: no bytes are ever left in the kernel with nobody to fetch them. */
module EdgeTriggered {
  import opened Options
  import opened Bytes
  import opened ParserMachine
  import opened Fragmentation
  import opened ConnectionMachine

  /** What one call of `epoll_wait` said about the socket. */
  datatype Flags = Flags(readable: bool, writable: bool)

  /** `sent` are the bytes that have arrived from the client, `kernel` those of them that
      have not been read, `room` what the kernel would still take for sending. `ready`: the
      socket is on the ready list of epoll. `harvested`: it was reported, and its callback
      is still to be run. `hung`: the loop thread spins in the parser. */
  datatype Sock = Sock(conn: Conn, sent: string, kernel: string, atEnd: bool, room: nat,
                       ready: bool, harvested: Option<Flags>, hung: bool)

  datatype Action =
    | Arrive(data: string)
    | PeerClose
    | Space(n: nat)                                                       // the client has taken n bytes
    | Harvest                                                             // `epoll_wait` reports the socket
    | Callback(pieces: seq<string>, last: ReadResult, outputs: seq<WriteResult>)
    | Respond(data: string, keepAlive: bool, outputs: seq<WriteResult>)   // `send_internal`, deferred
    | CloseNow                                                            // `close_internal`, deferred

  function Start(fd: int, limit: nat, room: nat): Sock {
    Sock(Opened(fd, limit), "", "", false, room, false, None, false)
  }

  predicate Readable(s: Sock) {
    s.kernel != "" || s.atEnd
  }

  /** Writability is asked for while a response is being written, and only then. */
  predicate Writable(s: Sock) {
    s.conn.state.Writing? && s.room > 0
  }

  // ---- what the kernel answers ----

  function Reads(pieces: seq<string>, last: ReadResult): seq<ReadResult> {
    if pieces == [] then [last] else [ReadResult.Bytes(pieces[0])] + Reads(pieces[1..], last)
  }

  /** The reads take what is there, in any pieces, before they meet the end or would block;
      an error can come at any time. */
  predicate ReadsAre(s: Sock, pieces: seq<string>, last: ReadResult) {
    && (forall i :: 0 <= i < |pieces| ==> pieces[i] != "")
    && if last.ReadFault? then Concat(pieces) <= s.kernel
       else Concat(pieces) == s.kernel && last == if s.atEnd then ReadResult.Bytes("") else ReadBlocked
  }

  /** The writes of n bytes are taken in any pieces until there is no room left. */
  predicate WritesAre(n: nat, room: nat, outputs: seq<WriteResult>)
    decreases |outputs|
  {
    n == 0 ||
    (outputs != [] &&
     match outputs[0]
     case WriteFault => true
     case WriteBlocked => room == 0
     case Wrote(k) => 0 < k <= n && k <= room && WritesAre(n - k, room - k, outputs[1..]))
  }

  // ---- steps ----

  predicate Enabled(s: Sock, step: Action) {
    match step
    case Arrive(data) => !s.atEnd && data != ""
    case PeerClose => !s.atEnd
    case Space(_) => true
    case Harvest => !s.hung && s.ready && s.harvested.None?
    case Callback(pieces, last, outputs) =>
      && !s.hung && s.harvested.Some?
      && (!s.conn.state.Closed? ==> ReadsAre(s, pieces, last) && WritesAre(|s.conn.writeBuf|, s.room, outputs))
    case Respond(data, _, outputs) =>
      !s.hung && !s.conn.state.Reading? && (s.conn.state.Processing? ==> WritesAre(|data|, s.room, outputs))
    case CloseNow => !s.hung
  }

  function Less(room: nat, before: Conn, after: Conn): nat {
    var n := |after.written| - |before.written|;
    if 0 <= n <= room then room - n else 0
  }

  /** The callback of the socket. A descriptor that was closed since it was reported has
      none. Reading takes all there is; the end of a response asks for news again
      (`mod_fd` in `finish_response`), and the kernel looks at once. */
  function Called(s: Sock, pieces: seq<string>, last: ReadResult, outputs: seq<WriteResult>): Sock
    requires s.harvested.Some?
  {
    if s.conn.state.Closed? then s.(harvested := None)
    else
      var f := s.harvested.value;
      var r := OnEvent(s.conn, f.readable, f.writable, Reads(pieces, last), outputs);
      s.(conn := r.conn, hung := r.Spins?, harvested := None,
         kernel := if s.conn.state.Reading? && f.readable then "" else s.kernel,
         room := Less(s.room, s.conn, r.conn),
         ready := s.ready || (s.conn.state.Writing? && !r.conn.state.Writing? && Readable(s)))
  }

  /** `send_internal` asks for writability as well (`mod_fd`) before it writes. */
  function Responded(s: Sock, data: string, keepAlive: bool, outputs: seq<WriteResult>): Sock {
    if !s.conn.state.Processing? then s
    else
      var r := Send(s.conn, data, keepAlive, outputs);
      s.(conn := r.conn, hung := r.Spins?, room := Less(s.room, s.conn, r.conn),
         ready := s.ready || Readable(s) || s.room > 0)
  }

  function After(s: Sock, step: Action): Sock
    requires Enabled(s, step)
  {
    match step
    case Arrive(data) => s.(kernel := s.kernel + data, sent := s.sent + data, ready := true)
    case PeerClose => s.(atEnd := true, ready := true)
    case Space(n) => s.(room := s.room + n, ready := s.ready || (s.conn.state.Writing? && n > 0))
    case Harvest =>
      s.(ready := false,
         harvested := if Readable(s) || Writable(s) then Some(Flags(Readable(s), Writable(s))) else None)
    case Callback(pieces, last, outputs) => Called(s, pieces, last, outputs)
    case Respond(data, keepAlive, outputs) => Responded(s, data, keepAlive, outputs)
    case CloseNow => s.(conn := Close(s.conn))
  }

  // ---- the invariant ----

  /** Somebody will come and read, or write. */
  predicate WillRead(s: Sock) {
    s.ready || (s.harvested.Some? && s.harvested.value.readable)
  }

  predicate WillWrite(s: Sock) {
    s.ready || (s.harvested.Some? && s.harvested.value.writable)
  }

  predicate Watched(s: Sock) {
    match s.conn.state
    case Reading => Readable(s) ==> WillRead(s)
    case Closing => Readable(s) ==> WillRead(s)
    case Writing => s.room > 0 ==> WillWrite(s)
    case _ => true
  }

  predicate Inv(s: Sock) {
    && ConnInv(s.conn) && Watched(s)
    && (!s.conn.state.Closed? ==> s.sent == s.conn.received + s.kernel)
  }

  // ---- what the handlers do to the socket ----

  lemma ParseLeaves(c: Conn)
    ensures var d := TryParse(c).conn;
            && d.received == c.received && d.written == c.written
            && (c.state.Reading? ==> d.state.Reading? || d.state.Processing? || d.state.Closed?)
  {
    hide Run;
  }

  /** Reading to the end of what is there, or the connection is closed on the way. */
  lemma {:induction false} ReadsAll(c: Conn, pieces: seq<string>, last: ReadResult)
    requires c.state.Reading? && forall i :: 0 <= i < |pieces| ==> pieces[i] != ""
    requires last.Bytes? ==> last.data == ""
    ensures var d := ReadLoop(c, Reads(pieces, last)).conn;
            && d.written == c.written && (d.state.Reading? || d.state.Processing? || d.state.Closed?)
            && (!d.state.Closed? ==> last.ReadBlocked? && d.received == c.received + Concat(pieces))
    decreases |pieces|
  {
    ParseLeaves(c);
    hide TryParse;
    var inputs := Reads(pieces, last);
    if pieces == [] {
      assert inputs == [last];
      assert c.received + "" == c.received;
    } else {
      var d := c.(readBuf := c.readBuf + pieces[0], received := c.received + pieces[0]);
      assert inputs[0] == ReadResult.Bytes(pieces[0]) && inputs[1..] == Reads(pieces[1..], last);
      if |d.readBuf| <= c.limit {
        ReadsAll(d, pieces[1..], last);
        assert c.received + pieces[0] + Concat(pieces[1..]) == c.received + Concat(pieces);
      }
    }
  }

  function Received(c: Conn, data: string): Conn {
    c.(readBuf := c.readBuf + data, received := c.received + data)
  }

  lemma ReceivedTwice(c: Conn, a: string, b: string)
    ensures Received(Received(c, a), b) == Received(c, a + b)
  {
    assert c.readBuf + a + b == c.readBuf + (a + b) && c.received + a + b == c.received + (a + b);
  }

  /** What reading comes to: the connection is closed when at some read more than the limit
      is buffered, or at the end or an error of the socket; otherwise all that was read is
      parsed at once. */
  lemma {:induction false} ReadOutcome(c: Conn, pieces: seq<string>, last: ReadResult)
    requires |c.readBuf| <= c.limit && forall i :: 0 <= i < |pieces| ==> pieces[i] != ""
    requires last.Bytes? ==> last.data == ""
    ensures var r := ReadLoop(c, Reads(pieces, last));
            if |c.readBuf| + |Concat(pieces)| > c.limit then
              !c.state.Closed? ==>
                r.Handled? && r.message.None? && r.conn.state.Closed? && r.conn.delivered == c.delivered
            else if last.ReadBlocked? then r == TryParse(Received(c, Concat(pieces)))
            else r == Handled(Close(Received(c, Concat(pieces))), None)
    decreases |pieces|
  {
    hide TryParse;
    var inputs := Reads(pieces, last);
    if pieces == [] {
      assert inputs == [last] && Received(c, "") == c;
    } else {
      var d := Received(c, pieces[0]);
      assert inputs[0] == ReadResult.Bytes(pieces[0]) && inputs[1..] == Reads(pieces[1..], last);
      ReceivedTwice(c, pieces[0], Concat(pieces[1..]));
      if |d.readBuf| <= c.limit {
        ReadOutcome(d, pieces[1..], last);
      }
    }
  }

  lemma FinishLeavesAll(c: Conn)
    ensures var d := FinishResponse(c).conn;
            && d.received == c.received && d.written == c.written && !d.state.Writing?
  {
    hide Run;
  }

  /** Writing until all is out or there is no room. */
  lemma {:induction false} WritesAll(c: Conn, outputs: seq<WriteResult>, room: nat)
    requires c.state.Writing? && WritesAre(|c.writeBuf|, room, outputs)
    ensures var d := WriteLoop(c, outputs).conn;
            && d.received == c.received
            && |c.written| <= |d.written| <= |c.written| + room
            && (d.state.Writing? ==> |d.written| == |c.written| + room)
    decreases |outputs|
  {
    FinishLeavesAll(c);
    hide FinishResponse;
    if c.writeBuf != "" && outputs[0].Wrote? {
      var n := outputs[0].n;
      assert |c.writeBuf[..n]| == n && |c.writeBuf[n..]| == |c.writeBuf| - n;
      WritesAll(Taken(c, n), outputs[1..], room - n);
    }
  }

  // ---- every step keeps the invariant ----

  lemma ReadKept(s: Sock, pieces: seq<string>, last: ReadResult, outputs: seq<WriteResult>)
    requires Inv(s) && s.conn.state.Reading? && s.harvested.Some? && s.harvested.value.readable
    requires ReadsAre(s, pieces, last)
    ensures Inv(Called(s, pieces, last, outputs))
    ensures var t := Called(s, pieces, last, outputs);
            t.conn.state.Closed? || (t.kernel == "" && t.conn.received == t.sent)
  {
    hide ConnInv, ReadLoop, WriteLoop;
    OnEventKeeps(s.conn, true, s.harvested.value.writable, Reads(pieces, last), outputs);
    ReadsAll(s.conn, pieces, last);
    assert s.conn.received + s.kernel + "" == s.sent;
  }

  lemma WriteKept(s: Sock, pieces: seq<string>, last: ReadResult, outputs: seq<WriteResult>)
    requires Inv(s) && s.conn.state.Writing? && s.harvested.Some? && WritesAre(|s.conn.writeBuf|, s.room, outputs)
    ensures Inv(Called(s, pieces, last, outputs))
  {
    hide ConnInv, ReadLoop, WriteLoop;
    var f := s.harvested.value;
    OnEventKeeps(s.conn, f.readable, f.writable, Reads(pieces, last), outputs);
    WritesAll(s.conn, outputs, s.room);
  }

  /** In every other state the callback does nothing, or closes. */
  lemma CallKept(s: Sock, pieces: seq<string>, last: ReadResult, outputs: seq<WriteResult>)
    requires Inv(s) && s.harvested.Some? && !s.conn.state.Closed? && !s.conn.state.Writing?
    requires !(s.conn.state.Reading? && s.harvested.value.readable)
    ensures Inv(Called(s, pieces, last, outputs))
  {
    hide ConnInv, ReadLoop, WriteLoop;
    var f := s.harvested.value;
    OnEventKeeps(s.conn, f.readable, f.writable, Reads(pieces, last), outputs);
  }

  lemma NothingToWrite(c: Conn)
    requires ConnInv(c) && c.state.Processing?
    ensures c.writeBuf == ""
  {
    hide Run, Deliver, Concat;
  }

  lemma RespondKept(s: Sock, data: string, keepAlive: bool, outputs: seq<WriteResult>)
    requires Inv(s) && s.conn.state.Processing? && WritesAre(|data|, s.room, outputs)
    ensures Inv(Responded(s, data, keepAlive, outputs))
  {
    hide ConnInv, WriteLoop, WritesAre;
    var c := s.conn;
    NothingToWrite(c);
    assert c.writeBuf + data == data;
    SendKeeps(c, data, keepAlive, outputs);
    WritesAll(c.(keepAlive := keepAlive, writeBuf := c.writeBuf + data, state := Writing,
                 responses := c.responses + [data]), outputs, s.room);
  }

  lemma CloseKept(s: Sock)
    requires Inv(s)
    ensures Inv(s.(conn := Close(s.conn)))
  {
    hide Deliver, Concat, Run, Step;
  }

  lemma StepKeeps(s: Sock, step: Action)
    requires Inv(s) && Enabled(s, step)
    ensures Inv(After(s, step))
  {
    hide ConnInv, OnEvent, Send, Close, ReadsAre, WritesAre;
    match step
    case Callback(pieces, last, outputs) =>
      if s.conn.state.Reading? && s.harvested.value.readable {
        ReadKept(s, pieces, last, outputs);
      } else if s.conn.state.Writing? {
        WriteKept(s, pieces, last, outputs);
      } else if !s.conn.state.Closed? {
        CallKept(s, pieces, last, outputs);
      }
    case Respond(data, keepAlive, outputs) =>
      if s.conn.state.Processing? {
        RespondKept(s, data, keepAlive, outputs);
      }
    case CloseNow => CloseKept(s);
    case Arrive(data) =>
      assert s.conn.received + (s.kernel + data) == s.conn.received + s.kernel + data;
    case _ =>
  }

  // ---- every run ----

  ghost predicate Next(s: Sock, t: Sock) {
    exists step :: Enabled(s, step) && t == After(s, step)
  }

  ghost predicate IsRun(states: seq<Sock>) {
    && states != []
    && (exists fd, limit, room :: fd >= 0 && states[0] == Start(fd, limit, room))
    && forall n :: 0 <= n < |states| - 1 ==> Next(states[n], states[n + 1])
  }

  lemma {:induction false} EveryRunInv(states: seq<Sock>, n: nat)
    requires IsRun(states) && n < |states|
    ensures Inv(states[n])
    decreases n
  {
    hide Inv, Enabled, After;
    if n == 0 {
      var fd, limit, room :| fd >= 0 && states[0] == Start(fd, limit, room);
      StartInv(fd, limit, room);
    } else {
      EveryRunInv(states, n - 1);
      var m := n - 1;
      assert Next(states[m], states[m + 1]);
      var step :| Enabled(states[m], step) && states[n] == After(states[m], step);
      StepKeeps(states[m], step);
    }
  }

  lemma StartInv(fd: int, limit: nat, room: nat)
    requires fd >= 0
    ensures Inv(Start(fd, limit, room))
  {
    hide ConnInv;
    OpenedInv(fd, limit);
  }

  /** In every state of every run in which the socket is neither on the ready list nor
      reported, the connection waits for the client alone. When it is reading, every byte
      that has arrived has been read, every message in those bytes has been handed on, and
      every one has its response written; when it is writing, the client has to make room. */
  lemma OnlyTheClientIsMissing(states: seq<Sock>, n: nat)
    requires IsRun(states) && n < |states|
    requires !states[n].ready && states[n].harvested.None?
    ensures var s := states[n];
            var c := s.conn;
            && (c.state.Reading? ==>
                  && s.kernel == "" && !s.atEnd
                  && Deliver(Fresh(s.sent, c.limit)).messages == c.delivered
                  && |c.responses| == |c.delivered| && c.written == Concat(c.responses))
            && (c.state.Writing? ==> s.room == 0)
            && (c.state.Closing? ==> s.kernel == "" && !s.atEnd)
  {
    EveryRunInv(states, n);
    var s := states[n];
    hide Run, Step, Deliver, Concat, IsRun;
    if s.conn.state.Reading? {
      NothingStranded(s.conn);
      assert s.conn.received + "" == s.conn.received;
      assert s.conn.written + "" == s.conn.written;
    }
  }

  /** When the callback of a reading connection has run, the kernel holds nothing more, or
      the connection is closed. */
  lemma OneCallbackEmpties(states: seq<Sock>, n: nat, pieces: seq<string>, last: ReadResult, outputs: seq<WriteResult>)
    requires IsRun(states) && n < |states| && states[n].conn.state.Reading?
    requires states[n].harvested.Some? && states[n].harvested.value.readable
    requires Enabled(states[n], Callback(pieces, last, outputs))
    ensures var t := After(states[n], Callback(pieces, last, outputs));
            t.conn.state.Closed? || (t.kernel == "" && t.conn.received == t.sent)
  {
    EveryRunInv(states, n);
    hide Inv, IsRun, Called;
    ReadKept(states[n], pieces, last, outputs);
  }

  lemma RunGrows(states: seq<Sock>, step: Action) returns (longer: seq<Sock>)
    requires IsRun(states) && Enabled(states[|states| - 1], step)
    ensures IsRun(longer) && |longer| == |states| + 1 && states <= longer
    ensures longer[|states|] == After(states[|states| - 1], step)
  {
    longer := states + [After(states[|states| - 1], step)];
    assert longer[0] == states[0];
    forall n | 0 <= n < |longer| - 1
      ensures Next(longer[n], longer[n + 1])
    {
      assert n < |states| - 1 ==> Next(states[n], states[n + 1]);
    }
  }

  /** Bytes that arrive while a request is being processed are announced once, and the
      callback drops the announcement: they stay in the kernel with nobody on the way. */
  lemma EdgeDropped(states: seq<Sock>, more: string) returns (longer: seq<Sock>)
    requires IsRun(states) && more != ""
    requires var s := states[|states| - 1];
             s.conn.state.Processing? && !s.hung && !s.atEnd && s.harvested.None?
    ensures IsRun(longer) && |longer| == |states| + 3 && states <= longer
    ensures var s := states[|states| - 1];
            longer[|states| + 2] == s.(kernel := s.kernel + more, sent := s.sent + more, ready := false)
  {
    var k := |states|;
    EveryRunInv(states, k - 1);
    hide ConnInv, IsRun, Enabled, After;
    NothingToWrite(states[k - 1].conn);
    ThreeSteps(states[k - 1], more);
    longer := RunGrows(states, Arrive(more));
    longer := RunGrows(longer, Harvest);
    longer := RunGrows(longer, Callback([longer[k + 1].kernel], ReadBlocked, []));
  }

  lemma ThreeSteps(s: Sock, more: string)
    requires s.conn.state.Processing? && s.conn.writeBuf == "" && !s.hung && !s.atEnd && s.harvested.None? && more != ""
    ensures Enabled(s, Arrive(more)) && Enabled(After(s, Arrive(more)), Harvest)
    ensures var t := After(After(s, Arrive(more)), Harvest);
            var call := Callback([t.kernel], ReadBlocked, []);
            && Enabled(t, call)
            && After(t, call) == s.(kernel := s.kernel + more, sent := s.sent + more, ready := false)
  {
    hide ReadLoop, WriteLoop;
    var kernel := s.kernel + more;
    assert Concat([kernel]) == kernel + Concat([]) == kernel;
  }

  /** It is the response that asks again, whatever it is and however much of it the kernel
      takes. */
  lemma AskedAgain(states: seq<Sock>, data: string, keepAlive: bool, outputs: seq<WriteResult>)
    requires IsRun(states)
    requires var s := states[|states| - 1];
             s.conn.state.Processing? && Readable(s) && Enabled(s, Respond(data, keepAlive, outputs))
    ensures var s := states[|states| - 1];
            var t := After(s, Respond(data, keepAlive, outputs));
            t.ready && t.kernel == s.kernel && t.conn.responses == s.conn.responses + [data]
  {
    EveryRunInv(states, |states| - 1);
    hide ConnInv, IsRun, Send, WritesAre;
    SendKeeps(states[|states| - 1].conn, data, keepAlive, outputs);
  }
}
