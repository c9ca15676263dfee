/** The gateway object: its connection objects, the map of connections, the counter and the
    callbacks that change them, each proved against the step of the whole system
    (Gateway.dfy) that it carries out. */
module GatewayServer {
  import opened Options
  import opened ConnectionMachine
  import opened Connections
  import opened Gateway
  import Parser
  import L = EventLoop

  // ---- a cleanup pass as steps of the system ----

  predicate Cleanable(w: World) {
    !w.hung && w.loop.phase.Waiting?
  }

  /** Cleanup of the given descriptors, one after the other. */
  function Cleaned(w: World, order: seq<int>): World {
    if order == [] then w
    else
      var v := Cleaned(w, order[..|order| - 1]);
      var step := CleanupOne(order[|order| - 1]);
      if Enabled(v, step) then After(v, step) else v
  }

  function CloseTasks(registry: map<int, nat>, order: seq<int>): seq<Task>
    requires Members(order) <= registry.Keys
  {
    if order == [] then []
    else CloseTasks(registry, order[..|order| - 1]) + [CloseTask(registry[order[|order| - 1]])]
  }

  predicate Distinct(order: seq<int>) {
    forall i, j :: 0 <= i < j < |order| ==> order[i] != order[j]
  }

  function Members(order: seq<int>): (members: set<int>)
    ensures forall i :: 0 <= i < |order| ==> order[i] in members
  {
    set i | 0 <= i < |order| :: order[i]
  }

  lemma OneMember(order: seq<int>, fd: int)
    ensures Members(order + [fd]) == Members(order) + {fd}
    ensures Distinct(order) && fd !in Members(order) ==> Distinct(order + [fd])
  {
    var longer := order + [fd];
    assert longer[|order|] == fd && forall i :: 0 <= i < |order| ==> longer[i] == order[i];
  }

  lemma RegistryOpen(w: World, fd: int)
    requires Inv(w) && fd in w.registry
    ensures w.registry[fd] < |w.conns| && !w.conns[w.registry[fd]].state.Closed?
  {
    hide L.Inv, TokensOk, WorkOk, RepliesOk, CountOk, ConnInv;
    OpenCallback(w, fd);
  }

  /** However the pass walks the map: the idle descriptors leave it, each of their
      connections gets one deferred close, and until that runs it keeps its callback, its
      place in the count and everything else. */
  lemma {:induction false} CleanupDefersEachClose(w: World, order: seq<int>)
    requires Inv(w) && Cleanable(w) && Distinct(order) && Members(order) <= w.registry.Keys
    ensures var v := Cleaned(w, order);
            && Inv(v) && Cleanable(v)
            && v.registry == w.registry - Members(order)
            && L.Todo(v.loop) == L.Todo(w.loop) + CloseTasks(w.registry, order)
            && v.conns == w.conns && v.callbacks == w.callbacks && v.count == w.count
    decreases |order|
  {
    hide Inv, L.Todo, L.Inv;
    if order == [] {
      assert w.registry - {} == w.registry && L.Todo(w.loop) + [] == L.Todo(w.loop);
    } else {
      var n := |order| - 1;
      assert order == order[..n] + [order[n]];
      OneMember(order[..n], order[n]);
      CleanupDefersEachClose(w, order[..n]);
      var v := Cleaned(w, order[..n]);
      assert order[n] in w.registry && order[n] !in Members(order[..n]);
      RegistryOpen(v, order[n]);
      StepKeepsInv(v, CleanupOne(order[n]));
      InvLoop(v);
      DeferTodo(v.loop, CloseTask(v.registry[order[n]]));
      assert w.registry - Members(order[..n]) - {order[n]} == w.registry - Members(order);
    }
  }

  // ---- a task of the loop as a step of the system ----

  function TaskDone(w: World, outputs: seq<WriteResult>): World
    requires CanRunTask(w, outputs)
  {
    After(w, Action.RunTask(outputs))
  }

  lemma TaskTakes(w: World, outputs: seq<WriteResult>)
    requires CanRunTask(w, outputs)
    ensures var v := Settle(w.(loop := L.After(w.loop, L.RunOne)), CurrentTask(w).conn, TaskResult(w, outputs));
            && !v.hung && TaskDone(w, outputs) == v.(hung := TaskResult(w, outputs).Spins?)
  {
    hide Settle, L.After;
    SettleShape(w.(loop := L.After(w.loop, L.RunOne)), CurrentTask(w).conn, TaskResult(w, outputs));
  }

  /** What a handler left behind, without its details. */
  lemma Led(v: Conn, message: Option<string>, spins: bool, r: Handled)
    requires Leads(v, message, spins, r)
    ensures (spins <==> r.Spins?) && message == MessageOf(r) && v.state == r.conn.state
    ensures spins ==> v.(readBuf := "") == r.conn
  {
  }

  // ---- the connection objects ----

  lemma OpenAlike(v: Conn, c: Conn)
    requires Alike(v, c) && !(v.state.Closed? && c.state.Closed?)
    ensures v == c
  {
  }

  /** A closed connection takes no response. */
  lemma NoSend(v: Conn, c: Conn, data: string, keepAlive: bool, outputs: seq<WriteResult>)
    requires Alike(v, c) && v.state.Closed?
    ensures Leads(v, None, false, Send(c, data, keepAlive, outputs))
  {
  }

  /** All connections accepted so far, in order of acceptance. */
  class ConnectionTable {
    const maxRequestSize: Parser.Int32
    var conns: seq<Connection>
    ghost var repr: set<object>

    ghost predicate Owned(c: Connection)
      reads this, repr
    {
      c in repr && c.readBuf in repr && c.writeBuf in repr && c.Footprint() <= repr
    }

    /** No two connections share an object. */
    ghost predicate Valid()
      reads this, repr
    {
      && this !in repr
      && (forall i :: 0 <= i < |conns| ==> Owned(conns[i]))
      && (forall i, j :: 0 <= i < j < |conns| ==> conns[i].Footprint() !! conns[j].Footprint())
    }

    /** The others are as before, whatever connection i has become. */
    ghost predicate Others(i: nat, vs: seq<Conn>)
      reads this, repr, if i < |conns| then {conns[i], conns[i].readBuf, conns[i].writeBuf} else {}
    {
      && this !in repr && i < |conns| == |vs| && this !in conns[i].Footprint()
      && (forall j :: 0 <= j < |conns| && j != i ==>
            && Owned(conns[j]) && conns[j].Footprint() !! conns[i].Footprint()
            && conns[j].Valid() && Alike(conns[j].View(), vs[j]))
      && (forall j, k :: 0 <= j < k < |conns| && j != i && k != i ==>
            conns[j].Footprint() !! conns[k].Footprint())
    }

    /** Connection i has replaced some of its objects. */
    ghost method Adopt(i: nat, vs: seq<Conn>)
      requires Others(i, vs)
      modifies this`repr
      ensures Valid() && Others(i, vs) && repr == old(repr) + conns[i].Footprint()
    {
      hide Alike;
      repr := repr + conns[i].Footprint();
    }

    /** Each connection is in the state that the system has for it. */
    ghost predicate Mirrors(vs: seq<Conn>)
      reads this, repr
    {
      Valid() && |conns| == |vs| && forall i :: 0 <= i < |conns| ==> conns[i].Valid() && Alike(conns[i].View(), vs[i])
    }

    constructor (maxRequestSize: Parser.Int32)
      ensures Mirrors([]) && repr == {} && this.maxRequestSize == maxRequestSize
    {
      this.maxRequestSize := maxRequestSize;
      conns, repr := [], {};
    }

    method Add(fd: int, ghost vs: seq<Conn>)
      requires Mirrors(vs)
      modifies this
      ensures Mirrors(vs + [Opened(fd, Parser.Unsigned(maxRequestSize))]) && fresh(repr - old(repr))
    {
      hide Parser.Unsigned, Alike;
      var c := new Connection(fd, maxRequestSize);
      Admit(c, vs);
    }

    method Admit(c: Connection, ghost vs: seq<Conn>)
      requires Mirrors(vs) && c.Valid() && this !in c.Footprint() && repr !! c.Footprint()
      modifies this
      ensures Mirrors(vs + [c.View()]) && repr == old(repr) + c.Footprint()
    {
      hide Alike;
      ghost var v, before := c.View(), conns;
      conns := conns + [c];
      forall j | 0 <= j < |before|
        ensures conns[j] == before[j] && Owned(conns[j]) && conns[j].Footprint() !! c.Footprint()
        ensures conns[j].Valid() && Alike(conns[j].View(), vs[j])
      {
      }
      Adopt(|before|, vs + [v]);
      SameAlike(v);
      Rebuilt(vs + [v], |before|, v);
      assert (vs + [v])[|before| := v] == vs + [v];
    }

    method Close(i: nat, ghost vs: seq<Conn>)
      requires Mirrors(vs) && i < |conns| && !conns[i].state.Closed?
      modifies repr
      ensures Mirrors(vs[i := ConnectionMachine.Close(vs[i])])
    {
      var c := conns[i];
      assert c.View() == vs[i];
      c.CloseInternal();
      SameAlike(c.View());
      hide Alike;
      forall j | 0 <= j < |conns| && j != i
        ensures conns[j].Valid() && Alike(conns[j].View(), vs[j])
      {
        assert conns[j] != c by { assert conns[j].Footprint() !! c.Footprint(); }
        assert conns[j].View() == old(conns[j].View());
      }
      Rebuilt(vs, i, c.View());
    }

    lemma SameAlike(v: Conn)
      ensures Alike(v, v)
    {
    }

    /** What a handler has made of connection i; the others do not notice. */
    ghost predicate Handled(vs: seq<Conn>, i: nat, message: Option<string>, spins: bool, r: ConnectionMachine.Handled)
      requires i < |vs|
      reads this, repr
    {
      && Valid() && |conns| == |vs| && conns[i].Valid()
      && Mirrors(vs[i := if spins then conns[i].View() else r.conn])
      && Leads(conns[i].View(), message, spins, r)
    }

    /** The callback of one connection. */
    method Handle(i: nat, readable: bool, writable: bool, available: string, sizes: seq<nat>,
                  last: ReadResult, outputs: seq<WriteResult>, ghost vs: seq<Conn>)
        returns (message: Option<string>, spins: bool, ghost inputs: seq<ReadResult>)
      requires Mirrors(vs) && i < |conns|
      requires ConnInv(vs[i]) && Calm(vs[i]) && !vs[i].state.Closed? && (last.Bytes? ==> last.data == "")
      modifies this`repr, repr
      ensures conns == old(conns) && fresh(repr - old(repr))
      ensures Handled(vs, i, message, spins, ConnectionMachine.OnEvent(vs[i], readable, writable, inputs, outputs))
    {
      hide ConnInv, Calm, ConnectionMachine.OnEvent, Alike, Leads;
      message, spins, inputs := Touch(i, readable, writable, available, sizes, last, outputs, vs);
      Adopt(i, vs);
      Concluded(vs, i, message, spins, ConnectionMachine.OnEvent(vs[i], readable, writable, inputs, outputs));
    }

    method Touch(i: nat, readable: bool, writable: bool, available: string, sizes: seq<nat>,
                 last: ReadResult, outputs: seq<WriteResult>, ghost vs: seq<Conn>)
        returns (message: Option<string>, spins: bool, ghost inputs: seq<ReadResult>)
      requires Mirrors(vs) && i < |conns|
      requires ConnInv(vs[i]) && Calm(vs[i]) && !vs[i].state.Closed? && (last.Bytes? ==> last.data == "")
      modifies repr
      ensures Others(i, vs) && conns[i].Valid() && fresh(conns[i].Footprint() - repr)
      ensures var r := ConnectionMachine.OnEvent(vs[i], readable, writable, inputs, outputs);
              Leads(conns[i].View(), message, spins, r)
    {
      hide ConnInv, Calm, ConnectionMachine.OnEvent, Alike, Leads;
      OpenAlike(conns[i].View(), vs[i]);
      message, spins, inputs := conns[i].OnEvent(readable, writable, available, sizes, last, outputs);
      forall j | 0 <= j < |conns| && j != i
        ensures conns[j].Footprint() == old(conns[j].Footprint()) && conns[j].Footprint() !! conns[i].Footprint()
        ensures Owned(conns[j]) && conns[j].Valid() && Alike(conns[j].View(), vs[j])
      {
        assert old(conns[j].Footprint() !! conns[i].Footprint());
        assert conns[j].View() == old(conns[j].View());
      }
    }

    /** A response for one connection. */
    method Send(i: nat, data: string, keepAlive: bool, outputs: seq<WriteResult>, ghost vs: seq<Conn>)
        returns (message: Option<string>, spins: bool)
      requires Mirrors(vs) && i < |conns| && ConnInv(vs[i]) && Calm(vs[i])
      modifies this`repr, repr
      ensures conns == old(conns) && fresh(repr - old(repr))
      ensures Handled(vs, i, message, spins, ConnectionMachine.Send(vs[i], data, keepAlive, outputs))
    {
      hide ConnInv, Calm, ConnectionMachine.Send, Alike, Leads;
      if conns[i].state.Closed? {
        message, spins := None, false;
        NoSend(conns[i].View(), vs[i], data, keepAlive, outputs);
        Concluded(vs, i, None, false, ConnectionMachine.Send(vs[i], data, keepAlive, outputs));
      } else {
        message, spins := TouchSend(i, data, keepAlive, outputs, vs);
        Adopt(i, vs);
        Concluded(vs, i, message, spins, ConnectionMachine.Send(vs[i], data, keepAlive, outputs));
      }
    }

    method TouchSend(i: nat, data: string, keepAlive: bool, outputs: seq<WriteResult>, ghost vs: seq<Conn>)
        returns (message: Option<string>, spins: bool)
      requires Mirrors(vs) && i < |conns| && ConnInv(vs[i]) && Calm(vs[i]) && !conns[i].state.Closed?
      modifies repr
      ensures Others(i, vs) && conns[i].Valid() && fresh(conns[i].Footprint() - repr)
      ensures Leads(conns[i].View(), message, spins, ConnectionMachine.Send(vs[i], data, keepAlive, outputs))
    {
      hide ConnInv, Calm, ConnectionMachine.Send, Alike, Leads;
      OpenAlike(conns[i].View(), vs[i]);
      AlwaysReady(conns[i]);
      message, spins := conns[i].SendInternal(data, keepAlive, outputs);
      forall j | 0 <= j < |conns| && j != i
        ensures conns[j].Footprint() == old(conns[j].Footprint()) && conns[j].Footprint() !! conns[i].Footprint()
        ensures Owned(conns[j]) && conns[j].Valid() && Alike(conns[j].View(), vs[j])
      {
        assert old(conns[j].Footprint() !! conns[i].Footprint());
        assert conns[j].View() == old(conns[j].View());
      }
    }

    lemma Concluded(vs: seq<Conn>, i: nat, message: Option<string>, spins: bool, r: ConnectionMachine.Handled)
      requires Valid() && |conns| == |vs| && i < |vs| && conns[i].Valid()
      requires Leads(conns[i].View(), message, spins, r)
      requires forall j :: 0 <= j < |conns| && j != i ==> conns[j].Valid() && Alike(conns[j].View(), vs[j])
      ensures Handled(vs, i, message, spins, r)
    {
      hide Valid;
      SameAlike(conns[i].View());
      assert !spins ==> Alike(conns[i].View(), r.conn);
      hide Alike, Leads;
      Rebuilt(vs, i, if spins then conns[i].View() else r.conn);
    }

    lemma Rebuilt(vs: seq<Conn>, i: nat, v: Conn)
      requires Valid() && |conns| == |vs| && i < |vs| && conns[i].Valid() && Alike(conns[i].View(), v)
      requires forall j :: 0 <= j < |conns| && j != i ==> conns[j].Valid() && Alike(conns[j].View(), vs[j])
      ensures Mirrors(vs[i := v])
    {
      hide Alike;
    }
  }

  // ---- the object ----

  class GatewayServer {
    const loop: L.EventLoop<Task>
    const table: ConnectionTable
    const maxConnections: int
    var connections: map<int, nat>
    var callbacks: map<int, nat>
    var count: int

    /** The loop, the map, the callbacks and the counter. */
    ghost predicate Books(w: World)
      reads this, loop
    {
      && loop.Valid() && loop.now == w.loop
      && connections == w.registry && callbacks == w.callbacks && count == w.count
      && maxConnections == w.maxConnections && Parser.Unsigned(table.maxRequestSize) == w.limit
    }

    ghost predicate Conns(vs: seq<Conn>)
      reads table, table.repr
    {
      table.Mirrors(vs) && this !in table.repr && loop !in table.repr
    }

    /** The object, its connections and its loop are in the state that the system is in. */
    ghost predicate Agrees(w: World)
      reads this, loop, table, table.repr
    {
      Books(w) && Conns(w.conns)
    }

    /** Connection i is in the middle of a handler that spins: its read buffer still holds
        the bytes that are the parser's already, and all else is in the state of the system. */
    ghost predicate Hangs(w: World, i: nat)
      reads this, loop, table, table.repr
    {
      && Books(w) && table.Valid() && i < |table.conns| == |w.conns| && table.conns[i].Valid()
      && Conns(w.conns[i := table.conns[i].View()])
      && table.conns[i].View().(readBuf := "") == w.conns[i]
    }

    constructor (maxConnections: int, maxRequestSize: Parser.Int32, perRound: int)
      ensures fresh(loop) && fresh(table)
      ensures forall queueMax :: Agrees(Start(maxConnections, queueMax, Parser.Unsigned(maxRequestSize), perRound))
    {
      this.maxConnections := maxConnections;
      loop := new L.EventLoop<Task>(perRound);
      table := new ConnectionTable(maxRequestSize);
      connections, callbacks, count := map[], map[], 0;
    }

    /** The callback for a new client socket. */
    method OnAccept(fd: int, ghost w: World)
      requires Agrees(w)
      modifies this, table
      ensures Agrees(Accepted(w, fd))
    {
      if maxConnections > 0 && count >= maxConnections {
        return;
      }
      hide Accepted;
      AcceptedShape(w, fd);
      var i := |table.conns|;
      table.Add(fd, w.conns);
      Register(fd, i, w);
    }

    method Register(fd: int, i: nat, ghost w: World)
      requires Books(w) && i == |w.conns| && !(maxConnections > 0 && count >= maxConnections)
      modifies this
      ensures Books(Accepted(w, fd))
    {
      hide Parser.Unsigned;
      callbacks := callbacks[fd := i];
      connections := connections[fd := i];
      count := count + 1;
    }

    /** `close_internal` with the close callback of the gateway. */
    method CloseInternal(i: nat, ghost w: World)
      requires Agrees(w) && i < |table.conns|
      modifies this, table.repr
      ensures Agrees(Settle(w, i, Handled(Close(w.conns[i]), None)))
    {
      hide Settle;
      ghost var r := Handled(Close(w.conns[i]), None);
      SettleShape(w, i, r);
      if table.conns[i].state.Closed? {
        StillOpen(w, i, r);
        assert w.conns[i := w.conns[i]] == w.conns;
        return;
      }
      var fd := table.conns[i].fd;
      table.Close(i, w.conns);
      CloseBooks(fd, w, i, r);
    }

    /** A handler's result that closes the connection reaches the books through the close
        callback; any other leaves them alone. */
    method CloseBooks(fd: int, ghost w: World, ghost i: nat, ghost r: Handled)
      requires Books(w) && i < |w.conns| && Closes(w, i, r) && fd == w.conns[i].fd
      modifies this
      ensures Books(Settle(w, i, r))
    {
      hide Settle;
      SettleShape(w, i, r);
      callbacks := callbacks - {fd};
      OnClose(fd);
    }

    lemma StillOpen(w: World, i: nat, r: Handled)
      requires Books(w) && i < |w.conns| && !Closes(w, i, r)
      ensures Books(Settle(w, i, r))
    {
      hide Settle;
      SettleShape(w, i, r);
    }

    method OnClose(fd: int)
      modifies this`connections, this`count
      ensures connections == old(connections) - {fd} && count == old(count) - 1
    {
      connections := connections - {fd};
      count := count - 1;
    }

    method ForceClose(i: nat, ghost w: World)
      requires Agrees(w) && i < |table.conns|
      modifies loop
      ensures Agrees(ForceClosed(w, i))
    {
      if table.conns[i].state.Closed? {
        return;
      }
      loop.Defer(CloseTask(i));
    }

    /** The callback of a client socket, close callback included; `inputs` is what the
        reads returned. */
    method OnEvent(i: nat, readable: bool, writable: bool, broken: bool, available: string, sizes: seq<nat>,
                   last: ReadResult, outputs: seq<WriteResult>, ghost w: World)
        returns (message: Option<string>, spins: bool, ghost inputs: seq<ReadResult>)
      requires Agrees(w) && Inv(w) && CalmOk(w) && !w.hung
      requires i < |table.conns| && !w.conns[i].state.Closed? && (last.Bytes? ==> last.data == "")
      modifies this, loop, table, table.repr
      ensures var r := ConnectionMachine.OnEvent(w.conns[i], readable, writable, inputs, outputs);
              var v := Settle(w, i, r);
              && (spins <==> r.Spins?) && message == MessageOf(r)
              && if spins then Hangs(v, i) else Agrees(if broken then ForceClosed(v, i) else v)
    {
      hide Inv, CalmOk, Settle, ForceClosed, ConnectionMachine.OnEvent, Leads;
      var fd := table.conns[i].fd;
      ConnReady(w, i);
      message, spins, inputs := table.Handle(i, readable, writable, available, sizes, last, outputs, w.conns);
      ghost var r := ConnectionMachine.OnEvent(w.conns[i], readable, writable, inputs, outputs);
      Led(table.conns[i].View(), message, spins, r);
      HandlerSpins(w.conns[i], readable, writable, inputs, outputs);
      Conclude(fd, true, i, spins, w, r);
      if broken && !spins {
        ForceClose(i, Settle(w, i, r));
      }
    }

    /** The handler of connection i is over: if it has closed the connection, the books
        hear of it through the close callback. */
    method Conclude(fd: int, wasOpen: bool, i: nat, spins: bool, ghost w: World, ghost r: Handled)
      requires Books(w) && i < |w.conns| && fd == w.conns[i].fd && wasOpen == !w.conns[i].state.Closed?
      requires table.Valid() && |table.conns| == |w.conns| && table.conns[i].Valid()
      requires Conns(w.conns[i := if spins then table.conns[i].View() else r.conn])
      requires table.conns[i].state == r.conn.state
      requires spins ==> r.conn.state.Reading? && table.conns[i].View().(readBuf := "") == r.conn
      modifies this
      ensures if spins then Hangs(Settle(w, i, r), i) else Agrees(Settle(w, i, r))
    {
      hide Settle;
      SettleShape(w, i, r);
      if wasOpen && table.conns[i].state.Closed? {
        CloseBooks(fd, w, i, r);
      } else {
        StillOpen(w, i, r);
      }
      assert w.conns[i := r.conn][i := table.conns[i].View()] == w.conns[i := table.conns[i].View()];
    }

    /** A task handed back by the loop: a worker's response is sent, or the connection is
        closed. Together with the loop's bookkeeping it is one step of the system. */
    method RunTask(t: Task, outputs: seq<WriteResult>, ghost w: World)
        returns (message: Option<string>, spins: bool)
      requires CanRunTask(w, outputs) && t == CurrentTask(w)
      requires Agrees(w) && Inv(w) && CalmOk(w)
      modifies this, loop, table, table.repr
      ensures var v := TaskDone(w, outputs);
              && (spins <==> v.hung) && message == MessageOf(TaskResult(w, outputs))
              && if spins then Hangs(v, t.conn) else Agrees(v)
    {
      hide Inv, CalmOk, Settle, Leads, L.After, TaskDone;
      assert loop.now == w.loop && |table.conns| == |w.conns|;
      ghost var w1 := w.(loop := L.After(w.loop, L.RunOne));
      TaskTakes(w, outputs);
      loop.Took();
      match t
      case CloseTask(i) =>
        CloseInternal(i, w1);
        message, spins := None, false;
      case SendTask(i, _, data, keepAlive) =>
        ConnReady(w, i);
        message, spins := RunSend(i, data, keepAlive, outputs, w1);
    }

    method RunSend(i: nat, data: string, keepAlive: bool, outputs: seq<WriteResult>, ghost w: World)
        returns (message: Option<string>, spins: bool)
      requires Agrees(w) && i < |table.conns| && ConnInv(w.conns[i]) && Calm(w.conns[i])
      modifies this, table, table.repr
      ensures var r := Send(w.conns[i], data, keepAlive, outputs);
              && (spins <==> r.Spins?) && message == MessageOf(r)
              && if spins then Hangs(Settle(w, i, r), i) else Agrees(Settle(w, i, r))
    {
      hide ConnInv, Calm, Settle, Send, Leads;
      var fd, wasOpen := table.conns[i].fd, !table.conns[i].state.Closed?;
      message, spins := table.Send(i, data, keepAlive, outputs, w.conns);
      ghost var r := Send(w.conns[i], data, keepAlive, outputs);
      Led(table.conns[i].View(), message, spins, r);
      HandlerSpins(w.conns[i], false, false, [], outputs);
      Conclude(fd, wasOpen, i, spins, w, r);
    }

    /** One entry of the map: still fresh, or its close is deferred and the entry erased. */
    method VisitEntry(fd: int, stale: bool, ghost w: World, ghost order: seq<int>) returns (ghost next: seq<int>)
      requires Inv(w) && Cleanable(w) && Agrees(Cleaned(w, order))
      requires Distinct(order) && Members(order) <= w.registry.Keys && fd in w.registry && fd !in Members(order)
      modifies this`connections, loop
      ensures next == if stale then order + [fd] else order
      ensures Agrees(Cleaned(w, next))
    {
      hide Inv;
      next := order;
      if stale {
        next := order + [fd];
        assert next[..|order|] == order;
        ghost var v := Cleaned(w, order);
        CleanupDefersEachClose(w, order);
        RegistryOpen(v, fd);
        DropEntry(fd, v);
      }
    }

    method DropEntry(fd: int, ghost v: World)
      requires Agrees(v) && Enabled(v, CleanupOne(fd))
      modifies this`connections, loop
      ensures Agrees(After(v, CleanupOne(fd)))
    {
      hide ForceClosed;
      EraseLater(v, fd);
      ForceClose(connections[fd], v);
      connections := connections - {fd};
    }

    lemma EntryOf(w: World, order: seq<int>, fd: int)
      requires Inv(w) && Cleanable(w) && Agrees(Cleaned(w, order))
      requires Distinct(order) && Members(order) <= w.registry.Keys && fd in w.registry && fd !in Members(order)
      ensures fd in connections && connections[fd] == w.registry[fd] < |w.conns|
    {
      hide Inv, Cleaned, Conns;
      RegistryOpen(w, fd);
      CleanupDefersEachClose(w, order);
    }

    /** The cleanup pass over the map, in whatever order the map is walked; `order` are
        the descriptors it removed, those idle for too long. */
    method CleanupIdle(lastActive: seq<int>, time: int, timeout: int, ghost w: World) returns (ghost order: seq<int>)
      requires Agrees(w) && Inv(w) && Cleanable(w) && |lastActive| == |table.conns|
      modifies this`connections, loop
      ensures Agrees(Cleaned(w, order)) && Distinct(order)
      ensures forall fd :: fd in w.registry && w.registry[fd] < |lastActive| ==>
                (fd in Members(order) <==> time - lastActive[w.registry[fd]] > timeout)
      ensures Members(order) <= w.registry.Keys
    {
      hide Inv, Cleaned, Distinct;
      assert |lastActive| == |w.conns| && connections == w.registry;
      hide Conns, Books;
      order := [];
      var left := connections.Keys;
      ghost var seen := {};
      assert Agrees(Cleaned(w, order)) && Distinct(order) by { NothingCleaned(w); }
      while left != {}
        invariant Distinct(order) && Agrees(Cleaned(w, order))
        invariant seen !! left && seen + left == w.registry.Keys
        invariant Members(order) == Stale(w, seen, lastActive, time, timeout)
        decreases left
      {
        var fd := Pick(left);
        EntryOf(w, order, fd);
        var stale := time - lastActive[connections[fd]] > timeout;
        ghost var next := VisitEntry(fd, stale, w, order);
        OneMember(order, fd);
        left, seen, order := left - {fd}, seen + {fd}, next;
      }
    }
  }

  /** Erasing the entry and deferring the close are independent. */
  lemma EraseLater(v: World, fd: int)
    requires Enabled(v, CleanupOne(fd))
    ensures var u := ForceClosed(v, v.registry[fd]);
            && After(v, CleanupOne(fd)) == u.(registry := v.registry - {fd})
            && u.registry == v.registry && u.conns == v.conns
  {
    hide Defer;
  }

  lemma ConnReady(w: World, i: nat)
    requires Inv(w) && CalmOk(w) && !w.hung && i < |w.conns|
    ensures ConnInv(w.conns[i]) && Calm(w.conns[i])
  {
    hide L.Inv, TokensOk, WorkOk, RepliesOk, CountOk, ConnInv, Calm, FdsOk;
  }

  function Stale(w: World, fds: set<int>, lastActive: seq<int>, time: int, timeout: int): set<int> {
    set fd | fd in fds && fd in w.registry && w.registry[fd] < |lastActive| &&
             time - lastActive[w.registry[fd]] > timeout
  }

  /** The order in which a hash map is walked is not known. */
  method Pick(fds: set<int>) returns (fd: int)
    requires fds != {}
    ensures fd in fds
  {
    EmptyOrNot(fds);
    fd :| fd in fds;
  }

  lemma EmptyOrNot(fds: set<int>)
    ensures fds == {} || exists fd :: fd in fds
  {
    if !exists fd :: fd in fds {
      assert fds == {};
    }
  }

  lemma NothingCleaned(w: World)
    ensures Cleaned(w, []) == w && Distinct([])
  {
  }
}
