/** The gateway as a whole: connections, the loop thread with its deferred tasks, the
    worker pool and the descriptor registry, stepped in any interleaving.

    Loop-thread steps happen one at a time between entries of the event loop; worker
    steps and pushes come in between at any point. The kernel hands out any descriptor
    that is not open, so descriptors are reused. */
module Gateway {
  import opened Options
  import opened Bytes
  import opened ParserMachine
  import opened ConnectionMachine
  import opened Fragmentation
  import L = EventLoop

  /** `request` is the position of the request among those of its connection. */
  datatype Task =
    | SendTask(conn: nat, request: nat, data: string, keepAlive: bool)
    | CloseTask(conn: nat)

  datatype Job = Job(conn: nat, request: nat, raw: string)

  /** Connections are numbered in order of acceptance and stay in `conns` when closed.
      `queue` and `running` are the jobs of the worker pool, `replies` what the workers
      have answered. `hung` says that the loop thread spins in the parser. */
  datatype World = World(conns: seq<Conn>, loop: L.Loop<Task>,
                         queue: seq<Job>, running: seq<Job>, replies: map<(nat, nat), string>,
                         registry: map<int, nat>, callbacks: map<int, nat>,
                         count: int, hung: bool,
                         maxConnections: int, queueMax: nat, limit: nat)

  datatype Action =
    | Accept(fd: int)
    | Event(fd: int, readable: bool, writable: bool, broken: bool,
            inputs: seq<ReadResult>, outputs: seq<WriteResult>)
    | CleanupOne(fd: int)
    | TakeJob
    | Reply(worker: nat, data: string, keepAlive: bool)
    | LoopStep(step: L.Step<Task>)
    | RunTask(outputs: seq<WriteResult>)

  function Start(maxConnections: int, queueMax: nat, limit: nat, perRound: int): World {
    World([], L.Start<Task>(perRound), [], [], map[], map[], map[], 0, false, maxConnections, queueMax, limit)
  }

  // ---- steps ----

  /** The loop thread defers a task itself: push and write. */
  function Defer(loop: L.Loop<Task>, t: Task): L.Loop<Task> {
    var pushed := L.After(loop, L.Push(t));
    L.After(pushed, L.Write)
  }

  /** The result of a handler takes effect: a message goes to the pool, a close removes
      the descriptor everywhere. */
  function Settle(w: World, i: nat, r: Handled): (v: World)
    requires i < |w.conns|
    ensures |v.conns| == |w.conns|
  {
    var c := w.conns[i];
    var w1 := w.(conns := w.conns[i := r.conn]);
    var w2 := if r.conn.state.Closed? && !c.state.Closed? then
                w1.(registry := w1.registry - {c.fd}, callbacks := w1.callbacks - {c.fd}, count := w1.count - 1)
              else w1;
    match MessageOf(r)
    case None => w2
    case Some(m) => w2.(queue := w2.queue + [Job(i, |c.delivered|, m)])
  }

  predicate Room(w: World, r: Handled) {
    MessageOf(r).Some? ==> w.queueMax == 0 || |w.queue| < w.queueMax
  }

  function EventResult(w: World, a: Action): Handled
    requires a.Event? && a.fd in w.callbacks && w.callbacks[a.fd] < |w.conns|
  {
    OnEvent(w.conns[w.callbacks[a.fd]], a.readable, a.writable, a.inputs, a.outputs)
  }

  function CurrentTask(w: World): Task
    requires L.Enabled(w.loop, L.RunOne)
  {
    w.loop.phase.batch[w.loop.phase.done]
  }

  function TaskResult(w: World, outputs: seq<WriteResult>): Handled
    requires L.Enabled(w.loop, L.RunOne) && CurrentTask(w).conn < |w.conns|
  {
    match CurrentTask(w)
    case SendTask(i, _, data, keepAlive) => Send(w.conns[i], data, keepAlive, outputs)
    case CloseTask(i) => Handled(Close(w.conns[i]), None)
  }

  /** The kernel may hand out any descriptor that no open connection holds. */
  predicate Free(w: World, fd: int) {
    fd >= 0 && forall i :: 0 <= i < |w.conns| && !w.conns[i].state.Closed? ==> w.conns[i].fd != fd
  }

  predicate Enabled(w: World, a: Action) {
    match a
    case Accept(fd) => !w.hung && w.loop.phase.Waiting? && Free(w, fd)
    case Event(fd, _, _, _, _, _) =>
      && !w.hung && w.loop.phase.Waiting? && fd in w.callbacks && w.callbacks[fd] < |w.conns|
      && Room(w, EventResult(w, a))
    case CleanupOne(fd) => !w.hung && w.loop.phase.Waiting? && fd in w.registry && w.registry[fd] < |w.conns|
    case TakeJob => w.queue != []
    case Reply(k, _, _) => k < |w.running|
    case LoopStep(step) =>
      && !step.Push? && !step.RunOne? && L.Enabled(w.loop, step)
      && (w.hung ==> step.Write? || step.Kick?)
    case RunTask(outputs) => CanRunTask(w, outputs)
  }

  predicate CanRunTask(w: World, outputs: seq<WriteResult>) {
    && !w.hung && L.Enabled(w.loop, L.RunOne) && CurrentTask(w).conn < |w.conns|
    && Room(w, TaskResult(w, outputs))
  }

  /** The accept callback: refuse beyond the limit, otherwise register everywhere. */
  function Accepted(w: World, fd: int): World {
    if w.maxConnections > 0 && w.count >= w.maxConnections then w
    else
      w.(conns := w.conns + [Opened(fd, w.limit)], callbacks := w.callbacks[fd := |w.conns|],
         registry := w.registry[fd := |w.conns|], count := w.count + 1)
  }

  /** A worker answers: the reply is recorded and pushed to the loop. */
  function Replied(w: World, k: nat, data: string, keepAlive: bool): World
    requires k < |w.running|
  {
    var j := w.running[k];
    w.(running := w.running[..k] + w.running[k + 1..],
       replies := w.replies[(j.conn, j.request) := data],
       loop := L.After(w.loop, L.Push(SendTask(j.conn, j.request, data, keepAlive))))
  }

  /** `force_close`. */
  function ForceClosed(w: World, i: nat): World
    requires i < |w.conns|
  {
    if w.conns[i].state.Closed? then w else w.(loop := Defer(w.loop, CloseTask(i)))
  }

  function After(w: World, a: Action): World
    requires Enabled(w, a)
  {
    match a
    case Accept(fd) => Accepted(w, fd)
    case Event(fd, _, _, broken, _, _) =>
      var i := w.callbacks[fd];
      var r := EventResult(w, a);
      var v := Settle(w, i, r);
      if r.Spins? then v.(hung := true) else if broken then ForceClosed(v, i) else v
    case CleanupOne(fd) => ForceClosed(w.(registry := w.registry - {fd}), w.registry[fd])
    case TakeJob => w.(queue := w.queue[1..], running := w.running + [w.queue[0]])
    case Reply(k, data, keepAlive) => Replied(w, k, data, keepAlive)
    case LoopStep(step) => w.(loop := L.After(w.loop, step))
    case RunTask(outputs) =>
      var r := TaskResult(w, outputs);
      var v := Settle(w.(loop := L.After(w.loop, L.RunOne)), CurrentTask(w).conn, r);
      if r.Spins? then v.(hung := true) else v
  }

  // ---- requests under way ----

  function JobsFor(jobs: seq<Job>, i: nat): nat {
    if jobs == [] then 0 else (if jobs[0].conn == i then 1 else 0) + JobsFor(jobs[1..], i)
  }

  function SendsFor(tasks: seq<Task>, i: nat): nat {
    if tasks == [] then 0
    else (if tasks[0].SendTask? && tasks[0].conn == i then 1 else 0) + SendsFor(tasks[1..], i)
  }

  lemma {:induction false} JobsForAppend(a: seq<Job>, b: seq<Job>, i: nat)
    ensures JobsFor(a + b, i) == JobsFor(a, i) + JobsFor(b, i)
  {
    if a == [] {
      assert a + b == b;
    } else {
      JobsForAppend(a[1..], b, i);
      assert (a + b)[1..] == a[1..] + b;
    }
  }

  lemma {:induction false} SendsForAppend(a: seq<Task>, b: seq<Task>, i: nat)
    ensures SendsFor(a + b, i) == SendsFor(a, i) + SendsFor(b, i)
  {
    if a == [] {
      assert a + b == b;
    } else {
      SendsForAppend(a[1..], b, i);
      assert (a + b)[1..] == a[1..] + b;
    }
  }

  lemma JobsForWithout(jobs: seq<Job>, k: nat, i: nat)
    requires k < |jobs|
    ensures JobsFor(jobs, i) == JobsFor(jobs[..k] + jobs[k + 1..], i) + if jobs[k].conn == i then 1 else 0
  {
    assert jobs == jobs[..k] + ([jobs[k]] + jobs[k + 1..]);
    JobsForAppend(jobs[..k], [jobs[k]] + jobs[k + 1..], i);
    JobsForAppend(jobs[..k], jobs[k + 1..], i);
    assert ([jobs[k]] + jobs[k + 1..])[1..] == jobs[k + 1..];
  }

  lemma SendsForHas(tasks: seq<Task>, k: nat)
    requires k < |tasks| && tasks[k].SendTask?
    ensures SendsFor(tasks, tasks[k].conn) > 0
  {
    assert tasks == tasks[..k] + ([tasks[k]] + tasks[k + 1..]);
    SendsForAppend(tasks[..k], [tasks[k]] + tasks[k + 1..], tasks[k].conn);
  }

  /** How many requests of connection i are queued, being worked on, or answered and on
      their way back to the loop. */
  function Outstanding(w: World, i: nat): nat {
    JobsFor(w.queue, i) + JobsFor(w.running, i) + SendsFor(L.Todo(w.loop), i)
  }

  // ---- the invariant ----

  predicate Matches(c: Conn, n: nat) {
    if c.state.Processing? then n == 1 else if c.state.Closed? then n <= 1 else n == 0
  }

  /** One request outstanding exactly while Processing, none in any other open state. */
  ghost predicate TokensOk(w: World) {
    && (forall i :: 0 <= i < |w.conns| ==> Matches(w.conns[i], Outstanding(w, i)))
    && (forall i :: |w.conns| <= i ==> Outstanding(w, i) == 0)
  }

  predicate ConnsOk(w: World) {
    forall i :: 0 <= i < |w.conns| ==> ConnInv(w.conns[i]) && w.conns[i].limit == w.limit
  }

  predicate JobOk(w: World, j: Job) {
    && j.conn < |w.conns|
    && j.request + 1 == |w.conns[j.conn].delivered| && w.conns[j.conn].delivered[j.request] == j.raw
    && (j.conn, j.request) !in w.replies
  }

  predicate TaskOk(w: World, t: Task) {
    && t.conn < |w.conns|
    && (t.SendTask? ==>
          && t.request + 1 == |w.conns[t.conn].delivered|
          && (t.conn, t.request) in w.replies && w.replies[(t.conn, t.request)] == t.data)
  }

  predicate WorkOk(w: World) {
    && (forall k :: 0 <= k < |w.queue| ==> JobOk(w, w.queue[k]))
    && (forall k :: 0 <= k < |w.running| ==> JobOk(w, w.running[k]))
    && (forall k :: 0 <= k < |L.Todo(w.loop)| ==> TaskOk(w, L.Todo(w.loop)[k]))
  }

  /** Every response accepted for sending is the reply to the request at its position. */
  predicate Answered(w: World, i: nat, responses: seq<string>) {
    forall k :: 0 <= k < |responses| ==> (i, k) in w.replies && w.replies[(i, k)] == responses[k]
  }

  predicate RepliesOk(w: World) {
    && (forall i :: 0 <= i < |w.conns| ==> Answered(w, i, w.conns[i].responses))
    && (forall key :: key in w.replies ==> key.0 < |w.conns| && key.1 < |w.conns[key.0].delivered|)
  }

  /** A descriptor's entries belong to the one open connection that holds it. */
  predicate FdsOk(w: World) {
    && (forall fd :: fd in w.callbacks ==>
          fd >= 0 && w.callbacks[fd] < |w.conns| && w.conns[w.callbacks[fd]].fd == fd)
    && (forall i :: 0 <= i < |w.conns| && !w.conns[i].state.Closed? ==>
          w.conns[i].fd in w.callbacks && w.callbacks[w.conns[i].fd] == i)
    && (forall fd :: fd in w.registry ==> fd in w.callbacks && w.registry[fd] == w.callbacks[fd])
  }

  function OpenConns(w: World): set<nat> {
    set i | 0 <= i < |w.conns| && !w.conns[i].state.Closed?
  }

  predicate CountOk(w: World) {
    && w.count == |OpenConns(w)|
    && (w.maxConnections > 0 ==> w.count <= w.maxConnections)
  }

  ghost predicate Inv(w: World) {
    && L.Inv(w.loop) && TokensOk(w) && ConnsOk(w) && WorkOk(w) && RepliesOk(w) && FdsOk(w) && CountOk(w)
  }

  /** Unless the loop thread hangs, no connection keeps its parser busy. */
  predicate CalmOk(w: World) {
    w.hung || forall i :: 0 <= i < |w.conns| ==> Calm(w.conns[i])
  }

  lemma StartInv(maxConnections: int, queueMax: nat, limit: nat, perRound: int)
    ensures var w := Start(maxConnections, queueMax, limit, perRound); Inv(w) && CalmOk(w)
  {
  }

  // ---- a handler's result keeps the invariant ----

  /** Everything but the token count of connection i. */
  ghost predicate Besides(w: World, i: nat) {
    && L.Inv(w.loop) && ConnsOk(w) && WorkOk(w) && RepliesOk(w) && FdsOk(w) && CountOk(w)
    && (forall j :: 0 <= j < |w.conns| && j != i ==> Matches(w.conns[j], Outstanding(w, j)))
    && (forall j :: |w.conns| <= j ==> Outstanding(w, j) == 0)
  }

  lemma NoWorkFor(w: World, i: nat)
    requires Outstanding(w, i) == 0
    ensures forall k :: 0 <= k < |w.queue| ==> w.queue[k].conn != i
    ensures forall k :: 0 <= k < |w.running| ==> w.running[k].conn != i
    ensures forall k :: 0 <= k < |L.Todo(w.loop)| && L.Todo(w.loop)[k].SendTask? ==> L.Todo(w.loop)[k].conn != i
  {
    hide L.Todo;
    forall k | 0 <= k < |w.queue| ensures w.queue[k].conn != i { JobsForWithout(w.queue, k, i); }
    forall k | 0 <= k < |w.running| ensures w.running[k].conn != i { JobsForWithout(w.running, k, i); }
    forall k | 0 <= k < |L.Todo(w.loop)| && L.Todo(w.loop)[k].SendTask?
      ensures L.Todo(w.loop)[k].conn != i
    {
      SendsForHas(L.Todo(w.loop), k);
    }
  }

  lemma OpenHasFd(c: Conn)
    requires ConnInv(c)
    ensures c.state.Closed? ==> c.fd == -1
    ensures !c.state.Closed? ==> c.fd >= 0
  {
    hide Concat, Deliver, Run, Step;
  }

  predicate Closes(w: World, i: nat, r: Handled)
    requires i < |w.conns|
  {
    r.conn.state.Closed? && !w.conns[i].state.Closed?
  }

  /** The fields of the world after a handler's result has taken effect. */
  lemma SettleShape(w: World, i: nat, r: Handled)
    requires i < |w.conns|
    ensures var v := Settle(w, i, r);
            var fd := w.conns[i].fd;
            && v.conns == w.conns[i := r.conn]
            && v.callbacks == (if Closes(w, i, r) then w.callbacks - {fd} else w.callbacks)
            && v.registry == (if Closes(w, i, r) then w.registry - {fd} else w.registry)
            && v.count == (if Closes(w, i, r) then w.count - 1 else w.count)
            && v.queue == w.queue +
                 (if MessageOf(r).Some? then [Job(i, |w.conns[i].delivered|, MessageOf(r).value)] else [])
            && v.loop == w.loop && v.running == w.running && v.replies == w.replies
            && v.maxConnections == w.maxConnections && v.limit == w.limit && v.hung == w.hung
  {
    match MessageOf(r)
    case None => assert w.queue + [] == w.queue;
    case Some(_) =>
  }

  lemma SettleFds(w: World, i: nat, r: Handled)
    requires i < |w.conns| && FdsOk(w)
    requires w.conns[i].state.Closed? ==> r.conn == w.conns[i]
    requires r.conn.state.Closed? ==> r.conn.fd == -1
    requires !r.conn.state.Closed? ==> r.conn.fd == w.conns[i].fd
    ensures FdsOk(Settle(w, i, r))
  {
    hide Settle;
    SettleShape(w, i, r);
  }

  lemma SettleCount(w: World, i: nat, r: Handled)
    requires i < |w.conns| && CountOk(w)
    requires w.conns[i].state.Closed? ==> r.conn == w.conns[i]
    ensures CountOk(Settle(w, i, r))
  {
    hide Settle;
    SettleShape(w, i, r);
    var v := Settle(w, i, r);
    if Closes(w, i, r) {
      assert OpenConns(v) == OpenConns(w) - {i};
      assert i in OpenConns(w);
    } else {
      assert OpenConns(v) == OpenConns(w);
    }
  }

  lemma SettleTokens(w: World, i: nat, r: Handled, j: nat)
    requires i < |w.conns|
    ensures Outstanding(Settle(w, i, r), j) == Outstanding(w, j) + if MessageOf(r).Some? && i == j then 1 else 0
  {
    hide L.Todo, Settle;
    SettleShape(w, i, r);
    if MessageOf(r).Some? {
      var job := Job(i, |w.conns[i].delivered|, MessageOf(r).value);
      JobsForAppend(w.queue, [job], j);
      assert [job][1..] == [];
    } else {
      assert w.queue + [] == w.queue;
    }
  }

  lemma SettleWork(w: World, i: nat, r: Handled)
    requires i < |w.conns| && WorkOk(w) && RepliesOk(w)
    requires MessageOf(r).None? ==> r.conn.delivered == w.conns[i].delivered
    requires MessageOf(r).Some? ==>
               r.conn.delivered == w.conns[i].delivered + [MessageOf(r).value] && Outstanding(w, i) == 0
    requires Answered(w, i, r.conn.responses)
    ensures WorkOk(Settle(w, i, r)) && RepliesOk(Settle(w, i, r))
  {
    hide JobsFor, SendsFor, L.Todo, Settle;
    SettleShape(w, i, r);
    if MessageOf(r).Some? {
      NoWorkFor(w, i);
    }
  }

  lemma SettleKeeps(w: World, i: nat, r: Handled)
    requires i < |w.conns| && Besides(w, i)
    requires Outcome(w.conns[i], r)
    requires w.conns[i].state.Closed? ==> r.conn == w.conns[i]
    requires if MessageOf(r).Some? then Outstanding(w, i) == 0 else Matches(r.conn, Outstanding(w, i))
    requires Answered(w, i, r.conn.responses)
    ensures Inv(Settle(w, i, r))
  {
    hide ConnInv, L.Inv, Outstanding, FdsOk, CountOk, WorkOk, RepliesOk, Settle;
    var v := Settle(w, i, r);
    SettleShape(w, i, r);
    OpenHasFd(r.conn);
    SettleFds(w, i, r);
    SettleCount(w, i, r);
    SettleWork(w, i, r);
    forall j: nat
      ensures Outstanding(v, j) == Outstanding(w, j) + if MessageOf(r).Some? && i == j then 1 else 0
    {
      SettleTokens(w, i, r, j);
    }
  }

  // ---- each step keeps the invariant ----

  lemma DeferTodo(loop: L.Loop<Task>, t: Task)
    requires L.Inv(loop)
    ensures L.Inv(Defer(loop, t)) && L.Todo(Defer(loop, t)) == L.Todo(loop) + [t]
  {
    hide L.Todo, L.InOrder, L.Awake;
    L.StepKeepsInv(loop, L.Push(t));
    L.TodoAfter(loop, L.Push(t));
    var pushed := L.After(loop, L.Push(t));
    L.StepKeepsInv(pushed, L.Write);
    L.TodoAfter(pushed, L.Write);
  }

  /** A change of the loop alone, described by what is left to do. */
  lemma LoopKeeps(w: World, loop: L.Loop<Task>, extra: seq<Task>)
    requires Inv(w) && L.Inv(loop) && L.Todo(loop) == L.Todo(w.loop) + extra
    requires forall k :: 0 <= k < |extra| ==> extra[k].CloseTask? && extra[k].conn < |w.conns|
    ensures Inv(w.(loop := loop))
  {
    hide L.Todo, L.Inv, ConnInv, JobsFor, FdsOk, CountOk, RepliesOk;
    var v := w.(loop := loop);
    forall i: nat
      ensures Outstanding(v, i) == Outstanding(w, i)
    {
      SendsForAppend(L.Todo(w.loop), extra, i);
      ClosesOnly(extra, i);
    }
    assert FdsOk(v) by { SameFds(w, v); }
    assert CountOk(v) by { SameCount(w, v); }
    assert RepliesOk(v) by { SameReplies(w, v); }
  }

  lemma {:induction false} ClosesOnly(tasks: seq<Task>, i: nat)
    requires forall k :: 0 <= k < |tasks| ==> tasks[k].CloseTask?
    ensures SendsFor(tasks, i) == 0
  {
    if tasks != [] {
      ClosesOnly(tasks[1..], i);
    }
  }

  lemma SameFds(w: World, v: World)
    requires FdsOk(w) && v.conns == w.conns && v.callbacks == w.callbacks
    requires v.registry.Keys <= w.registry.Keys && forall fd :: fd in v.registry ==> v.registry[fd] == w.registry[fd]
    ensures FdsOk(v)
  {
  }

  lemma SameCount(w: World, v: World)
    requires CountOk(w) && v.conns == w.conns && v.count == w.count && v.maxConnections == w.maxConnections
    ensures CountOk(v)
  {
    assert OpenConns(v) == OpenConns(w);
  }

  lemma SameReplies(w: World, v: World)
    requires RepliesOk(w) && v.conns == w.conns && v.replies == w.replies
    ensures RepliesOk(v)
  {
    forall i | 0 <= i < |v.conns| ensures Answered(v, i, v.conns[i].responses) {
      assert Answered(w, i, w.conns[i].responses);
    }
  }

  lemma SameTokens(w: World, v: World, i: nat)
    requires v.queue == w.queue && v.running == w.running && v.loop == w.loop
    ensures Outstanding(v, i) == Outstanding(w, i)
  {
  }

  lemma AcceptedShape(w: World, fd: int)
    requires !(w.maxConnections > 0 && w.count >= w.maxConnections)
    ensures var v := Accepted(w, fd);
            && v.conns == w.conns + [Opened(fd, w.limit)] && v.limit == w.limit
            && v.callbacks == w.callbacks[fd := |w.conns|] && v.registry == w.registry[fd := |w.conns|]
            && v.count == w.count + 1 && v.maxConnections == w.maxConnections
            && v.queue == w.queue && v.running == w.running && v.loop == w.loop && v.replies == w.replies
  {
  }

  lemma AcceptFds(w: World, fd: int)
    requires FdsOk(w) && fd >= 0 && fd !in w.callbacks
    requires !(w.maxConnections > 0 && w.count >= w.maxConnections)
    ensures FdsOk(Accepted(w, fd))
  {
    hide Accepted;
    AcceptedShape(w, fd);
    var v := Accepted(w, fd);
    assert forall i :: 0 <= i < |w.conns| ==> v.conns[i] == w.conns[i];
    assert forall g :: g in v.callbacks ==> g == fd || (g in w.callbacks && v.callbacks[g] == w.callbacks[g]);
  }

  lemma AcceptCount(w: World, fd: int)
    requires CountOk(w)
    requires !(w.maxConnections > 0 && w.count >= w.maxConnections)
    ensures CountOk(Accepted(w, fd))
  {
    hide Accepted;
    AcceptedShape(w, fd);
    assert OpenConns(Accepted(w, fd)) == OpenConns(w) + {|w.conns|};
  }

  lemma AcceptWork(w: World, fd: int)
    requires WorkOk(w) && RepliesOk(w)
    requires !(w.maxConnections > 0 && w.count >= w.maxConnections)
    ensures WorkOk(Accepted(w, fd)) && RepliesOk(Accepted(w, fd))
  {
    hide Accepted, L.Todo;
    AcceptedShape(w, fd);
    var v := Accepted(w, fd);
    assert forall i :: 0 <= i < |w.conns| ==> v.conns[i] == w.conns[i];
    forall i | 0 <= i < |v.conns| ensures Answered(v, i, v.conns[i].responses) {
      assert i < |w.conns| ==> Answered(w, i, w.conns[i].responses);
    }
  }

  lemma AcceptKeeps(w: World, fd: int)
    requires Inv(w) && fd >= 0 && fd !in w.callbacks
    ensures Inv(Accepted(w, fd))
  {
    hide L.Inv, Outstanding, ConnInv, FdsOk, CountOk, WorkOk, RepliesOk;
    if !(w.maxConnections > 0 && w.count >= w.maxConnections) {
      var v := Accepted(w, fd);
      OpenedInv(fd, w.limit);
      AcceptFds(w, fd);
      AcceptCount(w, fd);
      AcceptWork(w, fd);
      forall i: nat ensures Outstanding(v, i) == Outstanding(w, i) { SameTokens(w, v, i); }
    }
  }

  lemma TakeJobKeeps(w: World, v: World)
    requires Inv(w) && w.queue != [] && v == w.(queue := w.queue[1..], running := w.running + [w.queue[0]])
    ensures Inv(v)
  {
    hide L.Todo, L.Inv, ConnInv, FdsOk, CountOk, RepliesOk;
    forall i: nat
      ensures Outstanding(v, i) == Outstanding(w, i)
    {
      JobsForAppend(w.running, [w.queue[0]], i);
      assert [w.queue[0]][1..] == [];
    }
    SameFds(w, v);
    SameCount(w, v);
    SameReplies(w, v);
  }

  lemma ForceCloseKeeps(w: World, i: nat)
    requires Inv(w) && i < |w.conns|
    ensures Inv(ForceClosed(w, i))
  {
    hide Inv, Defer;
    if !w.conns[i].state.Closed? {
      InvLoop(w);
      DeferTodo(w.loop, CloseTask(i));
      LoopKeeps(w, Defer(w.loop, CloseTask(i)), [CloseTask(i)]);
    }
  }

  lemma InvLoop(w: World)
    requires Inv(w)
    ensures L.Inv(w.loop)
  {
  }

  lemma CleanupKeeps(w: World, fd: int)
    requires Inv(w) && fd in w.registry
    ensures Inv(w.(registry := w.registry - {fd}))
  {
    hide L.Todo, L.Inv, ConnInv, FdsOk, CountOk, RepliesOk, JobsFor, SendsFor;
    var v := w.(registry := w.registry - {fd});
    SameFds(w, v);
    SameCount(w, v);
    SameReplies(w, v);
    forall i: nat ensures Outstanding(v, i) == Outstanding(w, i) { SameTokens(w, v, i); }
  }

  /** The job a worker holds is the only thing outstanding for its connection. */
  lemma OnlyToken(w: World, k: nat)
    requires TokensOk(w) && k < |w.running|
    ensures var c := w.running[k].conn;
            && c < |w.conns|
            && Outstanding(w.(running := w.running[..k] + w.running[k + 1..]), c) == 0
  {
    hide L.Todo, JobsFor, SendsFor;
    var c := w.running[k].conn;
    JobsForWithout(w.running, k, c);
    assert Outstanding(w, c) >= 1;
    assert c < |w.conns| ==> Matches(w.conns[c], Outstanding(w, c));
  }

  lemma RepliedTokens(w: World, k: nat, data: string, keepAlive: bool, i: nat)
    requires L.Inv(w.loop) && k < |w.running|
    ensures Outstanding(Replied(w, k, data, keepAlive), i) == Outstanding(w, i)
  {
    hide L.Todo, L.Inv, JobsFor;
    var j := w.running[k];
    var t := SendTask(j.conn, j.request, data, keepAlive);
    L.TodoAfter(w.loop, L.Push(t));
    SendsForAppend(L.Todo(w.loop), [t], i);
    assert [t][1..] == [];
    JobsForWithout(w.running, k, i);
  }

  lemma RepliedWork(w: World, k: nat, data: string, keepAlive: bool)
    requires TokensOk(w) && WorkOk(w) && L.Inv(w.loop) && k < |w.running|
    ensures WorkOk(Replied(w, k, data, keepAlive))
  {
    hide L.Todo, L.Inv, JobsFor, SendsFor, Outstanding, L.After;
    var j := w.running[k];
    var t := SendTask(j.conn, j.request, data, keepAlive);
    assert JobOk(w, j);
    OnlyToken(w, k);
    var rest := w.(running := w.running[..k] + w.running[k + 1..]);
    NoWorkFor(rest, j.conn);
    L.TodoAfter(w.loop, L.Push(t));
    var v := Replied(w, k, data, keepAlive);
    forall n | 0 <= n < |v.queue| ensures JobOk(v, v.queue[n]) {
      assert JobOk(w, w.queue[n]) && rest.queue[n].conn != j.conn;
    }
    forall n | 0 <= n < |v.running| ensures JobOk(v, v.running[n]) {
      assert JobOk(w, v.running[n]) && rest.running[n].conn != j.conn;
    }
    forall n | 0 <= n < |L.Todo(v.loop)| ensures TaskOk(v, L.Todo(v.loop)[n]) {
      assert n < |L.Todo(w.loop)| ==> TaskOk(w, L.Todo(w.loop)[n]);
    }
  }

  lemma RepliedReplies(w: World, k: nat, data: string, keepAlive: bool)
    requires WorkOk(w) && RepliesOk(w) && k < |w.running|
    ensures RepliesOk(Replied(w, k, data, keepAlive))
  {
    hide L.Todo, L.After;
    var v := Replied(w, k, data, keepAlive);
    assert JobOk(w, w.running[k]);
    forall i | 0 <= i < |v.conns| ensures Answered(v, i, v.conns[i].responses) {
      assert Answered(w, i, w.conns[i].responses);
    }
  }

  lemma ReplyKeeps(w: World, k: nat, data: string, keepAlive: bool)
    requires Inv(w) && k < |w.running|
    ensures Inv(Replied(w, k, data, keepAlive))
  {
    hide L.Inv, L.After, Outstanding, ConnInv, FdsOk, CountOk, WorkOk, RepliesOk;
    var v := Replied(w, k, data, keepAlive);
    var j := w.running[k];
    L.StepKeepsInv(w.loop, L.Push(SendTask(j.conn, j.request, data, keepAlive)));
    RepliedWork(w, k, data, keepAlive);
    RepliedReplies(w, k, data, keepAlive);
    SameFds(w, v);
    SameCount(w, v);
    forall i: nat ensures Outstanding(v, i) == Outstanding(w, i) { RepliedTokens(w, k, data, keepAlive, i); }
  }

  lemma CloseOutcome(c: Conn)
    requires ConnInv(c)
    ensures Outcome(c, Handled(Close(c), None)) && Close(c).responses == c.responses
  {
    hide Concat, Deliver, Run, Step;
  }

  lemma EventKeeps(w: World, i: nat, r: Handled)
    requires Inv(w) && i < |w.conns| && Outcome(w.conns[i], r)
    requires r.conn.responses == w.conns[i].responses
    requires w.conns[i].state.Closed? ==> r.conn == w.conns[i]
    requires MessageOf(r).None? ==> r.conn.state.Processing? == w.conns[i].state.Processing? || r.conn.state.Closed?
    requires MessageOf(r).Some? ==> w.conns[i].state.Reading? || w.conns[i].state.Writing?
    ensures Inv(Settle(w, i, r))
  {
    hide L.Inv, Outstanding, ConnInv, FdsOk, CountOk, WorkOk, Settle;
    assert Answered(w, i, w.conns[i].responses);
    assert Matches(w.conns[i], Outstanding(w, i));
    SettleKeeps(w, i, r);
  }

  /** The world with the current task taken off the list. */
  lemma TaskTaken(w: World)
    requires Inv(w) && L.Enabled(w.loop, L.RunOne)
    ensures var t := CurrentTask(w);
            var v := w.(loop := L.After(w.loop, L.RunOne));
            && TaskOk(w, t)
            && Besides(v, t.conn)
            && Outstanding(w, t.conn) == Outstanding(v, t.conn) + if t.SendTask? then 1 else 0
  {
    hide ConnInv, FdsOk, CountOk, RepliesOk, JobsFor, L.Todo, L.Inv, L.After;
    var t := CurrentTask(w);
    var v := w.(loop := L.After(w.loop, L.RunOne));
    L.StepKeepsInv(w.loop, L.RunOne);
    L.TodoAfter(w.loop, L.RunOne);
    assert L.Todo(w.loop)[0] == t;
    forall i: nat
      ensures Outstanding(w, i) == Outstanding(v, i) + if t.SendTask? && t.conn == i then 1 else 0
    {
      assert L.Todo(w.loop)[1..] == L.Todo(v.loop);
    }
    forall k | 0 <= k < |L.Todo(v.loop)| ensures TaskOk(v, L.Todo(v.loop)[k]) {
      assert TaskOk(w, L.Todo(w.loop)[k + 1]);
    }
    SameFds(w, v);
    SameCount(w, v);
    SameReplies(w, v);
  }

  lemma RunTaskKeeps(w: World, outputs: seq<WriteResult>)
    requires CanRunTask(w, outputs) && Inv(w)
    ensures Inv(Settle(w.(loop := L.After(w.loop, L.RunOne)), CurrentTask(w).conn, TaskResult(w, outputs)))
  {
    hide L.Inv, L.After, L.Todo, Outstanding, ConnInv, FdsOk, CountOk, WorkOk, Settle, Send, Close;
    var t := CurrentTask(w);
    var v := w.(loop := L.After(w.loop, L.RunOne));
    var c := w.conns[t.conn];
    TaskTaken(w);
    assert Matches(c, Outstanding(w, t.conn)) && Answered(v, t.conn, c.responses);
    var r := TaskResult(w, outputs);
    match t
    case SendTask(i, request, data, keepAlive) =>
      SendKeeps(c, data, keepAlive, outputs);
      if c.state.Closed? {
        ClosedOutcome(c);
      } else {
        SendPosition(c);
      }
      SettleKeeps(v, i, r);
    case CloseTask(i) =>
      CloseOutcome(c);
      CloseStates(c);
      SettleKeeps(v, i, r);
  }

  lemma SendPosition(c: Conn)
    requires ConnInv(c) && c.state.Processing?
    ensures |c.responses| + 1 == |c.delivered|
  {
    hide Concat, Deliver, Run, Step;
  }

  lemma ClosedOutcome(c: Conn)
    requires ConnInv(c)
    ensures Outcome(c, Handled(c, None))
  {
  }

  lemma CloseStates(c: Conn)
    ensures Close(c).state.Closed? && (c.state.Closed? ==> Close(c) == c)
  {
  }

  lemma StepKeepsInv(w: World, a: Action)
    requires Inv(w) && Enabled(w, a)
    ensures Inv(After(w, a))
  {
    hide Settle, TaskResult, EventResult, Replied, Accepted, ForceClosed, TokensOk, ConnsOk, WorkOk, RepliesOk, CountOk;
    match a
    case Accept(fd) =>
      if fd in w.callbacks {
        OpenCallback(w, fd);
      }
      AcceptKeeps(w, fd);
    case Event(_, _, _, _, _, _) => EventStepKeeps(w, a);
    case CleanupOne(fd) =>
      CleanupKeeps(w, fd);
      ForceCloseKeeps(w.(registry := w.registry - {fd}), w.registry[fd]);
    case TakeJob => TakeJobKeeps(w, After(w, a));
    case Reply(k, data, keepAlive) => ReplyKeeps(w, k, data, keepAlive);
    case LoopStep(step) =>
      L.StepKeepsInv(w.loop, step);
      L.TodoAfter(w.loop, step);
      LoopKeeps(w, L.After(w.loop, step), []);
    case RunTask(outputs) =>
      RunTaskKeeps(w, outputs);
      HangKeeps(Settle(w.(loop := L.After(w.loop, L.RunOne)), CurrentTask(w).conn, TaskResult(w, outputs)));
  }

  lemma HangKeeps(w: World)
    requires Inv(w)
    ensures Inv(w.(hung := true))
  {
    hide L.Todo, L.Inv, ConnInv, FdsOk, CountOk, RepliesOk, JobsFor, SendsFor;
    var v := w.(hung := true);
    SameFds(w, v);
    SameCount(w, v);
    SameReplies(w, v);
    forall i: nat ensures Outstanding(v, i) == Outstanding(w, i) { SameTokens(w, v, i); }
  }

  lemma EventStepKeeps(w: World, a: Action)
    requires Inv(w) && a.Event? && Enabled(w, a)
    ensures Inv(After(w, a))
  {
    hide L.Inv, Outstanding, ConnInv, FdsOk, CountOk, WorkOk, RepliesOk, Settle, OnEvent, ForceClosed, TokensOk;
    var i := w.callbacks[a.fd];
    var r := EventResult(w, a);
    OnEventKeeps(w.conns[i], a.readable, a.writable, a.inputs, a.outputs);
    OpenCallback(w, a.fd);
    EventKeeps(w, i, r);
    if r.Spins? {
      HangKeeps(Settle(w, i, r));
    } else if a.broken {
      ForceCloseKeeps(Settle(w, i, r), i);
    }
  }

  lemma OpenCallback(w: World, fd: int)
    requires FdsOk(w) && ConnsOk(w) && fd in w.callbacks
    ensures w.callbacks[fd] < |w.conns| && !w.conns[w.callbacks[fd]].state.Closed?
  {
    OpenHasFd(w.conns[w.callbacks[fd]]);
  }

  // ---- no busy parser while the loop runs ----

  lemma SettleCalm(w: World, i: nat, r: Handled)
    requires i < |w.conns| && CalmOk(w) && (r.Handled? ==> Calm(r.conn))
    ensures CalmOk(Settle(w, i, r).(hung := true))
    ensures r.Handled? ==> CalmOk(Settle(w, i, r))
  {
    hide Settle, Calm;
    SettleShape(w, i, r);
  }

  lemma ForceClosedCalm(w: World, i: nat)
    requires i < |w.conns| && CalmOk(w)
    ensures CalmOk(ForceClosed(w, i))
  {
    hide Defer, Calm;
  }

  lemma TaskCalm(w: World, outputs: seq<WriteResult>)
    requires CanRunTask(w, outputs) && Inv(w) && CalmOk(w) && TaskResult(w, outputs).Handled?
    ensures Calm(TaskResult(w, outputs).conn)
  {
    hide L.Inv, L.After, L.Todo, ConnInv, FdsOk, CountOk, Outstanding, Send, WorkOk, RepliesOk, Stuck;
    var t := CurrentTask(w);
    var c := w.conns[t.conn];
    TaskTaken(w);
    assert Matches(c, Outstanding(w, t.conn)) && Calm(c);
    match t
    case SendTask(_, _, data, keepAlive) => SendKeeps(c, data, keepAlive, outputs);
    case CloseTask(_) => CloseStates(c);
  }

  lemma EventCalm(w: World, a: Action)
    requires Inv(w) && a.Event? && Enabled(w, a) && CalmOk(w) && EventResult(w, a).Handled?
    ensures Calm(EventResult(w, a).conn)
  {
    hide L.Inv, L.After, L.Todo, ConnInv, FdsOk, CountOk, Outstanding, OnEvent, WorkOk, RepliesOk, Stuck;
    OnEventKeeps(w.conns[w.callbacks[a.fd]], a.readable, a.writable, a.inputs, a.outputs);
  }

  lemma StepKeepsCalm(w: World, a: Action)
    requires Inv(w) && Enabled(w, a) && CalmOk(w)
    ensures CalmOk(After(w, a))
  {
    hide Inv, L.After, Settle, TaskResult, EventResult, ForceClosed, Calm;
    match a
    case Accept(fd) => OpenedCalm(fd, w.limit);
    case Event(fd, _, _, _, _, _) =>
      var i, r := w.callbacks[fd], EventResult(w, a);
      if r.Handled? {
        EventCalm(w, a);
      }
      SettleCalm(w, i, r);
      if r.Handled? {
        ForceClosedCalm(Settle(w, i, r), i);
      }
    case CleanupOne(fd) => ForceClosedCalm(w.(registry := w.registry - {fd}), w.registry[fd]);
    case RunTask(outputs) =>
      var r := TaskResult(w, outputs);
      if r.Handled? {
        TaskCalm(w, outputs);
      }
      SettleCalm(w.(loop := L.After(w.loop, L.RunOne)), CurrentTask(w).conn, r);
    case _ =>
  }

  lemma OpenedCalm(fd: int, limit: nat)
    ensures Calm(Opened(fd, limit))
  {
  }

  // ---- what the steps are for ----

  /** A new client is taken in, with a connection of its own that reads, if and only if the
      limit is not positive or fewer connections are open; otherwise nothing changes. */
  lemma AcceptIff(w: World, fd: int)
    requires Inv(w) && Enabled(w, Accept(fd))
    ensures var v := After(w, Accept(fd));
            if w.maxConnections <= 0 || |OpenConns(w)| < w.maxConnections then
              && |v.conns| == |w.conns| + 1 && v.conns[..|w.conns|] == w.conns && v.count == w.count + 1
              && v.conns[|w.conns|].state.Reading? && v.conns[|w.conns|].fd == fd
              && fd in v.registry && v.registry[fd] == |w.conns| && fd in v.callbacks && v.callbacks[fd] == |w.conns|
            else v == w
  {
    hide L.Inv, TokensOk, ConnsOk, WorkOk, RepliesOk, FdsOk;
  }

  /** A socket that reports an error or a hang-up gets a deferred close, unless its handlers
      have closed it already. */
  lemma BrokenDefersClose(w: World, a: Action)
    requires Inv(w) && a.Event? && a.broken && Enabled(w, a) && !EventResult(w, a).Spins?
    ensures var i := w.callbacks[a.fd];
            var v := After(w, a);
            L.Todo(v.loop) == L.Todo(w.loop) + if v.conns[i].state.Closed? then [] else [CloseTask(i)]
  {
    hide L.Todo, L.Inv, Settle, OnEvent;
    var i := w.callbacks[a.fd];
    SettleShape(w, i, EventResult(w, a));
    DeferTodo(w.loop, CloseTask(i));
    assert L.Todo(w.loop) + [] == L.Todo(w.loop);
  }

  /** When a deferred close runs the connection is closed and forgotten everywhere. */
  lemma CloseTaskCloses(w: World, outputs: seq<WriteResult>)
    requires CanRunTask(w, outputs) && CurrentTask(w).CloseTask?
    ensures var i := CurrentTask(w).conn;
            var v := After(w, RunTask(outputs));
            && v.conns[i].state.Closed? && !v.hung
            && (!w.conns[i].state.Closed? ==>
                  && w.conns[i].fd !in v.callbacks && w.conns[i].fd !in v.registry && v.count == w.count - 1)
            && (w.conns[i].state.Closed? ==> v.count == w.count && v.callbacks == w.callbacks)
  {
    hide L.After, Settle;
    var t := CurrentTask(w);
    SettleShape(w.(loop := L.After(w.loop, L.RunOne)), t.conn, TaskResult(w, outputs));
  }

  // ---- every run ----

  ghost predicate Next(w: World, v: World) {
    exists a :: Enabled(w, a) && v == After(w, a)
  }

  ghost predicate IsRun(states: seq<World>) {
    && states != []
    && (exists maxConnections, queueMax, limit, perRound ::
          states[0] == Start(maxConnections, queueMax, limit, perRound))
    && forall n :: 0 <= n < |states| - 1 ==> Next(states[n], states[n + 1])
  }

  lemma {:induction false} EveryRunInv(states: seq<World>, n: nat)
    requires IsRun(states) && n < |states|
    ensures Inv(states[n]) && CalmOk(states[n])
    decreases n
  {
    hide Inv, CalmOk, After, Enabled, Start;
    if n == 0 {
      var maxConnections, queueMax, limit, perRound :|
        states[0] == Start(maxConnections, queueMax, limit, perRound);
      StartInv(maxConnections, queueMax, limit, perRound);
    } else {
      EveryRunInv(states, n - 1);
      assert Next(states[n - 1], states[n]);
      var a :| Enabled(states[n - 1], a) && states[n] == After(states[n - 1], a);
      StepKeepsInv(states[n - 1], a);
      StepKeepsCalm(states[n - 1], a);
    }
  }

  /** Requests and responses of one connection, in every state of every run: at most one
      request is outstanding, exactly one while Processing and none in the other open
      states; the bytes written are a prefix of the replies to its requests in request
      order; no byte received is lost, and back in Reading every message contained in
      the bytes received has been delivered, and unless the loop hangs, bytes can wait
      there only for the end of a line of the head. */
  lemma RequestsInOrder(states: seq<World>, n: nat, i: nat)
    requires IsRun(states) && n < |states| && i < |states[n].conns|
    ensures var w := states[n];
            var c := w.conns[i];
            && (c.state.Processing? ==> Outstanding(w, i) == 1)
            && (c.state.Reading? || c.state.Writing? || c.state.Closing? ==> Outstanding(w, i) == 0)
            && Outstanding(w, i) <= 1
            && c.written <= Concat(c.responses) && |c.responses| <= |c.delivered|
            && (forall k :: 0 <= k < |c.responses| ==> (i, k) in w.replies && w.replies[(i, k)] == c.responses[k])
            && c.delivered <= Deliver(Fresh(c.received, c.limit)).messages
            && (!c.state.Closed? ==>
                  c.core.Core? && c.readBuf == "" &&
                  c.received == Concat(c.delivered) + c.core.raw + c.core.partial)
            && (c.state.Reading? ==> c.delivered == Deliver(Fresh(c.received, c.limit)).messages)
            && (c.state.Reading? && !w.hung && c.core.partial != "" ==>
                  c.core.phase.RequestLine? || c.core.phase.Headers?)
  {
    hide L.Inv, Outstanding, Concat, Deliver, Run, Step;
    EveryRunInv(states, n);
    var w := states[n];
    var c := w.conns[i];
    assert Matches(c, Outstanding(w, i)) && Answered(w, i, c.responses) && ConnInv(c);
    if c.state.Reading? {
      NothingStranded(c);
      if !w.hung && !c.core.phase.RequestLine? && !c.core.phase.Headers? {
        HeldAfterHeaders(c);
      }
    }
  }

  /** Descriptors in every state of every run, however the kernel reuses them: what the
      loop and the registry hold for a descriptor is the one open connection that owns
      it; the close callback has run at most once; the counter is the number of open
      connections and respects a positive limit. */
  lemma DescriptorsOwned(states: seq<World>, n: nat)
    requires IsRun(states) && n < |states|
    ensures var w := states[n];
            && (forall fd :: fd in w.callbacks ==>
                  && w.callbacks[fd] < |w.conns|
                  && w.conns[w.callbacks[fd]].fd == fd && !w.conns[w.callbacks[fd]].state.Closed?)
            && (forall fd :: fd in w.registry ==> fd in w.callbacks && w.registry[fd] == w.callbacks[fd])
            && (forall i, j :: 0 <= i < j < |w.conns| && !w.conns[i].state.Closed? && !w.conns[j].state.Closed? ==>
                  w.conns[i].fd != w.conns[j].fd)
            && (forall i :: 0 <= i < |w.conns| ==> w.conns[i].closes == if w.conns[i].state.Closed? then 1 else 0)
            && w.count == |OpenConns(w)|
            && (w.maxConnections > 0 ==> w.count <= w.maxConnections)
  {
    hide L.Inv, Outstanding, Concat, Deliver, Run, Step, WorkOk, RepliesOk;
    EveryRunInv(states, n);
    var w := states[n];
    forall fd | fd in w.callbacks ensures !w.conns[w.callbacks[fd]].state.Closed? {
      OpenCallback(w, fd);
    }
    forall i | 0 <= i < |w.conns|
      ensures w.conns[i].closes == if w.conns[i].state.Closed? then 1 else 0
    {
      assert ConnInv(w.conns[i]);
    }
  }

  // ---- what a step never undoes ----

  /** A response that reaches a connection which is no longer waiting for it, because it
      was closed meanwhile, changes nothing on any connection. */
  lemma LateSendChangesNothing(w: World, outputs: seq<WriteResult>, t: Task, v: World)
    requires CanRunTask(w, outputs) && t == CurrentTask(w) && v == After(w, RunTask(outputs))
    requires t.SendTask? && t.conn < |w.conns| && !w.conns[t.conn].state.Processing?
    requires Inv(w)
    ensures w.conns[t.conn].state.Closed?
    ensures v.conns == w.conns && v.queue == w.queue && v.callbacks == w.callbacks
  {
    hide L.Inv, L.After, L.Todo, ConnInv, FdsOk, CountOk, WorkOk, RepliesOk;
    var c := w.conns[t.conn];
    TaskTaken(w);
    assert Matches(c, Outstanding(w, t.conn));
    assert w.conns[t.conn := c] == w.conns;
  }

  ghost predicate OnlyAdds(w: World, v: World) {
    && (forall key :: key in w.replies ==> key in v.replies && v.replies[key] == w.replies[key])
    && |w.conns| <= |v.conns|
    && (forall i :: 0 <= i < |w.conns| ==>
          w.conns[i].written <= v.conns[i].written && w.conns[i].delivered <= v.conns[i].delivered)
  }

  lemma SettleAdds(w: World, i: nat, r: Handled)
    requires i < |w.conns|
    requires w.conns[i].written <= r.conn.written && w.conns[i].delivered <= r.conn.delivered
    ensures OnlyAdds(w, Settle(w, i, r))
  {
    hide Settle;
    SettleShape(w, i, r);
  }

  /** No reply is ever replaced, so each request is answered at most once; and what has
      been written or delivered stays. */
  lemma StepOnlyAdds(w: World, a: Action)
    requires Inv(w) && Enabled(w, a)
    ensures OnlyAdds(w, After(w, a))
  {
    hide Inv, L.After, Settle, TaskResult, EventResult, OnlyAdds, Replied, Accepted, ForceClosed;
    match a
    case Accept(fd) => AcceptAdds(w, fd);
    case Event(_, _, _, _, _, _) => EventAdds(w, a);
    case CleanupOne(fd) => ForceCloseAdds(w, w.(registry := w.registry - {fd}), w.registry[fd]);
    case TakeJob => SameAdds(w, After(w, a));
    case Reply(k, data, keepAlive) => ReplyAdds(w, k, data, keepAlive);
    case LoopStep(_) => SameAdds(w, After(w, a));
    case RunTask(outputs) =>
      var v := w.(loop := L.After(w.loop, L.RunOne));
      var i, r := CurrentTask(w).conn, TaskResult(w, outputs);
      TaskAdds(w, outputs);
      SettleAdds(v, i, r);
      AddsFrom(w, v, Settle(v, i, r));
      HungAdds(w, Settle(v, i, r));
  }

  lemma SameAdds(w: World, v: World)
    requires v.conns == w.conns && v.replies == w.replies
    ensures OnlyAdds(w, v)
  {
  }

  lemma HungAdds(w: World, v: World)
    requires OnlyAdds(w, v)
    ensures OnlyAdds(w, v.(hung := true))
  {
  }

  lemma AddsFrom(w: World, v: World, u: World)
    requires v.conns == w.conns && v.replies == w.replies && OnlyAdds(v, u)
    ensures OnlyAdds(w, u)
  {
  }

  lemma AcceptAdds(w: World, fd: int)
    ensures OnlyAdds(w, Accepted(w, fd))
  {
  }

  lemma ForceCloseAdds(w: World, v: World, i: nat)
    requires v.conns == w.conns && v.replies == w.replies && i < |w.conns|
    ensures OnlyAdds(w, ForceClosed(v, i))
  {
    hide Defer;
  }

  lemma ReplyAdds(w: World, k: nat, data: string, keepAlive: bool)
    requires Inv(w) && k < |w.running|
    ensures OnlyAdds(w, Replied(w, k, data, keepAlive))
  {
    hide L.Inv, L.After, L.Todo, ConnInv, FdsOk, CountOk, Outstanding, RepliesOk;
    assert JobOk(w, w.running[k]);
  }

  lemma EventAdds(w: World, a: Action)
    requires Inv(w) && a.Event? && Enabled(w, a)
    ensures OnlyAdds(w, After(w, a))
  {
    hide L.Inv, L.After, L.Todo, ConnInv, FdsOk, CountOk, Outstanding, OnEvent, Settle, WorkOk, RepliesOk;
    var i := w.callbacks[a.fd];
    var r := EventResult(w, a);
    OnEventKeeps(w.conns[i], a.readable, a.writable, a.inputs, a.outputs);
    SettleAdds(w, i, r);
    HungAdds(w, Settle(w, i, r));
    if a.broken {
      assert OnlyAdds(w, ForceClosed(Settle(w, i, r), i));
    }
  }

  lemma TaskAdds(w: World, outputs: seq<WriteResult>)
    requires CanRunTask(w, outputs) && Inv(w)
    ensures var r := TaskResult(w, outputs);
            var c := w.conns[CurrentTask(w).conn];
            c.written <= r.conn.written && c.delivered <= r.conn.delivered
  {
    hide L.Inv, L.After, L.Todo, ConnInv, FdsOk, CountOk, Outstanding, Send, Close, WorkOk, RepliesOk;
    var t := CurrentTask(w);
    var c := w.conns[t.conn];
    TaskTaken(w);
    assert Matches(c, Outstanding(w, t.conn));
    match t
    case SendTask(_, _, data, keepAlive) => SendKeeps(c, data, keepAlive, outputs);
    case CloseTask(_) => CloseOutcome(c);
  }

  // ---- the worker queue ----

  /** What came to the end of the queue while k jobs left at its front. */
  predicate FirstInFirstOut(before: seq<Job>, added: seq<Job>, k: nat, after: seq<Job>) {
    k <= |before + added| && after == (before + added)[k..]
  }

  lemma QueueStep(w: World, a: Action) returns (added: seq<Job>, k: nat)
    requires Enabled(w, a)
    ensures FirstInFirstOut(w.queue, added, k, After(w, a).queue)
    ensures k > 0 ==> k == 1 && After(w, a).running == w.running + [(w.queue + added)[0]]
  {
    hide Settle, L.After, OnEvent, TaskResult;
    added, k := [], if a.TakeJob? then 1 else 0;
    assert w.queue + [] == w.queue;
    match a
    case Event(fd, _, _, _, _, _) =>
      SettleShape(w, w.callbacks[fd], EventResult(w, a));
      added := After(w, a).queue[|w.queue|..];
    case RunTask(outputs) =>
      SettleShape(w.(loop := L.After(w.loop, L.RunOne)), CurrentTask(w).conn, TaskResult(w, outputs));
      added := After(w, a).queue[|w.queue|..];
    case _ =>
  }

  lemma TwoStretches(a: seq<Job>, b: seq<Job>, j: nat, c: seq<Job>, k: nat)
    requires j <= |a + b| && k <= |(a + b)[j..] + c|
    ensures ((a + b)[j..] + c)[k..] == (a + (b + c))[j + k..]
  {
    assert (a + b)[j..] + c == (a + (b + c))[j..];
  }

  /** Over any stretch of any run jobs join the queue at its end and leave it at its front. */
  lemma {:induction false} JobsTakenInOrder(states: seq<World>, n: nat, m: nat) returns (added: seq<Job>, k: nat)
    requires IsRun(states) && n <= m < |states|
    ensures FirstInFirstOut(states[n].queue, added, k, states[m].queue)
    decreases m
  {
    hide Enabled, After;
    if n == m {
      added, k := [], 0;
      assert states[n].queue + [] == states[n].queue;
    } else {
      var early, j := JobsTakenInOrder(states, n, m - 1);
      var l := m - 1;
      assert Next(states[l], states[l + 1]);
      var a :| Enabled(states[l], a) && states[m] == After(states[l], a);
      var late, i := QueueStep(states[l], a);
      TwoStretches(states[n].queue, early, j, late, i);
      added, k := early + late, j + i;
    }
  }
}
