/** Tasks handed to the loop thread by `defer`: a queue, an eventfd that wakes the loop,
    and rounds of bounded size. First the protocol as interleaved steps of the loop
    thread and of any number of pushers, then the object with its batch loops. */
module EventLoop {

  /** Where the loop thread is inside the wakeup handler. */
  datatype Phase<T> =
    | Waiting                                         // outside the handler
    | Drained                                         // eventfd read, queue not yet taken
    | Running(batch: seq<T>, done: nat, quota: nat)   // executing a round

  /** `executed`, `pushed` and `rounds` record history; `pushers` counts threads that
      have queued a task and not yet written the eventfd. */
  datatype Loop<T> = Loop(deferred: seq<T>, pending: seq<T>, eventfd: nat, pushers: nat,
                          phase: Phase<T>, limit: int,
                          executed: seq<T>, pushed: seq<T>, rounds: nat)

  datatype Step<T> =
    | Push(task: T)   // defer: queue under the lock
    | Write           // defer: write the eventfd
    | Kick            // stop(): a write without a task
    | Drain           // read the eventfd until empty
    | Swap            // take the queue under the lock, left-overs first
    | RunOne
    | Finish          // keep what is over the limit, wake up again for it

  /** An eventfd holds at most 2^64 - 2; a write to a full one is lost, but it is not
      empty then. */
  const EVENTFD_MAX: nat := 0xFFFF_FFFF_FFFF_FFFE

  function Bump(n: nat): nat {
    if n < EVENTFD_MAX then n + 1 else n
  }

  const INT_RANGE: int := 0x8000_0000

  /** The number of tasks is compared with the limit as a 32-bit int: the int that differs
      from it by a multiple of 2^32. */
  function Narrowed(n: nat): (r: int)
    ensures -INT_RANGE <= r < INT_RANGE && r <= n && (n - r) % 0x1_0000_0000 == 0
    ensures n < INT_RANGE ==> r == n
  {
    (n + INT_RANGE) % 0x1_0000_0000 - INT_RANGE
  }

  function Least(a: nat, b: nat): nat {
    if a < b then a else b
  }

  /** How many tasks of a round are run: up to the limit; all of them when there is none. */
  function Quota(limit: int, total: nat): (q: nat)
    ensures q <= total
    ensures q < total ==> q == limit
    ensures limit <= 0 ==> q == total
    ensures limit > 0 && total < INT_RANGE ==> q == Least(limit, total)
  {
    if 0 < limit < Narrowed(total) then limit else total
  }

  predicate Enabled<T>(s: Loop<T>, step: Step<T>) {
    match step
    case Push(_) => true
    case Kick => true
    case Write => s.pushers > 0
    case Drain => s.phase.Waiting?
    case Swap => s.phase.Drained?
    case RunOne => s.phase.Running? && s.phase.done < s.phase.quota && s.phase.done < |s.phase.batch|
    case Finish => s.phase.Running? && s.phase.done == s.phase.quota && s.phase.quota <= |s.phase.batch|
  }

  function After<T>(s: Loop<T>, step: Step<T>): Loop<T>
    requires Enabled(s, step)
  {
    match step
    case Push(t) => s.(deferred := s.deferred + [t], pushed := s.pushed + [t], pushers := s.pushers + 1)
    case Write => s.(pushers := s.pushers - 1, eventfd := Bump(s.eventfd))
    case Kick => s.(eventfd := Bump(s.eventfd))
    case Drain => s.(phase := Drained, eventfd := 0)
    case Swap =>
      var batch := s.pending + s.deferred;
      s.(phase := Running(batch, 0, Quota(s.limit, |batch|)), pending := [], deferred := [])
    case RunOne =>
      s.(executed := s.executed + [s.phase.batch[s.phase.done]], phase := s.phase.(done := s.phase.done + 1))
    case Finish =>
      var rest := s.phase.batch[s.phase.quota..];
      s.(phase := Waiting, pending := rest, rounds := s.rounds + 1,
         eventfd := if rest == [] then s.eventfd else Bump(s.eventfd))
  }

  function Start<T>(limit: int): Loop<T> {
    Loop([], [], 0, 0, Waiting, limit, [], [], 0)
  }

  /** Everything queued and not yet executed, in the order in which it will run. */
  function Todo<T>(s: Loop<T>): seq<T> {
    (if s.phase.Running? && s.phase.done <= |s.phase.batch| then s.phase.batch[s.phase.done..] else [])
    + s.pending + s.deferred
  }

  predicate InOrder<T(==)>(s: Loop<T>) {
    s.pushed == s.executed + Todo(s)
  }

  /** A queued task is never forgotten: unless the loop is about to take the queue, the
      eventfd is set or some pusher is about to set it. */
  predicate Awake<T>(s: Loop<T>) {
    match s.phase
    case Waiting => s.pending + s.deferred != [] ==> s.eventfd > 0 || s.pushers > 0
    case Drained => true
    case Running(_, _, _) => s.deferred != [] ==> s.eventfd > 0 || s.pushers > 0
  }

  predicate Inv<T(==)>(s: Loop<T>) {
    && InOrder(s)
    && Awake(s)
    && (s.phase.Running? ==>
          && s.pending == []
          && s.phase.quota == Quota(s.limit, |s.phase.batch|)
          && s.phase.done <= s.phase.quota)
  }

  lemma PushTodo<T>(s: Loop<T>, task: T)
    ensures Todo(After(s, Push(task))) == Todo(s) + [task]
  {
  }

  lemma RunOneTodo<T>(s: Loop<T>)
    requires Enabled(s, RunOne)
    ensures Todo(s) == [s.phase.batch[s.phase.done]] + Todo(After(s, RunOne))
  {
    var batch, done := s.phase.batch, s.phase.done;
    assert batch[done..] == [batch[done]] + batch[done + 1..];
  }

  lemma RoundTodo<T>(s: Loop<T>, step: Step<T>)
    requires Enabled(s, step) && (step.Swap? || step.Finish? || step.Drain?)
    requires s.phase.Running? ==> s.pending == []
    ensures Todo(After(s, step)) == Todo(s)
  {
    var t := After(s, step);
    assert step.Swap? ==> t.phase.batch[0..] == s.pending + s.deferred;
    assert Todo(t) == Todo(s);
  }

  /** What a step does to the tasks still to be run. */
  lemma TodoAfter<T>(s: Loop<T>, step: Step<T>)
    requires Inv(s) && Enabled(s, step)
    ensures match step
            case Push(task) => Todo(After(s, step)) == Todo(s) + [task]
            case RunOne => Todo(s) == [s.phase.batch[s.phase.done]] + Todo(After(s, step))
            case _ => Todo(After(s, step)) == Todo(s)
  {
    if step.Push? {
      PushTodo(s, step.task);
    } else if step.RunOne? {
      RunOneTodo(s);
    } else if step.Swap? || step.Finish? || step.Drain? {
      RoundTodo(s, step);
    }
  }

  lemma StepKeepsInv<T>(s: Loop<T>, step: Step<T>)
    requires Inv(s) && Enabled(s, step)
    ensures Inv(After(s, step))
  {
    var t := After(s, step);
    TodoAfter(s, step);
    hide Todo;
    match step
    case Push(task) => assert s.executed + (Todo(s) + [task]) == t.executed + Todo(t);
    case RunOne => assert t.executed + Todo(t) == s.executed + Todo(s);
    case _ =>
  }

  // ---- whole runs ----

  ghost predicate Run<T(!new)>(states: seq<Loop<T>>) {
    && states != []
    && forall i :: 0 <= i < |states| - 1 ==> Next(states[i], states[i + 1])
  }

  ghost predicate Next<T(!new)>(s: Loop<T>, t: Loop<T>) {
    exists step: Step<T> :: Enabled(s, step) && t == After(s, step)
  }

  /** In every reachable state what has been executed, followed by what is still queued,
      is what was pushed: each task runs once and in push order, and no wakeup is lost. */
  lemma {:induction false} EveryRunInOrder<T(!new)>(states: seq<Loop<T>>, limit: int, i: nat)
    requires Run(states) && states[0] == Start<T>(limit) && i < |states|
    ensures Inv(states[i])
    decreases i
  {
    if i > 0 {
      EveryRunInOrder(states, limit, i - 1);
      assert Next(states[i - 1], states[i]);
      var step :| Enabled(states[i - 1], step) && states[i] == After(states[i - 1], step);
      StepKeepsInv(states[i - 1], step);
    }
  }

  /** When nobody is in the middle of anything and nothing wakes the loop, nothing waits. */
  lemma QuietMeansDone<T>(s: Loop<T>)
    requires Inv(s) && s.phase.Waiting? && s.eventfd == 0 && s.pushers == 0
    ensures s.executed == s.pushed
  {
    assert Todo(s) == [];
  }

  // ---- how much a round runs ----

  /** `t` is in the round that began with the queue of `s`. */
  predicate InRound<T(==)>(s: Loop<T>, t: Loop<T>) {
    var batch := s.pending + s.deferred;
    && t.phase.Running? && t.phase.batch == batch && t.phase.quota == Quota(s.limit, |batch|)
    && t.phase.done <= |batch| && t.executed == s.executed + batch[..t.phase.done]
    && t.limit == s.limit && t.pending == []
  }

  lemma RoundBegins<T>(s: Loop<T>, step: Step<T>)
    requires s.phase.Drained? && Enabled(s, step) && After(s, step).phase.Running?
    ensures InRound(s, After(s, step))
  {
    assert (s.pending + s.deferred)[..0] == [];
  }

  lemma RoundGoesOn<T>(s: Loop<T>, t: Loop<T>, step: Step<T>)
    requires InRound(s, t) && Enabled(t, step) && After(t, step).rounds == t.rounds
    ensures InRound(s, After(t, step))
  {
    if step.RunOne? {
      var batch, done := t.phase.batch, t.phase.done;
      assert batch[..done] + [batch[done]] == batch[..done + 1];
      assert s.executed + (batch[..done] + [batch[done]]) == s.executed + batch[..done] + [batch[done]];
    }
  }

  /** From the swap on, until the round is finished. */
  lemma {:induction false} RoundSoFar<T(!new)>(states: seq<Loop<T>>, i: nat, j: nat)
    requires Run(states) && i < j < |states|
    requires states[i].phase.Drained? && states[i + 1].phase.Running?
    requires forall k :: i <= k <= j ==> states[k].rounds == states[i].rounds
    ensures InRound(states[i], states[j])
    decreases j
  {
    hide InRound, Enabled, After;
    assert Next(states[j - 1], states[j]);
    var step :| Enabled(states[j - 1], step) && states[j] == After(states[j - 1], step);
    if j > i + 1 {
      RoundSoFar(states, i, j - 1);
      RoundGoesOn(states[i], states[j - 1], step);
    } else {
      RoundBegins(states[i], step);
    }
  }

  /** A round runs exactly as many tasks as the limit says, or all there were at its start,
      in their order; the others are kept for the next round, and the loop is woken for
      them. */
  lemma RoundRunsExactly<T(!new)>(states: seq<Loop<T>>, i: nat, j: nat)
    requires Run(states) && i + 1 < j < |states|
    requires states[i].phase.Drained? && states[i + 1].phase.Running?
    requires states[j].rounds == states[i].rounds + 1
    requires forall k :: i <= k < j ==> states[k].rounds == states[i].rounds
    ensures var batch := states[i].pending + states[i].deferred;
            var limit := states[i].limit;
            |batch| < INT_RANGE ==>
              var n := if limit > 0 then Least(limit, |batch|) else |batch|;
              && states[j].executed == states[i].executed + batch[..n] && states[j].pending == batch[n..]
              && (n < |batch| ==> states[j].eventfd > 0)
  {
    RoundSoFar(states, i, j - 1);
    assert Next(states[j - 1], states[j]);
    var step :| Enabled(states[j - 1], step) && states[j] == After(states[j - 1], step);
  }

  // ---- bounded waiting ----

  /** Progress towards the task at absolute position p. Counting begins when r rounds are
      finished, with at least e tasks executed by then; a round that is under way before
      that may or may not hold the task. */
  predicate OnTheWay<T>(s: Loop<T>, p: nat, e: nat, r: nat, limit: nat) {
    || |s.executed| > p
    || (s.rounds + 1 == r && s.phase.Running? && |s.executed| >= e)
    || (var began := |s.executed| - (if s.phase.Running? then s.phase.done else 0);
        && s.rounds >= r
        && began >= e + (s.rounds - r) * limit
        && (s.phase.Running? ==> began + |s.phase.batch| > p))
  }

  lemma OnTheWayStep<T>(s: Loop<T>, step: Step<T>, p: nat, e: nat, r: nat, limit: nat)
    requires Inv(s) && Enabled(s, step) && p < |s.pushed| && (s.limit > 0 ==> limit == s.limit)
    requires OnTheWay(s, p, e, r, limit)
    ensures OnTheWay(After(s, step), p, e, r, limit)
  {
    if step.Finish? && |s.executed| <= p && s.rounds >= r {
      assert s.phase.quota == s.limit;
      var n := s.rounds - r;
      assert (n + 1) * limit == n * limit + limit;
    }
  }

  /** Rounds that run a task with k others before it, once they start without it. */
  function RoundsFor(limit: int, k: nat): nat {
    if limit > 0 then k / limit + 1 else 1
  }

  /** A task with k others before it has run once k / limit + 1 further rounds have
      finished, or one round without a limit, whatever else is pushed meanwhile; a round
      that is already under way counts for nothing. */
  lemma {:induction false} RunsWithinRounds<T(!new)>(states: seq<Loop<T>>, p: nat, n: nat)
    requires Run(states) && n < |states| && Inv(states[0])
    requires |states[0].executed| <= p < |states[0].pushed|
    requires states[n].rounds >= states[0].rounds + RoundsFor(states[0].limit, p - |states[0].executed|)
                                 + (if states[0].phase.Running? then 1 else 0)
    ensures |states[n].executed| > p
    ensures states[n].executed[p] == states[0].pushed[p]
  {
    var s, t := states[0], states[n];
    var e, r := |s.executed|, s.rounds + if s.phase.Running? then 1 else 0;
    hide Inv, Run, OnTheWay;
    var limit := if s.limit > 0 then s.limit else p + 1;
    SetsOut(s, p, limit);
    SmallQuotient(p - e, p + 1);
    Carry(states, p, e, r, limit, n);
    Arrived(t, p, e, r, limit);
    InPlace(t, p);
  }

  lemma SetsOut<T>(s: Loop<T>, p: nat, limit: nat)
    requires Inv(s)
    ensures OnTheWay(s, p, |s.executed|, s.rounds + if s.phase.Running? then 1 else 0, limit)
  {
  }

  lemma SmallQuotient(k: nat, d: nat)
    requires k < d
    ensures k / d == 0
  {
  }

  /** With enough rounds finished the task has been reached. */
  lemma Arrived<T>(t: Loop<T>, p: nat, e: nat, r: nat, limit: nat)
    requires OnTheWay(t, p, e, r, limit) && e <= p && limit > 0 && t.rounds >= r + (p - e) / limit + 1
    ensures |t.executed| > p
  {
    EnoughRounds(p - e, limit, t.rounds - r);
  }

  lemma InPlace<T>(t: Loop<T>, p: nat)
    requires Inv(t) && p < |t.executed|
    ensures p < |t.pushed| && t.executed[p] == t.pushed[p]
  {
  }

  lemma OneMoreStep<T(!new)>(states: seq<Loop<T>>, step: Step<T>) returns (longer: seq<Loop<T>>)
    requires Run(states) && Enabled(states[|states| - 1], step)
    ensures Run(longer) && states <= longer && longer[0] == states[0] && |longer| == |states| + 1
    ensures longer[|states|] == After(states[|states| - 1], step)
  {
    longer := states + [After(states[|states| - 1], step)];
    RunGrows(states, step);
  }

  /** A new loop with limit 2: two tasks are queued, and one of them is run. */
  lemma HalfARound() returns (states: seq<Loop<int>>)
    ensures Run(states) && |states| == 8 && states[0] == Start(2)
    ensures states[7] == Loop([], [], 0, 0, Running([1, 2], 1, 2), 2, [1], [1, 2], 0)
  {
    states := TwoQueued();
    states := OneMoreStep(states, Drain);
    assert [] + [1, 2] == [1, 2];
    states := OneMoreStep(states, Swap);
    assert Quota(2, 2) == 2;
    assert states[6] == Loop([], [], 0, 0, Running([1, 2], 0, 2), 2, [], [1, 2], 0);
    states := OneMoreStep(states, RunOne);
  }

  lemma TwoQueued() returns (states: seq<Loop<int>>)
    ensures Run(states) && |states| == 5 && states[0] == Start(2)
    ensures states[4] == Loop([1, 2], [], 2, 0, Waiting, 2, [], [1, 2], 0)
  {
    states := [Start(2)];
    states := OneMoreStep(states, Push(1));
    states := OneMoreStep(states, Write);
    assert states[2] == Loop([1], [], 1, 0, Waiting, 2, [], [1], 0);
    states := OneMoreStep(states, Push(2));
    states := OneMoreStep(states, Write);
  }

  /** The bound for a task deferred during a round is reached, in a run from the start:
      limit 2, a third task deferred when one of two has been run; one finished round later
      it still waits. */
  lemma DeferredDuringRoundWaits() returns (states: seq<Loop<int>>)
    ensures Run(states) && |states| == 11 && states[0] == Start(2)
    ensures states[7].phase.Running? && states[7].rounds == 0 && states[8] == After(states[7], Push(3))
    ensures states[10].rounds == 1 && states[10].executed == [1, 2] && states[10].deferred == [3]
  {
    states := HalfARound();
    states := OneMoreStep(states, Push(3));
    states := OneMoreStep(states, RunOne);
    states := OneMoreStep(states, Finish);
  }

  lemma Times(a: nat, b: nat, n: nat)
    requires a <= b
    ensures a * n <= b * n
  {
  }

  lemma EnoughRounds(k: nat, limit: nat, rounds: nat)
    requires limit > 0 && rounds >= k / limit + 1
    ensures rounds * limit > k
  {
    var q := k / limit;
    Times(q + 1, rounds, limit);
    assert (q + 1) * limit == q * limit + limit > k;
  }

  lemma {:induction false} Carry<T(!new)>(states: seq<Loop<T>>, p: nat, e: nat, r: nat, limit: nat, n: nat)
    requires Run(states) && n < |states|
    requires Inv(states[0]) && p < |states[0].pushed| && (states[0].limit > 0 ==> limit == states[0].limit)
    requires OnTheWay(states[0], p, e, r, limit)
    ensures Inv(states[n]) && states[n].limit == states[0].limit
    ensures states[0].pushed <= states[n].pushed
    ensures OnTheWay(states[n], p, e, r, limit)
    decreases n
  {
    hide OnTheWay, Inv;
    if n > 0 {
      Carry(states, p, e, r, limit, n - 1);
      var s, t := states[n - 1], states[n];
      assert Next(s, t);
      var step :| Enabled(s, step) && t == After(s, step);
      StepKeepsInv(s, step);
      OnTheWayStep(s, step, p, e, r, limit);
    }
  }

  // ---- the object ----

  function Flatten<T>(arrivals: seq<seq<T>>): seq<T> {
    if arrivals == [] then [] else Flatten(arrivals[..|arrivals| - 1]) + arrivals[|arrivals| - 1]
  }

  lemma RunGrows<T(!new)>(states: seq<Loop<T>>, step: Step<T>)
    requires Run(states) && Enabled(states[|states| - 1], step)
    ensures Run(states + [After(states[|states| - 1], step)])
  {
    var longer := states + [After(states[|states| - 1], step)];
    forall i | 0 <= i < |longer| - 1 ensures Next(longer[i], longer[i + 1]) {
      assert i < |states| - 1 ==> Next(states[i], states[i + 1]);
    }
  }

  /** `trace` is the run of the protocol that the object has gone through, `now` its last
      state. */
  class EventLoop<T(!new)> {
    var deferred: seq<T>
    var pending: seq<T>
    const maxPerRound: int
    var wakeups: nat              // the eventfd counter
    ghost var trace: seq<Loop<T>>
    ghost var now: Loop<T>

    /** The fields are those of the last state of a run of the protocol. */
    ghost predicate Valid()
      reads this
    {
      && Run(trace) && trace[0] == Start<T>(maxPerRound) && now == trace[|trace| - 1]
      && now.deferred == deferred && now.pending == pending
      && now.eventfd == wakeups && now.limit == maxPerRound
    }

    constructor (maxPerRound: int)
      ensures Valid() && now == Start<T>(maxPerRound) && this.maxPerRound == maxPerRound
    {
      deferred, pending, wakeups, this.maxPerRound := [], [], 0, maxPerRound;
      now := Start<T>(maxPerRound);
      trace := [Start<T>(maxPerRound)];
    }

    ghost method Record(step: Step<T>)
      requires Run(trace) && now == trace[|trace| - 1] && Enabled(now, step)
      modifies this`trace, this`now
      ensures Run(trace) && trace[0] == old(trace[0]) && now == trace[|trace| - 1]
      ensures now == After(old(now), step)
    {
      RunGrows(trace, step);
      now := After(now, step);
      trace := trace + [now];
    }

    /** The next task of the round is taken. */
    ghost method Took()
      requires Valid() && Enabled(now, RunOne)
      modifies this`trace, this`now
      ensures Valid() && now == After(old(now), RunOne)
    {
      Record(RunOne);
    }

    /** `defer` has two parts between which anything can happen: the task is queued
        under the lock, and the eventfd is written. */
    method Enqueue(task: T)
      requires Valid()
      modifies this`deferred, this`trace, this`now
      ensures Valid() && now == After(old(now), Push(task))
    {
      deferred := deferred + [task];
      Record(Push(task));
    }

    method Wake()
      requires Valid() && now.pushers > 0
      modifies this`wakeups, this`trace, this`now
      ensures Valid() && now == After(old(now), Write)
    {
      wakeups := Bump(wakeups);
      Record(Write);
    }

    method Defer(task: T)
      requires Valid()
      modifies this`deferred, this`wakeups, this`trace, this`now
      ensures Valid() && now == After(After(old(now), Push(task)), Write)
    {
      Enqueue(task);
      Wake();
    }

    /** The wakeup handler: the eventfd is emptied before the queue is looked at. */
    method OnWakeup(arrivals: seq<seq<T>>)
      requires Valid() && now.phase.Waiting?
      requires |arrivals| == Quota(maxPerRound, |pending + deferred|)
      modifies this`deferred, this`pending, this`wakeups, this`trace, this`now
      ensures Valid() && now.phase.Waiting? && now.rounds == old(now.rounds) + 1
      ensures RoundDone(old(pending + deferred), old(now.executed), arrivals)
      ensures var batch := old(pending + deferred);
              0 < maxPerRound && |batch| < INT_RANGE ==>
                var n := Least(maxPerRound, |batch|);
                now.executed == old(now.executed) + batch[..n] && pending == batch[n..]
      ensures Flatten(arrivals) == [] ==> (wakeups > 0 <==> pending != [])
    {
      wakeups := 0;
      Record(Drain);
      RunDeferredTasks(arrivals);
    }

    /** After a round: the first tasks of the batch have run in order, the others wait,
        and the loop will be woken for whatever waits. */
    ghost predicate RoundDone(batch: seq<T>, executed: seq<T>, arrivals: seq<seq<T>>)
      reads this
    {
      var quota := Quota(maxPerRound, |batch|);
      && now.executed == executed + batch[..quota]
      && pending == batch[quota..] && deferred == Flatten(arrivals)
      && (pending + deferred != [] ==> wakeups > 0)
    }

    /** One round. `arrivals[i]` is what other threads and the i-th task itself defer
        while that task runs; none of it joins this round. */
    method RunDeferredTasks(arrivals: seq<seq<T>>)
      requires Valid() && now.phase.Drained?
      requires |arrivals| == Quota(maxPerRound, |pending + deferred|)
      modifies this`deferred, this`pending, this`wakeups, this`trace, this`now
      ensures Valid() && now.phase.Waiting? && now.rounds == old(now.rounds) + 1
      ensures RoundDone(old(pending + deferred), old(now.executed), arrivals)
      ensures var batch := old(pending + deferred);
              0 < maxPerRound && |batch| < INT_RANGE ==>
                var n := Least(maxPerRound, |batch|);
                now.executed == old(now.executed) + batch[..n] && pending == batch[n..]
      ensures old(wakeups) == 0 && Flatten(arrivals) == [] ==> (wakeups > 0 <==> pending != [])
    {
      var tasks := TakeQueue();
      var limit, total := maxPerRound, |tasks|;
      if limit > 0 && Narrowed(total) > limit {
        RunFirst(tasks, limit, arrivals);
        KeepRest(tasks, limit);
        wakeups := Bump(wakeups);
      } else {
        RunFirst(tasks, total, arrivals);
      }
      Record(Finish);
    }

    /** Left-overs of the last round come before what was deferred since. */
    method TakeQueue() returns (tasks: seq<T>)
      requires Valid() && now.phase.Drained?
      modifies this`deferred, this`pending, this`trace, this`now
      ensures Valid() && now.phase == Running(tasks, 0, Quota(maxPerRound, |tasks|))
      ensures tasks == old(pending + deferred) && pending == [] && deferred == []
      ensures now.executed == old(now.executed) && now.rounds == old(now.rounds) && wakeups == old(wakeups)
    {
      tasks := deferred;
      deferred := [];
      if pending != [] {
        tasks := pending + tasks;
        pending := [];
      }
      assert tasks == old(pending + deferred);
      Record(Swap);
    }

    method KeepRest(tasks: seq<T>, from: nat)
      requires from <= |tasks| && pending == []
      modifies this`pending
      ensures pending == tasks[from..]
    {
      for i := from to |tasks|
        invariant pending == tasks[from..i]
      {
        pending := pending + [tasks[i]];
      }
    }

    method RunFirst(tasks: seq<T>, n: nat, arrivals: seq<seq<T>>)
      requires Valid() && deferred == [] && pending == []
      requires n <= |tasks| && n == |arrivals| && now.phase == Running(tasks, 0, n)
      modifies this`deferred, this`wakeups, this`trace, this`now
      ensures Valid() && now.phase == Running(tasks, n, n) && now.rounds == old(now.rounds)
      ensures now.executed == old(now.executed) + tasks[..n]
      ensures deferred == Flatten(arrivals)
      ensures deferred != [] ==> wakeups > 0
      ensures old(wakeups) == 0 && deferred == [] ==> wakeups == 0
    {
      for i := 0 to n
        invariant Valid() && now.phase == Running(tasks, i, n) && now.rounds == old(now.rounds)
        invariant now.executed == old(now.executed) + tasks[..i]
        invariant deferred == Flatten(arrivals[..i])
        invariant deferred != [] ==> wakeups > 0
        invariant old(wakeups) == 0 && deferred == [] ==> wakeups == 0
      {
        Call(arrivals[i]);
        assert arrivals[..i + 1][..i] == arrivals[..i];
        assert tasks[..i] + [tasks[i]] == tasks[..i + 1];
      }
      assert arrivals[..n] == arrivals;
    }

    /** The next task of the round runs; meanwhile more tasks are deferred. */
    method Call(arriving: seq<T>)
      requires Valid() && Enabled(now, RunOne)
      modifies this`deferred, this`wakeups, this`trace, this`now
      ensures Valid() && now.executed == After(old(now), RunOne).executed
      ensures now.phase == After(old(now), RunOne).phase && now.rounds == old(now.rounds)
      ensures deferred == old(deferred) + arriving
      ensures wakeups > 0 || arriving == []
      ensures arriving == [] ==> wakeups == old(wakeups)
    {
      Took();
      for i := 0 to |arriving|
        invariant Valid() && now.executed == After(old(now), RunOne).executed
        invariant now.phase == After(old(now), RunOne).phase && now.rounds == old(now.rounds)
        invariant deferred == old(deferred) + arriving[..i]
        invariant if i == 0 then wakeups == old(wakeups) else wakeups > 0
      {
        Defer(arriving[i]);
        assert arriving[..i] + [arriving[i]] == arriving[..i + 1];
      }
      assert arriving[..|arriving|] == arriving;
    }

    /** So what holds of every run of the protocol holds of the object at any time. */
    lemma HistoryInOrder()
      requires Valid()
      ensures now.pushed == now.executed + Todo(now)
      ensures now.phase.Waiting? ==>
                Todo(now) == pending + deferred && (Todo(now) != [] ==> wakeups > 0 || now.pushers > 0)
    {
      EveryRunInOrder(trace, maxPerRound, |trace| - 1);
    }
  }
}
