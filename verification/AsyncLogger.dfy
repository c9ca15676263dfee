/** The asynchronous log: producers append under a lock, one background thread swaps two
    buffers and writes. */
module Logging {
  import opened Options
  import opened LogFiles

  // ---- the two buffers ----

  /** Where the background thread is. */
  datatype Place =
    | Top                      // about to test `running`
    | Waiting                  // inside the wait, about to swap
    | Flushing(done: nat)      // writing the swapped buffer
    | Leaving                  // after the loop, about to take the rest
    | FinalFlush(done: nat)
    | Done

  /** `appended` and `written` record history, `stopAt` how many lines had been appended
      when stop was called. */
  datatype Log = Log(cur: seq<string>, next: seq<string>, running: bool, place: Place,
                     appended: seq<string>, written: seq<string>, stopAt: Option<nat>)

  datatype Step = Append(line: string) | Stop | Test | Swap | WriteLine | Flushed | LastSwap

  function Start(): Log {
    Log([], [], true, Top, [], [], None)
  }

  predicate Enabled(s: Log, step: Step) {
    match step
    case Append(_) => true
    case Stop => s.running
    case Test => s.place.Top?
    case Swap => s.place.Waiting?
    case WriteLine => (s.place.Flushing? || s.place.FinalFlush?) && s.place.done < |s.next|
    case Flushed => (s.place.Flushing? || s.place.FinalFlush?) && s.place.done == |s.next|
    case LastSwap => s.place.Leaving?
  }

  function After(s: Log, step: Step): Log
    requires Enabled(s, step)
  {
    match step
    case Append(line) => s.(cur := s.cur + [line], appended := s.appended + [line])
    case Stop => s.(running := false, stopAt := Some(|s.appended|))
    case Test => s.(place := if s.running then Waiting else Leaving)
    case Swap => s.(cur := s.next, next := s.cur, place := if s.cur == [] then Top else Flushing(0))
    case WriteLine =>
      s.(written := s.written + [s.next[s.place.done]], place := s.place.(done := s.place.done + 1))
    case Flushed => s.(next := [], place := if s.place.Flushing? then Top else Done)
    case LastSwap =>
      var (cur, next) := if s.cur == [] then (s.cur, s.next) else (s.next, s.cur);
      s.(cur := cur, next := next, place := if next == [] then Done else FinalFlush(0))
  }

  /** The part of the swapped buffer that is still to be written. */
  function Unflushed(s: Log): seq<string> {
    match s.place
    case Flushing(done) => if done <= |s.next| then s.next[done..] else []
    case FinalFlush(done) => if done <= |s.next| then s.next[done..] else []
    case _ => s.next
  }

  predicate Inv(s: Log) {
    && s.appended == s.written + Unflushed(s) + s.cur
    && (s.place.Flushing? || s.place.FinalFlush? ==> s.place.done <= |s.next|)
    && (!s.place.Flushing? && !s.place.FinalFlush? ==> s.next == [])
    && (!s.running ==> s.stopAt.Some? && s.stopAt.value <= |s.appended|)
    && (s.place.Leaving? ==> !s.running)
    && (s.place.FinalFlush? || s.place.Done? ==> !s.running && s.stopAt.value <= |s.written + Unflushed(s)|)
  }

  /** Appending adds to the end of what has been appended and not yet written. */
  lemma AppendKeeps(s: Log, line: string)
    requires Inv(s)
    ensures Inv(After(s, Append(line)))
  {
    assert s.written + Unflushed(s) + (s.cur + [line]) == s.written + Unflushed(s) + s.cur + [line];
  }

  lemma WriteLineKeeps(s: Log)
    requires Inv(s) && Enabled(s, WriteLine)
    ensures Inv(After(s, WriteLine))
  {
    MoveOne(s.written, s.next, s.place.done);
  }

  lemma MoveOne(written: seq<string>, next: seq<string>, done: nat)
    requires done < |next|
    ensures written + next[done..] == (written + [next[done]]) + next[done + 1..]
  {
    assert next[done..] == [next[done]] + next[done + 1..];
    assert written + ([next[done]] + next[done + 1..]) == written + [next[done]] + next[done + 1..];
  }

  lemma FlushedKeeps(s: Log)
    requires Inv(s) && Enabled(s, Flushed)
    ensures Inv(After(s, Flushed))
  {
    assert Unflushed(s) == [] && s.written + [] == s.written;
  }

  lemma SwapKeeps(s: Log, step: Step)
    requires Inv(s) && Enabled(s, step) && (step.Swap? || step.LastSwap?)
    ensures Inv(After(s, step))
  {
    var t := After(s, step);
    assert Unflushed(s) == [] && s.written + [] + s.cur == s.written + s.cur;
    assert Unflushed(t) + t.cur == s.cur;
    assert t.written + Unflushed(t) + t.cur == t.written + (Unflushed(t) + t.cur);
  }

  lemma StepKeepsInv(s: Log, step: Step)
    requires Inv(s) && Enabled(s, step)
    ensures Inv(After(s, step))
  {
    match step
    case Append(line) => AppendKeeps(s, line);
    case WriteLine => WriteLineKeeps(s);
    case Flushed => FlushedKeeps(s);
    case Swap => SwapKeeps(s, step);
    case LastSwap => SwapKeeps(s, step);
    case Stop => assert Unflushed(After(s, step)) == Unflushed(s);
    case Test => assert Unflushed(After(s, step)) == Unflushed(s);
  }

  ghost predicate Next(s: Log, t: Log) {
    exists step :: Enabled(s, step) && t == After(s, step)
  }

  ghost predicate IsRun(states: seq<Log>) {
    && states != [] && states[0] == Start()
    && forall n :: 0 <= n < |states| - 1 ==> Next(states[n], states[n + 1])
  }

  lemma {:induction false} EveryRunInv(states: seq<Log>, n: nat)
    requires IsRun(states) && n < |states|
    ensures Inv(states[n])
    decreases n
  {
    if n > 0 {
      EveryRunInv(states, n - 1);
      assert Next(states[n - 1], states[n]);
      var step :| Enabled(states[n - 1], step) && states[n] == After(states[n - 1], step);
      StepKeepsInv(states[n - 1], step);
    }
  }

  /** Nothing is lost or reordered in any state of any run, the buffer that producers get
      in a swap is empty, and when the thread has ended every line appended before stop
      has been written. */
  lemma NothingLost(states: seq<Log>, n: nat)
    requires IsRun(states) && n < |states|
    ensures var s := states[n];
            && s.written + Unflushed(s) + s.cur == s.appended
            && (s.place.Waiting? ==> After(s, Swap).cur == [])
            && (s.place.Done? ==>
                  s.stopAt.Some? && s.stopAt.value <= |s.written| && s.written == s.appended[..|s.written|])
  {
    EveryRunInv(states, n);
    var s := states[n];
    if s.place.Done? {
      assert s.written + Unflushed(s) == s.written;
    }
  }

  // ---- the object ----

  lemma RunGrows(states: seq<Log>, step: Step)
    requires IsRun(states) && Enabled(states[|states| - 1], step)
    ensures IsRun(states + [After(states[|states| - 1], step)])
  {
    var longer := states + [After(states[|states| - 1], step)];
    forall n | 0 <= n < |longer| - 1 ensures Next(longer[n], longer[n + 1]) {
      assert n < |states| - 1 ==> Next(states[n], states[n + 1]);
    }
  }

  /** When stop is called during a pass: not at all, while the thread waits, or while it
      writes. */
  datatype StopTime = NoStop | WhileWaiting | WhileWriting

  /** What happens around one pass of the background loop: lines appended while it waits
      and while it writes, before and after a stop. */
  datatype Pass = Pass(waiting: seq<string>, writing: seq<string>, stop: StopTime, later: seq<string>)

  const WAKE_SIZE: nat := 1024

  /** `trace` is the run of the two-buffer protocol that the object has gone through,
      `now` its last state. */
  class AsyncLogger {
    var cur: seq<string>
    var next: seq<string>
    var running: bool
    const file: LogFile
    ghost var trace: seq<Log>
    ghost var now: Log

    /** Object and protocol agree, and what the protocol calls written has been flushed to
        the files. */
    ghost predicate Valid()
      reads this, file
    {
      && Synced() && file.Valid() && file.flushed == now.written
    }

    ghost predicate Synced()
      reads this
    {
      && IsRun(trace) && now == trace[|trace| - 1]
      && now.cur == cur && now.next == next && now.running == running
    }

    constructor (rollSize: nat, existing: seq<string>, archive: seq<File>, canOpen: bool)
      ensures Valid() && now == Start() && fresh(file)
      ensures file.rollSize == rollSize && file.start == Opened(existing, archive, canOpen)
    {
      cur, next, running := [], [], true;
      file := new LogFile(rollSize, existing, archive, canOpen);
      trace, now := [Start()], Start();
    }

    ghost method Record(step: Step)
      requires IsRun(trace) && now == trace[|trace| - 1] && Enabled(now, step)
      modifies this`trace, this`now
      ensures IsRun(trace) && now == trace[|trace| - 1] && now == After(old(now), step)
    {
      RunGrows(trace, step);
      now := After(now, step);
      trace := trace + [now];
    }

    /** A producer; a full buffer wakes the background thread early. */
    method Append(line: string) returns (notify: bool)
      requires Valid()
      modifies this`cur, this`trace, this`now
      ensures Valid() && now == After(old(now), Step.Append(line))
      ensures notify <==> |old(cur)| + 1 >= 1024
    {
      cur := cur + [line];
      Record(Step.Append(line));
      notify := |cur| >= WAKE_SIZE;
    }

    method AppendAll(lines: seq<string>)
      requires Valid()
      modifies this`cur, this`trace, this`now
      ensures Valid() && now.place == old(now.place) && now.stopAt == old(now.stopAt)
      ensures now.appended == old(now.appended) + lines && now.written == old(now.written)
    {
      for i := 0 to |lines|
        invariant Valid() && now.place == old(now.place) && now.stopAt == old(now.stopAt)
        invariant now.appended == old(now.appended) + lines[..i] && now.written == old(now.written)
      {
        var notify := Append(lines[i]);
        assert lines[..i] + [lines[i]] == lines[..i + 1];
      }
      assert lines[..|lines|] == lines;
    }

    method Stop()
      requires Valid()
      modifies this`running, this`trace, this`now
      ensures Valid() && !running && now == if old(running) then After(old(now), Step.Stop) else old(now)
    {
      if !running {
        return;
      }
      running := false;
      Record(Step.Stop);
    }

    method AppendThenStop(lines: seq<string>, stop: bool)
      requires Valid()
      modifies this`cur, this`running, this`trace, this`now
      ensures Valid() && now.place == old(now.place) && now.appended == old(now.appended) + lines
      ensures running == (old(running) && !stop)
      ensures now.stopAt == if stop && old(running) then Some(|now.appended|) else old(now.stopAt)
    {
      AppendAll(lines);
      if stop {
        Stop();
      }
    }

    /** The swapped buffer goes to the file and is emptied. */
    method FlushNext(roll: int -> Roll)
      requires Valid() && (now.place == Flushing(0) || now.place == FinalFlush(0))
      modifies this`next, this`trace, this`now, file
      ensures Valid() && now.place == (if old(now).place.Flushing? then Top else Done)
      ensures now.appended == old(now.appended) && now.stopAt == old(now.stopAt)
    {
      file.FlushBuf(next, seq(|next|, i => roll(i)));
      RecordWrites();
      next := [];
      Record(Flushed);
    }

    ghost method RecordWrites()
      requires Synced() && (now.place == Flushing(0) || now.place == FinalFlush(0))
      modifies this`trace, this`now
      ensures Synced() && now.written == old(now.written) + next
      ensures now.place == old(now.place).(done := |next|)
      ensures now.appended == old(now.appended) && now.stopAt == old(now.stopAt)
    {
      for i := 0 to |next|
        invariant Synced() && now.written == old(now.written) + next[..i]
        invariant now.place == old(now.place).(done := i)
        invariant now.appended == old(now.appended) && now.stopAt == old(now.stopAt)
      {
        Record(WriteLine);
        assert next[..i] + [next[i]] == next[..i + 1];
      }
      assert next[..|next|] == next;
    }

    /** One pass of the loop, from the test of `running` on. */
    method OnePass(pass: Pass, roll: int -> Roll)
      requires Valid() && now.place.Top? && running
      modifies this`cur, this`next, this`running, this`trace, this`now, file
      ensures Valid() && now.place.Top? && (running <==> pass.stop.NoStop?)
      ensures now.appended == old(now.appended) + pass.waiting + pass.writing + pass.later
      ensures now.stopAt ==
                match pass.stop
                case NoStop => old(now.stopAt)
                case WhileWaiting => Some(|old(now.appended) + pass.waiting|)
                case WhileWriting => Some(|old(now.appended) + pass.waiting + pass.writing|)
    {
      Record(Test);
      AppendThenStop(pass.waiting, pass.stop.WhileWaiting?);
      cur, next := next, cur;
      Record(Swap);
      AppendThenStop(pass.writing, pass.stop.WhileWriting?);
      AppendAll(pass.later);
      if next != [] {
        FlushNext(roll);
      }
    }

    /** `backend_loop`: passes until stop is called, then the rest, while lines are still
        being appended. When stop was called before the first pass there is none. At the
        end every line appended before stop has been flushed, in the order of appending;
        all flushed lines can be read back if and only if no roll took the name of another;
        and the files kept to the roll size if and only if the lines found room and the
        rolls met no trouble. */
    method BackendLoop(passes: seq<Pass>, roll: (int, int) -> Roll, leaving: seq<string>, ending: seq<string>)
      requires Valid() && now.place.Top? && (running <==> passes != [])
      requires forall i :: 0 <= i < |passes| ==> (passes[i].stop.NoStop? <==> i < |passes| - 1)
      modifies this`cur, this`next, this`running, this`trace, this`now, file
      ensures Valid() && now.place.Done? && now.stopAt.Some?
      ensures now.stopAt.value <= |file.flushed| && file.flushed <= now.appended
      ensures var o := file.start;
              Lines(file.out) == Lines(o) + file.flushed <==>
                !o.toFile || NamesFree(Taken(o.rolled), o.current == [], o.bytes, file.flushed, file.rollSize, file.met)
      ensures var o := file.start;
              AlwaysBounded(o, file.flushed, file.rollSize, file.met) <==>
                Bounded(o, file.rollSize) &&
                (!o.toFile || Stays(Bytes(o.current) - o.bytes, o.bytes, file.flushed, file.rollSize, file.met))
    {
      var k := 0;
      while running
        invariant Valid() && now.place.Top? && k <= |passes| && (running <==> k < |passes|)
        decreases |passes| - k
      {
        OnePass(passes[k], i => roll(k, i));
        k := k + 1;
      }
      FlushRest(i => roll(k, i), leaving, ending);
      NothingLost(trace, |trace| - 1);
      file.ReadBackIff();
      file.StaysBoundedIff();
    }

    /** `leaving` is appended before the last swap, `ending` after it. */
    method FlushRest(roll: int -> Roll, leaving: seq<string>, ending: seq<string>)
      requires Valid() && now.place.Top? && !running
      modifies this`cur, this`next, this`trace, this`now, file
      ensures Valid() && now.place.Done?
    {
      Record(Test);
      AppendAll(leaving);
      if cur != [] {
        cur, next := next, cur;
      }
      Record(LastSwap);
      AppendAll(ending);
      if next != [] {
        FlushNext(roll);
      }
    }
  }
}
