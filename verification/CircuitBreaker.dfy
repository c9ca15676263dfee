/** The circuit breaker in front of one backend, and what holds of every sequence of
    requests and reports. Times are in nanoseconds, the reset timeout in milliseconds. */
module Breakers {
  import opened Numbers
  import opened Options

  datatype State = Closed | Open | HalfOpen

  datatype Config = Config(threshold: int, resetTimeout: int, halfOpenMax: int)

  datatype Breaker = Breaker(state: State, failures: int, consecutive: int,
                             successes: int, requests: int, openedAt: int)

  datatype Event = Ask(at: int) | Success | Failure(at: int) | Reset

  function Initial(): Breaker {
    Breaker(Closed, 0, 0, 0, 0, 0)
  }

  // ---- one event ----

  predicate Admits(c: Config, b: Breaker, now: int) {
    match b.state
    case Closed => true
    case Open => now - b.openedAt >= c.resetTimeout * MS
    case HalfOpen => b.requests < c.halfOpenMax
  }

  /** The request that ends the Open state is admitted without being counted. */
  function Asked(c: Config, b: Breaker, now: int): Breaker {
    if !Admits(c, b, now) || b.state.Closed? then b
    else if b.state.Open? then b.(state := HalfOpen, successes := 0, requests := 0)
    else b.(requests := b.requests + 1)
  }

  function Succeeded(b: Breaker): Breaker {
    var d := b.(consecutive := 0);
    match b.state
    case Closed => d.(failures := 0)
    case Open => d
    case HalfOpen =>
      if b.successes + 1 >= b.requests then d.(state := Closed, failures := 0, successes := 0, requests := 0)
      else d.(successes := b.successes + 1)
  }

  function Failed(c: Config, b: Breaker, now: int): Breaker {
    var d := b.(consecutive := b.consecutive + 1, failures := b.failures + 1);
    var tripped := d.(state := Open, openedAt := now, successes := 0, requests := 0);
    match b.state
    case Closed => if d.failures >= c.threshold then tripped else d
    case HalfOpen => tripped
    case Open => d.(openedAt := now)
  }

  function Step(c: Config, b: Breaker, e: Event): Breaker {
    match e
    case Ask(at) => Asked(c, b, at)
    case Success => Succeeded(b)
    case Failure(at) => Failed(c, b, at)
    case Reset => b.(state := Closed, failures := 0, consecutive := 0, successes := 0, requests := 0)
  }

  // ---- the object ----

  class CircuitBreaker {
    const config: Config
    var state: State
    var failures: int
    var consecutive: int
    var successes: int
    var requests: int
    var openedAt: int

    function View(): Breaker
      reads this
    {
      Breaker(state, failures, consecutive, successes, requests, openedAt)
    }

    constructor (threshold: int, resetTimeout: int, halfOpenMax: int)
      ensures View() == Initial() && config == Config(threshold, resetTimeout, halfOpenMax)
    {
      config := Config(threshold, resetTimeout, halfOpenMax);
      state, failures, consecutive, successes, requests, openedAt := Closed, 0, 0, 0, 0, 0;
    }

    method AllowRequest(now: int) returns (ok: bool)
      modifies this
      ensures ok == Admits(config, old(View()), now)
      ensures View() == Step(config, old(View()), Ask(now))
    {
      match state
      case Closed => return true;
      case Open =>
        if now - openedAt >= config.resetTimeout * MS {
          TryTransitionToHalfOpen();
          return true;
        }
        return false;
      case HalfOpen =>
        if requests < config.halfOpenMax {
          requests := requests + 1;
          return true;
        }
        return false;
    }

    method OnSuccess()
      modifies this
      ensures View() == Step(config, old(View()), Success)
    {
      consecutive := 0;
      match state
      case Closed => failures := 0;
      case HalfOpen =>
        successes := successes + 1;
        if successes >= requests {
          state, failures, successes, requests := Closed, 0, 0, 0;
        }
      case Open =>
    }

    method OnFailure(now: int)
      modifies this
      ensures View() == Step(config, old(View()), Failure(now))
    {
      consecutive := consecutive + 1;
      failures := failures + 1;
      match state
      case Closed =>
        if failures >= config.threshold {
          TransitionToOpen(now);
        }
      case HalfOpen => TransitionToOpen(now);
      case Open => openedAt := now;
    }

    method TransitionToOpen(now: int)
      modifies this
      ensures View() == old(View()).(state := Open, openedAt := now, successes := 0, requests := 0)
    {
      state, openedAt, successes, requests := Open, now, 0, 0;
    }

    method TryTransitionToHalfOpen()
      modifies this
      ensures View() == old(View()).(state := HalfOpen, successes := 0, requests := 0)
    {
      state, successes, requests := HalfOpen, 0, 0;
    }

    method ResetBreaker()
      modifies this
      ensures View() == Step(config, old(View()), Reset)
    {
      state, failures, consecutive, successes, requests := Closed, 0, 0, 0, 0;
    }
  }

  // ---- histories ----

  function Init(events: seq<Event>): seq<Event>
    requires events != []
  {
    events[..|events| - 1]
  }

  function Last(events: seq<Event>): Event
    requires events != []
  {
    events[|events| - 1]
  }

  function After(c: Config, events: seq<Event>): Breaker {
    if events == [] then Initial() else Step(c, After(c, Init(events)), Last(events))
  }

  /** Failure reports since the last success report or reset. */
  function FailuresInARow(events: seq<Event>): nat {
    if events == [] then 0
    else match Last(events)
      case Ask(_) => FailuresInARow(Init(events))
      case Failure(_) => FailuresInARow(Init(events)) + 1
      case _ => 0
  }

  function LatestFailure(events: seq<Event>): Option<int> {
    if events == [] then None
    else if Last(events).Failure? then Some(Last(events).at)
    else LatestFailure(Init(events))
  }

  predicate Admitted(c: Config, events: seq<Event>)
    requires events != []
  {
    Last(events).Ask? && Admits(c, After(c, Init(events)), Last(events).at)
  }

  /** Requests admitted since the breaker was last moved from Open to HalfOpen, the one
      that moved it included; zero outside HalfOpen. */
  function AdmittedInEpisode(c: Config, events: seq<Event>): nat {
    if events == [] || !After(c, events).state.HalfOpen? then 0
    else AdmittedInEpisode(c, Init(events)) + if Admitted(c, events) then 1 else 0
  }

  /** Success reports in the same episode. */
  function SuccessesInEpisode(c: Config, events: seq<Event>): nat {
    if events == [] || !After(c, events).state.HalfOpen? then 0
    else if !After(c, Init(events)).state.HalfOpen? then 0
    else SuccessesInEpisode(c, Init(events)) + if Last(events).Success? then 1 else 0
  }

  /** A threshold of zero or less still takes one failure. */
  function Threshold(c: Config): nat {
    if c.threshold < 1 then 1 else c.threshold
  }

  /** The counters of the breaker, told from the history alone. */
  lemma {:induction false} CountersTellHistory(c: Config, events: seq<Event>)
    ensures var b := After(c, events);
            && b.consecutive == FailuresInARow(events)
            && (b.state.Closed? ==> b.failures == FailuresInARow(events))
            && (b.state.Closed? ==> FailuresInARow(events) < Threshold(c))
            && (b.state.Open? ==> LatestFailure(events) == Some(b.openedAt))
            && (b.state.HalfOpen? ==>
                  && AdmittedInEpisode(c, events) == b.requests + 1
                  && SuccessesInEpisode(c, events) == b.successes
                  && 0 <= b.requests <= Max0(c.halfOpenMax))
    decreases |events|
  {
    if events != [] {
      CountersTellHistory(c, Init(events));
    }
  }

  // ---- what follows for every run ----

  /** A closed breaker trips on exactly the threshold-th failure in a row. */
  lemma TripsOnThreshold(c: Config, events: seq<Event>, at: int)
    requires After(c, events).state.Closed?
    ensures After(c, events + [Failure(at)]).state.Open? <==> FailuresInARow(events + [Failure(at)]) == Threshold(c)
    ensures !After(c, events + [Failure(at)]).state.HalfOpen?
  {
    CountersTellHistory(c, events);
    assert Init(events + [Failure(at)]) == events;
  }

  /** And it leaves Closed in no other way; closed, it admits every request. */
  lemma OnlyFailuresTrip(c: Config, events: seq<Event>, e: Event)
    requires After(c, events).state.Closed? && !e.Failure?
    ensures After(c, events + [e]).state.Closed?
    ensures e.Ask? ==> Admitted(c, events + [e])
  {
    assert Init(events + [e]) == events;
  }

  /** While Open, a request is admitted exactly when the reset timeout has passed since
      the latest failure report, and it then makes the breaker half open. */
  lemma OpenAdmitsAfterTimeout(c: Config, events: seq<Event>, now: int)
    requires After(c, events).state.Open?
    ensures LatestFailure(events).Some?
    ensures Admitted(c, events + [Ask(now)]) <==> now - LatestFailure(events).value >= c.resetTimeout * MS
    ensures After(c, events + [Ask(now)]).state == if Admitted(c, events + [Ask(now)]) then HalfOpen else Open
  {
    CountersTellHistory(c, events);
    assert Init(events + [Ask(now)]) == events;
  }

  /** Other reports leave it open, a later failure starts the timeout again, and a reset
      closes it. */
  lemma OpenOtherwise(c: Config, events: seq<Event>, e: Event)
    requires After(c, events).state.Open? && !e.Ask?
    ensures After(c, events + [e]).state == if e.Reset? then Closed else Open
    ensures e.Failure? ==> LatestFailure(events + [e]) == Some(e.at)
  {
    assert Init(events + [e]) == events;
  }

  /** While HalfOpen, a request is admitted exactly while no more than halfOpenMax have been
      in this episode. */
  lemma HalfOpenAdmits(c: Config, events: seq<Event>, now: int)
    requires After(c, events).state.HalfOpen?
    ensures Admitted(c, events + [Ask(now)]) <==> AdmittedInEpisode(c, events) <= c.halfOpenMax
  {
    CountersTellHistory(c, events);
    assert Init(events + [Ask(now)]) == events;
  }

  /** Where a half-open breaker goes: one failure opens it again, a reset closes it, and so
      does the success that makes up for all admissions but one; nothing else moves it. */
  lemma HalfOpenMoves(c: Config, events: seq<Event>, e: Event)
    requires After(c, events).state.HalfOpen?
    ensures After(c, events + [e]).state ==
              match e
              case Failure(_) => Open
              case Reset => Closed
              case Success =>
                if SuccessesInEpisode(c, events) + 1 >= AdmittedInEpisode(c, events) - 1 then Closed else HalfOpen
              case Ask(_) => HalfOpen
  {
    CountersTellHistory(c, events);
    assert Init(events + [e]) == events;
  }

  /** After that failure nothing passes until the reset timeout has run again. */
  lemma HalfOpenFailureShuts(c: Config, events: seq<Event>, at: int, now: int)
    requires After(c, events).state.HalfOpen?
    ensures var failed := events + [Failure(at)];
            && After(c, failed).state.Open? && LatestFailure(failed) == Some(at)
            && (Admitted(c, failed + [Ask(now)]) <==> now - at >= c.resetTimeout * MS)
  {
    var failed := events + [Failure(at)];
    assert Init(failed) == events && Last(failed) == Failure(at);
    HalfOpenMoves(c, events, Failure(at));
    OpenAdmitsAfterTimeout(c, failed, now);
  }

  /** A reset closes the breaker from every state and forgets every failure: it takes the
      whole threshold to trip it again. */
  lemma ResetStartsOver(c: Config, events: seq<Event>, at: int, n: nat)
    requires n <= Threshold(c)
    ensures After(c, events + [Reset]).state.Closed? && FailuresInARow(events + [Reset]) == 0
    ensures After(c, events + [Reset] + Failures(at, n)).state == if n < Threshold(c) then Closed else Open
  {
    var over := events + [Reset];
    assert Init(over) == events && Last(over) == Reset;
    FailuresTripAfter(c, over, at, n);
  }

  /** Each half-open episode admits at most halfOpenMax + 1 requests. */
  lemma EpisodeBound(c: Config, events: seq<Event>)
    ensures AdmittedInEpisode(c, events) <= Max0(c.halfOpenMax) + 1
  {
    CountersTellHistory(c, events);
  }

  function Failures(at: int, n: nat): seq<Event> {
    if n == 0 then [] else Failures(at, n - 1) + [Failure(at)]
  }

  lemma {:induction false} FailuresTripAfter(c: Config, events: seq<Event>, at: int, n: nat)
    requires n <= Threshold(c) && After(c, events).state.Closed? && FailuresInARow(events) == 0
    ensures var run := events + Failures(at, n);
            && FailuresInARow(run) == n
            && After(c, run).state == (if n < Threshold(c) then Closed else Open)
            && (n == Threshold(c) ==> After(c, run).openedAt == at)
    decreases n
  {
    var run := events + Failures(at, n);
    if n == 0 {
      assert run == events;
    } else {
      var before := events + Failures(at, n - 1);
      FailuresTripAfter(c, events, at, n - 1);
      assert run == before + [Failure(at)] && Init(run) == before && Last(run) == Failure(at);
      TripsOnThreshold(c, before, at);
      CountersTellHistory(c, run);
    }
  }

  function Asks(now: int, n: nat): seq<Event> {
    if n == 0 then [] else Asks(now, n - 1) + [Ask(now)]
  }

  lemma AskSteps(c: Config, b: Breaker, now: int)
    ensures b.state.Open? && Admits(c, b, now) ==> Asked(c, b, now).state.HalfOpen? && Asked(c, b, now).requests == 0
    ensures b.state.HalfOpen? && Admits(c, b, now) ==>
              Asked(c, b, now).state.HalfOpen? && Asked(c, b, now).requests == b.requests + 1
  {
  }

  lemma OutsideEpisode(c: Config, events: seq<Event>)
    requires !After(c, events).state.HalfOpen?
    ensures AdmittedInEpisode(c, events) == 0
  {
  }

  /** The bound is reached: n + 1 requests pass before any report. */
  lemma {:induction false} EpisodeBoundReached(c: Config, events: seq<Event>, now: int, n: nat)
    requires After(c, events).state.Open? && now - After(c, events).openedAt >= c.resetTimeout * MS
    requires n <= Max0(c.halfOpenMax)
    ensures var run := events + Asks(now, n + 1);
            After(c, run).state.HalfOpen? && AdmittedInEpisode(c, run) == n + 1 && After(c, run).requests == n
    decreases n
  {
    hide Asked;
    var run := events + Asks(now, n + 1);
    var before := events + Asks(now, n);
    assert Init(run) == before && Last(run) == Ask(now);
    AskSteps(c, After(c, before), now);
    if n == 0 {
      assert events + Asks(now, 0) == events;
      OutsideEpisode(c, events);
    } else {
      EpisodeBoundReached(c, events, now, n - 1);
    }
  }

  /** The breaker is meant to close when all probes of an episode have succeeded. Because
      the first probe is not counted, it closes one success early: with the report that
      brings the successes to the number admitted minus one. */
  lemma ClosesOneEarly(c: Config, events: seq<Event>)
    requires After(c, events).state.HalfOpen?
    ensures After(c, events + [Success]).state.Closed?
       <==> SuccessesInEpisode(c, events) + 1 >= AdmittedInEpisode(c, events) - 1
  {
    CountersTellHistory(c, events);
    assert Init(events + [Success]) == events;
  }

  /** So when it closes, as many successes as probes have been reported only if the first
      probe was the only one. */
  lemma ClosesAfterAllIff(c: Config, events: seq<Event>)
    requires After(c, events).state.HalfOpen? && After(c, events + [Success]).state.Closed?
    ensures SuccessesInEpisode(c, events) + 1 >= AdmittedInEpisode(c, events)
       <==> AdmittedInEpisode(c, events) == 1
  {
    CountersTellHistory(c, events);
    HalfOpenUndecided(c, events);
    assert Init(events + [Success]) == events;
  }

  lemma {:induction false} HalfOpenUndecided(c: Config, events: seq<Event>)
    ensures var b := After(c, events);
            b.state.HalfOpen? ==> b.successes == 0 || b.successes < b.requests
    decreases |events|
  {
    if events != [] {
      HalfOpenUndecided(c, Init(events));
      CountersTellHistory(c, Init(events));
    }
  }

  /** A run that closes too early: as many failures as the threshold, two admitted requests
      after the timeout, and a success of only one of them. */
  lemma EarlyCloseHappens(c: Config)
    requires c.halfOpenMax > 0
    ensures var run := Failures(0, Threshold(c)) + Asks(c.resetTimeout * MS, 2);
            && AdmittedInEpisode(c, run) == 2 && SuccessesInEpisode(c, run) == 0
            && After(c, run + [Success]).state.Closed?
  {
    var tripped := Failures(0, Threshold(c));
    FailuresTripAfter(c, [], 0, Threshold(c));
    assert [] + tripped == tripped;
    EpisodeBoundReached(c, tripped, c.resetTimeout * MS, 1);
    var run := tripped + Asks(c.resetTimeout * MS, 2);
    CountersTellHistory(c, run);
    HalfOpenUndecided(c, run);
    ClosesOneEarly(c, run);
  }
}
