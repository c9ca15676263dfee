/** The token-bucket filter, in exact arithmetic: times in nanoseconds, tokens in
    billionths, so that `rate` tokens per second are `rate` units per nanosecond. */
module RateLimit {
  import opened Numbers

  const TOKEN: int := 1_000_000_000
  const SECOND: int := 1_000_000_000

  datatype Config = Config(rate: int, burst: int)
  datatype Bucket = Bucket(tokens: int, lastFill: int)
  type Buckets = map<string, Bucket>

  function Cap(c: Config): int {
    c.burst * TOKEN
  }

  /** Tokens in the bucket of this key at time `now`; a key without bucket gets a full one. */
  function Level(c: Config, m: Buckets, key: string, now: int): int {
    if key !in m then Cap(c) else
    var filled := m[key].tokens + (now - m[key].lastFill) * c.rate;
    if filled > Cap(c) then Cap(c) else filled
  }

  predicate Limited(c: Config, key: string) {
    c.rate > 0 && key != ""
  }

  predicate Admits(c: Config, m: Buckets, key: string, now: int) {
    !Limited(c, key) || Level(c, m, key, now) >= TOKEN
  }

  function AfterRequest(c: Config, m: Buckets, key: string, now: int): Buckets {
    if !Limited(c, key) then m else
    var level := Level(c, m, key, now);
    m[key := Bucket(if level >= TOKEN then level - TOKEN else level, now)]
  }

  /** Buckets not used for more than `idle` seconds are dropped. */
  predicate Expired(b: Bucket, idle: int, now: int) {
    now - b.lastFill > idle * SECOND
  }

  function AfterCleanup(m: Buckets, idle: int, now: int): Buckets {
    map key | key in m && !Expired(m[key], idle, now) :: m[key]
  }

  // ---- the object ----

  class RateLimitFilter {
    const config: Config
    var buckets: Buckets

    constructor (rate: int, burst: int)
      ensures config == Config(rate, burst) && buckets == map[]
    {
      config, buckets := Config(rate, burst), map[];
    }

    method OnRequest(key: string, now: int) returns (ok: bool)
      modifies this
      ensures ok == Admits(config, old(buckets), key, now)
      ensures buckets == AfterRequest(config, old(buckets), key, now)
    {
      if config.rate <= 0 || key == "" {
        return true;
      }
      if key !in buckets {
        buckets := buckets[key := Bucket(Cap(config), now)];
      }
      var tokens := buckets[key].tokens;
      var elapsed := now - buckets[key].lastFill;
      tokens := tokens + elapsed * config.rate;
      if tokens > Cap(config) {
        tokens := Cap(config);
      }
      ok := tokens >= TOKEN;
      if ok {
        tokens := tokens - TOKEN;
      }
      buckets := buckets[key := Bucket(tokens, now)];
    }

    method CleanupExpiredBuckets(idle: int, now: int)
      modifies this
      ensures buckets == AfterCleanup(old(buckets), idle, now)
    {
      var todo := buckets.Keys;
      while todo != {}
        invariant todo <= buckets.Keys <= old(buckets).Keys
        invariant forall key :: key in buckets ==> buckets[key] == old(buckets)[key]
        invariant forall key :: key in old(buckets) && key !in todo ==>
                    (key in buckets <==> !Expired(old(buckets)[key], idle, now))
      {
        var key :| key in todo;
        if Expired(buckets[key], idle, now) {
          buckets := buckets - {key};
        }
        todo := todo - {key};
      }
    }
  }

  // ---- runs ----

  datatype Event = Request(key: string, at: int) | Cleanup(at: int)

  predicate Monotone(events: seq<Event>, from: int)
    decreases |events|
  {
    events == [] || (from <= events[0].at && Monotone(events[1..], events[0].at))
  }

  function After(c: Config, m: Buckets, idle: int, e: Event): Buckets {
    match e
    case Request(key, at) => AfterRequest(c, m, key, at)
    case Cleanup(at) => AfterCleanup(m, idle, at)
  }

  /** The answers to the requests of a run, in order. */
  function Decisions(c: Config, m: Buckets, idle: int, events: seq<Event>): seq<bool>
    decreases |events|
  {
    if events == [] then []
    else
      (if events[0].Request? then [Admits(c, m, events[0].key, events[0].at)] else [])
      + Decisions(c, After(c, m, idle, events[0]), idle, events[1..])
  }

  function AfterAll(c: Config, m: Buckets, idle: int, events: seq<Event>): Buckets
    decreases |events|
  {
    if events == [] then m else AfterAll(c, After(c, m, idle, events[0]), idle, events[1..])
  }

  /** The run in which nothing is ever cleaned up. */
  function WithoutCleanups(events: seq<Event>): seq<Event> {
    if events == [] then []
    else (if events[0].Request? then [events[0]] else []) + WithoutCleanups(events[1..])
  }

  /** Requests of `key` admitted at times t1..t2. */
  function Admitted(c: Config, m: Buckets, idle: int, events: seq<Event>, key: string, t1: int, t2: int): nat
    decreases |events|
  {
    if events == [] then 0
    else
      var e := events[0];
      (if e.Request? && e.key == key && t1 <= e.at <= t2 && Admits(c, m, key, e.at) then 1 else 0)
      + Admitted(c, After(c, m, idle, e), idle, events[1..], key, t1, t2)
  }

  // ---- what cleaning up may forget ----

  /** The shortest time after which a bucket can have expired. */
  function MinGap(idle: int): nat {
    if idle < 0 then 0 else idle * SECOND + 1
  }

  /** A bucket that has expired is full again, whatever was in it. */
  predicate Safe(c: Config, idle: int) {
    c.burst <= 0 || MinGap(idle) * c.rate >= Cap(c)
  }

  /** Between requests a bucket holds no debt (unless its capacity is one) and its clock
      is not ahead. */
  predicate Sound(c: Config, m: Buckets, now: int) {
    forall key :: key in m ==>
      && m[key].lastFill <= now
      && m[key].tokens <= Cap(c)
      && (if Cap(c) < 0 then m[key].tokens == Cap(c) else m[key].tokens >= 0)
  }

  lemma MulGrows(a: int, b: int, rate: int)
    requires a <= b && rate >= 0
    ensures a * rate <= b * rate
  {
  }

  lemma RequestKeepsSound(c: Config, m: Buckets, key: string, now: int, at: int)
    requires Sound(c, m, now) && now <= at && c.rate > 0
    ensures Sound(c, AfterRequest(c, m, key, at), at)
  {
    if key in m {
      MulGrows(0, at - m[key].lastFill, c.rate);
    }
  }

  lemma CleanupKeepsSound(c: Config, m: Buckets, idle: int, now: int, at: int)
    requires Sound(c, m, now) && now <= at
    ensures Sound(c, AfterCleanup(m, idle, at), at)
  {
  }

  lemma ExpiredIsFull(c: Config, m: Buckets, key: string, idle: int, now: int, at: int)
    requires Sound(c, m, now) && now <= at && c.rate > 0 && Safe(c, idle)
    requires key in m && Expired(m[key], idle, at)
    ensures Level(c, m, key, at) == Cap(c)
  {
    var elapsed := at - m[key].lastFill;
    MulGrows(0, elapsed, c.rate);
    if c.burst > 0 {
      assert elapsed >= MinGap(idle);
      MulGrows(MinGap(idle), elapsed, c.rate);
    }
  }

  lemma LevelLater(c: Config, m: Buckets, key: string, now: int, at: int)
    requires now <= at && c.rate > 0
    ensures Level(c, m, key, now) <= Level(c, m, key, at)
    ensures Level(c, m, key, at) <= Level(c, m, key, now) + (at - now) * c.rate
    ensures Level(c, m, key, at) <= Cap(c)
  {
    MulGrows(0, at - now, c.rate);
    if key in m {
      var b := m[key];
      assert (at - b.lastFill) * c.rate == (now - b.lastFill) * c.rate + (at - now) * c.rate;
    }
  }

  // ---- the rate bound ----

  /** What the key may still get admitted until t2, seen at time `now`. */
  function Allowance(c: Config, m: Buckets, key: string, now: int, t1: int, t2: int): int {
    if now > t2 then 0
    else if now < t1 then Max0(Cap(c)) + (t2 - t1) * c.rate
    else Max0(Level(c, m, key, now)) + (t2 - now) * c.rate
  }

  lemma AllowanceLater(c: Config, m: Buckets, key: string, now: int, at: int, t1: int, t2: int)
    requires now <= at && t1 <= t2 && c.rate > 0
    ensures 0 <= Allowance(c, m, key, at, t1, t2) <= Allowance(c, m, key, now, t1, t2)
  {
    LevelLater(c, m, key, now, at);
    MulGrows(0, t2 - t1, c.rate);
    if at <= t2 {
      MulGrows(0, t2 - at, c.rate);
      if now >= t1 {
        assert (t2 - now) * c.rate == (t2 - at) * c.rate + (at - now) * c.rate;
      } else if at >= t1 {
        MulGrows(t2 - at, t2 - t1, c.rate);
      }
    } else if now <= t2 && now >= t1 {
      MulGrows(0, t2 - now, c.rate);
    }
  }

  /** One event uses up a token of the allowance for each admission it makes. */
  lemma EventPays(c: Config, m: Buckets, idle: int, e: Event, key: string, now: int, t1: int, t2: int)
    requires c.rate > 0 && key != "" && t1 <= t2 && Sound(c, m, now) && now <= e.at
    requires e.Cleanup? ==> Safe(c, idle)
    ensures var n := if e.Request? && e.key == key && t1 <= e.at <= t2 && Admits(c, m, key, e.at) then 1 else 0;
            Allowance(c, After(c, m, idle, e), key, e.at, t1, t2) + n * TOKEN <= Allowance(c, m, key, now, t1, t2)
  {
    AllowanceLater(c, m, key, now, e.at, t1, t2);
    LevelAfter(c, m, idle, e, key, now);
  }

  lemma LevelAfter(c: Config, m: Buckets, idle: int, e: Event, key: string, now: int)
    requires c.rate > 0 && key != "" && Sound(c, m, now) && now <= e.at
    requires e.Cleanup? ==> Safe(c, idle)
    ensures var paid := e.Request? && e.key == key && Admits(c, m, key, e.at);
            Level(c, After(c, m, idle, e), key, e.at) == Level(c, m, key, e.at) - if paid then TOKEN else 0
  {
    if e.Cleanup? && key in m && Expired(m[key], idle, e.at) {
      ExpiredIsFull(c, m, key, idle, now, e.at);
    }
  }

  predicate NoCleanups(events: seq<Event>) {
    forall i :: 0 <= i < |events| ==> events[i].Request?
  }

  lemma {:induction false} AdmittedWithin(c: Config, m: Buckets, idle: int, events: seq<Event>, key: string,
                                          now: int, t1: int, t2: int)
    requires c.rate > 0 && key != "" && t1 <= t2
    requires Sound(c, m, now) && Monotone(events, now) && (Safe(c, idle) || NoCleanups(events))
    ensures Admitted(c, m, idle, events, key, t1, t2) * TOKEN <= Allowance(c, m, key, now, t1, t2)
    decreases |events|
  {
    if events == [] {
      AllowanceLater(c, m, key, now, now, t1, t2);
    } else {
      var e := events[0];
      EventPays(c, m, idle, e, key, now, t1, t2);
      if e.Request? {
        RequestKeepsSound(c, m, e.key, now, e.at);
      } else {
        CleanupKeepsSound(c, m, idle, now, e.at);
      }
      AdmittedWithin(c, After(c, m, idle, e), idle, events[1..], key, e.at, t1, t2);
    }
  }

  /** The rate bound: for every key, every run with a clock that does not go back and
      every window, at most burst + rate * window requests are admitted. How old a bucket
      must be to be removed matters only when some are. */
  lemma RateBound(c: Config, idle: int, events: seq<Event>, key: string, start: int, t1: int, t2: int)
    requires c.rate > 0 && key != "" && t1 <= t2
    requires Monotone(events, start) && (Safe(c, idle) || NoCleanups(events))
    ensures Admitted(c, map[], idle, events, key, t1, t2) * TOKEN <= Max0(c.burst) * TOKEN + (t2 - t1) * c.rate
  {
    AdmittedWithin(c, map[], idle, events, key, start, t1, t2);
    MulGrows(0, t2 - t1, c.rate);
    if t1 <= start {
      MulGrows(t2 - start, t2 - t1, c.rate);
    }
  }

  // ---- who is never refused ----

  /** The requests of a run, each with its answer: one without a key, and any under a rate
      of zero or less, is admitted. */
  lemma {:induction false} UnlimitedAdmitted(c: Config, m: Buckets, idle: int, events: seq<Event>)
    ensures var asked, answers := WithoutCleanups(events), Decisions(c, m, idle, events);
            |answers| == |asked| && NoCleanups(asked) &&
            forall i :: 0 <= i < |asked| && (c.rate <= 0 || asked[i].key == "") ==> answers[i]
    decreases |events|
  {
    if events != [] {
      UnlimitedAdmitted(c, After(c, m, idle, events[0]), idle, events[1..]);
    }
  }

  function Asked(events: seq<Event>, key: string): nat {
    if events == [] then 0
    else Asked(events[..|events| - 1], key) +
         if events[|events| - 1].Request? && events[|events| - 1].key == key then 1 else 0
  }

  lemma {:induction false} AskedFront(events: seq<Event>, key: string)
    requires events != []
    ensures Asked(events, key) ==
              (if events[0].Request? && events[0].key == key then 1 else 0) + Asked(events[1..], key)
    decreases |events|
  {
    if |events| > 1 {
      var n := |events| - 1;
      AskedFront(events[..n], key);
      assert events[..n][1..] == events[1..][..n - 1];
    }
  }

  predicate ByKey(e: Event, key: string) {
    e.Request? && e.key == key
  }

  /** So many requests in such a time are within the rate. */
  predicate Fits(c: Config, n: nat, span: int) {
    n * TOKEN <= Cap(c) + span * c.rate
  }

  /** A client that keeps to the rate: between any two of its requests, both counted, it
      makes no more than burst + rate * time. */
  predicate Conforms(c: Config, events: seq<Event>, key: string) {
    forall i, j :: 0 <= i <= j < |events| && ByKey(events[i], key) && ByKey(events[j], key) ==>
      Fits(c, Asked(events[i..j + 1], key), events[j].at - events[i].at)
  }

  /** n requests since the bucket was last full, at time s, and what they leave room for. */
  predicate Within(c: Config, events: seq<Event>, key: string, s: int, n: nat) {
    forall j :: 0 <= j < |events| && ByKey(events[j], key) ==>
      Fits(c, n + Asked(events[..j + 1], key), events[j].at - s)
  }

  predicate NoneRefused(c: Config, m: Buckets, idle: int, events: seq<Event>, key: string)
    decreases |events|
  {
    events == [] ||
    ((ByKey(events[0], key) ==> Admits(c, m, key, events[0].at)) &&
     NoneRefused(c, After(c, m, idle, events[0]), idle, events[1..], key))
  }

  lemma ConformsLater(c: Config, events: seq<Event>, key: string)
    requires events != [] && Conforms(c, events, key)
    ensures Conforms(c, events[1..], key)
  {
    hide Fits, Asked;
    var rest := events[1..];
    forall i, j | 0 <= i <= j < |rest| && ByKey(rest[i], key) && ByKey(rest[j], key)
      ensures Fits(c, Asked(rest[i..j + 1], key), rest[j].at - rest[i].at)
    {
      assert rest[i] == events[i + 1] && rest[j] == events[j + 1];
      assert rest[i..j + 1] == events[i + 1..j + 2];
    }
  }

  lemma ConformsFrom(c: Config, events: seq<Event>, key: string)
    requires events != [] && Conforms(c, events, key) && ByKey(events[0], key)
    ensures Fits(c, 1, 0) && Within(c, events[1..], key, events[0].at, 1)
  {
    hide Fits, Asked;
    var rest := events[1..];
    AskedOne(events, 0, key);
    forall j | 0 <= j < |rest| && ByKey(rest[j], key)
      ensures Fits(c, 1 + Asked(rest[..j + 1], key), rest[j].at - events[0].at)
    {
      assert rest[j] == events[j + 1];
      AskedFront(events[0..j + 2], key);
      assert events[0..j + 2][1..] == rest[..j + 1];
    }
  }

  lemma AskedOne(events: seq<Event>, j: nat, key: string)
    requires j < |events| && ByKey(events[j], key)
    ensures Asked(events[j..j + 1], key) == 1
  {
    AskedFront(events[j..j + 1], key);
    assert events[j..j + 1][1..] == [];
  }

  lemma WithinLater(c: Config, events: seq<Event>, key: string, s: int, n: nat)
    requires events != [] && Within(c, events, key, s, n)
    ensures Within(c, events[1..], key, s, n + if ByKey(events[0], key) then 1 else 0)
    ensures ByKey(events[0], key) ==> Fits(c, n + 1, events[0].at - s)
  {
    hide Fits;
    var rest := events[1..];
    var k := n + if ByKey(events[0], key) then 1 else 0;
    forall j | 0 <= j < |rest| && ByKey(rest[j], key)
      ensures Fits(c, k + Asked(rest[..j + 1], key), rest[j].at - s)
    {
      assert rest[j] == events[j + 1];
      AskedFront(events[..j + 2], key);
      assert events[..j + 2][1..] == rest[..j + 1];
    }
    if ByKey(events[0], key) {
      AskedFront(events[..1], key);
      assert events[..1][1..] == [];
    }
  }

  function Lower(a: int, b: int): int {
    if a < b then a else b
  }

  lemma {:induction false} RoomLeft(c: Config, m: Buckets, idle: int, events: seq<Event>, key: string,
                                    now: int, s: int, n: nat)
    requires c.rate > 0 && key != "" && Sound(c, m, now) && Monotone(events, now)
    requires Safe(c, idle) || NoCleanups(events)
    requires Conforms(c, events, key) && Within(c, events, key, s, n)
    requires Level(c, m, key, now) >= Lower(Cap(c), Cap(c) + (now - s) * c.rate - n * TOKEN)
    ensures NoneRefused(c, m, idle, events, key)
    decreases |events|
  {
    if events != [] {
      var e := events[0];
      var next := After(c, m, idle, e);
      hide Conforms, Within;
      LevelGrows(c, m, key, now, e.at, s, n);
      LevelAfter(c, m, idle, e, key, now);
      ConformsLater(c, events, key);
      WithinLater(c, events, key, s, n);
      if ByKey(e, key) {
        ConformsFrom(c, events, key);
      }
      if e.Request? {
        RequestKeepsSound(c, m, e.key, now, e.at);
      } else {
        CleanupKeepsSound(c, m, idle, now, e.at);
      }
      if !ByKey(e, key) {
        RoomLeft(c, next, idle, events[1..], key, e.at, s, n);
      } else if Level(c, m, key, e.at) >= Cap(c) + (e.at - s) * c.rate - n * TOKEN {
        RoomLeft(c, next, idle, events[1..], key, e.at, s, n + 1);
      } else {
        RoomLeft(c, next, idle, events[1..], key, e.at, e.at, 1);
      }
    }
  }

  lemma LevelGrows(c: Config, m: Buckets, key: string, now: int, at: int, s: int, n: nat)
    requires c.rate > 0 && now <= at
    requires Level(c, m, key, now) >= Lower(Cap(c), Cap(c) + (now - s) * c.rate - n * TOKEN)
    ensures Level(c, m, key, at) >= Lower(Cap(c), Cap(c) + (at - s) * c.rate - n * TOKEN)
  {
    assert (at - s) * c.rate == (now - s) * c.rate + (at - now) * c.rate;
    if key in m {
      var b := m[key];
      assert (at - b.lastFill) * c.rate == (now - b.lastFill) * c.rate + (at - now) * c.rate;
      MulGrows(0, at - now, c.rate);
    }
  }

  /** The other side of the bound: a client that keeps to the rate is never refused. */
  lemma ConformingNeverRefused(c: Config, idle: int, events: seq<Event>, key: string, start: int)
    requires c.rate > 0 && key != "" && Monotone(events, start) && Conforms(c, events, key)
    requires Safe(c, idle) || NoCleanups(events)
    ensures NoneRefused(c, map[], idle, events, key)
  {
    var s := start - |events| * TOKEN;
    LongAgo(c, events, key, start, s);
    RoomLeft(c, map[], idle, events, key, start, s, 0);
  }

  lemma {:induction false} AskedSmall(events: seq<Event>, key: string)
    ensures Asked(events, key) <= |events|
    decreases |events|
  {
    if events != [] {
      AskedSmall(events[..|events| - 1], key);
    }
  }

  lemma {:induction false} NotBeforeStart(events: seq<Event>, start: int, j: nat)
    requires Monotone(events, start) && j < |events|
    ensures start <= events[j].at
    decreases |events|
  {
    if j > 0 {
      NotBeforeStart(events[1..], events[0].at, j - 1);
    }
  }

  /** A bucket that has been full for so long is full whatever was asked. */
  lemma LongAgo(c: Config, events: seq<Event>, key: string, start: int, s: int)
    requires c.rate > 0 && Monotone(events, start) && Conforms(c, events, key) && s == start - |events| * TOKEN
    ensures Within(c, events, key, s, 0)
  {
    hide Fits, Asked;
    forall j | 0 <= j < |events| && ByKey(events[j], key)
      ensures Fits(c, 0 + Asked(events[..j + 1], key), events[j].at - s)
    {
      AskedOne(events, j, key);
      assert Fits(c, 1, 0);
      AskedSmall(events[..j + 1], key);
      NotBeforeStart(events, start, j);
      FitsInLongTime(c, Asked(events[..j + 1], key), |events|, events[j].at - s);
    }
  }

  lemma FitsInLongTime(c: Config, n: nat, size: nat, span: int)
    requires c.rate > 0 && Fits(c, 1, 0) && n <= size && span >= size * TOKEN
    ensures Fits(c, n, span)
  {
    MulGrows(size * TOKEN, span, c.rate);
    MulGrows(1, c.rate, size * TOKEN);
  }

  // ---- cleaning up is unobservable ----

  /** The cleaned table agrees with the plain one, except that it may lack buckets that
      are full by now. */
  predicate Agree(c: Config, cleaned: Buckets, plain: Buckets, now: int) {
    && (forall key :: key in cleaned ==> key in plain && cleaned[key] == plain[key])
    && (forall key :: key in plain && key !in cleaned ==> Level(c, plain, key, now) == Cap(c))
  }

  lemma AgreeLater(c: Config, cleaned: Buckets, plain: Buckets, now: int, at: int)
    requires Agree(c, cleaned, plain, now) && now <= at && c.rate > 0
    ensures Agree(c, cleaned, plain, at)
    ensures forall key :: Level(c, cleaned, key, at) == Level(c, plain, key, at)
  {
    forall key | key in plain && key !in cleaned ensures Level(c, plain, key, at) == Cap(c) {
      LevelLater(c, plain, key, now, at);
    }
  }

  lemma {:induction false} SameDecisions(c: Config, cleaned: Buckets, plain: Buckets, idle: int,
                                         events: seq<Event>, now: int)
    requires c.rate > 0 && Safe(c, idle) && Monotone(events, now)
    requires Agree(c, cleaned, plain, now) && Sound(c, plain, now)
    ensures Decisions(c, cleaned, idle, events) == Decisions(c, plain, idle, WithoutCleanups(events))
    decreases |events|
  {
    if events != [] {
      var at := events[0].at;
      AgreeLater(c, cleaned, plain, now, at);
      match events[0]
      case Request(key, _) =>
        RequestKeepsSound(c, plain, key, now, at);
        var cleaned', plain' := AfterRequest(c, cleaned, key, at), AfterRequest(c, plain, key, at);
        forall k | k in plain' && k !in cleaned' ensures Level(c, plain', k, at) == Cap(c) {
          assert Level(c, plain, k, at) == Cap(c);
        }
        SameDecisions(c, cleaned', plain', idle, events[1..], at);
        assert WithoutCleanups(events)[1..] == WithoutCleanups(events[1..]);
      case Cleanup(_) =>
        var cleaned' := AfterCleanup(cleaned, idle, at);
        forall k | k in plain && k !in cleaned' ensures Level(c, plain, k, at) == Cap(c) {
          if k in cleaned {
            ExpiredIsFull(c, plain, k, idle, now, at);
          }
        }
        SameDecisions(c, cleaned', plain, idle, events[1..], at);
        assert WithoutCleanups(events) == WithoutCleanups(events[1..]);
    }
  }

  /** n requests of one key at one moment. */
  function Burst(key: string, at: int, n: nat): seq<Event> {
    if n == 0 then [] else [Request(key, at)] + Burst(key, at, n - 1)
  }

  function AllTrue(n: nat): seq<bool> {
    seq(n, _ => true)
  }

  lemma {:induction false} DecisionsAppend(c: Config, m: Buckets, idle: int, a: seq<Event>, b: seq<Event>)
    ensures Decisions(c, m, idle, a + b) == Decisions(c, m, idle, a) + Decisions(c, AfterAll(c, m, idle, a), idle, b)
    decreases |a|
  {
    if a == [] {
      assert a + b == b;
    } else {
      assert (a + b)[1..] == a[1..] + b;
      DecisionsAppend(c, After(c, m, idle, a[0]), idle, a[1..], b);
    }
  }

  lemma {:induction false} BurstHasNoCleanup(key: string, at: int, n: nat, rest: seq<Event>)
    ensures WithoutCleanups(Burst(key, at, n) + rest) == Burst(key, at, n) + WithoutCleanups(rest)
    decreases n
  {
    if n == 0 {
      assert Burst(key, at, n) + rest == rest;
    } else {
      var first, later := [Request(key, at)], Burst(key, at, n - 1);
      BurstHasNoCleanup(key, at, n - 1, rest);
      assert Burst(key, at, n) + rest == first + (later + rest);
      assert (first + (later + rest))[1..] == later + rest;
      assert first + (later + WithoutCleanups(rest)) == Burst(key, at, n) + WithoutCleanups(rest);
    }
  }

  /** A full bucket admits the whole burst and is then empty. */
  lemma {:induction false} BurstPasses(c: Config, m: Buckets, idle: int, key: string, at: int, n: nat)
    requires Limited(c, key) && Level(c, m, key, at) == n * TOKEN
    ensures Decisions(c, m, idle, Burst(key, at, n)) == AllTrue(n)
    ensures n > 0 ==> AfterAll(c, m, idle, Burst(key, at, n)) == m[key := Bucket(0, at)]
    decreases n
  {
    if n > 0 {
      var m' := AfterRequest(c, m, key, at);
      BurstPasses(c, m', idle, key, at, n - 1);
      assert Burst(key, at, n)[1..] == Burst(key, at, n - 1);
      assert AllTrue(n) == [true] + AllTrue(n - 1);
    }
  }

  /** A bucket that is not full refuses at least one request of a whole burst. */
  lemma {:induction false} BurstRefused(c: Config, m: Buckets, idle: int, key: string, at: int, n: nat)
    requires Limited(c, key) && 0 <= Level(c, m, key, at) < n * TOKEN
    ensures Decisions(c, m, idle, Burst(key, at, n)) != AllTrue(n)
    decreases n
  {
    var m' := AfterRequest(c, m, key, at);
    assert Burst(key, at, n)[1..] == Burst(key, at, n - 1);
    if Level(c, m, key, at) >= TOKEN {
      BurstRefused(c, m', idle, key, at, n - 1);
      assert AllTrue(n)[1..] == AllTrue(n - 1);
      assert Decisions(c, m, idle, Burst(key, at, n))[1..] == Decisions(c, m', idle, Burst(key, at, n - 1));
    } else {
      assert !Decisions(c, m, idle, Burst(key, at, n))[0];
    }
  }

  /** Use up the burst, clean up as early as a bucket can expire, and ask again. */
  function Telltale(c: Config, key: string, idle: int): seq<Event>
    requires c.burst > 0
  {
    Burst(key, 0, c.burst) + ([Cleanup(MinGap(idle))] + Burst(key, MinGap(idle), c.burst))
  }

  lemma TelltaleTells(c: Config, key: string, idle: int)
    requires Limited(c, key) && !Safe(c, idle)
    ensures Decisions(c, map[], idle, Telltale(c, key, idle))
         != Decisions(c, map[], idle, WithoutCleanups(Telltale(c, key, idle)))
  {
    var n, gap := c.burst, MinGap(idle);
    var first, again := Burst(key, 0, n), Burst(key, gap, n);
    var used: Buckets := map[key := Bucket(0, 0)];
    BurstPasses(c, map[], idle, key, 0, n);
    DecisionsAppend(c, map[], idle, first, [Cleanup(gap)] + again);
    DecisionsAppend(c, map[], idle, first, again);
    BurstHasNoCleanup(key, 0, n, [Cleanup(gap)] + again);
    BurstHasNoCleanup(key, gap, n, []);
    assert again + [] == again;
    assert ([Cleanup(gap)] + again)[1..] == again;
    assert WithoutCleanups([Cleanup(gap)] + again) == again;
    assert AfterCleanup(used, idle, gap) == map[];
    BurstPasses(c, map[], idle, key, gap, n);
    MulGrows(0, gap, c.rate);
    BurstRefused(c, used, idle, key, gap, n);
    assert AllTrue(n) + AllTrue(n) != AllTrue(n) + Decisions(c, used, idle, again) by {
      assert (AllTrue(n) + AllTrue(n))[n..] == AllTrue(n);
      assert (AllTrue(n) + Decisions(c, used, idle, again))[n..] == Decisions(c, used, idle, again);
    }
  }

  lemma {:induction false} BurstMonotone(key: string, at: int, n: nat, rest: seq<Event>, from: int)
    requires from <= at && Monotone(rest, at)
    ensures Monotone(Burst(key, at, n) + rest, from)
    decreases n
  {
    if n == 0 {
      assert Burst(key, at, 0) + rest == rest;
    } else {
      var first, later := [Request(key, at)], Burst(key, at, n - 1);
      BurstMonotone(key, at, n - 1, rest, at);
      assert Burst(key, at, n) + rest == first + (later + rest);
      assert (first + (later + rest))[1..] == later + rest;
    }
  }

  /** Cleaning up after `idle` seconds can never be noticed, in any run from the start, if
      and only if a bucket left alone that long is full again. */
  lemma CleanupUnobservableIff(c: Config, idle: int)
    requires c.rate > 0
    ensures (forall events :: Monotone(events, 0) ==>
               Decisions(c, map[], idle, events) == Decisions(c, map[], idle, WithoutCleanups(events)))
       <==> Safe(c, idle)
  {
    if Safe(c, idle) {
      forall events | Monotone(events, 0)
        ensures Decisions(c, map[], idle, events) == Decisions(c, map[], idle, WithoutCleanups(events))
      {
        SameDecisions(c, map[], map[], idle, events, 0);
      }
    } else {
      var again := Burst("k", MinGap(idle), c.burst);
      BurstMonotone("k", MinGap(idle), c.burst, [], MinGap(idle));
      assert again + [] == again;
      assert ([Cleanup(MinGap(idle))] + again)[1..] == again;
      BurstMonotone("k", 0, c.burst, [Cleanup(MinGap(idle))] + again, 0);
      TelltaleTells(c, "k", idle);
      assert Monotone(Telltale(c, "k", idle), 0);
    }
  }

  lemma {:induction false} BurstAdmitted(c: Config, m: Buckets, idle: int, key: string, at: int, n: nat,
                                         rest: seq<Event>, t1: int, t2: int)
    requires Limited(c, key) && Level(c, m, key, at) == n * TOKEN && t1 <= at <= t2 && n > 0
    ensures Admitted(c, m, idle, Burst(key, at, n) + rest, key, t1, t2)
         == n + Admitted(c, m[key := Bucket(0, at)], idle, rest, key, t1, t2)
    decreases n
  {
    var m' := AfterRequest(c, m, key, at);
    assert (Burst(key, at, n) + rest)[1..] == Burst(key, at, n - 1) + rest;
    assert m'[key := Bucket(0, at)] == m[key := Bucket(0, at)];
    if n == 1 {
      assert Burst(key, at, 0) + rest == rest;
    } else {
      BurstAdmitted(c, m', idle, key, at, n - 1, rest, t1, t2);
    }
  }

  ghost predicate KeepsRate(c: Config, idle: int) {
    forall events, key, t1, t2 :: Monotone(events, 0) && key != "" && t1 <= t2 ==>
      Admitted(c, map[], idle, events, key, t1, t2) * TOKEN <= Max0(c.burst) * TOKEN + (t2 - t1) * c.rate
  }

  /** The bound survives the periodic clean-up under exactly the same condition: when it
      is missed, the run above admits two bursts in too short a time. */
  lemma RateBoundIff(c: Config, idle: int)
    requires c.rate > 0
    ensures KeepsRate(c, idle) <==> Safe(c, idle)
  {
    if Safe(c, idle) {
      forall events, key, t1, t2 | Monotone(events, 0) && key != "" && t1 <= t2
        ensures Admitted(c, map[], idle, events, key, t1, t2) * TOKEN <= Max0(c.burst) * TOKEN + (t2 - t1) * c.rate
      {
        RateBound(c, idle, events, key, 0, t1, t2);
      }
    } else {
      var n, gap := c.burst, MinGap(idle);
      var again := Burst("k", gap, n);
      var run := Telltale(c, "k", idle);
      assert again + [] == again;
      assert ([Cleanup(gap)] + again)[1..] == again;
      BurstMonotone("k", gap, n, [], gap);
      BurstMonotone("k", 0, n, [Cleanup(gap)] + again, 0);
      BurstAdmitted(c, map[], idle, "k", 0, n, [Cleanup(gap)] + again, 0, gap);
      assert AfterCleanup(map["k" := Bucket(0, 0)], idle, gap) == map[];
      BurstAdmitted(c, map[], idle, "k", gap, n, [], 0, gap);
      assert Admitted(c, map[], idle, run, "k", 0, gap) == 2 * n;
    }
  }

  /** The gateway's own settings, 100 per second, burst 200, five minutes, are safe. */
  lemma GatewaySettingsSafe()
    ensures Safe(Config(100, 200), 300)
  {
  }
}
