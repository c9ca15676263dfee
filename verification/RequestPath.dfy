/** What a worker does with one request: parse it again, answer internal endpoints, pass
    the rate limiter, route, pick a backend, ask its circuit breaker, forward, report and
    send. The backend's answer comes in as an input. */
module RequestPath {
  import opened Options
  import opened HttpSyntax
  import opened OneShot
  import opened Routing
  import opened Balancing
  import opened Responses
  import RateLimit
  import Breakers
  import BackendPools

  /** What is sent: an error page, an internal page, or a backend's answer with the
      decision whether the client connection stays open. */
  datatype Reply = Error(status: nat) | Page(path: string) | Answer(data: string, keepAlive: bool)

  datatype Outcome =
    | Malformed
    | Internal
    | Limited
    | NoRoute
    | Tripped(target: Backend)
    | Forwarded(target: Backend, success: bool)

  predicate IsInternal(path: string) {
    path == "/stats" || path == "/stats/" || path == "/health" || path == "/health/"
  }

  /** An empty answer or a 5xx counts as a failure of the backend. */
  predicate Succeeds(answer: string) {
    answer != "" && !("HTTP/1.1 5" <= answer)
  }

  /** The breaker after a forwarded request. */
  function Reported(c: Breakers.Config, b: Breakers.Breaker, now: int, later: int, success: bool): Breakers.Breaker {
    Breakers.Step(c, Breakers.Step(c, b, Breakers.Ask(now)),
                  if success then Breakers.Success else Breakers.Failure(later))
  }

  function KeyOf(b: Backend): string {
    BackendPools.MakeKey(b.host, b.port)
  }

  /** A backend of a longest route for this path, or the empty backend if that route
      lists none. */
  ghost predicate Routed(routes: seq<Route>, path: string, target: Backend) {
    exists route :: IsLongestMatch(routes, path, route) &&
      if route.backends == [] then target == Backend("", 0) else target in route.backends
  }

  class RequestHandler {
    const router: Router
    const balancer: LoadBalancer
    const limiter: RateLimit.RateLimitFilter
    const breakerConfig: Breakers.Config
    var breakers: map<string, Breakers.CircuitBreaker>
    var sent: seq<Reply>   // to the connection being served

    ghost predicate Valid()
      reads this`breakers, router, balancer
    {
      && Sorted(router.routes) && balancer.counter < SIZE_T
      && (forall key :: key in breakers ==> breakers[key].config == breakerConfig)
      && (forall j, k :: j in breakers && k in breakers && j != k ==> breakers[j] != breakers[k])
    }

    ghost function BreakerOf(key: string): Breakers.Breaker
      reads this`breakers, breakers.Values
    {
      if key in breakers then breakers[key].View() else Breakers.Initial()
    }

    constructor (table: seq<Route>, rate: int, burst: int, backendTimeout: int)
      ensures Valid() && breakers == map[] && limiter.buckets == map[] && sent == []
      ensures breakerConfig == Breakers.Config(5, backendTimeout * 2, 3)
      ensures fresh(router) && fresh(balancer) && fresh(limiter)
    {
      router := new Router(table);
      balancer := new LoadBalancer();
      limiter := new RateLimit.RateLimitFilter(rate, burst);
      breakerConfig := Breakers.Config(5, backendTimeout * 2, 3);
      breakers, sent := map[], [];
    }

    /** `conn->send`. */
    method Send(r: Reply)
      modifies this`sent
      ensures sent == old(sent) + [r]
    {
      sent := sent + [r];
    }

    /** One breaker per backend, made on first use. */
    method GetCircuitBreaker(b: Backend) returns (cb: Breakers.CircuitBreaker)
      requires Valid()
      modifies this`breakers
      ensures Valid() && KeyOf(b) in breakers && cb == breakers[KeyOf(b)]
      ensures KeyOf(b) in old(breakers) ==> breakers == old(breakers)
      ensures KeyOf(b) !in old(breakers) ==> breakers == old(breakers)[KeyOf(b) := cb] && fresh(cb)
      ensures cb.View() == old(BreakerOf(KeyOf(b)))
    {
      var key := KeyOf(b);
      if key in breakers {
        return breakers[key];
      }
      cb := new Breakers.CircuitBreaker(breakerConfig.threshold, breakerConfig.resetTimeout, breakerConfig.halfOpenMax);
      breakers := breakers[key := cb];
    }

    /** Routing and balancing. */
    method Choose(path: string) returns (target: Option<Backend>)
      requires Valid()
      modifies balancer
      ensures Valid()
      ensures target.None? <==> forall route :: route in router.routes ==> !Under(route.prefix, path)
      ensures target.Some? ==> Routed(router.routes, path, target.value)
    {
      FirstIsLongest(router.routes, path);
      var backends := router.Match(path);
      if backends.None? {
        return None;
      }
      var b := balancer.Select(backends.value);
      assert IsLongestMatch(router.routes, path, FirstMatch(router.routes, path).value);
      return Some(b);
    }

    /** The breaker is asked once; an admitted request is reported to it exactly once,
        with the outcome; a refused one is not reported. */
    method Forward(target: Backend, now: int, later: int, answer: string) returns (outcome: Outcome)
      requires Valid()
      modifies this`breakers, breakers.Values
      ensures Valid()
      ensures var before := old(BreakerOf(KeyOf(target)));
              if Breakers.Admits(breakerConfig, before, now) then
                && outcome == Forwarded(target, !(answer == "" || "HTTP/1.1 5" <= answer))
                && BreakerOf(KeyOf(target)) == Reported(breakerConfig, before, now, later, outcome.success)
              else outcome == Tripped(target) && BreakerOf(KeyOf(target)) == before
      ensures forall key :: key != KeyOf(target) ==> BreakerOf(key) == old(BreakerOf(key))
    {
      var cb := GetCircuitBreaker(target);
      var admitted := cb.AllowRequest(now);
      if !admitted {
        return Tripped(target);
      }
      if Succeeds(answer) {
        cb.OnSuccess();
      } else {
        cb.OnFailure(later);
      }
      return Forwarded(target, Succeeds(answer));
    }

    /** `process_request`: on every path exactly one reply is sent, the one that the outcome
        calls for. `headers` are what the filters add to a response. */
    method ProcessRequest(raw: string, client: string, now: int, later: int, answer: string,
                          headers: seq<(string, string)>) returns (outcome: Outcome)
      requires Valid()
      modifies this`breakers, this`sent, breakers.Values, limiter, balancer
      ensures outcome.Malformed? <==> ParseOnce(raw).None?
      ensures Valid() && |sent| == |old(sent)| + 1 && old(sent) <= sent
      ensures outcome.Malformed? || outcome.Limited? ==> sent[|old(sent)|] == Error(400)
      ensures outcome.NoRoute? ==> sent[|old(sent)|] == Error(404)
      ensures outcome.Tripped? ==> sent[|old(sent)|] == Error(503)
      ensures outcome.Internal? ==> sent[|old(sent)|] == Page(ParseOnce(raw).value.path)
      ensures outcome.Forwarded? ==>
                var out := Rewritten(answer, headers);
                sent[|old(sent)|] == Answer(out, KeptAlive(ParseOnce(raw).value, out))
      ensures outcome.Internal? <==>
                ParseOnce(raw).Some? && ParseOnce(raw).value.path in {"/stats", "/stats/", "/health", "/health/"}
      ensures !outcome.Malformed? && !outcome.Internal? ==>
                (outcome.Limited? <==> !RateLimit.Admits(limiter.config, old(limiter.buckets), client, now))
      ensures limiter.buckets ==
                if outcome.Malformed? || outcome.Internal? then old(limiter.buckets)
                else RateLimit.AfterRequest(limiter.config, old(limiter.buckets), client, now)
      ensures !outcome.Malformed? && !outcome.Internal? && !outcome.Limited? ==>
                (outcome.NoRoute? <==>
                   forall route :: route in router.routes ==> !Under(route.prefix, ParseOnce(raw).value.path))
      ensures outcome.Tripped? || outcome.Forwarded? ==>
                && Routed(router.routes, ParseOnce(raw).value.path, outcome.target)
                && (outcome.Forwarded? <==> Breakers.Admits(breakerConfig, old(BreakerOf(KeyOf(outcome.target))), now))
      ensures outcome.Forwarded? ==>
                var key := KeyOf(outcome.target);
                && outcome.success == !(answer == "" || "HTTP/1.1 5" <= answer)
                && BreakerOf(key) == Reported(breakerConfig, old(BreakerOf(key)), now, later, outcome.success)
      ensures outcome.Tripped? ==> BreakerOf(KeyOf(outcome.target)) == old(BreakerOf(KeyOf(outcome.target)))
      ensures forall key :: !((outcome.Tripped? || outcome.Forwarded?) && key == KeyOf(outcome.target)) ==>
                BreakerOf(key) == old(BreakerOf(key))
    {
      hide Sorted, ParseOnce, RateLimit.AfterRequest, RateLimit.Admits, Routed, Under;
      hide Breakers.Admits, Reported, KeyOf;
      hide Rewritten, KeptAlive;
      var parsed := ParseHttpRequest(raw);
      if parsed.None? {
        Send(Error(400));
        return Malformed;
      }
      var req := parsed.value;
      if IsInternal(req.path) {
        Send(Page(req.path));
        return Internal;
      }
      outcome := Serve(req, client, now, later, answer, headers);
    }

    /** A request that is not answered by the gateway itself. */
    method Serve(req: HttpRequest, client: string, now: int, later: int, answer: string,
                 headers: seq<(string, string)>) returns (outcome: Outcome)
      requires Valid()
      modifies this`breakers, this`sent, breakers.Values, limiter, balancer
      ensures Valid() && |sent| == |old(sent)| + 1 && old(sent) <= sent
      ensures outcome.Limited? ==> sent[|old(sent)|] == Error(400)
      ensures outcome.NoRoute? ==> sent[|old(sent)|] == Error(404)
      ensures outcome.Tripped? ==> sent[|old(sent)|] == Error(503)
      ensures outcome.Forwarded? ==>
                var out := Rewritten(answer, headers); sent[|old(sent)|] == Answer(out, KeptAlive(req, out))
      ensures !outcome.Malformed? && !outcome.Internal?
      ensures outcome.Limited? <==> !RateLimit.Admits(limiter.config, old(limiter.buckets), client, now)
      ensures limiter.buckets == RateLimit.AfterRequest(limiter.config, old(limiter.buckets), client, now)
      ensures !outcome.Limited? ==>
                (outcome.NoRoute? <==> forall route :: route in router.routes ==> !Under(route.prefix, req.path))
      ensures outcome.Tripped? || outcome.Forwarded? ==>
                && Routed(router.routes, req.path, outcome.target)
                && (outcome.Forwarded? <==> Breakers.Admits(breakerConfig, old(BreakerOf(KeyOf(outcome.target))), now))
      ensures outcome.Forwarded? ==>
                var key := KeyOf(outcome.target);
                && outcome.success == !(answer == "" || "HTTP/1.1 5" <= answer)
                && BreakerOf(key) == Reported(breakerConfig, old(BreakerOf(key)), now, later, outcome.success)
      ensures outcome.Tripped? ==> BreakerOf(KeyOf(outcome.target)) == old(BreakerOf(KeyOf(outcome.target)))
      ensures forall key :: !((outcome.Tripped? || outcome.Forwarded?) && key == KeyOf(outcome.target)) ==>
                BreakerOf(key) == old(BreakerOf(key))
    {
      hide Sorted, RateLimit.AfterRequest, RateLimit.Admits, Routed, Under, Breakers.Admits, Reported, KeyOf;
      hide Rewritten, KeptAlive;
      var ok := limiter.OnRequest(client, now);
      if !ok {
        Send(Error(400));
        return Limited;
      }
      var target := Choose(req.path);
      if target.None? {
        Send(Error(404));
        return NoRoute;
      }
      outcome := Relay(req, target.value, now, later, answer, headers);
    }

    /** From the breaker on. */
    method Relay(req: HttpRequest, target: Backend, now: int, later: int, answer: string,
                 headers: seq<(string, string)>) returns (outcome: Outcome)
      requires Valid()
      modifies this`breakers, this`sent, breakers.Values
      ensures Valid()
      ensures var before := old(BreakerOf(KeyOf(target)));
              if Breakers.Admits(breakerConfig, before, now) then
                && outcome == Forwarded(target, !(answer == "" || "HTTP/1.1 5" <= answer))
                && BreakerOf(KeyOf(target)) == Reported(breakerConfig, before, now, later, outcome.success)
                && var out := Rewritten(answer, headers); sent == old(sent) + [Answer(out, KeptAlive(req, out))]
              else
                && outcome == Tripped(target) && BreakerOf(KeyOf(target)) == before
                && sent == old(sent) + [Error(503)]
      ensures forall key :: key != KeyOf(target) ==> BreakerOf(key) == old(BreakerOf(key))
    {
      hide Sorted, Rewritten, KeptAlive, Breakers.Admits, Reported, KeyOf;
      outcome := Forward(target, now, later, answer);
      if outcome.Tripped? {
        Send(Error(503));
        return;
      }
      SendAnswer(req, answer, headers);
    }

    /** The response is rewritten and the fate of the connection decided. */
    method SendAnswer(req: HttpRequest, answer: string, headers: seq<(string, string)>)
      modifies this`sent
      ensures var out := Rewritten(answer, headers);
              sent == old(sent) + [Answer(out, KeptAlive(req, out))]
    {
      hide Rewritten, AsksKeepAlive;
      var out := RewriteResponse(answer, headers);
      var ka := RequestKeepAlive(req);
      if ka && (Contains(out, "\r\nConnection: close") || Contains(out, "\r\nconnection: close")) {
        ka := false;
      }
      Send(Answer(out, ka));
    }
  }
}
