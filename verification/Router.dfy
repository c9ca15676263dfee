/** Routing by longest prefix: the table is sorted once, by number of slashes and then by
    length, and a path takes the first route that matches. */
module Routing {
  import opened Options

  datatype Backend = Backend(host: string, port: int)
  datatype Route = Route(prefix: string, backends: seq<Backend>)

  function Slashes(s: string): nat {
    if s == "" then 0 else Slashes(s[..|s| - 1]) + if s[|s| - 1] == '/' then 1 else 0
  }

  /** The comparison given to the sort: a comes strictly before b. */
  predicate Before(a: Route, b: Route) {
    Slashes(a.prefix) > Slashes(b.prefix)
    || (Slashes(a.prefix) == Slashes(b.prefix) && |a.prefix| > |b.prefix|)
  }

  predicate Sorted(routes: seq<Route>) {
    forall i, j :: 0 <= i < j < |routes| ==> !Before(routes[j], routes[i])
  }

  /** The prefix ends where the path ends or where one of its segments ends. */
  predicate Matches(prefix: string, path: string) {
    && |prefix| <= |path|
    && path[..|prefix|] == prefix
    && (|prefix| == |path| || path[|prefix|] == '/')
  }

  /** The path is the prefix itself, or goes on from it with a slash and anything. */
  ghost predicate Under(prefix: string, path: string) {
    path == prefix || exists rest :: path == prefix + "/" + rest
  }

  lemma MatchesIff(prefix: string, path: string)
    ensures Matches(prefix, path) <==> Under(prefix, path)
  {
    var n := |prefix|;
    if Matches(prefix, path) && path != prefix {
      assert n < |path|;
      assert path == prefix + "/" + path[n + 1..];
    }
    if rest :| path == prefix + "/" + rest {
      assert path[..n] == prefix && path[n] == '/';
    }
  }

  /** The route `/api/user` is not for `/api/users`. */
  lemma SegmentsAreWhole(prefix: string, c: char, rest: string)
    ensures Matches(prefix, prefix + [c] + rest) <==> c == '/'
    ensures Matches(prefix, prefix) && !Matches("/api/user", "/api/users") && Matches("/api/user", "/api/user/7")
  {
    var path := prefix + [c] + rest;
    assert path[..|prefix|] == prefix && path[|prefix|] == c;
    assert "/api/users"[9] == 's';
    var long := "/api/user/7";
    assert long == "/api/user" + "/" + "7";
    assert long[..9] == "/api/user" && long[9] == '/';
  }

  function FirstMatch(routes: seq<Route>, path: string): Option<Route> {
    if routes == [] then None
    else if Matches(routes[0].prefix, path) then Some(routes[0])
    else FirstMatch(routes[1..], path)
  }

  /** More slashes come first, then more characters. */
  predicate NotAfter(a: string, b: string) {
    var m, n := multiset(a)['/'], multiset(b)['/'];
    m > n || (m == n && |a| >= |b|)
  }

  lemma {:induction false} SlashesCount(s: string)
    ensures Slashes(s) == multiset(s)['/']
    decreases |s|
  {
    if s != "" {
      var n := |s| - 1;
      SlashesCount(s[..n]);
      assert s == s[..n] + [s[n]];
    }
  }

  lemma BeforeIff(a: Route, b: Route)
    ensures Before(a, b) <==> !NotAfter(b.prefix, a.prefix)
  {
    SlashesCount(a.prefix);
    SlashesCount(b.prefix);
  }

  class Router {
    var routes: seq<Route>

    constructor (table: seq<Route>)
      ensures Sorted(routes) && multiset(routes) == multiset(table)
    {
      routes := table;
      new;
      SortRoutes();
    }

    /** std::sort, here by insertion: any order of equal entries would do. */
    method SortRoutes()
      modifies this
      ensures Sorted(routes) && multiset(routes) == multiset(old(routes))
      ensures forall i, j :: 0 <= i < j < |routes| ==> NotAfter(routes[i].prefix, routes[j].prefix)
    {
      var sorted := [];
      for i := 0 to |routes|
        invariant routes == old(routes)
        invariant Sorted(sorted) && multiset(sorted) == multiset(routes[..i])
      {
        sorted := Insert(sorted, routes[i]);
        assert routes[..i + 1] == routes[..i] + [routes[i]];
      }
      assert routes[..|routes|] == routes;
      routes := sorted;
      forall i, j | 0 <= i < j < |routes|
        ensures NotAfter(routes[i].prefix, routes[j].prefix)
      {
        BeforeIff(routes[j], routes[i]);
      }
    }

    method Insert(sorted: seq<Route>, r: Route) returns (s: seq<Route>)
      requires Sorted(sorted)
      ensures Sorted(s) && multiset(s) == multiset(sorted) + multiset{r}
    {
      hide Sorted, Before;
      var k := |sorted|;
      while k > 0 && Before(r, sorted[k - 1])
        invariant 0 <= k <= |sorted|
        invariant forall j :: k <= j < |sorted| ==> Before(r, sorted[j])
      {
        k := k - 1;
      }
      s := sorted[..k] + [r] + sorted[k..];
      InsertedSorted(sorted, r, k);
      assert sorted == sorted[..k] + sorted[k..];
    }

    method Match(path: string) returns (r: Option<seq<Backend>>)
      ensures r == match FirstMatch(routes, path) case None => None case Some(route) => Some(route.backends)
    {
      for i := 0 to |routes|
        invariant FirstMatch(routes, path) == FirstMatch(routes[i..], path)
      {
        assert routes[i..][1..] == routes[i + 1..];
        if Matches(routes[i].prefix, path) {
          return Some(routes[i].backends);
        }
      }
      return None;
    }
  }

  lemma InsertedSorted(sorted: seq<Route>, r: Route, k: nat)
    requires Sorted(sorted) && k <= |sorted|
    requires k > 0 ==> !Before(r, sorted[k - 1])
    requires forall j :: k <= j < |sorted| ==> Before(r, sorted[j])
    ensures Sorted(sorted[..k] + [r] + sorted[k..])
  {
    hide Slashes;
    var s := sorted[..k] + [r] + sorted[k..];
    forall i, j | 0 <= i < j < |s|
      ensures !Before(s[j], s[i])
    {
      if i < k && j == k {
        assert i < k - 1 ==> !Before(sorted[k - 1], sorted[i]);
      } else if i != k && j != k {
        assert !Before(sorted[if j < k then j else j - 1], sorted[if i < k then i else i - 1]);
      }
    }
  }

  // ---- longest prefix ----

  lemma {:induction false} SlashesGrow(s: string, t: string)
    requires s <= t
    ensures Slashes(s) <= Slashes(t)
    decreases |t|
  {
    if s != t {
      assert s <= t[..|t| - 1];
      SlashesGrow(s, t[..|t| - 1]);
    }
  }

  /** Of two prefixes of one path the longer one is sorted first. */
  lemma LongerComesFirst(a: Route, b: Route, path: string)
    requires Matches(a.prefix, path) && Matches(b.prefix, path) && |a.prefix| > |b.prefix|
    ensures Before(a, b)
  {
    assert b.prefix == path[..|b.prefix|] <= a.prefix;
    SlashesGrow(b.prefix, a.prefix);
  }

  ghost predicate IsLongestMatch(routes: seq<Route>, path: string, route: Route) {
    && route in routes && Under(route.prefix, path)
    && forall other :: other in routes && Under(other.prefix, path) ==> |other.prefix| <= |route.prefix|
  }

  /** First match in a sorted table is longest match, and nothing is found only when
      nothing matches. */
  lemma {:induction false} FirstIsLongest(routes: seq<Route>, path: string)
    requires Sorted(routes)
    ensures match FirstMatch(routes, path)
            case None => forall route :: route in routes ==> !Under(route.prefix, path)
            case Some(route) => IsLongestMatch(routes, path, route)
    decreases |routes|
  {
    if routes != [] {
      hide Under;
      var first, rest := routes[0], routes[1..];
      assert routes == [first] + rest;
      MatchesIff(first.prefix, path);
      if Matches(first.prefix, path) {
        forall other | other in routes && Under(other.prefix, path)
          ensures |other.prefix| <= |first.prefix|
        {
          MatchesIff(other.prefix, path);
          var j :| 0 <= j < |routes| && routes[j] == other;
          assert j > 0 ==> !Before(other, first);
          if |other.prefix| > |first.prefix| {
            LongerComesFirst(other, first, path);
          }
        }
      } else {
        FirstIsLongest(rest, path);
      }
    }
  }

  predicate DistinctPrefixes(routes: seq<Route>) {
    forall a, b :: a in routes && b in routes && a.prefix == b.prefix ==> a == b
  }

  /** How the sort arranges routes that compare equal does not matter: every sorted
      arrangement of one table routes every path alike. */
  lemma ArrangementIrrelevant(a: seq<Route>, b: seq<Route>, path: string)
    requires Sorted(a) && Sorted(b) && multiset(a) == multiset(b) && DistinctPrefixes(a)
    ensures FirstMatch(a, path) == FirstMatch(b, path)
  {
    FirstIsLongest(a, path);
    FirstIsLongest(b, path);
    assert forall r :: r in a <==> r in multiset(a);
    assert forall r :: r in b <==> r in multiset(b);
    var f, g := FirstMatch(a, path), FirstMatch(b, path);
    if f.Some? && g.Some? {
      MatchesIff(f.value.prefix, path);
      MatchesIff(g.value.prefix, path);
      assert f.value.prefix == path[..|f.value.prefix|] && g.value.prefix == path[..|g.value.prefix|];
    }
  }
}
