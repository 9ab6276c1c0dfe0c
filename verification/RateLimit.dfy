/**
 The rate-limit middleware: the limit of a route is the first match in an ordered table, and requests are
 counted per client, method and path in a Redis key that expires one window after its first request.
 Times are in milliseconds; a key that expires at e is alive before e.
 */
module RateLimit {
  import opened Common

  const WINDOW := 60_000
  const DEFAULT_LIMIT := 100

  datatype Route = Route(verb: string, prefix: string, limit: nat)

  const ROUTE_LIMITS := [
    Route("POST", "/api/tenants/register", 5),
    Route("POST", "/api/workflows", 20),
    Route("PUT", "/api/workflows/", 20),
    Route("DELETE", "/api/workflows/", 20),
    Route("POST", "/api/executions/", 20),
    Route("POST", "/api/workflows/", 30),
    Route("GET", "/api/executions/", 100),
    Route("GET", "/api/metrics/", 30),
    Route("GET", "/api/", 100),
    Route("POST", "/api/", 100),
    Route("POST", "/webhooks/", 100)]

  // ---- The limit of a route ----

  predicate Fits(route: Route, verb: string, path: string) {
    verb == route.verb && route.prefix <= path
  }

  function FirstLimit(routes: seq<Route>, verb: string, path: string): nat {
    if routes == [] then DEFAULT_LIMIT
    else if Fits(routes[0], verb, path) then routes[0].limit
    else FirstLimit(routes[1..], verb, path)
  }

  function LimitOf(verb: string, path: string): nat {
    FirstLimit(ROUTE_LIMITS, verb, path)
  }

  method GetRateLimit(verb: string, path: string) returns (limit: nat)
    ensures limit == LimitOf(verb, path)
  {
    var i := 0;
    while i < |ROUTE_LIMITS|
      invariant i <= |ROUTE_LIMITS| && LimitOf(verb, path) == FirstLimit(ROUTE_LIMITS[i..], verb, path)
    {
      if Fits(ROUTE_LIMITS[i], verb, path) {
        return ROUTE_LIMITS[i].limit;
      }
      assert ROUTE_LIMITS[i..][1..] == ROUTE_LIMITS[i + 1..];
      i := i + 1;
    }
    return DEFAULT_LIMIT;
  }

  lemma FirstLimitFrom(verb: string, path: string, k: nat)
    requires k < |ROUTE_LIMITS|
    ensures FirstLimit(ROUTE_LIMITS[k..], verb, path) ==
      if Fits(ROUTE_LIMITS[k], verb, path) then ROUTE_LIMITS[k].limit else FirstLimit(ROUTE_LIMITS[k + 1..], verb, path)
  {
    assert ROUTE_LIMITS[k..][1..] == ROUTE_LIMITS[k + 1..];
  }

  /** Two strings that differ somewhere are not both prefixes of one path. */
  lemma PrefixesApart(p: string, q: string, path: string, i: nat)
    requires i < |p| && i < |q| && p[i] != q[i]
    ensures !(p <= path && q <= path)
  {
    if |path| > i {
      assert p <= path ==> p[i] == path[i];
      assert q <= path ==> q[i] == path[i];
    }
  }

  /**
   What the table amounts to. The entry of 30 for POST on a single workflow is never reached: the entry of
   20 for the collection comes first and its prefix fits every such path.
   */
  lemma LimitsInForce(verb: string, path: string)
    ensures LimitOf(verb, path) ==
      if verb == "POST" && "/api/tenants/register" <= path then 5
      else if verb == "POST" && ("/api/workflows" <= path || "/api/executions/" <= path) then 20
      else if (verb == "PUT" || verb == "DELETE") && "/api/workflows/" <= path then 20
      else if verb == "GET" && "/api/metrics/" <= path then 30
      else 100
  {
    TableUnfolds(verb, path);
    PrefixFacts(path);
    assert "POST" != "GET" && "POST"[0] != "DELETE"[0] && "POST"[1] != "PUT"[1] && "GET"[0] != "PUT"[0];
  }

  lemma PrefixFacts(path: string)
    ensures "/api/workflows/" <= path ==> "/api/workflows" <= path
    ensures !("/api/metrics/" <= path && "/api/executions/" <= path)
  {
    if "/api/workflows/" <= path {
      assert "/api/workflows" == "/api/workflows/"[..14];
    }
    PrefixesApart("/api/metrics/", "/api/executions/", path, 5);
  }

  lemma TableUnfolds(verb: string, path: string)
    ensures LimitOf(verb, path) ==
      if Fits(ROUTE_LIMITS[0], verb, path) then 5
      else if Fits(ROUTE_LIMITS[1], verb, path) then 20
      else if Fits(ROUTE_LIMITS[2], verb, path) then 20
      else if Fits(ROUTE_LIMITS[3], verb, path) then 20
      else if Fits(ROUTE_LIMITS[4], verb, path) then 20
      else if Fits(ROUTE_LIMITS[5], verb, path) then 30
      else if Fits(ROUTE_LIMITS[6], verb, path) then 100
      else if Fits(ROUTE_LIMITS[7], verb, path) then 30
      else 100
  {
    hide Fits;
    assert ROUTE_LIMITS[0..] == ROUTE_LIMITS;
    FirstLimitFrom(verb, path, 0);
    FirstLimitFrom(verb, path, 1);
    FirstLimitFrom(verb, path, 2);
    FirstLimitFrom(verb, path, 3);
    FirstLimitFrom(verb, path, 4);
    FirstLimitFrom(verb, path, 5);
    FirstLimitFrom(verb, path, 6);
    FirstLimitFrom(verb, path, 7);
    FirstLimitFrom(verb, path, 8);
    FirstLimitFrom(verb, path, 9);
    FirstLimitFrom(verb, path, 10);
  }

  // ---- The most specific route ----

  /** Of the routes that fit, the first one with the longest prefix. */
  function LongestFit(routes: seq<Route>, verb: string, path: string): Option<Route> {
    if routes == [] then None
    else
      var rest := LongestFit(routes[1..], verb, path);
      if Fits(routes[0], verb, path) && (rest.None? || |routes[0].prefix| >= |rest.value.prefix|) then Some(routes[0])
      else rest
  }

  function MostSpecificLimit(verb: string, path: string): nat {
    var r := LongestFit(ROUTE_LIMITS, verb, path);
    if r.Some? then r.value.limit else DEFAULT_LIMIT
  }

  lemma {:induction false} LongestFitIsLongest(routes: seq<Route>, verb: string, path: string)
    ensures var r := LongestFit(routes, verb, path);
      && (r.Some? ==> r.value in routes && Fits(r.value, verb, path))
      && forall q :: q in routes && Fits(q, verb, path) ==> r.Some? && |q.prefix| <= |r.value.prefix|
  {
    if routes != [] {
      LongestFitIsLongest(routes[1..], verb, path);
      assert forall q :: q in routes <==> q == routes[0] || q in routes[1..];
    }
  }

  lemma LongestFitFrom(verb: string, path: string, k: nat)
    requires k < |ROUTE_LIMITS|
    ensures var r, rest := ROUTE_LIMITS[k], LongestFit(ROUTE_LIMITS[k + 1..], verb, path);
      LongestFit(ROUTE_LIMITS[k..], verb, path) ==
        if Fits(r, verb, path) && (rest.None? || |r.prefix| >= |rest.value.prefix|) then Some(r) else rest
  {
    assert ROUTE_LIMITS[k..][1..] == ROUTE_LIMITS[k + 1..];
  }

  /** The last six routes: of those that fit, GET on executions, then POST on one workflow, and so on. */
  lemma LongestOfRest(verb: string, path: string)
    ensures var R := ROUTE_LIMITS;
      LongestFit(R[5..], verb, path) ==
        if Fits(R[6], verb, path) then Some(R[6])
        else if Fits(R[5], verb, path) then Some(R[5])
        else if Fits(R[7], verb, path) then Some(R[7])
        else if Fits(R[10], verb, path) then Some(R[10])
        else if Fits(R[8], verb, path) then Some(R[8])
        else if Fits(R[9], verb, path) then Some(R[9])
        else None
  {
    hide Fits;
    assert LongestFit(ROUTE_LIMITS[11..], verb, path) == None;
    LongestFitFrom(verb, path, 5);
    LongestFitFrom(verb, path, 6);
    LongestFitFrom(verb, path, 7);
    LongestFitFrom(verb, path, 8);
    LongestFitFrom(verb, path, 9);
    LongestFitFrom(verb, path, 10);
  }

  lemma LongestUnfolds(verb: string, path: string)
    ensures MostSpecificLimit(verb, path) ==
      if Fits(ROUTE_LIMITS[0], verb, path) then 5
      else if Fits(ROUTE_LIMITS[4], verb, path) then 20
      else if Fits(ROUTE_LIMITS[6], verb, path) then 100
      else if Fits(ROUTE_LIMITS[2], verb, path) then 20
      else if Fits(ROUTE_LIMITS[3], verb, path) then 20
      else if Fits(ROUTE_LIMITS[5], verb, path) then 30
      else if Fits(ROUTE_LIMITS[1], verb, path) then 20
      else if Fits(ROUTE_LIMITS[7], verb, path) then 30
      else 100
  {
    hide Fits, LongestFit;
    assert ROUTE_LIMITS[0..] == ROUTE_LIMITS;
    LongestOfRest(verb, path);
    LongestFitFrom(verb, path, 0);
    LongestFitFrom(verb, path, 1);
    LongestFitFrom(verb, path, 2);
    LongestFitFrom(verb, path, 3);
    LongestFitFrom(verb, path, 4);
  }

  lemma WorkflowsApart(path: string)
    requires "/api/workflows/" <= path
    ensures !("/api/tenants/register" <= path) && !("/api/executions/" <= path) && "/api/workflows" <= path
  {
    PrefixFacts(path);
    PrefixesApart("/api/tenants/register", "/api/workflows/", path, 5);
    PrefixesApart("/api/executions/", "/api/workflows/", path, 5);
  }

  /** The first match is the most specific one everywhere but for POST on the path of a single workflow. */
  lemma FirstIsMostSpecificIff(verb: string, path: string)
    ensures LimitOf(verb, path) == MostSpecificLimit(verb, path) <==> !(verb == "POST" && "/api/workflows/" <= path)
  {
    TableUnfolds(verb, path);
    LongestUnfolds(verb, path);
    PrefixFacts(path);
    if "/api/workflows/" <= path {
      WorkflowsApart(path);
    }
    assert "POST" != "GET" && "POST"[0] != "DELETE"[0] && "POST"[1] != "PUT"[1] && "GET"[0] != "PUT"[0];
  }

  /** Starting a workflow by hand: 20 requests a minute, and not the 30 of its own entry. */
  lemma ExecutePathIsLimitedAsCollection()
    ensures LimitOf("POST", "/api/workflows/7/execute") == 20 && MostSpecificLimit("POST", "/api/workflows/7/execute") == 30
  {
    var path := "/api/workflows/7/execute";
    assert "/api/workflows/" == path[..15];
    TableUnfolds("POST", path);
    LongestUnfolds("POST", path);
    WorkflowsApart(path);
    assert "POST"[0] != "GET"[0] && "POST"[0] != "DELETE"[0] && "POST"[1] != "PUT"[1];
  }

  /** Every GET below an execution has the full limit, the event stream included. */
  lemma StreamIsNotLimitedFurther(path: string)
    requires "/api/executions/" <= path
    ensures LimitOf("GET", path) == 100
  {
    PrefixFacts(path);
    LimitsInForce("GET", path);
    assert "GET"[0] != "POST"[0] && "GET"[0] != "PUT"[0] && "GET"[0] != "DELETE"[0];
  }

  // ---- Counting a request ----

  /** A counter without an expiry time never expires. */
  datatype Counter = Counter(count: nat, expiresAt: Option<int>)

  datatype Request = Request(client: string, verb: string, path: string, at: int)

  function KeyOf(r: Request): string {
    "ratelimit:" + r.client + ":" + r.verb + ":" + r.path
  }

  function Live(counters: map<string, Counter>, key: string, now: int): nat {
    if key in counters && (counters[key].expiresAt.None? || now < counters[key].expiresAt.value) then counters[key].count else 0
  }

  /** The counters after a request; the first request of a window sets the expiry time. */
  function Counted(counters: map<string, Counter>, r: Request): map<string, Counter> {
    var live := Live(counters, KeyOf(r), r.at);
    counters[KeyOf(r) := Counter(live + 1, if live == 0 then Some(r.at + WINDOW) else counters[KeyOf(r)].expiresAt)]
  }

  predicate Admits(counters: map<string, Counter>, r: Request) {
    Live(counters, KeyOf(r), r.at) + 1 <= LimitOf(r.verb, r.path)
  }

  class RateLimiter {
    var counters: map<string, Counter>

    constructor ()
      ensures counters == map[]
    {
      counters := map[];
    }

    method Incr(key: string, now: int) returns (current: nat)
      modifies this
      ensures current == Live(old(counters), key, now) + 1
      ensures counters == old(counters)[key := Counter(current, if current == 1 then None else old(counters)[key].expiresAt)]
    {
      current := Live(counters, key, now) + 1;
      counters := counters[key := Counter(current, if current == 1 then None else counters[key].expiresAt)];
    }

    method Expire(key: string, now: int)
      requires key in counters
      modifies this
      ensures counters == old(counters)[key := Counter(old(counters)[key].count, Some(now + WINDOW))]
    {
      counters := counters[key := Counter(counters[key].count, Some(now + WINDOW))];
    }

    /** Without Redis every request is let through and nothing is counted. */
    method Dispatch(r: Request, redisUp: bool) returns (admitted: bool, remaining: nat)
      modifies this
      ensures redisUp ==> counters == Counted(old(counters), r) && admitted == Admits(old(counters), r)
      ensures !redisUp ==> counters == old(counters) && admitted
      ensures var limit := LimitOf(r.verb, r.path);
        remaining == if !redisUp then limit else if admitted then limit - counters[KeyOf(r)].count else 0
    {
      var limit := GetRateLimit(r.verb, r.path);
      if !redisUp {
        return true, limit;
      }
      var current := Incr(KeyOf(r), r.at);
      if current == 1 {
        Expire(KeyOf(r), r.at);
      }
      remaining := if limit > current then limit - current else 0;
      admitted := current <= limit;
    }
  }

  // ---- Keys keep clients, methods and paths apart ----

  /** Client hosts have no slash, methods neither slash nor colon, and paths start with a slash. */
  predicate WellFormed(r: Request) {
    '/' !in r.client && '/' !in r.verb && ':' !in r.verb && "/" <= r.path
  }

  lemma {:induction false} SplitAtFirst(a: string, b: string, x: string, y: string, c: char)
    requires c !in a && c !in b && a + [c] + x == b + [c] + y
    ensures a == b && x == y
  {
    var s := a + [c] + x;
    assert s[|a|] == c && s[|b|] == c;
    assert |a| == |b| by {
      assert forall i :: 0 <= i < |a| ==> s[i] == a[i];
      assert forall i :: 0 <= i < |b| ==> (b + [c] + y)[i] == b[i];
    }
    assert a == s[..|a|] && b == s[..|a|];
    assert x == s[|a| + 1..] && y == s[|a| + 1..];
  }

  lemma SplitAtLast(a: string, b: string, x: string, y: string, c: char)
    requires c !in x && c !in y && a + [c] + x == b + [c] + y
    ensures a == b && x == y
  {
    var s := a + [c] + x;
    assert s[|a|] == c && s[|b|] == c;
    assert |a| == |b| by {
      assert forall i :: |a| < i < |s| ==> s[i] == x[i - |a| - 1];
      assert forall i :: |b| < i < |s| ==> (b + [c] + y)[i] == y[i - |b| - 1];
    }
    assert a == s[..|a|] && b == s[..|a|];
    assert x == s[|a| + 1..] && y == s[|a| + 1..];
  }

  /** Requests share a counter exactly when client, method and path are the same. */
  lemma SameKeyIff(r: Request, q: Request)
    requires WellFormed(r) && WellFormed(q)
    ensures KeyOf(r) == KeyOf(q) <==> r.client == q.client && r.verb == q.verb && r.path == q.path
  {
    if KeyOf(r) == KeyOf(q) {
      var a, b := r.client + ":" + r.verb, q.client + ":" + q.verb;
      CutKey(r, a);
      CutKey(q, b);
      SplitAtFirst(a + ":", b + ":", r.path[1..], q.path[1..], '/');
      assert a == (a + ":")[..|a|] && b == (b + ":")[..|b|];
      SplitAtLast(r.client, q.client, r.verb, q.verb, ':');
      assert r.path == "/" + r.path[1..] && q.path == "/" + q.path[1..];
    }
  }

  lemma CutKey(r: Request, front: string)
    requires WellFormed(r) && front == r.client + ":" + r.verb
    ensures '/' !in front + ":" && KeyOf(r)[10..] == front + ":" + ['/'] + r.path[1..]
  {
    assert r.path == ['/'] + r.path[1..];
    assert KeyOf(r) == "ratelimit:" + (front + ":" + ['/'] + r.path[1..]);
  }

  // ---- Runs: the requests that reach Redis, in the order of their times ----

  function Run(reqs: seq<Request>): map<string, Counter> {
    if reqs == [] then map[] else Counted(Run(reqs[..|reqs|-1]), reqs[|reqs|-1])
  }

  /** The i-th request is let through. */
  predicate Admitted(reqs: seq<Request>, i: nat)
    requires i < |reqs|
  {
    Admits(Run(reqs[..i]), reqs[i])
  }

  ghost predicate InOrder(reqs: seq<Request>) {
    forall i, j :: 0 <= i <= j < |reqs| ==> reqs[i].at <= reqs[j].at
  }

  lemma RunPrefix(reqs: seq<Request>, n: nat)
    requires n < |reqs|
    ensures Run(reqs[..n + 1]) == Counted(Run(reqs[..n]), reqs[n])
  {
    assert reqs[..n + 1][..n] == reqs[..n];
  }

  // ---- A window admits exactly its first requests ----

  /** The request starts a new window for its key: it comes after every earlier window of the key. */
  ghost predicate Opens(reqs: seq<Request>, i: nat)
    requires i < |reqs|
    decreases i
  {
    forall j: nat :: j < i && KeyOf(reqs[j]) == KeyOf(reqs[i]) && Opens(reqs, j) ==> reqs[i].at >= reqs[j].at + WINDOW
  }

  /** The number of requests with the key from position `lo` up to, and without, position `hi`. */
  function Requests(reqs: seq<Request>, key: string, lo: nat, hi: nat): nat
    requires lo <= hi <= |reqs|
    decreases hi
  {
    if lo == hi then 0
    else Requests(reqs, key, lo, hi - 1) + if KeyOf(reqs[hi - 1]) == key then 1 else 0
  }

  lemma {:induction false} RequestsPositive(reqs: seq<Request>, key: string, o: nat, n: nat)
    requires o < n <= |reqs| && KeyOf(reqs[o]) == key
    ensures Requests(reqs, key, o, n) >= 1
  {
    if n > o + 1 {
      RequestsPositive(reqs, key, o, n - 1);
    }
  }

  /** After n requests the counter of a key counts the requests since its last window opened, at o. */
  ghost predicate CountsFrom(reqs: seq<Request>, key: string, n: nat, o: nat)
    requires n <= |reqs|
  {
    && o < n && KeyOf(reqs[o]) == key && Opens(reqs, o) && key in Run(reqs[..n])
    && (forall j: nat :: j < n && KeyOf(reqs[j]) == key && Opens(reqs, j) ==> reqs[j].at <= reqs[o].at)
    && Run(reqs[..n])[key] == Counter(Requests(reqs, key, o, n), Some(reqs[o].at + WINDOW))
  }

  ghost predicate NotAsked(reqs: seq<Request>, key: string, n: nat)
    requires n <= |reqs|
  {
    key !in Run(reqs[..n]) && forall j: nat :: j < n ==> KeyOf(reqs[j]) != key
  }

  lemma CountsOn(reqs: seq<Request>, key: string, n: nat, o: nat) returns (p: nat)
    requires InOrder(reqs) && n < |reqs| && CountsFrom(reqs, key, n, o)
    ensures CountsFrom(reqs, key, n + 1, p)
    ensures KeyOf(reqs[n]) == key ==> p == if reqs[n].at < reqs[o].at + WINDOW then o else n
  {
    RunPrefix(reqs, n);
    RequestsPositive(reqs, key, o, n);
    if KeyOf(reqs[n]) != key || reqs[n].at < reqs[o].at + WINDOW {
      p := o;
    } else {
      p := n;
      assert Requests(reqs, key, n, n) == 0;
    }
  }

  lemma FirstCounts(reqs: seq<Request>, key: string, n: nat)
    requires n < |reqs| && NotAsked(reqs, key, n)
    ensures if KeyOf(reqs[n]) == key then CountsFrom(reqs, key, n + 1, n) else NotAsked(reqs, key, n + 1)
  {
    RunPrefix(reqs, n);
    assert Requests(reqs, key, n, n) == 0;
  }

  lemma {:induction false} LastWindow(reqs: seq<Request>, key: string, n: nat) returns (asked: bool, o: nat)
    requires InOrder(reqs) && n <= |reqs|
    ensures if asked then CountsFrom(reqs, key, n, o) else NotAsked(reqs, key, n)
  {
    asked, o := false, 0;
    if n > 0 {
      var m: nat := n - 1;
      asked, o := LastWindow(reqs, key, m);
      if asked {
        o := CountsOn(reqs, key, m, o);
      } else {
        FirstCounts(reqs, key, m);
        asked, o := KeyOf(reqs[m]) == key, m;
      }
    }
  }

  /**
   Main theorem: every request belongs to the window opened by some request for the same client, method
   and path less than a minute before, and is admitted exactly when fewer than `limit` came before it
   in that window.
   */
  lemma WindowAdmitsItsFirst(reqs: seq<Request>, i: nat) returns (o: nat)
    requires InOrder(reqs) && i < |reqs|
    ensures o <= i && Opens(reqs, o) && KeyOf(reqs[o]) == KeyOf(reqs[i])
    ensures reqs[o].at <= reqs[i].at < reqs[o].at + WINDOW
    ensures Admitted(reqs, i) <==> Requests(reqs, KeyOf(reqs[i]), o, i) < LimitOf(reqs[i].verb, reqs[i].path)
  {
    var key := KeyOf(reqs[i]);
    var asked, p := LastWindow(reqs, key, i);
    if asked {
      o := CountsOn(reqs, key, i, p);
      RequestsPositive(reqs, key, p, i);
    } else {
      FirstCounts(reqs, key, i);
      o := i;
    }
  }

  // ---- How many requests any minute admits ----

  /** The number of requests with the key that are admitted at times from `from` up to, and without, `to`. */
  function AdmittedIn(reqs: seq<Request>, key: string, from: int, to: int): nat {
    if reqs == [] then 0
    else
      var init, last := reqs[..|reqs|-1], reqs[|reqs|-1];
      AdmittedIn(init, key, from, to)
        + if KeyOf(last) == key && from <= last.at < to && Admits(Run(init), last) then 1 else 0
  }

  function AdmittedInMinute(reqs: seq<Request>, key: string, t: int): nat {
    AdmittedIn(reqs, key, t, t + WINDOW)
  }

  lemma {:induction false} Splits(reqs: seq<Request>, key: string, a: int, b: int, c: int)
    requires a <= b <= c
    ensures AdmittedIn(reqs, key, a, c) == AdmittedIn(reqs, key, a, b) + AdmittedIn(reqs, key, b, c)
  {
    if reqs != [] {
      Splits(reqs[..|reqs|-1], key, a, b, c);
    }
  }

  lemma Narrower(reqs: seq<Request>, key: string, a: int, b: int, c: int, d: int)
    requires a <= b <= c <= d
    ensures AdmittedIn(reqs, key, b, c) <= AdmittedIn(reqs, key, a, d)
  {
    Splits(reqs, key, a, b, d);
    Splits(reqs, key, b, c, d);
  }

  ghost predicate AllBefore(reqs: seq<Request>, key: string, t: int) {
    forall i :: 0 <= i < |reqs| && KeyOf(reqs[i]) == key ==> reqs[i].at < t
  }

  lemma {:induction false} NoneAfter(reqs: seq<Request>, key: string, a: int, b: int)
    requires AllBefore(reqs, key, a)
    ensures AdmittedIn(reqs, key, a, b) == 0
  {
    if reqs != [] {
      NoneAfter(reqs[..|reqs|-1], key, a, b);
    }
  }

  /**
   What holds of a key whose current window started at s: the window has admitted its first requests, and
   so has the window before it, whose opening request lies at least a minute before s.
   */
  ghost predicate Bounded(reqs: seq<Request>, key: string, limit: nat, count: nat, s: int) {
    && limit >= 1 && count >= 1 && AllBefore(reqs, key, s + WINDOW)
    && AdmittedIn(reqs, key, s, s + WINDOW) <= Min(count, limit)
    && AdmittedIn(reqs, key, s + 1, s + WINDOW) <= Min(count, limit) - 1
    && AdmittedIn(reqs, key, s - WINDOW + 1, s) <= limit - 1
    && (forall t :: t + WINDOW <= s ==> AdmittedInMinute(reqs, key, t) <= 2 * limit - 1)
  }

  function Min(a: int, b: int): int {
    if a <= b then a else b
  }

  lemma AnyMinute(reqs: seq<Request>, key: string, limit: nat, count: nat, s: int, t: int)
    requires Bounded(reqs, key, limit, count, s)
    ensures AdmittedInMinute(reqs, key, t) <= 2 * limit - 1
  {
    if t + WINDOW > s {
      var e := s + WINDOW;
      if t > s {
        Splits(reqs, key, t, if t < e then e else t, t + WINDOW);
        NoneAfter(reqs, key, if t < e then e else t, t + WINDOW);
        if t < e {
          Narrower(reqs, key, s + 1, t, e, e);
        }
      } else {
        Splits(reqs, key, t, s, t + WINDOW);
        Narrower(reqs, key, s - WINDOW + 1, t, s, s);
        Narrower(reqs, key, s, s, t + WINDOW, e);
      }
    }
  }

  lemma JoinAdmitted(reqs: seq<Request>, r: Request, key: string, from: int, to: int)
    ensures AdmittedIn(reqs + [r], key, from, to) ==
      AdmittedIn(reqs, key, from, to) + if KeyOf(r) == key && from <= r.at < to && Admits(Run(reqs), r) then 1 else 0
  {
    assert (reqs + [r])[..|reqs|] == reqs;
  }

  lemma JoinRun(reqs: seq<Request>, r: Request)
    ensures Run(reqs + [r]) == Counted(Run(reqs), r)
  {
    assert (reqs + [r])[..|reqs|] == reqs;
  }

  lemma JoinBefore(reqs: seq<Request>, r: Request, key: string, t: int)
    requires AllBefore(reqs, key, t) && (KeyOf(r) == key ==> r.at < t)
    ensures AllBefore(reqs + [r], key, t)
  {
    forall i | 0 <= i < |reqs + [r]| && KeyOf((reqs + [r])[i]) == key ensures (reqs + [r])[i].at < t {
      assert i < |reqs| ==> (reqs + [r])[i] == reqs[i];
    }
  }

  /** A request of another key, or one within the window, keeps the bounds. */
  lemma WithinWindow(reqs: seq<Request>, r: Request, key: string, limit: nat, count: nat, s: int)
    requires Bounded(reqs, key, limit, count, s)
    requires KeyOf(r) == key ==> s <= r.at < s + WINDOW && (Admits(Run(reqs), r) <==> count + 1 <= limit)
    ensures Bounded(reqs + [r], key, limit, if KeyOf(r) == key then count + 1 else count, s)
  {
    JoinBefore(reqs, r, key, s + WINDOW);
    JoinAdmitted(reqs, r, key, s, s + WINDOW);
    JoinAdmitted(reqs, r, key, s + 1, s + WINDOW);
    JoinAdmitted(reqs, r, key, s - WINDOW + 1, s);
    forall t | t + WINDOW <= s ensures AdmittedInMinute(reqs + [r], key, t) <= 2 * limit - 1 {
      assert AdmittedInMinute(reqs, key, t) <= 2 * limit - 1;
      JoinAdmitted(reqs, r, key, t, t + WINDOW);
    }
  }

  /** A request after the window opens the next one. */
  lemma NextWindow(reqs: seq<Request>, r: Request, key: string, limit: nat, count: nat, s: int)
    requires Bounded(reqs, key, limit, count, s) && KeyOf(r) == key && s + WINDOW <= r.at
    ensures Bounded(reqs + [r], key, limit, 1, r.at)
  {
    var u := r.at;
    JoinBefore(reqs, r, key, u + WINDOW);
    JoinAdmitted(reqs, r, key, u, u + WINDOW);
    NoneAfter(reqs, key, u, u + WINDOW);
    JoinAdmitted(reqs, r, key, u + 1, u + WINDOW);
    NoneAfter(reqs, key, u + 1, u + WINDOW);
    JoinAdmitted(reqs, r, key, u - WINDOW + 1, u);
    LastPart(reqs, key, s, u - WINDOW + 1, u);
    forall t | t + WINDOW <= u ensures AdmittedInMinute(reqs + [r], key, t) <= 2 * limit - 1 {
      JoinAdmitted(reqs, r, key, t, t + WINDOW);
      AnyMinute(reqs, key, limit, count, s, t);
    }
  }

  /** From within a window on, only the rest of the window counts. */
  lemma LastPart(reqs: seq<Request>, key: string, s: int, a: int, b: int)
    requires AllBefore(reqs, key, s + WINDOW) && s + 1 <= a <= b
    ensures AdmittedIn(reqs, key, a, b) <= AdmittedIn(reqs, key, s + 1, s + WINDOW)
  {
    var e := s + WINDOW;
    if e <= a {
      NoneAfter(reqs, key, a, b);
    } else if b <= e {
      Narrower(reqs, key, s + 1, a, b, e);
    } else {
      Splits(reqs, key, a, e, b);
      NoneAfter(reqs, key, e, b);
      Narrower(reqs, key, s + 1, a, e, e);
    }
  }

  ghost predicate NeverAsked(reqs: seq<Request>, key: string) {
    forall i :: 0 <= i < |reqs| ==> KeyOf(reqs[i]) != key
  }

  lemma {:induction false} NoneAdmitted(reqs: seq<Request>, key: string, a: int, b: int)
    requires NeverAsked(reqs, key)
    ensures AdmittedIn(reqs, key, a, b) == 0
  {
    if reqs != [] {
      NoneAdmitted(reqs[..|reqs|-1], key, a, b);
    }
  }

  lemma FirstWindow(reqs: seq<Request>, r: Request, key: string, limit: nat)
    requires NeverAsked(reqs, key) && KeyOf(r) == key && limit >= 1
    ensures Bounded(reqs + [r], key, limit, 1, r.at)
  {
    var u := r.at;
    JoinBefore(reqs, r, key, u + WINDOW);
    JoinAdmitted(reqs, r, key, u, u + WINDOW);
    NoneAdmitted(reqs, key, u, u + WINDOW);
    JoinAdmitted(reqs, r, key, u + 1, u + WINDOW);
    NoneAdmitted(reqs, key, u + 1, u + WINDOW);
    JoinAdmitted(reqs, r, key, u - WINDOW + 1, u);
    NoneAdmitted(reqs, key, u - WINDOW + 1, u);
    forall t | t + WINDOW <= u ensures AdmittedInMinute(reqs + [r], key, t) <= 2 * limit - 1 {
      JoinAdmitted(reqs, r, key, t, t + WINDOW);
      NoneAdmitted(reqs, key, t, t + WINDOW);
    }
  }

  ghost predicate Tracked(reqs: seq<Request>, key: string, limit: nat, count: nat, s: int) {
    && Bounded(reqs, key, limit, count, s) && key in Run(reqs) && Run(reqs)[key] == Counter(count, Some(s + WINDOW))
    && reqs != [] && s <= reqs[|reqs|-1].at
  }

  ghost predicate Untouched(reqs: seq<Request>, key: string) {
    NeverAsked(reqs, key) && key !in Run(reqs)
  }

  /** Requests with the key all have this limit. */
  ghost predicate SameLimit(reqs: seq<Request>, key: string, limit: nat) {
    limit >= 1 && forall i :: 0 <= i < |reqs| && KeyOf(reqs[i]) == key ==> LimitOf(reqs[i].verb, reqs[i].path) == limit
  }

  lemma TrackOn(reqs: seq<Request>, r: Request, key: string, limit: nat, count: nat, s: int) returns (c: nat, u: int)
    requires Tracked(reqs, key, limit, count, s) && reqs[|reqs|-1].at <= r.at
    requires KeyOf(r) == key ==> LimitOf(r.verb, r.path) == limit
    ensures Tracked(reqs + [r], key, limit, c, u)
  {
    JoinRun(reqs, r);
    if KeyOf(r) == key && s + WINDOW <= r.at {
      NextWindow(reqs, r, key, limit, count, s);
      c, u := 1, r.at;
    } else {
      WithinWindow(reqs, r, key, limit, count, s);
      c, u := if KeyOf(r) == key then count + 1 else count, s;
    }
  }

  lemma TrackFirst(reqs: seq<Request>, r: Request, key: string, limit: nat)
    requires Untouched(reqs, key) && limit >= 1
    ensures if KeyOf(r) == key then Tracked(reqs + [r], key, limit, 1, r.at) else Untouched(reqs + [r], key)
  {
    JoinRun(reqs, r);
    if KeyOf(r) == key {
      FirstWindow(reqs, r, key, limit);
    }
  }

  lemma {:induction false} Tracks(reqs: seq<Request>, key: string, limit: nat) returns (asked: bool, count: nat, s: int)
    requires InOrder(reqs) && SameLimit(reqs, key, limit)
    ensures if asked then Tracked(reqs, key, limit, count, s) else Untouched(reqs, key)
  {
    asked, count, s := false, 0, 0;
    if reqs != [] {
      var init, r := reqs[..|reqs|-1], reqs[|reqs|-1];
      assert reqs == init + [r];
      asked, count, s := Tracks(init, key, limit);
      if asked {
        count, s := TrackOn(init, r, key, limit, count, s);
      } else {
        TrackFirst(init, r, key, limit);
        asked, count, s := KeyOf(r) == key, 1, r.at;
      }
    }
  }

  lemma KeyHasOneLimit(reqs: seq<Request>, r: Request)
    requires WellFormed(r) && forall i :: 0 <= i < |reqs| ==> WellFormed(reqs[i])
    ensures SameLimit(reqs, KeyOf(r), LimitOf(r.verb, r.path))
  {
    LimitsInForce(r.verb, r.path);
    forall i | 0 <= i < |reqs| && KeyOf(reqs[i]) == KeyOf(r)
      ensures LimitOf(reqs[i].verb, reqs[i].path) == LimitOf(r.verb, r.path)
    {
      SameKeyIff(reqs[i], r);
    }
  }

  /**
   Main theorem: any sixty seconds, aligned with a window or not, admit fewer than twice the limit for one
   client, method and path.
   */
  lemma AnyMinuteAdmitsLessThanTwice(reqs: seq<Request>, r: Request, t: int)
    requires InOrder(reqs) && WellFormed(r) && forall i :: 0 <= i < |reqs| ==> WellFormed(reqs[i])
    ensures AdmittedIn(reqs, KeyOf(r), t, t + WINDOW) < 2 * LimitOf(r.verb, r.path)
  {
    var key, limit := KeyOf(r), LimitOf(r.verb, r.path);
    KeyHasOneLimit(reqs, r);
    var asked, count, s := Tracks(reqs, key, limit);
    if asked {
      AnyMinute(reqs, key, limit, count, s, t);
    } else {
      NoneAdmitted(reqs, key, t, t + WINDOW);
    }
  }

  // ---- The count of any minute, from the arrivals alone ----

  /** The number of requests that come before the time t. */
  function Before(reqs: seq<Request>, t: int): (n: nat)
    ensures n <= |reqs|
  {
    if reqs == [] then 0
    else if reqs[|reqs|-1].at < t then |reqs|
    else Before(reqs[..|reqs|-1], t)
  }

  lemma {:induction false} BeforeCuts(reqs: seq<Request>, t: int)
    requires InOrder(reqs)
    ensures forall i :: 0 <= i < |reqs| ==> (i < Before(reqs, t) <==> reqs[i].at < t)
  {
    if reqs != [] {
      BeforeCuts(reqs[..|reqs|-1], t);
    }
  }

  /** The number of requests with the key that are admitted, by position. */
  function AdmittedBetween(reqs: seq<Request>, key: string, lo: nat, hi: nat): nat
    requires lo <= hi <= |reqs|
    decreases hi
  {
    if lo == hi then 0
    else AdmittedBetween(reqs, key, lo, hi - 1) + if KeyOf(reqs[hi - 1]) == key && Admitted(reqs, hi - 1) then 1 else 0
  }

  lemma {:induction false} SplitBetween(reqs: seq<Request>, key: string, a: nat, b: nat, c: nat)
    requires a <= b <= c <= |reqs|
    ensures AdmittedBetween(reqs, key, a, c) == AdmittedBetween(reqs, key, a, b) + AdmittedBetween(reqs, key, b, c)
    decreases c
  {
    if b < c {
      SplitBetween(reqs, key, a, b, c - 1);
    }
  }

  lemma {:induction false} BetweenInPrefix(reqs: seq<Request>, n: nat, key: string, lo: nat, hi: nat)
    requires lo <= hi <= n <= |reqs|
    ensures AdmittedBetween(reqs[..n], key, lo, hi) == AdmittedBetween(reqs, key, lo, hi)
    decreases hi
  {
    if lo < hi {
      BetweenInPrefix(reqs, n, key, lo, hi - 1);
      assert reqs[..n][..hi - 1] == reqs[..hi - 1];
    }
  }

  lemma {:induction false} TimesAreBetween(reqs: seq<Request>, key: string, from: int, to: int)
    requires InOrder(reqs) && from <= to
    ensures Before(reqs, from) <= Before(reqs, to)
    ensures AdmittedIn(reqs, key, from, to) == AdmittedBetween(reqs, key, Before(reqs, from), Before(reqs, to))
  {
    if reqs != [] {
      var n: nat := |reqs| - 1;
      TimesAreBetween(reqs[..n], key, from, to);
      BetweenInPrefix(reqs, n, key, Before(reqs[..n], from), Before(reqs[..n], to));
      AllBeforeLast(reqs, from);
      AllBeforeLast(reqs, to);
    }
  }

  lemma AllBeforeLast(reqs: seq<Request>, t: int)
    requires InOrder(reqs) && reqs != []
    ensures reqs[|reqs|-1].at < t ==> Before(reqs[..|reqs|-1], t) == |reqs| - 1
  {
  }

  /** No other window of the key opens between position o and position hi. */
  ghost predicate OneWindow(reqs: seq<Request>, key: string, o: nat, hi: nat) {
    && o < hi <= |reqs| && Opens(reqs, o) && KeyOf(reqs[o]) == key
    && forall j: nat :: o < j < hi && KeyOf(reqs[j]) == key ==> !Opens(reqs, j)
  }

  lemma OpeningsApart(reqs: seq<Request>, q: nat, o: nat)
    requires q <= o < |reqs| && KeyOf(reqs[q]) == KeyOf(reqs[o]) && Opens(reqs, q) && Opens(reqs, o)
    ensures q == o || reqs[o].at >= reqs[q].at + WINDOW
  {
  }

  /** The window of any request is the last one opened before it. */
  lemma WindowOf(reqs: seq<Request>, key: string, o: nat, i: nat)
    requires InOrder(reqs) && OneWindow(reqs, key, o, i + 1) && KeyOf(reqs[i]) == key
    ensures Admitted(reqs, i) <==> Requests(reqs, key, o, i) < LimitOf(reqs[i].verb, reqs[i].path)
  {
    var q := WindowAdmitsItsFirst(reqs, i);
    assert q <= o;
    OpeningsApart(reqs, q, o);
  }

  lemma {:induction false} WindowCount(reqs: seq<Request>, key: string, limit: nat, o: nat, m: nat)
    requires InOrder(reqs) && SameLimit(reqs, key, limit) && o <= m <= |reqs|
    requires o < m ==> OneWindow(reqs, key, o, m)
    ensures AdmittedBetween(reqs, key, o, m) == Min(limit, Requests(reqs, key, o, m))
    decreases m
  {
    if o < m {
      var i: nat := m - 1;
      WindowCount(reqs, key, limit, o, i);
      if KeyOf(reqs[i]) == key {
        WindowOf(reqs, key, o, i);
      }
    }
  }

  lemma {:induction false} RequestsGrow(reqs: seq<Request>, key: string, o: nat, a: nat, b: nat)
    requires o <= a <= b <= |reqs|
    ensures Requests(reqs, key, o, a) <= Requests(reqs, key, o, b)
    decreases b
  {
    if a < b {
      RequestsGrow(reqs, key, o, a, b - 1);
    }
  }

  /** A window opens at o, strictly inside the minute that starts at t. */
  ghost predicate OpensInside(reqs: seq<Request>, key: string, t: int, o: nat) {
    o < |reqs| && KeyOf(reqs[o]) == key && Opens(reqs, o) && t < reqs[o].at < t + WINDOW
  }

  /** And p opened the window before it. */
  ghost predicate Straddles(reqs: seq<Request>, key: string, t: int, p: nat, o: nat) {
    OpensInside(reqs, key, t, o) && OneWindow(reqs, key, p, o)
  }

  /** What the window opened at p admits from time t on, when o opens the next one. */
  function CarriedOver(reqs: seq<Request>, key: string, limit: nat, t: int, p: nat, o: nat): int
    requires p <= Before(reqs, t) && p <= o <= |reqs|
  {
    var left := Min(limit, Requests(reqs, key, p, o)) - Requests(reqs, key, p, Before(reqs, t));
    if left > 0 then left else 0
  }

  /** What the window opened at o admits before the minute ends. */
  function AddedBy(reqs: seq<Request>, key: string, limit: nat, t: int, o: nat): int
    requires o <= Before(reqs, t + WINDOW)
  {
    Min(limit, Requests(reqs, key, o, Before(reqs, t + WINDOW)))
  }

  lemma InsidePositions(reqs: seq<Request>, key: string, t: int, o: nat)
    requires InOrder(reqs) && OpensInside(reqs, key, t, o)
    ensures Before(reqs, t) <= o < Before(reqs, t + WINDOW) && OneWindow(reqs, key, o, Before(reqs, t + WINDOW))
  {
    BeforeCuts(reqs, t);
    BeforeCuts(reqs, t + WINDOW);
  }

  lemma StraddlePositions(reqs: seq<Request>, key: string, t: int, p: nat, o: nat)
    requires InOrder(reqs) && Straddles(reqs, key, t, p, o)
    ensures p < Before(reqs, t) <= o < Before(reqs, t + WINDOW)
  {
    InsidePositions(reqs, key, t, o);
    BeforeCuts(reqs, t);
    assert reqs[o].at >= reqs[p].at + WINDOW;
  }

  /**
   The exact count of a minute in which a window opens, from the arrivals alone: what the window before it
   has left, and what the new one admits.
   */
  lemma StraddlingMinuteCount(reqs: seq<Request>, key: string, limit: nat, t: int, p: nat, o: nat)
    requires InOrder(reqs) && SameLimit(reqs, key, limit) && Straddles(reqs, key, t, p, o)
    ensures p < Before(reqs, t) <= o < Before(reqs, t + WINDOW)
    ensures AdmittedIn(reqs, key, t, t + WINDOW) == CarriedOver(reqs, key, limit, t, p, o) + AddedBy(reqs, key, limit, t, o)
  {
    var lo, hi := Before(reqs, t), Before(reqs, t + WINDOW);
    StraddlePositions(reqs, key, t, p, o);
    InsidePositions(reqs, key, t, o);
    TimesAreBetween(reqs, key, t, t + WINDOW);
    SplitBetween(reqs, key, lo, o, hi);
    SplitBetween(reqs, key, p, lo, o);
    WindowCount(reqs, key, limit, p, lo);
    WindowCount(reqs, key, limit, p, o);
    WindowCount(reqs, key, limit, o, hi);
    RequestsGrow(reqs, key, p, lo, o);
  }

  /** Positions without the key admit nothing for it. */
  lemma {:induction false} NoneBetween(reqs: seq<Request>, key: string, lo: nat, hi: nat)
    requires lo <= hi <= |reqs| && forall i: nat :: lo <= i < hi ==> KeyOf(reqs[i]) != key
    ensures AdmittedBetween(reqs, key, lo, hi) == 0
    decreases hi
  {
    if lo < hi {
      NoneBetween(reqs, key, lo, hi - 1);
    }
  }

  /** The first window of a key has nothing before it. */
  lemma FirstMinuteCount(reqs: seq<Request>, key: string, limit: nat, t: int, o: nat)
    requires InOrder(reqs) && SameLimit(reqs, key, limit) && OpensInside(reqs, key, t, o)
    requires forall j: nat :: j < o && KeyOf(reqs[j]) == key ==> !Opens(reqs, j)
    ensures AdmittedIn(reqs, key, t, t + WINDOW) <= limit
  {
    var lo, hi := Before(reqs, t), Before(reqs, t + WINDOW);
    InsidePositions(reqs, key, t, o);
    TimesAreBetween(reqs, key, t, t + WINDOW);
    SplitBetween(reqs, key, lo, o, hi);
    WindowCount(reqs, key, limit, o, hi);
    forall i: nat | i < o ensures KeyOf(reqs[i]) != key {
      if KeyOf(reqs[i]) == key {
        var q := WindowAdmitsItsFirst(reqs, i);
      }
    }
    NoneBetween(reqs, key, lo, o);
  }

  /** The window of a request x in a minute inside which no window opens: it holds the whole minute. */
  lemma QuietWindow(reqs: seq<Request>, key: string, t: int, x: nat, o: nat)
    requires InOrder(reqs) && forall j: nat :: !OpensInside(reqs, key, t, j)
    requires Before(reqs, t) <= x < Before(reqs, t + WINDOW) && KeyOf(reqs[x]) == key
    requires o <= x && Opens(reqs, o) && KeyOf(reqs[o]) == key && reqs[o].at <= reqs[x].at < reqs[o].at + WINDOW
    ensures OneWindow(reqs, key, o, Before(reqs, t + WINDOW))
    ensures forall i: nat :: Before(reqs, t) <= i < o ==> KeyOf(reqs[i]) != key
  {
    BeforeCuts(reqs, t);
    BeforeCuts(reqs, t + WINDOW);
    forall j: nat | o < j < Before(reqs, t + WINDOW) && KeyOf(reqs[j]) == key ensures !Opens(reqs, j) {
      assert !OpensInside(reqs, key, t, j);
    }
    assert !OpensInside(reqs, key, t, o);
    forall i: nat | Before(reqs, t) <= i < o ensures KeyOf(reqs[i]) != key {
      if KeyOf(reqs[i]) == key {
        var q := WindowAdmitsItsFirst(reqs, i);
      }
    }
  }

  /** A minute inside which no window opens admits at most the limit. */
  lemma QuietMinuteCount(reqs: seq<Request>, key: string, limit: nat, t: int)
    requires InOrder(reqs) && SameLimit(reqs, key, limit) && forall j: nat :: !OpensInside(reqs, key, t, j)
    ensures AdmittedIn(reqs, key, t, t + WINDOW) <= limit
  {
    var lo, hi := Before(reqs, t), Before(reqs, t + WINDOW);
    TimesAreBetween(reqs, key, t, t + WINDOW);
    if x: nat :| lo <= x < hi && KeyOf(reqs[x]) == key {
      var o := WindowAdmitsItsFirst(reqs, x);
      QuietWindow(reqs, key, t, x, o);
      WindowCount(reqs, key, limit, o, hi);
      if o <= lo {
        SplitBetween(reqs, key, o, lo, hi);
      } else {
        SplitBetween(reqs, key, lo, o, hi);
        NoneBetween(reqs, key, lo, o);
      }
    } else {
      NoneBetween(reqs, key, lo, hi);
    }
  }

  lemma {:induction false} PreviousWindow(reqs: seq<Request>, key: string, o: nat, k: nat) returns (found: bool, p: nat)
    requires k <= o < |reqs| && forall j: nat :: k <= j < o && KeyOf(reqs[j]) == key ==> !Opens(reqs, j)
    ensures if found then OneWindow(reqs, key, p, o) else forall j: nat :: j < o && KeyOf(reqs[j]) == key ==> !Opens(reqs, j)
    decreases k
  {
    if k == 0 {
      found, p := false, 0;
    } else if KeyOf(reqs[k - 1]) == key && Opens(reqs, k - 1) {
      found, p := true, k - 1;
    } else {
      found, p := PreviousWindow(reqs, key, o, k - 1);
    }
  }

  /** The old window has so much left, and the new one takes so much, that together they pass the limit. */
  ghost predicate Overfull(reqs: seq<Request>, key: string, limit: nat, t: int, p: nat, o: nat) {
    && Straddles(reqs, key, t, p, o) && p <= Before(reqs, t) && o <= Before(reqs, t + WINDOW)
    && CarriedOver(reqs, key, limit, t, p, o) + AddedBy(reqs, key, limit, t, o) > limit
  }

  lemma MinuteWithinLimit(reqs: seq<Request>, key: string, limit: nat, t: int)
    requires InOrder(reqs) && SameLimit(reqs, key, limit) && forall p: nat, o: nat :: !Overfull(reqs, key, limit, t, p, o)
    ensures AdmittedIn(reqs, key, t, t + WINDOW) <= limit
  {
    if o: nat :| OpensInside(reqs, key, t, o) {
      var found, p := PreviousWindow(reqs, key, o, o);
      if found {
        StraddlingMinuteCount(reqs, key, limit, t, p, o);
        assert !Overfull(reqs, key, limit, t, p, o);
      } else {
        FirstMinuteCount(reqs, key, limit, t, o);
      }
    } else {
      QuietMinuteCount(reqs, key, limit, t);
    }
  }

  /**
   Main theorem, the exact condition for what a sliding window would promise: the minute from t on admits
   at most the limit if and only if it is not a minute in which a window opens and, by the arrivals alone,
   the rest of the window before it and the start of the new one exceed the limit together.
   */
  lemma MinuteWithinLimitIff(reqs: seq<Request>, r: Request, t: int)
    requires InOrder(reqs) && WellFormed(r) && forall i :: 0 <= i < |reqs| ==> WellFormed(reqs[i])
    ensures AdmittedIn(reqs, KeyOf(r), t, t + WINDOW) <= LimitOf(r.verb, r.path) <==>
      forall p: nat, o: nat :: !Overfull(reqs, KeyOf(r), LimitOf(r.verb, r.path), t, p, o)
  {
    var key, limit := KeyOf(r), LimitOf(r.verb, r.path);
    KeyHasOneLimit(reqs, r);
    if forall p: nat, o: nat :: !Overfull(reqs, key, limit, t, p, o) {
      MinuteWithinLimit(reqs, key, limit, t);
    } else {
      var p: nat, o: nat :| Overfull(reqs, key, limit, t, p, o);
      StraddlingMinuteCount(reqs, key, limit, t, p, o);
    }
  }

  // ---- The bound is reached ----

  function Times(r: Request, n: nat): (rs: seq<Request>)
    ensures |rs| == n && forall i :: 0 <= i < n ==> rs[i] == r
  {
    seq(n, i => r)
  }

  /** n more requests at one time, all within the limit of a live window, are all admitted. */
  lemma {:induction false} Burst(reqs: seq<Request>, r: Request, n: nat, count: nat, e: int, from: int, to: int)
    requires KeyOf(r) in Run(reqs) && Run(reqs)[KeyOf(r)] == Counter(count, Some(e)) && r.at < e && count >= 1
    requires count + n <= LimitOf(r.verb, r.path) && from <= r.at < to
    ensures KeyOf(r) in Run(reqs + Times(r, n)) && Run(reqs + Times(r, n))[KeyOf(r)] == Counter(count + n, Some(e))
    ensures AdmittedIn(reqs + Times(r, n), KeyOf(r), from, to) == AdmittedIn(reqs, KeyOf(r), from, to) + n
  {
    if n == 0 {
      assert reqs + Times(r, n) == reqs;
    } else {
      var m: nat := n - 1;
      Burst(reqs, r, m, count, e, from, to);
      assert reqs + Times(r, n) == reqs + Times(r, m) + [r];
      JoinRun(reqs + Times(r, m), r);
      JoinAdmitted(reqs + Times(r, m), r, KeyOf(r), from, to);
    }
  }

  /** A request that opens a window, followed by n more at one time within it. */
  lemma OpenAndBurst(reqs: seq<Request>, first: Request, r: Request, n: nat, from: int, to: int)
    requires KeyOf(first) == KeyOf(r) && LimitOf(first.verb, first.path) == LimitOf(r.verb, r.path)
    requires Live(Run(reqs), KeyOf(r), first.at) == 0
    requires first.at <= r.at < first.at + WINDOW && from <= r.at < to && 1 + n <= LimitOf(r.verb, r.path)
    ensures var all := reqs + [first] + Times(r, n);
      && KeyOf(r) in Run(all) && Run(all)[KeyOf(r)] == Counter(1 + n, Some(first.at + WINDOW))
      && AdmittedIn(all, KeyOf(r), from, to) ==
           AdmittedIn(reqs, KeyOf(r), from, to) + (if from <= first.at then 1 else 0) + n
  {
    JoinRun(reqs, first);
    JoinAdmitted(reqs, first, KeyOf(r), from, to);
    Burst(reqs + [first], r, n, 1, first.at + WINDOW, from, to);
  }

  lemma SameParts(r: Request, q: Request)
    requires r.client == q.client && r.verb == q.verb && r.path == q.path
    ensures KeyOf(r) == KeyOf(q)
  {
  }

  lemma EmptyRun(r: Request, from: int, to: int)
    ensures KeyOf(r) !in Run([]) && AdmittedIn([], KeyOf(r), from, to) == 0
  {
  }

  /**
   The bound cannot be lowered: one request, the rest of the limit just before the window ends, and the
   whole limit when the next one opens. This is a counter per window and not a sliding window.
   */
  lemma BoundIsReached(client: string, verb: string, path: string) returns (reqs: seq<Request>, t: int)
    ensures forall i :: 0 <= i < |reqs| ==> reqs[i].client == client && reqs[i].verb == verb && reqs[i].path == path
    ensures InOrder(reqs)
    ensures AdmittedIn(reqs, KeyOf(Request(client, verb, path, 0)), t, t + WINDOW) == 2 * LimitOf(verb, path) - 1
  {
    hide Run, AdmittedIn, KeyOf;
    var r0, r1, r2 := Request(client, verb, path, 0), Request(client, verb, path, WINDOW - 1), Request(client, verb, path, WINDOW);
    LimitsInForce(verb, path);
    var n: nat := LimitOf(verb, path) - 1;
    var one := [] + [r0] + Times(r1, n);
    SameParts(r0, r1);
    SameParts(r1, r2);
    SameParts(r2, Request(client, verb, path, 0));
    EmptyRun(r1, 1, 1 + WINDOW);
    OpenAndBurst([], r0, r1, n, 1, 1 + WINDOW);
    OpenAndBurst(one, r2, r2, n, 1, 1 + WINDOW);
    reqs, t := one + [r2] + Times(r2, n), 1;
  }
}
