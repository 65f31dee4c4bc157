/** Routes and snapshots: which configurations are accepted, and which route a request matches. */
module Routing {
  import opened Options
  import opened Segments
  import opened Templates

  datatype Cohort = Cohort(
    mode: string, group: string, keySource: string, salt: string, algorithm: string, serialization: string)

  datatype Shadow = Shadow(eligible: bool, sampleRatio: real, stopped: bool)

  datatype Route = Route(
    id: string, verb: string, template: string, v1: string, v2: string,
    rolloutEnabled: bool, serveRatio: real, cohort: Cohort, shadow: Shadow,
    policy: Option<string>, v1Template: Option<string>, v2Template: Option<string>)

  ghost function Names(template: string): set<string>
  {
    set part | part in Split(template) && IsParameter(part)
  }

  ghost predicate MappingOk(template: string, mapped: Option<string>)
  {
    mapped.Some? ==> Accepts(mapped.value) && Names(mapped.value) == Names(template)
  }

  /** The characters that Python's `str.strip` removes. */
  predicate WhiteSpace(c: char)
  {
    var n := c as int;
    9 <= n <= 13 || 28 <= n <= 32 || n == 0x85 || n == 0xA0 || n == 0x1680 || 0x2000 <= n <= 0x200A
    || n == 0x2028 || n == 0x2029 || n == 0x202F || n == 0x205F || n == 0x3000
  }

  /** Nothing is left of the text when white space is stripped. */
  predicate Blank(text: string)
  {
    forall i :: 0 <= i < |text| ==> WhiteSpace(text[i])
  }

  /** What a route's own validation says about its templates and its comparison policy. */
  ghost predicate RouteOk(r: Route)
  {
    && Accepts(r.template) && MappingOk(r.template, r.v1Template) && MappingOk(r.template, r.v2Template)
    && 0.0 <= r.serveRatio <= 1.0 && 0.0 <= r.shadow.sampleRatio <= 1.0
    && (r.policy.Some? ==> !Blank(r.policy.value))
    && (r.rolloutEnabled && r.shadow.eligible && r.shadow.sampleRatio > 0.0 ==> r.policy.Some?)
  }

  // ----- the snapshot -----

  function GroupPolicy(r: Route): (bool, real, Cohort)
  {
    (r.rolloutEnabled, r.serveRatio, r.cohort)
  }

  predicate Ambiguous(a: Route, b: Route)
  {
    a.verb == b.verb && Overlap(Split(a.template), Split(b.template))
  }

  ghost predicate DistinctIds(routes: seq<Route>)
  {
    forall i, j :: 0 <= i < j < |routes| ==> routes[i].id != routes[j].id
  }

  ghost predicate GroupsAgree(routes: seq<Route>)
  {
    forall r, q :: r in routes && q in routes && r.cohort.group == q.cohort.group ==> GroupPolicy(r) == GroupPolicy(q)
  }

  ghost predicate Unambiguous(routes: seq<Route>)
  {
    forall i, j :: 0 <= i < j < |routes| ==> !Ambiguous(routes[j], routes[i])
  }

  ghost predicate RoutesOk(routes: seq<Route>, allowed: set<string>)
  {
    && DistinctIds(routes) && (forall r :: r in routes ==> r.v1 in allowed && r.v2 in allowed)
    && GroupsAgree(routes) && Unambiguous(routes)
  }

  ghost function IdsOf(routes: seq<Route>): set<string>
  {
    set r | r in routes :: r.id
  }

  type GroupTable = map<string, (bool, real, Cohort)>

  /** `groups` holds the policy of every group seen so far. */
  ghost predicate Groups(groups: GroupTable, routes: seq<Route>)
  {
    && (forall r :: r in routes ==> r.cohort.group in groups && groups[r.cohort.group] == GroupPolicy(r))
    && (forall g :: g in groups ==> exists r :: r in routes && r.cohort.group == g && groups[g] == GroupPolicy(r))
  }

  function WithGroup(groups: GroupTable, r: Route): GroupTable
  {
    if r.cohort.group in groups then groups else groups[r.cohort.group := GroupPolicy(r)]
  }

  /** The loop of the snapshot's validation; false stands for any of its configuration errors. */
  method CheckRoutes(routes: seq<Route>, allowed: set<string>) returns (ok: bool)
    ensures ok <==> RoutesOk(routes, allowed)
  {
    hide RoutesOk, IdsOf, Groups, Overlap;
    var ids: set<string> := {};
    var groups: GroupTable := map[];
    var n := 0;
    NoRoutes(allowed);
    assert routes[..0] == [];
    while n < |routes|
      invariant 0 <= n <= |routes| && RoutesOk(routes[..n], allowed)
      invariant ids == IdsOf(routes[..n]) && Groups(groups, routes[..n])
    {
      var route := routes[n];
      if route.id in ids {
        RepeatedId(routes, n, allowed);
        return false;
      }
      ids := ids + {route.id};
      if route.v1 !in allowed || route.v2 !in allowed {
        ForeignBackend(routes, n, allowed);
        return false;
      }
      if route.cohort.group in groups && groups[route.cohort.group] != GroupPolicy(route) {
        DisagreeingGroup(groups, routes, n, allowed);
        return false;
      }
      var k := 0;
      while k < n
        invariant 0 <= k <= n && forall i :: 0 <= i < k ==> !Ambiguous(route, routes[i])
      {
        if route.verb == routes[k].verb && Overlap(Split(route.template), Split(routes[k].template)) {
          AmbiguousPair(routes, k, n, allowed);
          return false;
        }
        k := k + 1;
      }
      OneMore(groups, routes, n, allowed);
      groups := WithGroup(groups, route);
      n := n + 1;
    }
    assert routes[..n] == routes;
    return true;
  }

  lemma NoRoutes(allowed: set<string>)
    ensures RoutesOk([], allowed) && IdsOf([]) == {} && Groups(map[], [])
  {
  }

  lemma RepeatedId(routes: seq<Route>, n: nat, allowed: set<string>)
    requires n < |routes| && routes[n].id in IdsOf(routes[..n])
    ensures !RoutesOk(routes, allowed)
  {
    var r :| r in routes[..n] && r.id == routes[n].id;
    var k :| 0 <= k < n && routes[..n][k] == r;
    assert routes[k].id == routes[n].id;
  }

  lemma ForeignBackend(routes: seq<Route>, n: nat, allowed: set<string>)
    requires n < |routes| && (routes[n].v1 !in allowed || routes[n].v2 !in allowed)
    ensures !RoutesOk(routes, allowed)
  {
    assert routes[n] in routes;
  }

  lemma DisagreeingGroup(groups: GroupTable, routes: seq<Route>, n: nat, allowed: set<string>)
    requires n < |routes| && Groups(groups, routes[..n])
    requires routes[n].cohort.group in groups && groups[routes[n].cohort.group] != GroupPolicy(routes[n])
    ensures !RoutesOk(routes, allowed)
  {
    var r :| r in routes[..n] && r.cohort.group == routes[n].cohort.group && groups[r.cohort.group] == GroupPolicy(r);
    assert r in routes && routes[n] in routes;
  }

  lemma AmbiguousPair(routes: seq<Route>, k: nat, n: nat, allowed: set<string>)
    requires k < n < |routes| && Ambiguous(routes[n], routes[k])
    ensures !RoutesOk(routes, allowed)
  {
    hide Ambiguous, DistinctIds, GroupsAgree;
  }

  lemma OneMoreGroup(groups: GroupTable, before: seq<Route>, route: Route)
    requires GroupsAgree(before) && Groups(groups, before)
    requires route.cohort.group in groups ==> groups[route.cohort.group] == GroupPolicy(route)
    ensures GroupsAgree(before + [route]) && Groups(WithGroup(groups, route), before + [route])
  {
    hide GroupPolicy;
    var more := before + [route];
    assert forall r :: r in more <==> r in before || r == route;
    var table := WithGroup(groups, route);
    forall g | g in table ensures exists r :: r in more && r.cohort.group == g && table[g] == GroupPolicy(r) {
      if g in groups {
        var r :| r in before && r.cohort.group == g && groups[g] == GroupPolicy(r);
        assert r in more;
      } else {
        assert route in more;
      }
    }
  }

  lemma OneMoreUnambiguous(before: seq<Route>, route: Route)
    requires Unambiguous(before) && forall i :: 0 <= i < |before| ==> !Ambiguous(route, before[i])
    ensures Unambiguous(before + [route])
  {
    hide Ambiguous;
  }

  /** A route that passes every test extends the accepted ones. */
  lemma OneMore(groups: GroupTable, routes: seq<Route>, n: nat, allowed: set<string>)
    requires n < |routes| && RoutesOk(routes[..n], allowed) && Groups(groups, routes[..n])
    requires routes[n].id !in IdsOf(routes[..n]) && routes[n].v1 in allowed && routes[n].v2 in allowed
    requires routes[n].cohort.group in groups ==> groups[routes[n].cohort.group] == GroupPolicy(routes[n])
    requires forall i :: 0 <= i < n ==> !Ambiguous(routes[n], routes[i])
    ensures RoutesOk(routes[..n + 1], allowed) && Groups(WithGroup(groups, routes[n]), routes[..n + 1])
    ensures IdsOf(routes[..n + 1]) == IdsOf(routes[..n]) + {routes[n].id}
  {
    hide Ambiguous, GroupsAgree, Groups, Unambiguous;
    var before := routes[..n];
    assert routes[..n + 1] == before + [routes[n]];
    assert forall i :: 0 <= i < n ==> before[i] == routes[i] && before[i].id in IdsOf(before);
    OneMoreGroup(groups, before, routes[n]);
    OneMoreUnambiguous(before, routes[n]);
  }

  // ----- matching -----

  predicate Takes(r: Route, verb: string, path: string)
  {
    r.verb == verb && Matches(Split(r.template), Split(path))
  }

  /** The first route that takes the request. */
  function FirstMatch(routes: seq<Route>, verb: string, path: string): Option<Route>
  {
    if routes == [] then None
    else if Takes(routes[0], verb, path) then Some(routes[0])
    else FirstMatch(routes[1..], verb, path)
  }

  /** A parameter's key: its name for a match, its whole segment for a path mapping. */
  function Key(part: string, bare: bool): string
    requires Braced(part)
  {
    if bare && |part| >= 2 then part[1..|part| - 1] else part
  }

  /** The values of the parameters of a path, segment by segment. */
  function Captures(parts: seq<string>, actual: seq<string>, bare: bool): map<string, string>
    requires |parts| == |actual|
  {
    if parts == [] then map[]
    else
      var n := |parts| - 1;
      var before := Captures(parts[..n], actual[..n], bare);
      if Braced(parts[n]) then before[Key(parts[n], bare) := actual[n]] else before
  }

  lemma SameKey(a: string, b: string, bare: bool)
    requires IsParameter(a) && IsParameter(b) && Key(a, bare) == Key(b, bare)
    ensures a == b
  {
    assert a == ['{'] + a[1..|a| - 1] + ['}'];
    assert b == ['{'] + b[1..|b| - 1] + ['}'];
  }

  /** Every parameter of an accepted template has the value of its own segment, and nothing else is captured. */
  lemma {:induction false} CapturesAreExact(parts: seq<string>, actual: seq<string>, bare: bool)
    requires PartsOk(parts) && |parts| == |actual|
    ensures forall i :: 0 <= i < |parts| && Braced(parts[i]) ==>
              Key(parts[i], bare) in Captures(parts, actual, bare)
              && Captures(parts, actual, bare)[Key(parts[i], bare)] == actual[i]
    ensures forall k :: k in Captures(parts, actual, bare) ==>
              exists i :: 0 <= i < |parts| && Braced(parts[i]) && Key(parts[i], bare) == k
  {
    hide IsParameter, SegmentOk, Braced;
    if parts != [] {
      var n := |parts| - 1;
      assert forall i :: 0 <= i < n ==> parts[..n][i] == parts[i] && actual[..n][i] == actual[i];
      CapturesAreExact(parts[..n], actual[..n], bare);
      BracedIsParameter(parts[n]);
      forall i | 0 <= i < n && Braced(parts[i]) && Braced(parts[n]) ensures Key(parts[i], bare) != Key(parts[n], bare) {
        BracedIsParameter(parts[i]);
        if Key(parts[i], bare) == Key(parts[n], bare) {
          SameKey(parts[i], parts[n], bare);
        }
      }
    }
  }

  /** What a match hands on: each parameter's value under its bare name, and nothing else. */
  lemma ParametersAreNamed(parts: seq<string>, actual: seq<string>, name: string)
    requires PartsOk(parts) && |parts| == |actual| && IsParameter("{" + name + "}")
    ensures name in Captures(parts, actual, true) <==> "{" + name + "}" in parts
    ensures forall i :: 0 <= i < |parts| && parts[i] == "{" + name + "}" ==>
              name in Captures(parts, actual, true) && Captures(parts, actual, true)[name] == actual[i]
  {
    hide Captures;
    CapturesAreExact(parts, actual, true);
    var part := "{" + name + "}";
    KeyIsName(name);
    forall i | 0 <= i < |parts| && parts[i] == part
      ensures name in Captures(parts, actual, true) && Captures(parts, actual, true)[name] == actual[i]
    {
      BracedIsParameter(parts[i]);
    }
    if name in Captures(parts, actual, true) {
      var i :| 0 <= i < |parts| && Braced(parts[i]) && Key(parts[i], true) == name;
      BracedIsParameter(parts[i]);
      SameKey(parts[i], part, true);
    }
  }

  lemma KeyIsName(name: string)
    requires IsParameter("{" + name + "}")
    ensures Braced("{" + name + "}") && Key("{" + name + "}", true) == name
  {
    var part := "{" + name + "}";
    assert part[1..|part| - 1] == name;
  }

  datatype RouteMatch = RouteMatch(route: Route, parameters: map<string, string>)

  /** Finds the route of a request and the values of its parameters. */
  method MatchRoute(routes: seq<Route>, verb: string, path: string) returns (found: Option<RouteMatch>)
    ensures found.Some? <==> FirstMatch(routes, verb, path).Some?
    ensures found.Some? ==>
              && Some(found.value.route) == FirstMatch(routes, verb, path)
              && |Split(found.value.route.template)| == |Split(path)|
              && found.value.parameters == Captures(Split(found.value.route.template), Split(path), true)
  {
    var request := Split(path);
    var n := 0;
    while n < |routes|
      invariant 0 <= n <= |routes|
      invariant FirstMatch(routes, verb, path) == FirstMatch(routes[n..], verb, path)
    {
      var route := routes[n];
      var parts := Split(route.template);
      assert routes[n..][1..] == routes[n + 1..];
      if route.verb == verb && |parts| == |request| {
        var parameters: map<string, string> := map[];
        var k := 0;
        while k < |parts| && Fits(parts[k], request[k])
          invariant 0 <= k <= |parts| && forall i :: 0 <= i < k ==> Fits(parts[i], request[i])
          invariant parameters == BoundIn(parts[..k], request[..k])
        {
          assert parts[..k + 1][..k] == parts[..k] && request[..k + 1][..k] == request[..k];
          if Braced(parts[k]) && request[k] != "" {
            parameters := parameters[Key(parts[k], true) := request[k]];
          }
          k := k + 1;
        }
        if k == |parts| {
          assert parts[..k] == parts && request[..k] == request;
          BoundAreCaptured(parts, request);
          return Some(RouteMatch(route, parameters));
        }
      }
      n := n + 1;
    }
    return None;
  }

  /** The dictionary that matching fills: a braced segment binds only a segment that is not empty. */
  function BoundIn(parts: seq<string>, actual: seq<string>): map<string, string>
    requires |parts| == |actual|
  {
    if parts == [] then map[]
    else
      var n := |parts| - 1;
      var before := BoundIn(parts[..n], actual[..n]);
      if Braced(parts[n]) && actual[n] != "" then before[Key(parts[n], true) := actual[n]] else before
  }

  lemma {:induction false} BoundAreCaptured(parts: seq<string>, actual: seq<string>)
    requires |parts| == |actual| && forall i :: 0 <= i < |parts| ==> Fits(parts[i], actual[i])
    ensures BoundIn(parts, actual) == Captures(parts, actual, true)
  {
    if parts != [] {
      var n := |parts| - 1;
      BoundAreCaptured(parts[..n], actual[..n]);
      assert Fits(parts[n], actual[n]);
    }
  }

  lemma {:induction false} FirstMatchTakes(routes: seq<Route>, verb: string, path: string)
    ensures FirstMatch(routes, verb, path).Some? ==>
              FirstMatch(routes, verb, path).value in routes && Takes(FirstMatch(routes, verb, path).value, verb, path)
    ensures FirstMatch(routes, verb, path).None? ==> forall r :: r in routes ==> !Takes(r, verb, path)
  {
    if routes != [] {
      FirstMatchTakes(routes[1..], verb, path);
    }
  }

  /** Two routes of one snapshot are never both taken by a request, and the check refuses nothing else. */
  lemma UnambiguousIsExact(routes: seq<Route>)
    requires forall r :: r in routes ==> Accepts(r.template)
    ensures Unambiguous(routes) <==>
              forall i, j, verb, path :: 0 <= i < j < |routes| ==>
                !(Takes(routes[i], verb, path) && Takes(routes[j], verb, path))
  {
    if Unambiguous(routes) {
      forall i, j, verb, path | 0 <= i < j < |routes|
        ensures !(Takes(routes[i], verb, path) && Takes(routes[j], verb, path))
      {
        OverlapIsExact(routes[j].template, routes[i].template);
        assert !Ambiguous(routes[j], routes[i]);
      }
    } else {
      var i, j :| 0 <= i < j < |routes| && Ambiguous(routes[j], routes[i]);
      OverlapIsExact(routes[j].template, routes[i].template);
      var path :| Matches(Split(routes[j].template), Split(path)) && Matches(Split(routes[i].template), Split(path));
      assert Takes(routes[i], routes[i].verb, path) && Takes(routes[j], routes[i].verb, path);
    }
  }

  /** In an accepted snapshot the matching route is the only one, so the order of the routes does not matter. */
  lemma MatchIgnoresOrder(routes: seq<Route>, reordered: seq<Route>, verb: string, path: string)
    requires (forall r :: r in routes ==> Accepts(r.template)) && Unambiguous(routes)
    requires forall r :: r in routes <==> r in reordered
    ensures FirstMatch(routes, verb, path) == FirstMatch(reordered, verb, path)
    ensures forall r :: r in routes && Takes(r, verb, path) ==> FirstMatch(routes, verb, path) == Some(r)
  {
    FirstMatchTakes(routes, verb, path);
    FirstMatchTakes(reordered, verb, path);
    UnambiguousIsExact(routes);
    forall r, q | r in routes && q in routes && Takes(r, verb, path) && Takes(q, verb, path) ensures r == q {
      TakenOnce(routes, r, q, verb, path);
    }
  }

  lemma TakenOnce(routes: seq<Route>, r: Route, q: Route, verb: string, path: string)
    requires forall i, j, verb, path :: 0 <= i < j < |routes| ==>
               !(Takes(routes[i], verb, path) && Takes(routes[j], verb, path))
    requires r in routes && q in routes && Takes(r, verb, path) && Takes(q, verb, path)
    ensures r == q
  {
    hide Takes;
    var i :| 0 <= i < |routes| && routes[i] == r;
    var j :| 0 <= j < |routes| && routes[j] == q;
    assert !(i < j) && !(j < i);
  }

  // ----- rewriting paths -----

  /** The raw path's parameters are put into the mapping's segments. */
  function Rewrite(registered: seq<string>, mapped: seq<string>, raw: seq<string>): (path: seq<string>)
    requires |registered| == |raw|
    ensures |path| == |mapped|
  {
    var values := Captures(registered, raw, false);
    seq(|mapped|, i requires 0 <= i < |mapped| => if mapped[i] in values then values[mapped[i]] else mapped[i])
  }

  ghost predicate SameNames(a: seq<string>, b: seq<string>)
  {
    forall p :: IsParameter(p) ==> (p in a <==> p in b)
  }

  lemma RewrittenAt(registered: seq<string>, mapped: seq<string>, raw: seq<string>, i: nat)
    requires PartsOk(registered) && PartsOk(mapped) && SameNames(registered, mapped) && |registered| == |raw|
    requires i < |mapped|
    ensures IsParameter(mapped[i]) ==>
              exists j :: 0 <= j < |registered| && registered[j] == mapped[i] && Rewrite(registered, mapped, raw)[i] == raw[j]
    ensures !IsParameter(mapped[i]) ==> Rewrite(registered, mapped, raw)[i] == mapped[i]
  {
    CapturesAreExact(registered, raw, false);
    BracedIsParameter(mapped[i]);
    if IsParameter(mapped[i]) {
      assert mapped[i] in mapped;
      var j :| 0 <= j < |registered| && registered[j] == mapped[i];
      BracedIsParameter(registered[j]);
    } else {
      CapturedAreParameters(registered, raw);
    }
  }

  lemma CapturedAreParameters(parts: seq<string>, actual: seq<string>)
    requires PartsOk(parts) && |parts| == |actual|
    ensures forall k :: k in Captures(parts, actual, false) ==> IsParameter(k) && k in parts
  {
    CapturesAreExact(parts, actual, false);
    forall k | k in Captures(parts, actual, false) ensures IsParameter(k) && k in parts {
      var i :| 0 <= i < |parts| && Braced(parts[i]) && Key(parts[i], false) == k;
      BracedIsParameter(parts[i]);
    }
  }

  /** The rewritten path carries every raw parameter unchanged, whatever its text looks like. */
  lemma RewriteKeepsParameters(registered: seq<string>, mapped: seq<string>, raw: seq<string>)
    requires PartsOk(registered) && PartsOk(mapped) && SameNames(registered, mapped) && |registered| == |raw|
    ensures Captures(mapped, Rewrite(registered, mapped, raw), false) == Captures(registered, raw, false)
  {
    var path := Rewrite(registered, mapped, raw);
    CapturesAreExact(registered, raw, false);
    CapturesAreExact(mapped, path, false);
    forall p | IsParameter(p) && p in registered
      ensures p in Captures(mapped, path, false) && p in Captures(registered, raw, false)
      ensures Captures(mapped, path, false)[p] == Captures(registered, raw, false)[p]
    {
      var i :| 0 <= i < |mapped| && mapped[i] == p;
      var j :| 0 <= j < |registered| && registered[j] == p;
      BracedIsParameter(mapped[i]);
      BracedIsParameter(registered[j]);
      RewrittenAt(registered, mapped, raw, i);
      var m :| 0 <= m < |registered| && registered[m] == p && path[i] == raw[m];
      assert m == j by { OnlyOnce(registered, m, j); }
    }
    forall k | k in Captures(mapped, path, false) ensures k in Captures(registered, raw, false) {
      var i :| 0 <= i < |mapped| && Braced(mapped[i]) && mapped[i] == k;
      BracedIsParameter(mapped[i]);
      assert k in mapped;
    }
    forall k | k in Captures(registered, raw, false) ensures k in Captures(mapped, path, false) {
      var i :| 0 <= i < |registered| && Braced(registered[i]) && registered[i] == k;
      BracedIsParameter(registered[i]);
      assert k in registered;
    }
  }

  lemma OnlyOnce(parts: seq<string>, i: nat, j: nat)
    requires PartsOk(parts) && i < |parts| && j < |parts| && parts[i] == parts[j] && IsParameter(parts[i])
    ensures i == j
  {
  }

  /** The rewritten path matches the mapping exactly when no raw parameter is empty. */
  lemma RewriteMatchesMapping(registered: seq<string>, mapped: seq<string>, raw: seq<string>)
    requires PartsOk(registered) && PartsOk(mapped) && SameNames(registered, mapped) && |registered| == |raw|
    ensures Matches(mapped, Rewrite(registered, mapped, raw)) <==>
              forall j :: 0 <= j < |registered| && IsParameter(registered[j]) ==> raw[j] != ""
  {
    var path := Rewrite(registered, mapped, raw);
    if Matches(mapped, path) {
      forall j | 0 <= j < |registered| && IsParameter(registered[j]) ensures raw[j] != "" {
        assert registered[j] in registered;
        var i :| 0 <= i < |mapped| && mapped[i] == registered[j];
        RewrittenAt(registered, mapped, raw, i);
        var m :| 0 <= m < |registered| && registered[m] == mapped[i] && path[i] == raw[m];
        OnlyOnce(registered, m, j);
        assert Fits(mapped[i], path[i]);
        NotAParameter(mapped[i], raw[j]);
      }
    } else {
      var i :| 0 <= i < |mapped| && !Fits(mapped[i], path[i]);
      RewrittenAt(registered, mapped, raw, i);
      BracedIsParameter(mapped[i]);
    }
  }

  lemma NotAParameter(part: string, value: string)
    requires IsParameter(part) && Fits(part, value)
    ensures value != ""
  {
  }

  /** Mapping back restores the raw path exactly when its plain segments are the registered ones. */
  lemma RewriteBack(registered: seq<string>, mapped: seq<string>, raw: seq<string>)
    requires PartsOk(registered) && PartsOk(mapped) && SameNames(registered, mapped) && |registered| == |raw|
    ensures Rewrite(mapped, registered, Rewrite(registered, mapped, raw)) == raw <==>
              forall j :: 0 <= j < |registered| && !IsParameter(registered[j]) ==> raw[j] == registered[j]
  {
    var path := Rewrite(registered, mapped, raw);
    var back := Rewrite(mapped, registered, path);
    RewriteKeepsParameters(registered, mapped, raw);
    CapturesAreExact(registered, raw, false);
    forall j | 0 <= j < |registered|
      ensures IsParameter(registered[j]) ==> back[j] == raw[j]
      ensures !IsParameter(registered[j]) ==> back[j] == registered[j]
    {
      BracedIsParameter(registered[j]);
      RewrittenAt(mapped, registered, path, j);
    }
    if forall j :: 0 <= j < |registered| && !IsParameter(registered[j]) ==> raw[j] == registered[j] {
      assert back == raw;
    }
  }

  /** The path sent to a backend; None stands for the error of a raw path of another shape. */
  function BackendPath(template: string, mapping: Option<string>, raw: string): Option<string>
  {
    if mapping.None? then Some(raw)
    else if |Split(raw)| != |Split(template)| then None
    else Some(Join(Rewrite(Split(template), Split(mapping.value), Split(raw))))
  }

  lemma {:induction false} CapturedAreActual(parts: seq<string>, actual: seq<string>, bare: bool)
    requires |parts| == |actual|
    ensures forall k :: k in Captures(parts, actual, bare) ==> Captures(parts, actual, bare)[k] in actual
  {
    if parts != [] {
      var n := |parts| - 1;
      CapturedAreActual(parts[..n], actual[..n], bare);
      assert forall v :: v in actual[..n] ==> v in actual;
    }
  }

  /** The backend reads the rewritten path as the segments that were written into it. */
  lemma BackendReadsSegments(template: string, mapping: string, raw: string)
    requires |Split(raw)| == |Split(template)|
    ensures Split(BackendPath(template, Some(mapping), raw).value) == Rewrite(Split(template), Split(mapping), Split(raw))
  {
    var path := Rewrite(Split(template), Split(mapping), Split(raw));
    SplitHasNoSlash(mapping);
    SplitHasNoSlash(raw);
    CapturedAreActual(Split(template), Split(raw), false);
    assert forall s :: s in Split(raw) ==> NoSlash(s);
    assert forall s :: s in path ==> NoSlash(s);
    SplitJoin(path);
  }

  /** For an accepted route the request can be mapped to the backend's template and back again. */
  lemma MappedPathRoundTrip(r: Route, mapping: string, raw: string)
    requires RouteOk(r) && (r.v1Template == Some(mapping) || r.v2Template == Some(mapping))
    requires Matches(Split(r.template), Split(raw))
    ensures BackendPath(r.template, Some(mapping), raw).Some?
    ensures
      var sent := BackendPath(r.template, Some(mapping), raw).value;
      && Matches(Split(mapping), Split(sent))
      && Captures(Split(mapping), Split(sent), false) == Captures(Split(r.template), Split(raw), false)
      && BackendPath(mapping, Some(r.template), sent) == Some(raw)
  {
    var registered, mapped, segments := Split(r.template), Split(mapping), Split(raw);
    assert SameNames(registered, mapped) by {
      forall p | IsParameter(p) ensures p in registered <==> p in mapped {
        assert p in registered <==> p in Names(r.template);
        assert p in mapped <==> p in Names(mapping);
      }
    }
    forall j | 0 <= j < |registered|
      ensures IsParameter(registered[j]) ==> segments[j] != ""
      ensures !IsParameter(registered[j]) ==> segments[j] == registered[j]
    {
      assert Fits(registered[j], segments[j]);
      BracedIsParameter(registered[j]);
    }
    BackendReadsSegments(r.template, mapping, raw);
    RewriteMatchesMapping(registered, mapped, segments);
    RewriteKeepsParameters(registered, mapped, segments);
    RewriteBack(registered, mapped, segments);
    JoinSplit(raw);
  }
}
