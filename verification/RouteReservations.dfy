/** The local in-flight counters of the discovery route cache and its round-robin rotation. */
module RouteReservations {
  import opened Prelude

  /** A service name and a service id; both are not empty where a counter is kept. */
  type Key = (string, string)

  predicate Counted(k: Key) {
    k.0 != "" && k.1 != ""
  }

  function CountOf(counts: map<Key, nat>, k: Key): nat {
    if k in counts then counts[k] else 0
  }

  // ---------------------------------------------------------------- the counters

  /** `_reserve_route_locked` */
  function Reserve(counts: map<Key, nat>, k: Key): map<Key, nat> {
    if !Counted(k) then counts else counts[k := CountOf(counts, k) + 1]
  }

  /** `_release_route` */
  function Release(counts: map<Key, nat>, k: Key): map<Key, nat> {
    if !Counted(k) then counts
    else if CountOf(counts, k) <= 1 then counts - {k}
    else counts[k := counts[k] - 1]
  }

  /** What a refresh of the service `name` keeps: the ids that are still there, if any are. */
  predicate Kept(k: Key, name: string, valid: set<string>) {
    k.0 != name || (valid != {} && k.1 in valid)
  }

  function Prune(counts: map<Key, nat>, name: string, valid: set<string>): map<Key, nat> {
    map k | k in counts && Kept(k, name, valid) :: counts[k]
  }

  /** The counters, and how many reservations are really outstanding. A release is stray when
      its caller has released that reservation before. */
  datatype Sys = Sys(counts: map<Key, nat>, outstanding: map<Key, nat>, strays: nat, prunes: nat)

  datatype Step =
    | ReserveStep(key: Key)
    | ReleaseStep(key: Key)
    | StrayRelease(key: Key)
    | PruneStep(name: string, valid: set<string>)

  predicate Enabled(s: Sys, a: Step) {
    a.ReleaseStep? && Counted(a.key) ==> CountOf(s.outstanding, a.key) > 0
  }

  function Next(s: Sys, a: Step): Sys
    requires Enabled(s, a)
  {
    match a
    case ReserveStep(k) => s.(counts := Reserve(s.counts, k), outstanding := Reserve(s.outstanding, k))
    case ReleaseStep(k) => s.(counts := Release(s.counts, k), outstanding := Release(s.outstanding, k))
    case StrayRelease(k) => s.(counts := Release(s.counts, k), strays := s.strays + 1)
    case PruneStep(name, valid) => s.(counts := Prune(s.counts, name, valid), prunes := s.prunes + 1)
  }

  predicate Run(states: seq<Sys>, steps: seq<Step>) {
    && |states| == |steps| + 1 && states[0] == Sys(map[], map[], 0, 0)
    && forall i :: 0 <= i < |steps| ==> Enabled(states[i], steps[i]) && states[i + 1] == Next(states[i], steps[i])
  }

  ghost predicate Inv(s: Sys) {
    && (forall k: Key :: CountOf(s.counts, k) <= CountOf(s.outstanding, k))
    && (forall k: Key :: k in s.counts ==> s.counts[k] >= 1 && Counted(k))
    && (forall k: Key :: k in s.outstanding ==> s.outstanding[k] >= 1)
    && (s.strays == 0 && s.prunes == 0 ==> s.counts == s.outstanding)
  }

  /** The main result on the counters: through any interleaving of reservations, releases and
      pruning refreshes, a counter that is kept is positive and never exceeds what is really
      outstanding; and it is exact as long as nothing was pruned or released twice. */
  lemma {:induction false} CountersNeverExceedReservations(states: seq<Sys>, steps: seq<Step>, i: nat)
    requires Run(states, steps) && i < |states|
    ensures Inv(states[i])
  {
    if i > 0 {
      CountersNeverExceedReservations(states, steps, i - 1);
      assert states[i - 1 + 1] == Next(states[i - 1], steps[i - 1]);
      NextKeepsInv(states[i - 1], steps[i - 1]);
    }
  }

  lemma NextKeepsInv(s: Sys, a: Step)
    requires Inv(s) && Enabled(s, a)
    ensures Inv(Next(s, a))
  {
    var t := Next(s, a);
    forall k: Key ensures CountOf(t.counts, k) <= CountOf(t.outstanding, k) {
      assert CountOf(s.counts, k) <= CountOf(s.outstanding, k);
    }
  }

  // ---------------------------------------------------------------- rotation

  /** A candidate by what it is sorted by. */
  datatype Route = Route(node: string, id: string)

  predicate RouteLe(a: Route, b: Route) {
    TextLe(a.node, b.node) && (a.node == b.node ==> TextLe(a.id, b.id))
  }

  function InsertRoute(r: Route, routes: seq<Route>): (s: seq<Route>)
    ensures |s| == |routes| + 1
  {
    if routes == [] || RouteLe(r, routes[0]) then [r] + routes else [routes[0]] + InsertRoute(r, routes[1..])
  }

  function SortRoutes(routes: seq<Route>): (s: seq<Route>)
    ensures |s| == |routes|
  {
    if routes == [] then [] else InsertRoute(routes[0], SortRoutes(routes[1..]))
  }

  predicate Ordered(routes: seq<Route>) {
    forall i, j :: 0 <= i < j < |routes| ==> RouteLe(routes[i], routes[j])
  }

  lemma RouteLeIsAnOrder(a: Route, b: Route, c: Route)
    ensures RouteLe(a, b) || RouteLe(b, a)
    ensures RouteLe(a, b) && RouteLe(b, c) ==> RouteLe(a, c)
    ensures RouteLe(a, b) && RouteLe(b, a) ==> a == b
  {
    TextLeIsAnOrder(a.node, b.node, c.node);
    TextLeIsAnOrder(b.node, c.node, b.node);
    TextLeIsAnOrder(a.id, b.id, c.id);
  }

  lemma {:induction false} InsertOrders(r: Route, routes: seq<Route>)
    requires Ordered(routes)
    ensures Ordered(InsertRoute(r, routes)) && multiset(InsertRoute(r, routes)) == multiset(routes) + multiset{r}
    ensures forall x :: x in InsertRoute(r, routes) <==> x == r || x in routes
  {
    if routes == [] {
    } else if RouteLe(r, routes[0]) {
      forall i | 0 <= i < |routes| ensures RouteLe(r, routes[i]) {
        RouteLeIsAnOrder(r, routes[0], routes[i]);
      }
    } else {
      RouteLeIsAnOrder(r, routes[0], r);
      InsertOrders(r, routes[1..]);
      var t := InsertRoute(r, routes[1..]);
      forall j | 0 <= j < |t| ensures RouteLe(routes[0], t[j]) {
        assert t[j] in t;
        assert t[j] == r || t[j] in routes[1..];
      }
      assert routes == [routes[0]] + routes[1..];
      assert forall x :: x in routes <==> x == routes[0] || x in routes[1..];
    }
  }

  lemma {:induction false} SortOrders(routes: seq<Route>)
    ensures Ordered(SortRoutes(routes)) && multiset(SortRoutes(routes)) == multiset(routes)
  {
    if routes != [] {
      SortOrders(routes[1..]);
      InsertOrders(routes[0], SortRoutes(routes[1..]));
      assert routes == [routes[0]] + routes[1..];
    }
  }

  lemma {:induction false} OrderIsUnique(a: seq<Route>, b: seq<Route>)
    requires Ordered(a) && Ordered(b) && multiset(a) == multiset(b)
    ensures a == b
  {
    assert |multiset(a)| == |a| && |multiset(b)| == |b|;
    if b != [] {
      SameSmallest(a, b);
      assert a == [a[0]] + a[1..] && b == [b[0]] + b[1..];
      assert multiset(a[1..]) == multiset(a) - multiset{a[0]};
      assert multiset(b[1..]) == multiset(b) - multiset{b[0]};
      OrderIsUnique(a[1..], b[1..]);
    }
  }

  lemma SameSmallest(a: seq<Route>, b: seq<Route>)
    requires Ordered(a) && Ordered(b) && multiset(a) == multiset(b) && a != [] && b != []
    ensures a[0] == b[0]
  {
    assert a[0] in multiset(b) && b[0] in multiset(a);
    var i: nat :| i < |b| && b[i] == a[0];
    var j: nat :| j < |a| && a[j] == b[0];
    RouteLeIsAnOrder(a[0], b[0], a[0]);
    RouteLeIsAnOrder(a[0], a[0], a[0]);
  }

  /** The round-robin choice. */
  function Pick(routes: seq<Route>, index: nat): Route
    requires routes != []
  {
    SortRoutes(routes)[index % |routes|]
  }

  /** The choices of consecutive selections; each sees the candidates in an order of its own. */
  function Picks(offers: seq<seq<Route>>, index: nat): seq<Route>
    requires forall j :: 0 <= j < |offers| ==> offers[j] != []
  {
    seq(|offers|, j requires 0 <= j < |offers| => Pick(offers[j], index + j))
  }

  function Rotated(s: seq<Route>, at: nat): seq<Route>
    requires at <= |s|
  {
    s[at..] + s[..at]
  }

  predicate SameCandidates(routes: seq<Route>, offers: seq<seq<Route>>) {
    forall j :: 0 <= j < |offers| ==> offers[j] != [] && multiset(offers[j]) == multiset(routes)
  }

  /** The remainder, by taking `n` away. */
  function Turn(index: nat, n: nat): (k: nat)
    requires n > 0
    ensures k < n
  {
    if index < n then index else Turn(index - n, n)
  }

  lemma {:induction false} TurnIsRemainder(index: nat, n: nat)
    requires n > 0
    ensures Turn(index, n) == index % n
  {
    if index >= n {
      TurnIsRemainder(index - n, n);
      assert index % n == (index - n) % n by {
        var q, r := (index - n) / n, (index - n) % n;
        assert index == n * (q + 1) + r;
        ModIs(index, n, q + 1, r);
      }
    } else {
      ModIs(index, n, 0, index);
    }
  }

  lemma {:induction false} TurnStep(index: nat, j: nat, n: nat)
    requires j < n
    ensures Turn(index + j, n) == Wrap(Turn(index, n) + j, n)
  {
    if index >= n {
      TurnStep(index - n, j, n);
    }
  }

  /** One choice: the sorted candidates do not depend on how they came. */
  lemma PickIsCanonical(routes: seq<Route>, offer: seq<Route>, index: nat)
    requires routes != [] && offer != [] && multiset(offer) == multiset(routes)
    ensures Pick(offer, index) == SortRoutes(routes)[Turn(index, |routes|)]
  {
    SortOrders(routes);
    SortOrders(offer);
    OrderIsUnique(SortRoutes(offer), SortRoutes(routes));
    assert |multiset(offer)| == |offer| && |multiset(routes)| == |routes|;
    TurnIsRemainder(index, |routes|);
  }

  lemma RotationKeepsAll(s: seq<Route>, at: nat)
    requires at <= |s|
    ensures multiset(Rotated(s, at)) == multiset(s)
  {
    assert s == s[..at] + s[at..];
  }

  function Wrap(k: nat, n: nat): nat {
    if k < n then k else k - n
  }

  lemma RotatedAt(s: seq<Route>, at: nat, j: nat)
    requires at < |s| && j < |s|
    ensures Rotated(s, at)[j] == s[Wrap(at + j, |s|)]
  {
  }

  lemma PickAt(routes: seq<Route>, offer: seq<Route>, index: nat, j: nat)
    requires routes != [] && offer != [] && multiset(offer) == multiset(routes) && j < |routes|
    ensures Pick(offer, index + j) == Rotated(SortRoutes(routes), Turn(index, |routes|))[j]
  {
    hide Pick, Rotated, SortRoutes, Turn, Wrap;
    PickIsCanonical(routes, offer, index + j);
    TurnStep(index, j, |routes|);
    RotatedAt(SortRoutes(routes), Turn(index, |routes|), j);
  }

  /** Round robin is fair: with the same n candidates, in whatever order they come, any n
      consecutive selections pick each of them exactly once, from any starting index. */
  lemma RoundRobinIsFair(routes: seq<Route>, offers: seq<seq<Route>>, index: nat)
    requires routes != [] && |offers| == |routes| && SameCandidates(routes, offers)
    ensures multiset(Picks(offers, index)) == multiset(routes)
  {
    var at := Turn(index, |routes|);
    PickAt(routes, offers[0], index, 0);
    var rotated := Rotated(SortRoutes(routes), at);
    forall j | 0 <= j < |routes| ensures Pick(offers[j], index + j) == rotated[j] {
      PickAt(routes, offers[j], index, j);
    }
    PicksAre(offers, index, rotated);
    RotationKeepsAll(SortRoutes(routes), at);
    SortOrders(routes);
  }

  lemma PicksAre(offers: seq<seq<Route>>, index: nat, expected: seq<Route>)
    requires |expected| == |offers| && forall j :: 0 <= j < |offers| ==> offers[j] != []
    requires forall j :: 0 <= j < |offers| ==> Pick(offers[j], index + j) == expected[j]
    ensures Picks(offers, index) == expected
  {
  }

  lemma ModIs(x: nat, n: nat, q: nat, r: nat)
    requires r < n && x == n * q + r
    ensures x % n == r
  {
    var d := x / n - q;
    assert x == n * (x / n) + x % n;
    assert n * d == n * (x / n) - n * q;
    Multiple(n, d);
  }

  lemma Multiple(n: int, d: int)
    requires n >= 0
    ensures d >= 1 ==> n * d >= n
    ensures d <= -1 ==> n * d <= -n
  {
    if d >= 1 {
      assert n * d == n + n * (d - 1);
    } else if d <= -1 {
      assert n * d == -n + n * (d + 1);
    }
  }

  /** By node and, within a node, by id. */
  predicate ByNodeThenId(routes: seq<Route>) {
    forall i, j :: 0 <= i < j < |routes| ==>
      if routes[i].node == routes[j].node then TextLe(routes[i].id, routes[j].id)
      else TextLe(routes[i].node, routes[j].node)
  }

  /** The choice, by any sorted list of the candidates. */
  lemma PickIsByNodeThenId(routes: seq<Route>, sorted: seq<Route>, index: nat)
    requires routes != [] && multiset(sorted) == multiset(routes) && ByNodeThenId(sorted)
    ensures |sorted| == |routes| && Pick(routes, index) == sorted[index % |routes|]
  {
    forall i, j | 0 <= i < j < |sorted| ensures RouteLe(sorted[i], sorted[j]) {
      TextLeIsAnOrder(sorted[i].node, sorted[j].node, "");
    }
    SortOrders(routes);
    OrderIsUnique(SortRoutes(routes), sorted);
  }

  lemma SortIsByNodeThenId(routes: seq<Route>)
    ensures ByNodeThenId(SortRoutes(routes)) && multiset(SortRoutes(routes)) == multiset(routes)
  {
    SortOrders(routes);
  }

  lemma PickIsACandidate(routes: seq<Route>, index: nat)
    requires routes != []
    ensures Pick(routes, index) in routes
  {
    SortOrders(routes);
    assert Pick(routes, index) in multiset(SortRoutes(routes));
  }

  // ---------------------------------------------------------------- the object

  /** The counters and the rotation of `_DiscoveryRouteCache`. */
  class RouteCounters {
    var localInflight: map<Key, nat>
    var routeIndex: map<string, nat>

    constructor ()
      ensures localInflight == map[] && routeIndex == map[]
    {
      localInflight, routeIndex := map[], map[];
    }

    method ReserveRoute(k: Key)
      modifies this`localInflight
      ensures localInflight == Reserve(old(localInflight), k)
      ensures localInflight == if k.0 == "" || k.1 == "" then old(localInflight)
        else old(localInflight)[k := if k in old(localInflight) then old(localInflight)[k] + 1 else 1]
    {
      if k.0 == "" || k.1 == "" {
        return;
      }
      var current := if k in localInflight then localInflight[k] else 0;
      localInflight := localInflight[k := current + 1];
    }

    method ReleaseRoute(k: Key)
      modifies this`localInflight
      ensures localInflight == Release(old(localInflight), k)
      ensures localInflight == if k.0 == "" || k.1 == "" then old(localInflight)
        else if k in old(localInflight) && old(localInflight)[k] > 1 then old(localInflight)[k := old(localInflight)[k] - 1]
        else old(localInflight) - {k}
    {
      if k.0 == "" || k.1 == "" {
        return;
      }
      var current := if k in localInflight then localInflight[k] else 0;
      if current <= 1 {
        localInflight := localInflight - {k};
      } else {
        localInflight := localInflight[k := current - 1];
      }
    }

    /** The pruning loop of a refresh, over a list of the keys. */
    method PruneService(name: string, valid: set<string>, keys: seq<Key>)
      requires forall k: Key :: k in localInflight ==> k in keys
      modifies this`localInflight
      ensures localInflight == Prune(old(localInflight), name, valid)
      ensures forall k: Key :: k in localInflight <==> k in old(localInflight) && (k.0 == name ==> k.1 in valid)
      ensures forall k: Key :: k in localInflight ==> localInflight[k] == old(localInflight)[k]
    {
      var i := 0;
      while i < |keys|
        invariant i <= |keys|
        invariant forall k: Key :: k in localInflight <==>
          k in old(localInflight) && (Kept(k, name, valid) || k !in keys[..i])
        invariant forall k: Key :: k in localInflight ==> localInflight[k] == old(localInflight)[k]
      {
        var k := keys[i];
        assert keys[..i + 1] == keys[..i] + [k];
        if k.0 == name && ((valid != {} && k.1 !in valid) || valid == {}) {
          localInflight := localInflight - {k};
        }
        i := i + 1;
      }
      assert keys[..i] == keys;
    }

    /** The round-robin part of `select_route`: None where no candidate is available. */
    method SelectRoundRobin(name: string, candidates: seq<Route>) returns (selected: Option<Route>)
      modifies this
      ensures candidates == [] ==> selected == None && localInflight == old(localInflight) && routeIndex == old(routeIndex)
      ensures candidates != [] ==>
        (var index := if name in old(routeIndex) then old(routeIndex)[name] else 0;
         && selected == Some(Pick(candidates, index)) && routeIndex == old(routeIndex)[name := index + 1]
         && localInflight == Reserve(old(localInflight), (name, Pick(candidates, index).id)))
      ensures candidates != [] ==>
        (var index := if name in old(routeIndex) then old(routeIndex)[name] else 0;
         && selected.Some? && selected.value in candidates
         && exists sorted: seq<Route> ::
              && |sorted| == |candidates| && multiset(sorted) == multiset(candidates) && ByNodeThenId(sorted)
              && selected.value == sorted[index % |candidates|])
    {
      if candidates == [] {
        return None;
      }
      var index := if name in routeIndex then routeIndex[name] else 0;
      routeIndex := routeIndex[name := index + 1];
      var route := Pick(candidates, index);
      SortIsByNodeThenId(candidates);
      PickIsByNodeThenId(candidates, SortRoutes(candidates), index);
      PickIsACandidate(candidates, index);
      ReserveRoute((name, route.id));
      selected := Some(route);
    }
  }
}
