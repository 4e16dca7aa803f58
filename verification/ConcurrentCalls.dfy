/** Concurrent calls on one route cache: their logs, interleaved in any way and with pruning
    refreshes between them, are runs of the counters. So the counters of calls whose locator
    never raises are exact until a refresh prunes, and none is left when the calls are over. */
module ConcurrentCalls {
  import opened Prelude
  import opened Failover
  import opened RouteReservations

  /** A call of the service `name`: the ids it invokes, how its attempts end, and the id that
      it selects a second time, if it ends so. */
  datatype CallRun = CallRun(name: string, order: seq<string>, ending: nat -> Ending, skipped: Option<string>)

  function LogOfRun(c: CallRun): seq<Event> {
    LogOf(c.order, c.ending) + SkippedLog(c.skipped)
  }

  datatype Act = Does(call: nat, event: Event) | Prunes(name: string, valid: set<string>)

  /** What one call did. */
  function Own(h: seq<Act>, c: nat): seq<Event> {
    if h == [] then []
    else
      var last := h[|h| - 1];
      Own(h[..|h| - 1], c) + if last.Does? && last.call == c then [last.event] else []
  }

  /** Every call has come some way through its log. */
  ghost predicate Interleaves(h: seq<Act>, calls: seq<CallRun>) {
    && (forall a :: a in h && a.Does? ==> a.call < |calls|)
    && (forall c: nat :: c < |calls| ==> Own(h, c) <= LogOfRun(calls[c]))
  }

  /** Every call is over. */
  ghost predicate Over(h: seq<Act>, calls: seq<CallRun>) {
    forall c: nat :: c < |calls| ==> Own(h, c) == LogOfRun(calls[c])
  }

  /** A second release in a row. */
  predicate Again(own: seq<Event>, e: Event) {
    e.Freed? && own != [] && own[|own| - 1].Freed?
  }

  /** What an event of a call does to the counters. */
  function StepsFor(own: seq<Event>, e: Event, name: string): seq<Step> {
    match e
    case Selected(id) => [ReserveStep((name, id))]
    case Invoked(_) => []
    case Freed(id) => if Again(own, e) then [StrayRelease((name, id))] else [ReleaseStep((name, id))]
  }

  function StepsOfAct(h: seq<Act>, a: Act, calls: seq<CallRun>): seq<Step> {
    match a
    case Prunes(name, valid) => [PruneStep(name, valid)]
    case Does(c, e) => if c < |calls| then StepsFor(Own(h, c), e, calls[c].name) else []
  }

  function StepsOf(h: seq<Act>, calls: seq<CallRun>): seq<Step> {
    if h == [] then []
    else StepsOf(h[..|h| - 1], calls) + StepsOfAct(h[..|h| - 1], h[|h| - 1], calls)
  }

  function PrunesIn(h: seq<Act>): nat {
    if h == [] then 0 else PrunesIn(h[..|h| - 1]) + if h[|h| - 1].Prunes? then 1 else 0
  }

  // ---------------------------------------------------------------- logs are proper

  /** The id that a call has reserved. */
  function Holding(own: seq<Event>): Option<string> {
    if own == [] || own[|own| - 1].Freed? then None else Some(own[|own| - 1].id)
  }

  predicate Follows(own: seq<Event>, e: Event) {
    match e
    case Selected(_) => Holding(own) == None
    case Invoked(id) => Holding(own) == Some(id)
    case Freed(id) => Holding(own) == Some(id) || Again(own, e)
  }

  predicate Proper(log: seq<Event>) {
    forall p :: 0 <= p < |log| ==> Follows(log[..p], log[p])
  }

  /** How many second releases a log has. */
  function StraysIn(log: seq<Event>): nat {
    if log == [] then 0
    else StraysIn(log[..|log| - 1]) + if Again(log[..|log| - 1], log[|log| - 1]) then 1 else 0
  }

  lemma ProperMore(log: seq<Event>, e: Event)
    requires Proper(log) && Follows(log, e)
    ensures Proper(log + [e]) && StraysIn(log + [e]) == StraysIn(log) + if Again(log, e) then 1 else 0
  {
    var more := log + [e];
    assert more[..|log|] == log;
    forall p | 0 <= p < |more| ensures Follows(more[..p], more[p]) {
      assert p < |log| ==> more[..p] == log[..p];
    }
  }

  lemma AttemptIsProper(log: seq<Event>, id: string, end: Ending)
    requires Proper(log) && Holding(log) == None
    ensures var after := log + AttemptLog(id, end);
      && Proper(after) && Holding(after) == None
      && StraysIn(after) == StraysIn(log) + if end.LocatorRaises? then 1 else 0
  {
    hide Proper, StraysIn;
    var s := log + [Selected(id)];
    var i := s + [Invoked(id)];
    var f := i + [Freed(id)];
    ProperMore(log, Selected(id));
    ProperMore(s, Invoked(id));
    ProperMore(i, Freed(id));
    ProperMore(f, Freed(id));
    OneByOne(log, id, end);
  }

  /** How many attempts end in the locator step. */
  function Raised(order: seq<string>, ending: nat -> Ending): nat {
    if order == [] then 0
    else Raised(order[..|order| - 1], ending) + if ending(|order| - 1).LocatorRaises? then 1 else 0
  }

  lemma {:induction false} LogIsProper(order: seq<string>, ending: nat -> Ending)
    ensures var log := LogOf(order, ending);
      Proper(log) && Holding(log) == None && StraysIn(log) == Raised(order, ending)
  {
    if order != [] {
      var last := |order| - 1;
      LogIsProper(order[..last], ending);
      AttemptIsProper(LogOf(order[..last], ending), order[last], ending(last));
    }
  }

  /** The log of a call: it never reserves two routes at a time, it ends with none, and it
      releases one for the second time exactly where the locator step raised. */
  lemma CallIsProper(c: CallRun)
    ensures var log := LogOfRun(c); Proper(log) && Holding(log) == None && StraysIn(log) == Raised(c.order, c.ending)
  {
    hide Proper, StraysIn;
    var log := LogOf(c.order, c.ending);
    LogIsProper(c.order, c.ending);
    if c.skipped.Some? {
      var id := c.skipped.value;
      ProperMore(log, Selected(id));
      ProperMore(log + [Selected(id)], Freed(id));
      assert log + SkippedLog(c.skipped) == log + [Selected(id)] + [Freed(id)];
    } else {
      assert log + SkippedLog(c.skipped) == log;
    }
  }

  lemma NextFollows(own: seq<Event>, e: Event, log: seq<Event>)
    requires Proper(log) && own + [e] <= log
    ensures Follows(own, e)
  {
    assert log[|own|] == (own + [e])[|own|];
    assert log[..|own|] == (own + [e])[..|own|] == own;
  }

  // ---------------------------------------------------------------- sums over the calls

  function HeldBy(h: seq<Act>, calls: seq<CallRun>, c: nat, k: Key): nat
    requires c < |calls|
  {
    if Holding(Own(h, c)).Some? && k == (calls[c].name, Holding(Own(h, c)).value) then 1 else 0
  }

  /** How many of the first `n` calls have reserved the route. */
  function HeldCount(h: seq<Act>, calls: seq<CallRun>, k: Key, n: nat): nat
    requires n <= |calls|
  {
    if n == 0 then 0 else HeldCount(h, calls, k, n - 1) + HeldBy(h, calls, n - 1, k)
  }

  /** How many second releases they have made. */
  function StrayCount(h: seq<Act>, n: nat): nat {
    if n == 0 then 0 else StrayCount(h, n - 1) + StraysIn(Own(h, n - 1))
  }

  lemma OwnMore(h: seq<Act>, a: Act, c: nat)
    ensures Own(h + [a], c) == if a.Does? && a.call == c then Own(h, c) + [a.event] else Own(h, c)
  {
    assert (h + [a])[..|h|] == h;
    assert Own(h, c) + [] == Own(h, c);
  }

  lemma {:induction false} HeldCountMore(h: seq<Act>, a: Act, calls: seq<CallRun>, k: Key, n: nat)
    requires n <= |calls|
    ensures HeldCount(h + [a], calls, k, n) == HeldCount(h, calls, k, n)
      + if a.Does? && a.call < n then HeldBy(h + [a], calls, a.call, k) - HeldBy(h, calls, a.call, k) else 0
    decreases n
  {
    hide Own, Holding;
    if n > 0 {
      HeldCountMore(h, a, calls, k, n - 1);
      OwnMore(h, a, n - 1);
    }
  }

  lemma {:induction false} StrayCountMore(h: seq<Act>, a: Act, n: nat)
    ensures StrayCount(h + [a], n) == StrayCount(h, n)
      + if a.Does? && a.call < n && Again(Own(h, a.call), a.event) then 1 else 0
    decreases n
  {
    hide Own, StraysIn, Again;
    if n > 0 {
      StrayCountMore(h, a, n - 1);
      OwnMore(h, a, n - 1);
      if a.Does? && a.call == n - 1 {
        OneMoreStray(Own(h, n - 1), a.event);
      }
    }
  }

  lemma OneMoreStray(own: seq<Event>, e: Event)
    ensures StraysIn(own + [e]) == StraysIn(own) + if Again(own, e) then 1 else 0
  {
    assert (own + [e])[..|own|] == own;
  }

  /** A call that has reserved the route is counted. */
  lemma {:induction false} HolderCounts(h: seq<Act>, calls: seq<CallRun>, k: Key, n: nat, c: nat)
    requires c < n <= |calls|
    ensures HeldBy(h, calls, c, k) <= HeldCount(h, calls, k, n)
    decreases n
  {
    hide HeldBy;
    if c < n - 1 {
      HolderCounts(h, calls, k, n - 1, c);
    }
  }

  // ---------------------------------------------------------------- the run

  /** The ledger of the counters says what the calls did. */
  ghost predicate Agrees(s: Sys, h: seq<Act>, calls: seq<CallRun>) {
    && (forall k: Key :: Counted(k) ==> CountOf(s.outstanding, k) == HeldCount(h, calls, k, |calls|))
    && (forall k: Key :: !Counted(k) ==> CountOf(s.outstanding, k) == 0)
    && s.strays == StrayCount(h, |calls|) && s.prunes == PrunesIn(h)
  }

  lemma Start(calls: seq<CallRun>)
    ensures Agrees(Sys(map[], map[], 0, 0), [], calls)
  {
    forall k: Key ensures HeldCount([], calls, k, |calls|) == 0 {
      NothingHeld(calls, k, |calls|);
    }
    NothingStrayYet(|calls|);
  }

  lemma {:induction false} NothingHeld(calls: seq<CallRun>, k: Key, n: nat)
    requires n <= |calls|
    ensures HeldCount([], calls, k, n) == 0
    decreases n
  {
    if n > 0 {
      NothingHeld(calls, k, n - 1);
    }
  }

  lemma {:induction false} NothingStrayYet(n: nat)
    ensures StrayCount([], n) == 0
    decreases n
  {
    if n > 0 {
      NothingStrayYet(n - 1);
    }
  }

  /** What an event adds to the count of the calls that have reserved the route. */
  function Shift(own: seq<Event>, e: Event, name: string, k: Key): int {
    if k != (name, e.id) then 0
    else match e
      case Selected(_) => 1
      case Invoked(_) => 0
      case Freed(_) => if Again(own, e) then 0 else -1
  }

  lemma EventShifts(h: seq<Act>, c: nat, e: Event, calls: seq<CallRun>, k: Key)
    requires c < |calls| && Follows(Own(h, c), e)
    ensures HeldCount(h + [Does(c, e)], calls, k, |calls|)
      == HeldCount(h, calls, k, |calls|) + Shift(Own(h, c), e, calls[c].name, k)
    ensures e.Freed? && !Again(Own(h, c), e) && k == (calls[c].name, e.id) ==> HeldCount(h, calls, k, |calls|) > 0
  {
    hide Own, HeldCount;
    HeldCountMore(h, Does(c, e), calls, k, |calls|);
    HolderCounts(h, calls, k, |calls|, c);
    OwnMore(h, Does(c, e), c);
  }

  lemma ReserveCounts(counts: map<Key, nat>, k: Key, q: Key)
    ensures CountOf(Reserve(counts, k), q) == CountOf(counts, q) + if q == k && Counted(k) then 1 else 0
  {
  }

  lemma ReleaseCounts(counts: map<Key, nat>, k: Key, q: Key)
    requires Counted(k) ==> CountOf(counts, k) > 0
    ensures CountOf(Release(counts, k), q) == CountOf(counts, q) - if q == k && Counted(k) then 1 else 0
  {
  }

  /** One act: its step can be taken, and the ledger still agrees. */
  lemma ActIsAStep(s: Sys, h: seq<Act>, a: Act, calls: seq<CallRun>)
    requires Agrees(s, h, calls) && (a.Does? ==> a.call < |calls| && Follows(Own(h, a.call), a.event))
    ensures var steps := StepsOfAct(h, a, calls);
      if steps == [] then Agrees(s, h + [a], calls)
      else |steps| == 1 && Enabled(s, steps[0]) && Agrees(Next(s, steps[0]), h + [a], calls)
  {
    match a
    case Prunes(name, valid) => PruneIsAStep(s, h, name, valid, calls);
    case Does(c, e) =>
      match e {
        case Selected(id) => SelectionIsAStep(s, h, c, id, calls);
        case Invoked(id) => InvocationIsNone(s, h, c, id, calls);
        case Freed(id) => ReleaseIsAStep(s, h, c, id, calls);
      }
  }

  lemma CountsMore(h: seq<Act>, a: Act, n: nat)
    ensures PrunesIn(h + [a]) == PrunesIn(h) + if a.Prunes? then 1 else 0
    ensures StrayCount(h + [a], n) == StrayCount(h, n)
      + if a.Does? && a.call < n && Again(Own(h, a.call), a.event) then 1 else 0
  {
    assert (h + [a])[..|h|] == h;
    StrayCountMore(h, a, n);
  }

  lemma PruneIsAStep(s: Sys, h: seq<Act>, name: string, valid: set<string>, calls: seq<CallRun>)
    requires Agrees(s, h, calls)
    ensures Agrees(Next(s, PruneStep(name, valid)), h + [Prunes(name, valid)], calls)
  {
    hide HeldCount, Own, StrayCount, Prune;
    CountsMore(h, Prunes(name, valid), |calls|);
    forall k: Key ensures HeldCount(h + [Prunes(name, valid)], calls, k, |calls|) == HeldCount(h, calls, k, |calls|) {
      HeldCountMore(h, Prunes(name, valid), calls, k, |calls|);
    }
  }

  lemma SelectionIsAStep(s: Sys, h: seq<Act>, c: nat, id: string, calls: seq<CallRun>)
    requires Agrees(s, h, calls) && c < |calls| && Follows(Own(h, c), Selected(id))
    ensures Agrees(Next(s, ReserveStep((calls[c].name, id))), h + [Does(c, Selected(id))], calls)
  {
    hide HeldCount, Own, StrayCount, Reserve, CountOf, Follows;
    CountsMore(h, Does(c, Selected(id)), |calls|);
    forall k: Key
      ensures HeldCount(h + [Does(c, Selected(id))], calls, k, |calls|)
        == HeldCount(h, calls, k, |calls|) + if k == (calls[c].name, id) then 1 else 0
      ensures CountOf(Reserve(s.outstanding, (calls[c].name, id)), k)
        == CountOf(s.outstanding, k) + if k == (calls[c].name, id) && Counted(k) then 1 else 0
    {
      EventShifts(h, c, Selected(id), calls, k);
      ReserveCounts(s.outstanding, (calls[c].name, id), k);
    }
  }

  lemma InvocationIsNone(s: Sys, h: seq<Act>, c: nat, id: string, calls: seq<CallRun>)
    requires Agrees(s, h, calls) && c < |calls| && Follows(Own(h, c), Invoked(id))
    ensures Agrees(s, h + [Does(c, Invoked(id))], calls)
  {
    hide HeldCount, Own, StrayCount, CountOf, Follows;
    CountsMore(h, Does(c, Invoked(id)), |calls|);
    forall k: Key ensures HeldCount(h + [Does(c, Invoked(id))], calls, k, |calls|) == HeldCount(h, calls, k, |calls|) {
      EventShifts(h, c, Invoked(id), calls, k);
    }
  }

  lemma ReleaseIsAStep(s: Sys, h: seq<Act>, c: nat, id: string, calls: seq<CallRun>)
    requires Agrees(s, h, calls) && c < |calls| && Follows(Own(h, c), Freed(id))
    ensures var key, after := (calls[c].name, id), h + [Does(c, Freed(id))];
      if Again(Own(h, c), Freed(id)) then Agrees(Next(s, StrayRelease(key)), after, calls)
      else Enabled(s, ReleaseStep(key)) && Agrees(Next(s, ReleaseStep(key)), after, calls)
  {
    hide HeldCount, Own, StrayCount, Release, CountOf, Follows, Again;
    var key: Key, again := (calls[c].name, id), Again(Own(h, c), Freed(id));
    CountsMore(h, Does(c, Freed(id)), |calls|);
    EventShifts(h, c, Freed(id), calls, key);
    forall k: Key
      ensures HeldCount(h + [Does(c, Freed(id))], calls, k, |calls|)
        == HeldCount(h, calls, k, |calls|) - if k == key && !again then 1 else 0
      ensures !again ==>
        CountOf(Release(s.outstanding, key), k) == CountOf(s.outstanding, k) - if k == key && Counted(k) then 1 else 0
    {
      EventShifts(h, c, Freed(id), calls, k);
      if !again {
        ReleaseCounts(s.outstanding, key, k);
      }
    }
  }

  lemma EarlierInterleaves(h: seq<Act>, calls: seq<CallRun>)
    requires Interleaves(h, calls) && h != []
    ensures Interleaves(h[..|h| - 1], calls)
    ensures var a := h[|h| - 1]; a.Does? ==> a.call < |calls| && Follows(Own(h[..|h| - 1], a.call), a.event)
  {
    var before, a := h[..|h| - 1], h[|h| - 1];
    assert h == before + [a];
    forall c: nat | c < |calls| ensures Own(before, c) <= LogOfRun(calls[c]) {
      OwnMore(before, a, c);
      assert Own(before, c) <= Own(h, c);
    }
    if a.Does? {
      assert a in h;
      OwnMore(before, a, a.call);
      CallIsProper(calls[a.call]);
      NextFollows(Own(before, a.call), a.event, LogOfRun(calls[a.call]));
    }
  }

  lemma RunMore(states: seq<Sys>, steps: seq<Step>, a: Step)
    requires Run(states, steps) && Enabled(states[|steps|], a)
    ensures Run(states + [Next(states[|steps|], a)], steps + [a])
  {
  }

  /** Interleaved calls are runs of the counters: no release lacks its reservation, what is
      outstanding is what the calls have reserved, and the stray releases are their second
      ones. */
  lemma {:induction false} ConcurrentCallsAreRuns(h: seq<Act>, calls: seq<CallRun>) returns (states: seq<Sys>)
    requires Interleaves(h, calls)
    ensures Run(states, StepsOf(h, calls)) && Agrees(states[|StepsOf(h, calls)|], h, calls)
    decreases h
  {
    hide Agrees, Interleaves, StepsOfAct;
    if h == [] {
      states := [Sys(map[], map[], 0, 0)];
      Start(calls);
    } else {
      var before, a := h[..|h| - 1], h[|h| - 1];
      EarlierInterleaves(h, calls);
      states := ConcurrentCallsAreRuns(before, calls);
      var s, steps := states[|StepsOf(before, calls)|], StepsOfAct(before, a, calls);
      ActIsAStep(s, before, a, calls);
      assert h == before + [a];
      if steps != [] {
        assert steps == [steps[0]];
        RunMore(states, StepsOf(before, calls), steps[0]);
        states := states + [Next(s, steps[0])];
      }
    }
  }

  // ---------------------------------------------------------------- the counters

  /** How many attempts of the calls end in the locator step. */
  function AllRaised(calls: seq<CallRun>, n: nat): nat
    requires n <= |calls|
  {
    if n == 0 then 0 else AllRaised(calls, n - 1) + Raised(calls[n - 1].order, calls[n - 1].ending)
  }

  lemma {:induction false} StraysOfCalls(h: seq<Act>, calls: seq<CallRun>, n: nat)
    requires n <= |calls| && Interleaves(h, calls)
    ensures StrayCount(h, n) <= AllRaised(calls, n)
    ensures Over(h, calls) ==> StrayCount(h, n) == AllRaised(calls, n)
    decreases n
  {
    hide Interleaves, Over, StraysIn, Raised, Own;
    if n > 0 {
      StraysOfCalls(h, calls, n - 1);
      StraysOfCall(h, calls, n - 1);
    }
  }

  lemma StraysOfCall(h: seq<Act>, calls: seq<CallRun>, c: nat)
    requires c < |calls| && Interleaves(h, calls)
    ensures StraysIn(Own(h, c)) <= Raised(calls[c].order, calls[c].ending)
    ensures Over(h, calls) ==> StraysIn(Own(h, c)) == Raised(calls[c].order, calls[c].ending)
  {
    hide StraysIn, Raised, LogOfRun, Own, Proper;
    CallIsProper(calls[c]);
    StraysGrow(Own(h, c), LogOfRun(calls[c]));
  }

  lemma {:induction false} StraysGrow(a: seq<Event>, b: seq<Event>)
    requires a <= b
    ensures StraysIn(a) <= StraysIn(b)
    decreases |b|
  {
    if |a| < |b| {
      StraysGrow(a, b[..|b| - 1]);
    } else {
      assert a == b;
    }
  }

  lemma {:induction false} NothingHeldAtTheEnd(h: seq<Act>, calls: seq<CallRun>, k: Key, n: nat)
    requires n <= |calls| && Over(h, calls)
    ensures HeldCount(h, calls, k, n) == 0
    decreases n
  {
    if n > 0 {
      NothingHeldAtTheEnd(h, calls, k, n - 1);
      CallIsProper(calls[n - 1]);
    }
  }

  /** The main result. At any time, however the calls interleave: a counter is at most the
      number of calls that have reserved its route, and exactly that number as long as no
      refresh pruned and no attempt ends in the locator step. When the calls are over, their
      stray releases were as many as those attempts, and no counter is left. */
  lemma CountersOfConcurrentCalls(h: seq<Act>, calls: seq<CallRun>) returns (states: seq<Sys>)
    requires Interleaves(h, calls)
    ensures Run(states, StepsOf(h, calls))
    ensures var s := states[|StepsOf(h, calls)|];
      && (forall k: Key :: CountOf(s.counts, k) <= HeldCount(h, calls, k, |calls|))
      && (PrunesIn(h) == 0 && AllRaised(calls, |calls|) == 0 ==>
            forall k: Key :: Counted(k) ==> CountOf(s.counts, k) == HeldCount(h, calls, k, |calls|))
      && (Over(h, calls) ==> s.strays == AllRaised(calls, |calls|) && s.counts == map[])
  {
    hide Interleaves, Over, HeldCount, StrayCount, AllRaised;
    states := ConcurrentCallsAreRuns(h, calls);
    var s := states[|StepsOf(h, calls)|];
    LastKeepsInv(states, StepsOf(h, calls));
    StraysOfCalls(h, calls, |calls|);
    if Over(h, calls) {
      forall k: Key ensures k !in s.counts {
        NothingHeldAtTheEnd(h, calls, k, |calls|);
        assert CountOf(s.counts, k) <= CountOf(s.outstanding, k);
      }
    }
  }

  lemma LastKeepsInv(states: seq<Sys>, steps: seq<Step>)
    requires Run(states, steps)
    ensures |states| == |steps| + 1 && Inv(states[|steps|])
  {
    CountersNeverExceedReservations(states, steps, |steps|);
  }

  /** Where a locator step raises, another call pays: its reservation is not counted. */
  lemma StrayReleaseHidesAnotherCall(name: string, id: string) returns (h: seq<Act>, calls: seq<CallRun>, states: seq<Sys>)
    requires name != "" && id != ""
    ensures Interleaves(h, calls) && PrunesIn(h) == 0 && Run(states, StepsOf(h, calls))
    ensures HeldCount(h, calls, (name, id), |calls|) == 1
    ensures CountOf(states[|StepsOf(h, calls)|].counts, (name, id)) == 0
  {
    var raises, answers := CallRun(name, [id], _ => LocatorRaises, None), CallRun(name, [id], _ => Answered, None);
    calls := [raises, answers];
    h := TwoCalls(id);
    OneAttempt(raises, id);
    OneAttempt(answers, id);
    TwoCallsInSteps(id, name, calls);
    states := ConcurrentCallsAreRuns(h, calls);
    var k: Key := (name, id);
    FourSteps(states, k);
    assert HeldCount(h, calls, k, 0) == 0;
    assert HeldCount(h, calls, k, 1) == 0;
  }

  /** Both calls reserve the route, and the first is over while the second is not. */
  function TwoCalls(id: string): seq<Act> {
    [Does(0, Selected(id)), Does(1, Selected(id)), Does(0, Invoked(id)), Does(0, Freed(id)), Does(0, Freed(id))]
  }

  lemma OneAttempt(c: CallRun, id: string)
    requires c.order == [id] && c.skipped == None
    ensures LogOfRun(c) == AttemptLog(id, c.ending(0))
  {
    assert [id][..0] == [];
    assert LogOf([id], c.ending) == [] + AttemptLog(id, c.ending(0));
  }

  /** What two calls have done, and the steps that makes. */
  ghost predicate Stand(h: seq<Act>, calls: seq<CallRun>, first: seq<Event>, second: seq<Event>, steps: seq<Step>) {
    Own(h, 0) == first && Own(h, 1) == second && StepsOf(h, calls) == steps && PrunesIn(h) == 0
  }

  lemma {:induction false} FirstActs(
    h: seq<Act>, calls: seq<CallRun>, first: seq<Event>, second: seq<Event>, steps: seq<Step>, e: Event)
    requires |calls| == 2 && Stand(h, calls, first, second, steps)
    ensures Stand(h + [Does(0, e)], calls, first + [e], second, steps + StepsFor(first, e, calls[0].name))
  {
    assert (h + [Does(0, e)])[..|h|] == h;
    OwnMore(h, Does(0, e), 0);
    OwnMore(h, Does(0, e), 1);
  }

  lemma {:induction false} SecondActs(
    h: seq<Act>, calls: seq<CallRun>, first: seq<Event>, second: seq<Event>, steps: seq<Step>, e: Event)
    requires |calls| == 2 && Stand(h, calls, first, second, steps)
    ensures Stand(h + [Does(1, e)], calls, first, second + [e], steps + StepsFor(second, e, calls[1].name))
  {
    assert (h + [Does(1, e)])[..|h|] == h;
    OwnMore(h, Does(1, e), 0);
    OwnMore(h, Does(1, e), 1);
  }

  lemma NobodyActs(calls: seq<CallRun>)
    ensures Stand([], calls, [], [], [])
  {
  }

  lemma {:induction false} TwoCallsInSteps(id: string, name: string, calls: seq<CallRun>)
    requires |calls| == 2 && calls[0].name == name && calls[1].name == name
    ensures var k := (name, id);
      Stand(TwoCalls(id), calls, [Selected(id), Invoked(id), Freed(id), Freed(id)], [Selected(id)],
            [ReserveStep(k), ReserveStep(k), ReleaseStep(k), StrayRelease(k)])
  {
    hide Own, StepsOf, Stand;
    var k: Key, s, i, f := (name, id), Selected(id), Invoked(id), Freed(id);
    var both := [ReserveStep(k), ReserveStep(k)];
    NobodyActs(calls);
    FirstActs([], calls, [], [], [], s);
    assert [] + [Does(0, s)] == [Does(0, s)] && [] + [s] == [s] && [] + [ReserveStep(k)] == [ReserveStep(k)];
    SecondActs([Does(0, s)], calls, [s], [], [ReserveStep(k)], s);
    assert [ReserveStep(k)] + [ReserveStep(k)] == both;
    FirstActs([Does(0, s)] + [Does(1, s)], calls, [s], [s], both, i);
    assert both + [] == both;
    FirstActs([Does(0, s)] + [Does(1, s)] + [Does(0, i)], calls, [s] + [i], [s], both, f);
    FirstActs([Does(0, s)] + [Does(1, s)] + [Does(0, i)] + [Does(0, f)], calls, [s] + [i] + [f], [s],
              both + [ReleaseStep(k)], f);
    assert [Does(0, s)] + [Does(1, s)] + [Does(0, i)] + [Does(0, f)] + [Does(0, f)] == TwoCalls(id);
    assert [s] + [i] + [f] + [f] == [s, i, f, f];
    assert both + [ReleaseStep(k)] + [StrayRelease(k)]
      == [ReserveStep(k), ReserveStep(k), ReleaseStep(k), StrayRelease(k)];
  }

  lemma FourSteps(states: seq<Sys>, k: Key)
    requires Run(states, [ReserveStep(k), ReserveStep(k), ReleaseStep(k), StrayRelease(k)]) && Counted(k)
    ensures CountOf(states[4].counts, k) == 0
  {
    assert CountOf(states[1].counts, k) == 1;
    assert CountOf(states[2].counts, k) == 2;
    assert CountOf(states[3].counts, k) == 1;
  }
}
