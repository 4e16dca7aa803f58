/** The failover loop of `DiscoveryServiceClient.call`. What the route cache offers, how an
    attempt ends, and whether to fail over are choices of the environment. */
module Failover {
  import opened Prelude

  /** How an attempt on a selected route ends. After a success the route has been released,
      and then the locator step may still raise. */
  datatype Ending = Answered | LocatorRaises | CallFails

  datatype Event = Selected(id: string) | Invoked(id: string) | Freed(id: string)

  function One(b: bool): int {
    if b then 1 else 0
  }

  /** Reservations taken minus reservations released. */
  function Net(log: seq<Event>, id: string): int {
    if log == [] then 0
    else Net(log[..|log| - 1], id) + One(log[|log| - 1] == Selected(id)) - One(log[|log| - 1] == Freed(id))
  }

  /** Every reservation was released, and none twice. */
  ghost predicate Balanced(log: seq<Event>) {
    forall id :: Net(log, id) == 0
  }

  lemma NetOf(log: seq<Event>, e: Event, id: string)
    ensures Net(log + [e], id) == Net(log, id) + One(e == Selected(id)) - One(e == Freed(id))
  {
    assert (log + [e])[..|log|] == log;
  }

  /** The routes that were invoked, in order. */
  function Invocations(log: seq<Event>): seq<string> {
    if log == [] then []
    else Invocations(log[..|log| - 1]) + if log[|log| - 1].Invoked? then [log[|log| - 1].id] else []
  }

  lemma InvocationsOf(log: seq<Event>, e: Event)
    ensures Invocations(log + [e]) == Invocations(log) + if e.Invoked? then [e.id] else []
  {
    assert (log + [e])[..|log|] == log;
  }

  /** How many of the attempts on `id` ended in the locator step. */
  function LocatorFailures(order: seq<string>, ending: nat -> Ending, id: string): nat {
    if order == [] then 0
    else
      var last := |order| - 1;
      LocatorFailures(order[..last], ending, id) + if order[last] == id && ending(last).LocatorRaises? then 1 else 0
  }

  lemma FailuresOf(order: seq<string>, ending: nat -> Ending, x: string, id: string)
    ensures LocatorFailures(order + [x], ending, id)
      == LocatorFailures(order, ending, id) + if x == id && ending(|order|).LocatorRaises? then 1 else 0
  {
    assert (order + [x])[..|order|] == order;
  }

  predicate Distinct(order: seq<string>) {
    forall i, j :: 0 <= i < j < |order| ==> order[i] != order[j]
  }

  /** The books after a number of attempts: a stray release for every locator failure. */
  ghost predicate Books(log: seq<Event>, order: seq<string>, ending: nat -> Ending) {
    Invocations(log) == order && forall id :: Net(log, id) + LocatorFailures(order, ending, id) == 0
  }

  /** A selected route that is released without being invoked. */
  lemma SkippingBalances(log: seq<Event>, order: seq<string>, ending: nat -> Ending, id: string)
    requires Books(log, order, ending)
    ensures Books(log + [Selected(id)] + [Freed(id)], order, ending)
  {
    var one := log + [Selected(id)];
    InvocationsOf(log, Selected(id));
    InvocationsOf(one, Freed(id));
    forall x ensures Net(one + [Freed(id)], x) == Net(log, x) {
      NetOf(log, Selected(id), x);
      NetOf(one, Freed(id), x);
    }
  }

  /** What an attempt logs: selected, invoked, and released once or, by the locator step,
      twice. */
  function AttemptLog(id: string, end: Ending): seq<Event> {
    [Selected(id), Invoked(id), Freed(id)] + if end.LocatorRaises? then [Freed(id)] else []
  }

  /** What a number of attempts log. */
  function LogOf(order: seq<string>, ending: nat -> Ending): seq<Event> {
    if order == [] then []
    else LogOf(order[..|order| - 1], ending) + AttemptLog(order[|order| - 1], ending(|order| - 1))
  }

  /** What a route logs that was tried before. */
  function SkippedLog(skipped: Option<string>): seq<Event> {
    if skipped.Some? then [Selected(skipped.value), Freed(skipped.value)] else []
  }

  lemma LogOfMore(order: seq<string>, ending: nat -> Ending, id: string)
    ensures LogOf(order + [id], ending) == LogOf(order, ending) + AttemptLog(id, ending(|order|))
  {
    assert (order + [id])[..|order|] == order;
  }

  lemma AttemptBalances(log: seq<Event>, order: seq<string>, ending: nat -> Ending, id: string)
    requires Books(log, order, ending)
    ensures Books(log + AttemptLog(id, ending(|order|)), order + [id], ending)
  {
    hide Books;
    EventsBalance(log, order, ending, id);
    OneByOne(log, id, ending(|order|));
  }

  lemma OneByOne(log: seq<Event>, id: string, end: Ending)
    ensures var one := log + [Selected(id)] + [Invoked(id)] + [Freed(id)];
      log + AttemptLog(id, end) == if end.LocatorRaises? then one + [Freed(id)] else one
  {
  }

  lemma EventsBalance(log: seq<Event>, order: seq<string>, ending: nat -> Ending, id: string)
    requires Books(log, order, ending)
    ensures var one := log + [Selected(id)] + [Invoked(id)] + [Freed(id)];
      Books(if ending(|order|).LocatorRaises? then one + [Freed(id)] else one, order + [id], ending)
  {
    var s := log + [Selected(id)];
    var i := s + [Invoked(id)];
    var f := i + [Freed(id)];
    InvocationsOf(log, Selected(id));
    InvocationsOf(s, Invoked(id));
    InvocationsOf(i, Freed(id));
    InvocationsOf(f, Freed(id));
    forall x
      ensures Net(f, x) == Net(log, x) && Net(f + [Freed(id)], x) == Net(log, x) - One(x == id)
      ensures LocatorFailures(order + [id], ending, x)
        == LocatorFailures(order, ending, x) + if id == x && ending(|order|).LocatorRaises? then 1 else 0
    {
      NetOf(log, Selected(id), x);
      NetOf(s, Invoked(id), x);
      NetOf(i, Freed(id), x);
      NetOf(f, Freed(id), x);
      FailuresOf(order, ending, id, x);
    }
  }

  /** The books of a call, from its log. */
  lemma {:induction false} BooksOfLog(order: seq<string>, ending: nat -> Ending)
    ensures Books(LogOf(order, ending), order, ending)
  {
    if order != [] {
      var last := |order| - 1;
      BooksOfLog(order[..last], ending);
      AttemptBalances(LogOf(order[..last], ending), order[..last], ending, order[last]);
      assert order == order[..last] + [order[last]];
    }
  }

  lemma BooksOfCall(order: seq<string>, ending: nat -> Ending, skipped: Option<string>)
    ensures Books(LogOf(order, ending) + SkippedLog(skipped), order, ending)
  {
    var log := LogOf(order, ending);
    BooksOfLog(order, ending);
    if skipped.Some? {
      SkippingBalances(log, order, ending, skipped.value);
      assert log + SkippedLog(skipped) == log + [Selected(skipped.value)] + [Freed(skipped.value)];
    } else {
      assert log + SkippedLog(skipped) == log;
    }
  }

  /** One attempt on a route: what it logs, and whether it answered. */
  method Attempt(log: seq<Event>, id: string, end: Ending) returns (after: seq<Event>, answered: bool)
    ensures after == log + AttemptLog(id, end) && answered == end.Answered?
  {
    after := log + [Selected(id)] + [Invoked(id)];
    answered := end.Answered?;
    match end
    case Answered => after := after + [Freed(id)];
    case LocatorRaises =>
      after := after + [Freed(id)];
      after := after + [Freed(id)];
    case CallFails => after := after + [Freed(id)];
  }

  /** The ids tried so far, in order: those that were offered. */
  ghost predicate Tried(tried: set<string>, order: seq<string>, ids: set<string>, offer: nat -> Option<string>) {
    && Distinct(order) && (forall x :: x in order <==> x in tried)
    && tried <= ids && |tried| == |order| <= |ids| && Offered(order, offer)
  }

  predicate Offered(order: seq<string>, offer: nat -> Option<string>) {
    forall i :: 0 <= i < |order| ==> offer(i) == Some(order[i])
  }

  predicate AllFailedOver(attempts: nat, ending: nat -> Ending, failover: nat -> bool) {
    forall i: nat :: i < attempts ==> !ending(i).Answered? && failover(i)
  }

  lemma Within(a: set<string>, b: set<string>)
    requires a <= b
    ensures |a| <= |b|
  {
    assert b == a + (b - a);
  }

  lemma Grows(a: set<string>, b: set<string>, x: string)
    requires a <= b && x in b && x !in a
    ensures |a + {x}| == |a| + 1 <= |b|
    ensures |b - (a + {x})| < |b - a|
  {
    Within(a + {x}, b);
    assert b - a == (b - (a + {x})) + {x};
  }

  lemma TriedGrows(tried: set<string>, order: seq<string>, ids: set<string>, offer: nat -> Option<string>, id: string)
    requires Tried(tried, order, ids, offer) && id in ids && id !in tried && offer(|order|) == Some(id)
    ensures Tried(tried + {id}, order + [id], ids, offer) && |order| < |ids|
  {
    hide Distinct, Offered;
    Grows(tried, ids, id);
    OrderGrows(order, offer, id);
  }

  lemma OrderGrows(order: seq<string>, offer: nat -> Option<string>, id: string)
    requires Distinct(order) && Offered(order, offer) && id !in order && offer(|order|) == Some(id)
    ensures Distinct(order + [id]) && Offered(order + [id], offer)
    ensures forall x :: x in order + [id] <==> x in order || x == id
  {
  }

  ghost predicate NothingStray(order: seq<string>, ending: nat -> Ending) {
    forall id :: LocatorFailures(order, ending, id) == 0
  }

  lemma StrayStep(order: seq<string>, ending: nat -> Ending, x: string)
    ensures NothingStray(order + [x], ending) <==> NothingStray(order, ending) && !ending(|order|).LocatorRaises?
  {
    FailuresOf(order, ending, x, x);
    forall id
      ensures LocatorFailures(order + [x], ending, id)
        == LocatorFailures(order, ending, id) + if x == id && ending(|order|).LocatorRaises? then 1 else 0
    {
      FailuresOf(order, ending, x, id);
    }
    if NothingStray(order + [x], ending) {
      assert LocatorFailures(order + [x], ending, x) == 0;
      forall id ensures LocatorFailures(order, ending, id) == 0 {
        assert LocatorFailures(order + [x], ending, id) == 0;
      }
    }
  }

  /** So the books are balanced if and only if no locator step raised. */
  lemma {:induction false} BalancedIffLocatorNeverRaises(order: seq<string>, ending: nat -> Ending)
    ensures NothingStray(order, ending) <==> forall i: nat :: i < |order| ==> !ending(i).LocatorRaises?
  {
    if order != [] {
      var last := |order| - 1;
      BalancedIffLocatorNeverRaises(order[..last], ending);
      StrayStep(order[..last], ending, order[last]);
      assert order == order[..last] + [order[last]];
    }
  }

  lemma NothingYet(ids: set<string>, offer: nat -> Option<string>, ending: nat -> Ending, failover: nat -> bool)
    ensures Tried({}, [], ids, offer) && LogOf([], ending) == [] && AllFailedOver(0, ending, failover)
  {
    Within({}, ids);
  }

  /** What the books say about the log of a call, wherever it ends. */
  lemma TheBooksSay(
    log: seq<Event>, tried: set<string>, order: seq<string>, ids: set<string>, offer: nat -> Option<string>,
    ending: nat -> Ending, skipped: Option<string>)
    requires Tried(tried, order, ids, offer) && log == LogOf(order, ending) + SkippedLog(skipped)
    ensures Invocations(log) == order && Distinct(order) && Offered(order, offer) && |order| <= |ids|
    ensures forall x :: x in order <==> x in tried
    ensures forall id :: Net(log, id) + LocatorFailures(order, ending, id) == 0
    ensures Balanced(log) <==> forall i: nat :: i < |order| ==> !ending(i).LocatorRaises?
  {
    BooksOfCall(order, ending, skipped);
    BalancedIffLocatorNeverRaises(order, ending);
    if NothingStray(order, ending) {
      forall id ensures Net(log, id) == 0 {
        assert LocatorFailures(order, ending, id) == 0;
      }
      assert Balanced(log);
    }
    if Balanced(log) {
      forall id ensures LocatorFailures(order, ending, id) == 0 {
        assert Net(log, id) == 0;
      }
      assert NothingStray(order, ending);
    }
  }

  /** `call`, after its arguments were checked: it invokes the offered routes in turn, none
      twice and so at most as many as there are ids; it goes on exactly while an attempt
      failed over and another id is offered; its log is that of its attempts; it releases every selected route exactly once,
      but for one more release where the locator step raised after a success, so that the
      reservations balance if and only if that never happened. */
  method Call(ids: set<string>, offer: nat -> Option<string>, ending: nat -> Ending, failover: nat -> bool)
    returns (log: seq<Event>, attempts: nat, failed: nat, answered: bool)
    requires forall i: nat :: offer(i).Some? ==> offer(i).value in ids
    ensures Distinct(Invocations(log)) && |Invocations(log)| == attempts <= |ids|
    ensures Offered(Invocations(log), offer)
    ensures log == LogOf(Invocations(log), ending) + SkippedLog(if failed == attempts then offer(attempts) else None)
    ensures forall id :: Net(log, id) + LocatorFailures(Invocations(log), ending, id) == 0
    ensures Balanced(log) <==> forall i: nat :: i < attempts ==> !ending(i).LocatorRaises?
    ensures answered <==> attempts > 0 && ending(attempts - 1).Answered?
    ensures failed <= attempts <= failed + 1 && AllFailedOver(failed, ending, failover)
    ensures failed < attempts ==> answered || !failover(attempts - 1)
    ensures failed == attempts ==> offer(attempts).None? || offer(attempts).value in Invocations(log)
  {
    hide Tried, Net, Invocations, LocatorFailures, Offered, Distinct, LogOf, AttemptLog;
    log, attempts, failed, answered := [], 0, 0, false;
    var tried: set<string> := {};
    ghost var order: seq<string> := [];
    NothingYet(ids, offer, ending, failover);
    while true
      invariant Tried(tried, order, ids, offer) && |order| == attempts == failed && !answered
      invariant log == LogOf(order, ending) && AllFailedOver(attempts, ending, failover)
      decreases |ids| - attempts
    {
      var route := offer(attempts);
      if route.None? {
        assert log == log + SkippedLog(None);
        TheBooksSay(log, tried, order, ids, offer, ending, None);
        return;
      }
      var id := route.value;
      if id in tried {
        log := log + [Selected(id)];
        log := log + [Freed(id)];
        assert log == LogOf(order, ending) + SkippedLog(Some(id));
        TheBooksSay(log, tried, order, ids, offer, ending, Some(id));
        return;
      }
      TriedGrows(tried, order, ids, offer, id);
      LogOfMore(order, ending, id);
      tried := tried + {id};
      log, answered := Attempt(log, id, ending(attempts));
      order := order + [id];
      attempts := attempts + 1;
      if answered || !failover(attempts - 1) {
        assert log == log + SkippedLog(None);
        TheBooksSay(log, tried, order, ids, offer, ending, None);
        return;
      }
      failed := failed + 1;
    }
  }

  /** The stray release: a call whose only route succeeds and whose locator step then raises
      releases that route once more than it reserved it. */
  method RaisingCall(id: string, failover: nat -> bool) returns (log: seq<Event>)
    ensures Invocations(log) == [id] && Net(log, id) == -1
  {
    var attempts, failed, answered;
    log, attempts, failed, answered := Call({id}, _ => Some(id), _ => LocatorRaises, failover);
    assert |Invocations(log)| == 1 && Invocations(log)[0] == id;
    FailuresOf([], _ => LocatorRaises, id, id);
    assert [] + [id] == [id] == Invocations(log);
  }
}
