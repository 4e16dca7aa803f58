/** `HttpConnectionPool` as it runs: the fields under the condition variable, and the request
    that takes a connection and always gives it back. */
module ConnectionPoolClass {
  import opened Prelude
  import opened ConnectionPool

  /** The checks of the constructor: None where it raises. */
  function LimitsOf(max: int, maxIdle: int, ttl: int, floor: int): (r: Option<Limits>)
    ensures r.Some? <==> max > 0 && maxIdle >= 0
    ensures r.Some? ==> r.value.max == max && r.value.maxIdle <= r.value.max && r.value.ttl >= floor
    ensures r.Some? && maxIdle <= max ==> r.value.maxIdle == maxIdle
    ensures r.Some? && r.value.maxIdle < maxIdle ==> r.value.maxIdle == max
    ensures r.Some? && r.value.ttl != floor ==> r.value.ttl == ttl
    ensures r.Some? && ttl >= floor ==> r.value.ttl == ttl
  {
    if max <= 0 || maxIdle < 0 then None
    else Some(Limits(max, if maxIdle < max then maxIdle else max, if ttl < floor then floor else ttl))
  }

  class HttpConnectionPool {
    const limits: Limits
    var origins: map<string, Origin>
    var closed: bool

    ghost function Abs(): Pool
      reads this
    {
      Pool(origins, closed)
    }

    constructor (l: Limits)
      ensures limits == l && Abs() == Pool(map[], false)
    {
      limits, origins, closed := l, map[], false;
    }

    /** The scan from the front, and the eviction that makes room for a new connection. */
    method EvictFront(st: Origin, anew: bool, now: int) returns (left: Origin, evicted: seq<Resting>)
      ensures var n := Evictions(st.idle, anew, now, limits.ttl); left == Evict(st, n) && evicted == st.idle[..n]
    {
      var k := 0;
      while k < |st.idle| && now - st.idle[k].since >= limits.ttl
        invariant k <= |st.idle| && k + Expired(st.idle[k..], now, limits.ttl) == Expired(st.idle, now, limits.ttl)
      {
        assert st.idle[k..][1..] == st.idle[k + 1..];
        k := k + 1;
      }
      if anew && k < |st.idle| {
        k := k + 1;
      }
      left, evicted := Origin(st.count - k, st.idle[k..]), st.idle[..k];
    }

    /** One round of `_acquire` under the lock; the caller closes what was evicted once the
        lock is free. */
    method AcquireRound(o: string, anew: bool, now: int, deadline: int, opens: bool)
      returns (got: Got, evicted: seq<Resting>)
      modifies this
      ensures Round(Abs(), got, evicted) == Acquire(old(Abs()), o, anew, limits, now, deadline, opens)
    {
      evicted := [];
      if closed {
        return WasClosed, evicted;
      }
      var st := if o in origins then origins[o] else Origin(0, []);
      st, evicted := EvictFront(st, anew, now);
      if !anew && st.idle != [] {
        var last := st.idle[|st.idle| - 1];
        st := st.(idle := st.idle[..|st.idle| - 1]);
        got := Reused(last.conn, last.since);
      } else if st.count < limits.max {
        st := st.(count := st.count + 1);
        got := if opens then Opened else OpenFailed;
      } else {
        got := if deadline - now <= 0 then TimedOut else Waits;
      }
      origins := origins[o := st];
    }

    /** `_release`; the result says whether the connection is closed once the lock is free. */
    method ReleaseConnection(o: string, conn: nat, reusable: bool, now: int) returns (close: bool)
      modifies this
      ensures (Abs(), close) == Release(old(Abs()), o, conn, reusable, limits, now)
      ensures o !in old(origins) ==> close && Abs() == old(Abs())
      ensures o in old(origins) ==>
        var st := old(origins)[o];
        if reusable && !closed && |st.idle| < limits.maxIdle then
          !close && origins == old(origins)[o := Origin(st.count, st.idle + [Resting(conn, now)])]
        else
          && (close <==> !(reusable && closed))
          && origins == (if st.count <= 1 && st.idle == [] then old(origins) - {o}
                         else old(origins)[o := Origin(st.count - 1, st.idle)])
      ensures closed == old(closed)
    {
      close := !reusable;
      if o !in origins {
        return true;
      }
      var st := origins[o];
      if closed || !reusable || |st.idle| >= limits.maxIdle {
        if !closed && reusable {
          close := true;
        }
        st := st.(count := st.count - 1);
        if st.count <= 0 && st.idle == [] {
          origins := origins - {o};
        } else {
          origins := origins[o := st];
        }
      } else {
        origins := origins[o := st.(idle := st.idle + [Resting(conn, now)])];
      }
    }

    method CloseAll()
      modifies this
      ensures Abs() == Close(old(Abs()))
      ensures closed && origins == if old(closed) then old(origins) else map[]
    {
      if closed {
        return;
      }
      closed := true;
      origins := map[];
    }
  }

  // ---------------------------------------------------------------- requests

  datatype Response = Response(status: int, bodyLength: nat, willClose: bool, closeHeader: bool)

  /** How one attempt goes. */
  datatype Attempt =
    | AcquireRaises
    | Served(conn: nat, response: Response)
    | ConnectionError(conn: nat)
    | OtherError(conn: nat)

  datatype Trace = Took(conn: nat, anew: bool) | Gave(conn: nat, reusable: bool)

  predicate Reusable(r: Response, maxBytes: Option<int>) {
    && (maxBytes.Some? ==> r.bodyLength <= maxBytes.value)
    && r.status < 400 && !r.willClose && !r.closeHeader
  }

  /** Whether an attempt is followed by another one. */
  predicate Retries(attempts: nat, i: nat, a: Attempt) {
    a.ConnectionError? && i + 1 < attempts
  }

  /** `request`: whatever happens, each connection it takes it gives back once, before it
      takes another; a second attempt follows only a connection error, where retrying is
      allowed, and asks for a new connection; only a served connection is given back for
      reuse. */
  method Request(retry: bool, maxBytes: Option<int>, env: nat -> Attempt)
    returns (trace: seq<Trace>, attempts: nat, answer: Option<Response>)
    ensures 1 <= attempts <= if retry then 2 else 1
    ensures forall i: nat :: i + 1 < attempts ==> env(i).ConnectionError?
    ensures env(attempts - 1).ConnectionError? ==> attempts == if retry then 2 else 1
    ensures answer == if env(attempts - 1).Served? then Some(env(attempts - 1).response) else None
    ensures |trace| == 2 * if env(attempts - 1).AcquireRaises? then attempts - 1 else attempts
    ensures forall i: nat :: 2 * i < |trace| ==>
      (&& !env(i).AcquireRaises? && trace[2 * i] == Took(env(i).conn, i > 0)
       && trace[2 * i + 1].Gave? && trace[2 * i + 1].conn == env(i).conn
       && (trace[2 * i + 1].reusable
           <==> env(i).Served? && env(i).response.status < 400
                && (maxBytes == None || env(i).response.bodyLength <= maxBytes.value)
                && !env(i).response.willClose && !env(i).response.closeHeader))
  {
    trace, answer := [], None;
    var most := if retry then 2 else 1;
    attempts := 0;
    while true
      invariant attempts < most && answer == None && |trace| == 2 * attempts
      invariant forall i: nat :: i < attempts ==> env(i).ConnectionError?
      invariant forall i: nat :: i < attempts ==>
        trace[2 * i] == Took(env(i).conn, i > 0) && trace[2 * i + 1] == Gave(env(i).conn, false)
      decreases most - attempts
    {
      var attempt, i := env(attempts), attempts;
      attempts := attempts + 1;
      if attempt.AcquireRaises? {
        return;
      }
      trace := trace + [Took(attempt.conn, i > 0)];
      var reusable := false;
      if attempt.Served? {
        reusable := Reusable(attempt.response, maxBytes);
        answer := Some(attempt.response);
      }
      trace := trace + [Gave(attempt.conn, reusable)];
      if !Retries(most, i, attempt) {
        return;
      }
    }
  }

  // ---------------------------------------------------------------- requests on one pool

  /** What threads do to the pool: a request takes a connection, or ends an attempt and gives
      its connection back, or the pool is closed. */
  datatype Action =
    | Takes(origin: string, anew: bool, now: int, deadline: int, opens: bool)
    | Ends(attempt: Attempt, maxBytes: Option<int>, now: int)
    | Closes

  predicate HasConnection(a: Action) {
    a.Ends? ==> !a.attempt.AcquireRaises?
  }

  function StepOf(a: Action): Step
    requires HasConnection(a)
  {
    match a
    case Takes(o, anew, now, deadline, opens) => AcquireStep(o, anew, now, deadline, opens)
    case Ends(attempt, maxBytes, now) =>
      ReleaseStep(attempt.conn, attempt.Served? && Reusable(attempt.response, maxBytes), now)
    case Closes => CloseStep
  }

  /** A run of the pool under the attempts of any number of requests. */
  predicate Serves(states: seq<Sys>, actions: seq<Action>, steps: seq<Step>, l: Limits) {
    && Run(states, steps, l) && |steps| == |actions|
    && forall i :: 0 <= i < |actions| ==> HasConnection(actions[i]) && steps[i] == StepOf(actions[i])
  }

  /** A connection that is handed out again served a response below 400 that was read to its
      end, over which the server said nothing about closing; it was given back by the attempt
      that had it, less than the time to live ago, and has rested since then. */
  lemma ReusedAfterAGoodResponse(states: seq<Sys>, actions: seq<Action>, steps: seq<Step>, l: Limits, i: nat)
    returns (k: nat)
    requires Serves(states, actions, steps, l) && i < |actions| && actions[i].Takes?
    requires var a := actions[i]; Acquire(states[i].pool, a.origin, a.anew, l, a.now, a.deadline, a.opens).got.Reused?
    ensures var a := actions[i];
      var got := Acquire(states[i].pool, a.origin, a.anew, l, a.now, a.deadline, a.opens).got;
      && k < i && actions[k].Ends? && actions[k].attempt.Served? && actions[k].attempt.conn == got.conn
      && actions[k].attempt.response.status < 400
      && (actions[k].maxBytes == None || actions[k].attempt.response.bodyLength <= actions[k].maxBytes.value)
      && !actions[k].attempt.response.willClose && !actions[k].attempt.response.closeHeader
      && actions[k].now == got.since && a.now - got.since < l.ttl
      && got.conn in states[k].place && states[k].place[got.conn] == Out(a.origin)
      && forall j :: k < j <= i ==> Rests(states[j], a.origin, Resting(got.conn, got.since))
  {
    assert steps[i] == StepOf(actions[i]);
    k := ReusedWasGivenBack(states, steps, l, i);
    assert steps[k] == StepOf(actions[k]);
  }
}
