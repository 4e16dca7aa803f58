/** The HTTP connection pool: per-origin counts, an idle queue with a time to live, and the
    rule that a retry opens a new connection. Every region under the condition variable is
    one atomic step; connections are numbered as they are opened. */
module ConnectionPool {
  import opened Prelude

  datatype Resting = Resting(conn: nat, since: int)

  datatype Origin = Origin(count: int, idle: seq<Resting>)

  datatype Limits = Limits(max: nat, maxIdle: nat, ttl: int)

  datatype Pool = Pool(origins: map<string, Origin>, closed: bool)

  function OriginOf(p: Pool, o: string): Origin {
    if o in p.origins then p.origins[o] else Origin(0, [])
  }

  // ---------------------------------------------------------------- acquiring

  /** How many connections the scan from the front finds expired. */
  function Expired(idle: seq<Resting>, now: int, ttl: int): (n: nat)
    ensures n <= |idle|
  {
    if idle != [] && now - idle[0].since >= ttl then 1 + Expired(idle[1..], now, ttl) else 0
  }

  /** How many an acquire takes from the front and closes. */
  function Evictions(idle: seq<Resting>, anew: bool, now: int, ttl: int): (n: nat)
    ensures n <= |idle|
  {
    var n := Expired(idle, now, ttl);
    if anew && n < |idle| then n + 1 else n
  }

  function Evict(st: Origin, n: nat): Origin
    requires n <= |st.idle|
  {
    Origin(st.count - n, st.idle[n..])
  }

  /** What one round under the lock comes to. A failed constructor raises after the count was
      raised, and with the evicted connections in hand. */
  datatype Got = Reused(conn: nat, since: int) | Opened | OpenFailed | Waits | TimedOut | WasClosed

  function Grab(st: Origin, anew: bool, l: Limits, now: int, deadline: int, opens: bool): (Origin, Got) {
    if !anew && st.idle != [] then
      var last := st.idle[|st.idle| - 1];
      (Origin(st.count, st.idle[..|st.idle| - 1]), Reused(last.conn, last.since))
    else if st.count < l.max then (Origin(st.count + 1, st.idle), if opens then Opened else OpenFailed)
    else (st, if deadline - now <= 0 then TimedOut else Waits)
  }

  datatype Round = Round(pool: Pool, got: Got, evicted: seq<Resting>)

  /** One round of `_acquire`. */
  function Acquire(p: Pool, o: string, anew: bool, l: Limits, now: int, deadline: int, opens: bool): Round {
    if p.closed then Round(p, WasClosed, []) else
    var st := OriginOf(p, o);
    var n := Evictions(st.idle, anew, now, l.ttl);
    var g := Grab(Evict(st, n), anew, l, now, deadline, opens);
    Round(p.(origins := p.origins[o := g.0]), g.1, st.idle[..n])
  }

  // ---------------------------------------------------------------- releasing and closing

  /** An origin with one connection less; it goes when nothing is left of it. */
  function Less(p: Pool, o: string): Pool
    requires o in p.origins
  {
    var st := p.origins[o].(count := p.origins[o].count - 1);
    if st.count <= 0 && st.idle == [] then p.(origins := p.origins - {o})
    else p.(origins := p.origins[o := st])
  }

  /** `_release`: the pool after it, and whether the connection is to be closed. */
  function Release(p: Pool, o: string, conn: nat, reusable: bool, l: Limits, now: int): (Pool, bool) {
    if o !in p.origins then (p, true)
    else if p.closed || !reusable then (Less(p, o), !reusable)
    else if |p.origins[o].idle| < l.maxIdle then
      (p.(origins := p.origins[o := p.origins[o].(idle := p.origins[o].idle + [Resting(conn, now)])]), false)
    else (Less(p, o), true)
  }

  function Close(p: Pool): Pool {
    if p.closed then p else Pool(map[], true)
  }

  // ---------------------------------------------------------------- the system

  /** Where a connection is. Lost ones were evicted in a round whose constructor raised. */
  datatype Place = InPool(origin: string) | Out(origin: string) | Closing | Lost

  /** `leaked` counts the failed constructors of an origin, `failures` all of them. */
  datatype Sys = Sys(pool: Pool, place: map<nat, Place>, next: nat, leaked: map<string, nat>, failures: nat, clock: int)

  datatype Step =
    | AcquireStep(origin: string, anew: bool, now: int, deadline: int, opens: bool)
    | ReleaseStep(conn: nat, reusable: bool, now: int)
    | CloseStep

  function LeakedOf(s: Sys, o: string): nat {
    if o in s.leaked then s.leaked[o] else 0
  }

  function Moved(place: map<nat, Place>, evicted: seq<Resting>, to: Place): map<nat, Place> {
    map c | c in place :: if Holds(evicted, c) then to else place[c]
  }

  predicate Holds(idle: seq<Resting>, c: nat) {
    exists x <- idle :: x.conn == c
  }

  /** The state between the evictions of a round and what it hands out. */
  function Mid(s: Sys, o: string, n: nat, to: Place, now: int): Sys
    requires n <= |OriginOf(s.pool, o).idle|
  {
    var st := OriginOf(s.pool, o);
    s.(pool := s.pool.(origins := s.pool.origins[o := Evict(st, n)]), place := Moved(s.place, st.idle[..n], to),
       failures := s.failures + (if to == Lost then 1 else 0), clock := now)
  }

  /** The second half of a round. */
  function Grabbed(m: Sys, o: string, g: (Origin, Got)): Sys {
    var t := m.(pool := m.pool.(origins := m.pool.origins[o := g.0]));
    match g.1
    case Reused(c, _) => t.(place := m.place[c := Out(o)])
    case Opened => t.(place := m.place[m.next := Out(o)], next := m.next + 1)
    case OpenFailed => t.(leaked := m.leaked[o := LeakedOf(m, o) + 1])
    case _ => t
  }

  /** A round of `_acquire`, with the ledger: evictions first, then what it hands out. */
  function AfterAcquire(s: Sys, a: Step, l: Limits): Sys
    requires a.AcquireStep?
  {
    if s.pool.closed then s.(clock := a.now) else
    var n := Evictions(OriginOf(s.pool, a.origin).idle, a.anew, a.now, l.ttl);
    var g := Grab(Evict(OriginOf(s.pool, a.origin), n), a.anew, l, a.now, a.deadline, a.opens);
    Grabbed(Mid(s, a.origin, n, if g.1.OpenFailed? then Lost else Closing, a.now), a.origin, g)
  }

  function AfterRelease(s: Sys, a: Step, l: Limits): Sys
    requires a.ReleaseStep? && a.conn in s.place && s.place[a.conn].Out?
  {
    var o := s.place[a.conn].origin;
    var r := Release(s.pool, o, a.conn, a.reusable, l, a.now);
    s.(pool := r.0, place := s.place[a.conn := if r.1 then Closing else InPool(o)], clock := a.now)
  }

  /** Closing takes every idle connection out of the pool. */
  function AfterClose(s: Sys): Sys {
    s.(pool := Close(s.pool), place := map c | c in s.place :: if s.place[c].InPool? then Closing else s.place[c])
  }

  predicate Enabled(s: Sys, a: Step) {
    match a
    case AcquireStep(_, _, now, _, _) => s.clock <= now
    case ReleaseStep(conn, _, now) => s.clock <= now && conn in s.place && s.place[conn].Out?
    case CloseStep => true
  }

  function Next(s: Sys, a: Step, l: Limits): Sys
    requires Enabled(s, a)
  {
    match a
    case AcquireStep(_, _, _, _, _) => AfterAcquire(s, a, l)
    case ReleaseStep(_, _, _) => AfterRelease(s, a, l)
    case CloseStep => AfterClose(s)
  }

  /** Runs: the states after any number of steps of any number of threads. */
  predicate Run(states: seq<Sys>, steps: seq<Step>, l: Limits) {
    && |states| == |steps| + 1
    && states[0] == Sys(Pool(map[], false), map[], 0, map[], 0, states[0].clock)
    && forall i :: 0 <= i < |steps| ==> Enabled(states[i], steps[i]) && states[i + 1] == Next(states[i], steps[i], l)
  }

  // ---------------------------------------------------------------- counting

  /** How many connections below `n` are checked out for an origin. */
  function OutCount(place: map<nat, Place>, o: string, n: nat): nat {
    if n == 0 then 0
    else OutCount(place, o, n - 1) + if n - 1 in place && place[n - 1] == Out(o) then 1 else 0
  }

  lemma {:induction false} SameOutCount(a: map<nat, Place>, b: map<nat, Place>, o: string, n: nat)
    requires forall c: nat :: c < n ==> ((c in a && a[c] == Out(o)) <==> (c in b && b[c] == Out(o)))
    ensures OutCount(a, o, n) == OutCount(b, o, n)
  {
    if n > 0 {
      SameOutCount(a, b, o, n - 1);
    }
  }

  lemma {:induction false} OutCountAfter(a: map<nat, Place>, c: nat, to: Place, o: string, n: nat)
    requires c < n
    ensures OutCount(a[c := to], o, n) == OutCount(a, o, n)
      + (if to == Out(o) then 1 else 0) - (if c in a && a[c] == Out(o) then 1 else 0)
  {
    if c == n - 1 {
      SameOutCount(a[c := to], a, o, n - 1);
    } else {
      OutCountAfter(a, c, to, o, n - 1);
    }
  }

  // ---------------------------------------------------------------- the invariant

  predicate SortedIdle(idle: seq<Resting>) {
    forall i, j :: 0 <= i < j < |idle| ==> idle[i].since <= idle[j].since && idle[i].conn != idle[j].conn
  }

  /** The idle connections of an origin: rest in order, are in the pool, none twice. */
  predicate IdleInv(idle: seq<Resting>, o: string, place: map<nat, Place>, clock: int) {
    && SortedIdle(idle)
    && forall x <- idle :: x.since <= clock && x.conn in place && place[x.conn] == InPool(o)
  }

  predicate OriginInv(st: Origin, o: string, place: map<nat, Place>, next: nat, leaked: nat, clock: int, l: Limits) {
    && IdleInv(st.idle, o, place, clock)
    && st.count == |st.idle| + OutCount(place, o, next) + leaked
    && st.count <= l.max && |st.idle| <= l.maxIdle
  }

  /** Nothing is counted for an origin that the open pool does not know. */
  predicate AbsentInv(s: Sys, o: string) {
    !s.pool.closed ==> OutCount(s.place, o, s.next) == 0 && LeakedOf(s, o) == 0
  }

  ghost predicate BalanceInv(s: Sys, l: Limits) {
    forall o: string ::
      if o in s.pool.origins
      then OriginInv(s.pool.origins[o], o, s.place, s.next, LeakedOf(s, o), s.clock, l)
      else AbsentInv(s, o)
  }

  /** Every opened connection is in exactly one place, and the pool holds those it should. */
  ghost predicate PlaceInv(s: Sys) {
    && (forall c: nat :: c in s.place <==> c < s.next)
    && (forall c: nat :: c in s.place && s.place[c].InPool? ==>
          s.place[c].origin in s.pool.origins && Holds(s.pool.origins[s.place[c].origin].idle, c))
    && (s.pool.closed ==> s.pool.origins == map[])
  }

  predicate NoLoss(s: Sys) {
    s.failures == 0 ==> (forall o <- s.leaked :: s.leaked[o] == 0) && (forall c <- s.place :: s.place[c] != Lost)
  }

  ghost predicate Inv(s: Sys, l: Limits) {
    BalanceInv(s, l) && PlaceInv(s) && NoLoss(s)
  }

  // ---------------------------------------------------------------- eviction is exact

  /** The front-only scan finds exactly the expired connections of a sorted queue. */
  lemma {:induction false} ExpiryIsExact(idle: seq<Resting>, now: int, ttl: int)
    requires SortedIdle(idle)
    ensures forall i :: 0 <= i < |idle| ==> (now - idle[i].since >= ttl <==> i < Expired(idle, now, ttl))
  {
    if idle != [] && now - idle[0].since >= ttl {
      ExpiryIsExact(idle[1..], now, ttl);
      forall i | 0 <= i < |idle| ensures now - idle[i].since >= ttl <==> i < Expired(idle, now, ttl) {
        if i > 0 {
          assert idle[1..][i - 1] == idle[i];
        }
      }
    } else if idle != [] {
      forall i | 0 <= i < |idle| ensures now - idle[i].since < ttl {
        assert i > 0 ==> idle[0].since <= idle[i].since;
      }
    }
  }

  lemma EvictionKeepsOrder(idle: seq<Resting>, n: nat)
    requires SortedIdle(idle) && n <= |idle|
    ensures SortedIdle(idle[n..]) && SortedIdle(idle[..n])
    ensures forall x <- idle[n..] :: x in idle && !Holds(idle[..n], x.conn)
    ensures forall x <- idle :: x in idle[n..] || x in idle[..n]
  {
    forall x | x in idle[n..] ensures x in idle && !Holds(idle[..n], x.conn) {
      var i: nat :| i < |idle[n..]| && idle[n..][i] == x;
      assert idle[n + i] == x;
      forall y | y in idle[..n] ensures y.conn != x.conn {
        var j: nat :| j < n && idle[j] == y;
      }
    }
    assert idle == idle[..n] + idle[n..];
  }

  /** Evicting moves pool connections of one origin to another place, and nothing else. */
  lemma EvictKeepsInv(s: Sys, l: Limits, o: string, st: Origin, n: nat, to: Place, now: int)
    requires Inv(s, l) && !s.pool.closed && st == OriginOf(s.pool, o) && n <= |st.idle| && s.clock <= now
    requires to == Closing || to == Lost
    ensures var place := Moved(s.place, st.idle[..n], to);
      && OriginInv(Evict(st, n), o, place, s.next, LeakedOf(s, o), now, l)
      && (forall q :: q != o ==> OutCount(place, q, s.next) == OutCount(s.place, q, s.next))
      && (forall q :: q in s.pool.origins && q != o ==>
            OriginInv(s.pool.origins[q], q, place, s.next, LeakedOf(s, q), now, l))
      && (forall c: nat :: c in place && place[c].InPool? && place[c].origin == o ==> Holds(Evict(st, n).idle, c))
  {
    var place := Moved(s.place, st.idle[..n], to);
    assert OriginInv(st, o, s.place, s.next, LeakedOf(s, o), s.clock, l);
    EvictionKeepsOrder(st.idle, n);
    EvictedWereInPool(s.place, st.idle, n, o, to);
    forall q ensures OutCount(place, q, s.next) == OutCount(s.place, q, s.next) {
      SameOutCount(place, s.place, q, s.next);
    }
    forall q | q in s.pool.origins && q != o
      ensures OriginInv(s.pool.origins[q], q, place, s.next, LeakedOf(s, q), now, l)
    {
      assert OriginInv(s.pool.origins[q], q, s.place, s.next, LeakedOf(s, q), s.clock, l);
    }
    forall c: nat | c in place && place[c].InPool? && place[c].origin == o ensures Holds(Evict(st, n).idle, c) {
      var x :| x in st.idle && x.conn == c;
      NotHeld(st.idle[..n], x);
    }
  }

  lemma NotHeld(idle: seq<Resting>, x: Resting)
    requires !Holds(idle, x.conn)
    ensures x !in idle
  {
  }

  lemma EvictedWereInPool(place: map<nat, Place>, idle: seq<Resting>, n: nat, o: string, to: Place)
    requires n <= |idle| && forall x <- idle :: x.conn in place && place[x.conn] == InPool(o)
    ensures forall c: nat :: c in place && Holds(idle[..n], c) ==> place[c] == InPool(o)
    ensures forall c: nat :: c in place && place[c] != InPool(o) ==> Moved(place, idle[..n], to)[c] == place[c]
  {
    forall c: nat | c in place && Holds(idle[..n], c) ensures place[c] == InPool(o) {
      var x :| x in idle[..n] && x.conn == c;
      assert x in idle;
    }
  }

  /** A round that evicts also returns a connection, or fails in the constructor: evicted
      connections are never left over a wait or a timeout. */
  lemma EvictingRoundReturns(s: Sys, l: Limits, o: string, anew: bool, now: int, deadline: int, opens: bool)
    requires Inv(s, l)
    ensures var r := Acquire(s.pool, o, anew, l, now, deadline, opens);
      r.evicted != [] ==> r.got.Reused? || r.got == (if opens then Opened else OpenFailed)
  {
    if o in s.pool.origins {
      assert OriginInv(s.pool.origins[o], o, s.place, s.next, LeakedOf(s, o), s.clock, l);
    }
  }

  /** What a round hands out: a reused connection was idle for less than the time to live, a
      retry never gets a reused one, and nothing expired stays idle. */
  lemma AcquiredIsUsable(s: Sys, l: Limits, o: string, anew: bool, now: int, deadline: int, opens: bool)
    requires Inv(s, l) && s.clock <= now && !s.pool.closed
    ensures var r := Acquire(s.pool, o, anew, l, now, deadline, opens);
      && (r.got.Reused? ==>
            (!anew && now - r.got.since < l.ttl && r.got.conn in s.place && s.place[r.got.conn] == InPool(o)))
      && (forall x <- r.pool.origins[o].idle :: now - x.since < l.ttl)
      && (forall i :: 0 <= i < |r.evicted| ==>
            now - r.evicted[i].since >= l.ttl || (anew && i == |r.evicted| - 1))
  {
    var st := OriginOf(s.pool, o);
    if o in s.pool.origins {
      assert OriginInv(st, o, s.place, s.next, LeakedOf(s, o), s.clock, l);
    }
    ExpiryIsExact(st.idle, now, l.ttl);
    var n := Evictions(st.idle, anew, now, l.ttl);
    var r := Acquire(s.pool, o, anew, l, now, deadline, opens);
    forall x | x in r.pool.origins[o].idle ensures now - x.since < l.ttl {
      var i: nat :| i < |r.pool.origins[o].idle| && r.pool.origins[o].idle[i] == x;
      assert st.idle[n + i] == x;
    }
    if r.got.Reused? {
      assert st.idle[n..][|st.idle| - n - 1] == st.idle[|st.idle| - 1];
      assert st.idle[|st.idle| - 1] in st.idle;
    }
  }

  /** What a round comes to, from the queue it finds: with an idle connection that has not
      expired, the newest one, unless a retry asks for a new one; otherwise a new one, where
      one is evicted or the limit leaves room; and only with nothing idle at the limit does
      it wait, or give up at its deadline. */
  lemma RoundIsDecided(s: Sys, l: Limits, o: string, anew: bool, now: int, deadline: int, opens: bool)
    requires Inv(s, l) && s.clock <= now
    ensures var r := Acquire(s.pool, o, anew, l, now, deadline, opens);
      var st := if o in s.pool.origins then s.pool.origins[o] else Origin(0, []);
      if s.pool.closed then r == Round(s.pool, WasClosed, [])
      else if !anew && st.idle != [] && now - st.idle[|st.idle| - 1].since < l.ttl then
        r.got == Reused(st.idle[|st.idle| - 1].conn, st.idle[|st.idle| - 1].since)
      else if st.idle != [] || st.count < l.max then r.got == if opens then Opened else OpenFailed
      else r.got == if deadline <= now then TimedOut else Waits
    ensures var r := Acquire(s.pool, o, anew, l, now, deadline, opens);
      r.got.Opened? && o in s.pool.origins ==> r.pool.origins[o].count == s.pool.origins[o].count - |r.evicted| + 1
  {
    hide Inv, SortedIdle;
    if o in s.pool.origins {
      KnownOrigin(s, l, o);
      ExpiryIsExact(s.pool.origins[o].idle, now, l.ttl);
    }
  }

  lemma KnownOrigin(s: Sys, l: Limits, o: string)
    requires Inv(s, l) && o in s.pool.origins
    ensures var st := s.pool.origins[o]; SortedIdle(st.idle) && |st.idle| <= st.count <= l.max
  {
    assert OriginInv(s.pool.origins[o], o, s.place, s.next, LeakedOf(s, o), s.clock, l);
  }

  /** What a round takes out of the queue: the expired connections from the front, for a retry
      the oldest of the others as well, and at the end the one it hands out. */
  lemma RoundSplitsTheQueue(s: Sys, l: Limits, o: string, anew: bool, now: int, deadline: int, opens: bool)
    requires Inv(s, l) && o in s.pool.origins && !s.pool.closed
    ensures var r := Acquire(s.pool, o, anew, l, now, deadline, opens); var idle := s.pool.origins[o].idle;
      && o in r.pool.origins
      && idle == r.evicted + r.pool.origins[o].idle + (if r.got.Reused? then [Resting(r.got.conn, r.got.since)] else [])
      && (forall i :: 0 <= i < |idle| && now - idle[i].since >= l.ttl ==> i < |r.evicted|)
      && (anew && idle != [] && now - idle[|idle| - 1].since < l.ttl ==>
            r.evicted != [] && now - r.evicted[|r.evicted| - 1].since < l.ttl)
  {
    hide Inv, SortedIdle, Grab;
    var st := s.pool.origins[o];
    KnownOrigin(s, l, o);
    ExpiryIsExact(st.idle, now, l.ttl);
    var n := Evictions(st.idle, anew, now, l.ttl);
    GrabSplits(st, n, anew, l, now, deadline, opens);
  }

  lemma GrabSplits(st: Origin, n: nat, anew: bool, l: Limits, now: int, deadline: int, opens: bool)
    requires n <= |st.idle|
    ensures var g := Grab(Evict(st, n), anew, l, now, deadline, opens);
      st.idle == st.idle[..n] + g.0.idle + (if g.1.Reused? then [Resting(g.1.conn, g.1.since)] else [])
  {
    var rest := st.idle[n..];
    assert st.idle == st.idle[..n] + rest;
    if rest != [] {
      assert rest == rest[..|rest| - 1] + [rest[|rest| - 1]];
    }
  }

  // ---------------------------------------------------------------- every step keeps it

  lemma MidKeepsInv(s: Sys, l: Limits, o: string, n: nat, to: Place, now: int)
    requires Inv(s, l) && !s.pool.closed && n <= |OriginOf(s.pool, o).idle| && s.clock <= now
    requires to == Closing || to == Lost
    ensures Inv(Mid(s, o, n, to, now), l)
  {
    var st, m := OriginOf(s.pool, o), Mid(s, o, n, to, now);
    EvictKeepsInv(s, l, o, st, n, to, now);
    forall q: string | q !in m.pool.origins ensures AbsentInv(m, q) {
      assert AbsentInv(s, q);
    }
    forall q: string | q in m.pool.origins
      ensures OriginInv(m.pool.origins[q], q, m.place, m.next, LeakedOf(m, q), m.clock, l)
    {
    }
  }

  /** One connection more or less for an origin, the other origins as they were. */
  lemma RebalanceOne(m: Sys, t: Sys, l: Limits, o: string)
    requires BalanceInv(m, l) && t.pool.closed == m.pool.closed && o in t.pool.origins && t.clock == m.clock
    requires t.pool.origins.Keys == m.pool.origins.Keys + {o}
    requires OriginInv(t.pool.origins[o], o, t.place, t.next, LeakedOf(t, o), t.clock, l)
    requires forall q: string :: q != o ==>
      OutCount(t.place, q, t.next) == OutCount(m.place, q, m.next) && LeakedOf(t, q) == LeakedOf(m, q)
      && (q in m.pool.origins ==> t.pool.origins[q] == m.pool.origins[q])
    requires forall c: nat, q: string :: q != o && c in m.place && m.place[c] == InPool(q) ==>
      c in t.place && t.place[c] == InPool(q)
    ensures BalanceInv(t, l)
  {
    forall q: string
      ensures if q in t.pool.origins
        then OriginInv(t.pool.origins[q], q, t.place, t.next, LeakedOf(t, q), t.clock, l) else AbsentInv(t, q)
    {
      if q != o {
        if q in m.pool.origins {
          assert OriginInv(m.pool.origins[q], q, m.place, m.next, LeakedOf(m, q), m.clock, l);
        } else {
          assert AbsentInv(m, q);
        }
      }
    }
  }

  lemma ReuseKeepsInv(m: Sys, l: Limits, o: string, g: (Origin, Got))
    requires Inv(m, l) && !m.pool.closed && o in m.pool.origins && m.pool.origins[o].idle != []
    requires var st := m.pool.origins[o]; var last := st.idle[|st.idle| - 1];
      g == (Origin(st.count, st.idle[..|st.idle| - 1]), Reused(last.conn, last.since))
    ensures Inv(Grabbed(m, o, g), l)
  {
    hide OriginInv, IdleInv, BalanceInv, SortedIdle;
    var t, conn := Grabbed(m, o, g), g.1.conn;
    LastIsInPool(m, l, o);
    ReusedOrigin(m, l, o, g);
    forall q: string ensures OutCount(t.place, q, m.next) == OutCount(m.place, q, m.next) + if q == o then 1 else 0 {
      OutCountAfter(m.place, conn, Out(o), q, m.next);
    }
    RebalanceOne(m, t, l, o);
    ReusedPlaces(m, o, g);
  }

  lemma LastIsInPool(m: Sys, l: Limits, o: string)
    requires Inv(m, l) && o in m.pool.origins && m.pool.origins[o].idle != []
    ensures var idle := m.pool.origins[o].idle; var conn := idle[|idle| - 1].conn;
      && SortedIdle(idle) && conn in m.place && m.place[conn] == InPool(o) && conn < m.next
  {
    var idle := m.pool.origins[o].idle;
    assert OriginInv(m.pool.origins[o], o, m.place, m.next, LeakedOf(m, o), m.clock, l);
    assert idle[|idle| - 1] in idle;
  }

  /** The origin that lends its last idle connection. */
  lemma ReusedOrigin(m: Sys, l: Limits, o: string, g: (Origin, Got))
    requires Inv(m, l) && !m.pool.closed && o in m.pool.origins && m.pool.origins[o].idle != []
    requires var st := m.pool.origins[o]; var last := st.idle[|st.idle| - 1];
      g == (Origin(st.count, st.idle[..|st.idle| - 1]), Reused(last.conn, last.since))
    ensures var t := Grabbed(m, o, g);
      OriginInv(t.pool.origins[o], o, t.place, t.next, LeakedOf(t, o), t.clock, l)
  {
    var st := m.pool.origins[o];
    assert OriginInv(st, o, m.place, m.next, LeakedOf(m, o), m.clock, l);
    LastIsInPool(m, l, o);
    OutCountAfter(m.place, g.1.conn, Out(o), o, m.next);
    LastLeaves(st.idle);
  }

  lemma ReusedPlaces(m: Sys, o: string, g: (Origin, Got))
    requires PlaceInv(m) && NoLoss(m) && !m.pool.closed && o in m.pool.origins && m.pool.origins[o].idle != []
    requires var st := m.pool.origins[o]; var last := st.idle[|st.idle| - 1];
      && SortedIdle(st.idle) && last.conn in m.place && m.place[last.conn] == InPool(o)
      && g == (Origin(st.count, st.idle[..|st.idle| - 1]), Reused(last.conn, last.since))
    ensures PlaceInv(Grabbed(m, o, g)) && NoLoss(Grabbed(m, o, g))
  {
    var t := Grabbed(m, o, g);
    LastLeaves(m.pool.origins[o].idle);
    forall c: nat | c in t.place && t.place[c].InPool?
      ensures t.place[c].origin in t.pool.origins && Holds(t.pool.origins[t.place[c].origin].idle, c)
    {
      assert Holds(m.pool.origins[t.place[c].origin].idle, c);
    }
  }

  /** Without its last element an ordered queue holds exactly the others. */
  lemma LastLeaves(idle: seq<Resting>)
    requires SortedIdle(idle) && idle != []
    ensures var last := |idle| - 1;
      && SortedIdle(idle[..last])
      && (forall x <- idle[..last] :: x in idle && x.conn != idle[last].conn)
      && (forall c: nat :: Holds(idle, c) && c != idle[last].conn ==> Holds(idle[..last], c))
  {
    var last := |idle| - 1;
    forall x | x in idle[..last] ensures x in idle && x.conn != idle[last].conn {
      var i: nat :| i < last && idle[i] == x;
    }
    forall c: nat | Holds(idle, c) && c != idle[last].conn ensures Holds(idle[..last], c) {
      var x :| x in idle && x.conn == c;
      assert x in idle[..last];
    }
  }

  lemma OpenedCounts(place: map<nat, Place>, next: nat, o: string, q: string)
    requires next !in place
    ensures OutCount(place[next := Out(o)], q, next + 1) == OutCount(place, q, next) + if q == o then 1 else 0
  {
    SameOutCount(place[next := Out(o)], place, q, next);
  }

  lemma OpenKeepsInv(m: Sys, l: Limits, o: string, g: (Origin, Got))
    requires Inv(m, l) && !m.pool.closed && o in m.pool.origins && m.pool.origins[o].count < l.max
    requires g == (Origin(m.pool.origins[o].count + 1, m.pool.origins[o].idle), Opened)
    ensures Inv(Grabbed(m, o, g), l)
  {
    var t := Grabbed(m, o, g);
    assert OriginInv(m.pool.origins[o], o, m.place, m.next, LeakedOf(m, o), m.clock, l);
    OpenedCounts(m.place, m.next, o, o);
    forall q: string | q != o ensures OutCount(t.place, q, t.next) == OutCount(m.place, q, m.next) {
      OpenedCounts(m.place, m.next, o, q);
    }
    RebalanceOne(m, t, l, o);
    OpenedPlaces(m, o, g);
  }

  lemma OpenedPlaces(m: Sys, o: string, g: (Origin, Got))
    requires PlaceInv(m) && NoLoss(m) && o in m.pool.origins && g.1.Opened? && g.0.idle == m.pool.origins[o].idle
    requires !m.pool.closed
    ensures PlaceInv(Grabbed(m, o, g)) && NoLoss(Grabbed(m, o, g))
  {
  }

  lemma FailKeepsInv(m: Sys, l: Limits, o: string, g: (Origin, Got))
    requires Inv(m, l) && !m.pool.closed && o in m.pool.origins && m.pool.origins[o].count < l.max && m.failures > 0
    requires g == (Origin(m.pool.origins[o].count + 1, m.pool.origins[o].idle), OpenFailed)
    ensures Inv(Grabbed(m, o, g), l)
  {
    var st, t := m.pool.origins[o], Grabbed(m, o, g);
    assert OriginInv(st, o, m.place, m.next, LeakedOf(m, o), m.clock, l);
    RebalanceOne(m, t, l, o);
  }

  lemma AcquireKeepsInv(s: Sys, a: Step, l: Limits)
    requires Inv(s, l) && a.AcquireStep? && Enabled(s, a)
    ensures Inv(AfterAcquire(s, a, l), l)
  {
    if s.pool.closed {
      ClockKeepsInv(s, a.now, l);
    } else {
      var st := OriginOf(s.pool, a.origin);
      var n := Evictions(st.idle, a.anew, a.now, l.ttl);
      var g := Grab(Evict(st, n), a.anew, l, a.now, a.deadline, a.opens);
      var to := if g.1.OpenFailed? then Lost else Closing;
      MidKeepsInv(s, l, a.origin, n, to, a.now);
      GrabKeepsInv(Mid(s, a.origin, n, to, a.now), l, a.origin, g, a);
    }
  }

  lemma GrabKeepsInv(m: Sys, l: Limits, o: string, g: (Origin, Got), a: Step)
    requires Inv(m, l) && !m.pool.closed && o in m.pool.origins && a.AcquireStep?
    requires g == Grab(m.pool.origins[o], a.anew, l, a.now, a.deadline, a.opens)
    requires g.1.OpenFailed? ==> m.failures > 0
    ensures Inv(Grabbed(m, o, g), l)
  {
    match g.1 {
      case Reused(_, _) => ReuseKeepsInv(m, l, o, g);
      case Opened => OpenKeepsInv(m, l, o, g);
      case OpenFailed => FailKeepsInv(m, l, o, g);
      case Waits => GrabNothing(m, o, g);
      case TimedOut => GrabNothing(m, o, g);
      case WasClosed =>
    }
  }

  lemma GrabNothing(m: Sys, o: string, g: (Origin, Got))
    requires o in m.pool.origins && g.0 == m.pool.origins[o] && (g.1.Waits? || g.1.TimedOut?)
    ensures Grabbed(m, o, g) == m
  {
    assert m.pool.origins[o := g.0] == m.pool.origins;
  }

  /** The step does to the pool what the round does, and hands out what it says. */
  lemma AcquireStepIsTheRound(s: Sys, a: Step, l: Limits)
    requires a.AcquireStep?
    ensures var t, r := AfterAcquire(s, a, l), Acquire(s.pool, a.origin, a.anew, l, a.now, a.deadline, a.opens);
      && t.pool == r.pool
      && (r.got.Opened? ==> s.next in t.place && t.place[s.next] == Out(a.origin))
      && (r.got.Reused? ==> r.got.conn in t.place && t.place[r.got.conn] == Out(a.origin))
  {
    if !s.pool.closed {
      var st := OriginOf(s.pool, a.origin);
      var n := Evictions(st.idle, a.anew, a.now, l.ttl);
      var g := Grab(Evict(st, n), a.anew, l, a.now, a.deadline, a.opens);
      assert s.pool.origins[a.origin := Evict(st, n)][a.origin := g.0] == s.pool.origins[a.origin := g.0];
    }
  }

  /** And it closes what it evicted, unless the constructor failed. */
  lemma EvictedAreClosed(s: Sys, a: Step, l: Limits, x: Resting)
    requires a.AcquireStep? && Inv(s, l) && !s.pool.closed
    requires var r := Acquire(s.pool, a.origin, a.anew, l, a.now, a.deadline, a.opens); x in r.evicted && !r.got.OpenFailed?
    ensures var t := AfterAcquire(s, a, l); x.conn in t.place && t.place[x.conn] == Closing
  {
    var o, st := a.origin, OriginOf(s.pool, a.origin);
    var n := Evictions(st.idle, a.anew, a.now, l.ttl);
    if o in s.pool.origins {
      assert OriginInv(st, o, s.place, s.next, LeakedOf(s, o), s.clock, l);
    }
    var i: nat :| i < n && st.idle[i] == x;
    assert st.idle[i] in st.idle && Holds(st.idle[..n], x.conn);
    assert x.conn < s.next;
    assert Moved(s.place, st.idle[..n], Closing)[x.conn] == Closing;
    LaterOnesDiffer(st.idle, n, i);
  }

  lemma LaterOnesDiffer(idle: seq<Resting>, n: nat, i: nat)
    requires SortedIdle(idle) && i < n <= |idle|
    ensures idle[n..] != [] ==> idle[n..][|idle[n..]| - 1].conn != idle[i].conn
  {
  }

  lemma ClockKeepsInv(s: Sys, now: int, l: Limits)
    requires Inv(s, l) && s.clock <= now
    ensures Inv(s.(clock := now), l)
  {
    forall o | o in s.pool.origins
      ensures OriginInv(s.pool.origins[o], o, s.place, s.next, LeakedOf(s, o), now, l)
    {
      assert OriginInv(s.pool.origins[o], o, s.place, s.next, LeakedOf(s, o), s.clock, l);
    }
    forall o | o !in s.pool.origins ensures AbsentInv(s.(clock := now), o) {
      assert AbsentInv(s, o);
    }
  }

  // ---------------------------------------------------------------- releasing

  lemma ReleaseKeepsInv(s: Sys, a: Step, l: Limits)
    requires Inv(s, l) && a.ReleaseStep? && Enabled(s, a)
    ensures Inv(AfterRelease(s, a, l), l)
  {
    var o := s.place[a.conn].origin;
    var t := AfterRelease(s, a, l);
    assert a.conn < s.next;
    forall q: string ensures OutCount(t.place, q, s.next) == OutCount(s.place, q, s.next) - if q == o then 1 else 0 {
      OutCountAfter(s.place, a.conn, t.place[a.conn], q, s.next);
    }
    forall q: string
      ensures if q in t.pool.origins
        then OriginInv(t.pool.origins[q], q, t.place, t.next, LeakedOf(t, q), t.clock, l) else AbsentInv(t, q)
    {
      if q in s.pool.origins {
        assert OriginInv(s.pool.origins[q], q, s.place, s.next, LeakedOf(s, q), s.clock, l);
        if q == o {
          ReleaseKeepsOrigin(s, a, l, o);
        }
      } else {
        assert AbsentInv(s, q);
      }
    }
    ReleasePlaces(s, a, l, o);
  }

  lemma ReleaseKeepsOrigin(s: Sys, a: Step, l: Limits, o: string)
    requires Inv(s, l) && a.ReleaseStep? && Enabled(s, a) && s.place[a.conn] == Out(o) && o in s.pool.origins
    ensures var t := AfterRelease(s, a, l);
      if o in t.pool.origins
      then OriginInv(t.pool.origins[o], o, t.place, t.next, LeakedOf(t, o), t.clock, l) else AbsentInv(t, o)
  {
    var st, t := s.pool.origins[o], AfterRelease(s, a, l);
    assert OriginInv(st, o, s.place, s.next, LeakedOf(s, o), s.clock, l);
    OutCountAfter(s.place, a.conn, t.place[a.conn], o, s.next);
    forall x | x in st.idle ensures x.conn != a.conn {}
    if o in t.pool.origins && |t.pool.origins[o].idle| > |st.idle| {
      var idle := t.pool.origins[o].idle;
      assert idle == st.idle + [Resting(a.conn, a.now)];
      forall i | 0 <= i < |st.idle| ensures st.idle[i].since <= a.now && st.idle[i].conn != a.conn {
        assert st.idle[i] in st.idle;
      }
    }
  }

  lemma ReleasePlaces(s: Sys, a: Step, l: Limits, o: string)
    requires Inv(s, l) && a.ReleaseStep? && Enabled(s, a) && s.place[a.conn] == Out(o)
    ensures PlaceInv(AfterRelease(s, a, l)) && NoLoss(AfterRelease(s, a, l))
  {
    var t := AfterRelease(s, a, l);
    forall c: nat | c in t.place && t.place[c].InPool?
      ensures t.place[c].origin in t.pool.origins && Holds(t.pool.origins[t.place[c].origin].idle, c)
    {
      if c == a.conn {
        var idle := t.pool.origins[o].idle;
        assert idle[|idle| - 1].conn == c && idle[|idle| - 1] in idle;
      } else {
        var x :| x in s.pool.origins[s.place[c].origin].idle && x.conn == c;
        assert s.place[c].origin in t.pool.origins && x in t.pool.origins[s.place[c].origin].idle;
      }
    }
  }

  lemma CloseKeepsInv(s: Sys, l: Limits)
    requires Inv(s, l)
    ensures Inv(AfterClose(s), l)
  {
    var t := AfterClose(s);
    if s.pool.closed {
      forall c: nat | c in s.place ensures !s.place[c].InPool? {}
      assert t == s;
    }
  }

  // ---------------------------------------------------------------- runs

  lemma {:induction false} RunKeepsInv(states: seq<Sys>, steps: seq<Step>, l: Limits, i: nat)
    requires Run(states, steps, l) && i < |states|
    ensures Inv(states[i], l)
  {
    if i > 0 {
      RunKeepsInv(states, steps, l, i - 1);
      assert states[i - 1 + 1] == Next(states[i - 1], steps[i - 1], l);
      match steps[i - 1] {
        case AcquireStep(_, _, _, _, _) => AcquireKeepsInv(states[i - 1], steps[i - 1], l);
        case ReleaseStep(_, _, _) => ReleaseKeepsInv(states[i - 1], steps[i - 1], l);
        case CloseStep => CloseKeepsInv(states[i - 1], l);
      }
    } else {
      NothingIsOut(map[], states[0].next);
    }
  }

  lemma {:induction false} NothingIsOut(place: map<nat, Place>, n: nat)
    requires place == map[]
    ensures forall o :: OutCount(place, o, n) == 0
  {
    if n > 0 {
      NothingIsOut(place, n - 1);
    }
  }

  /** The main result. In every reachable state, for each origin the pool knows, the count is
      the idle plus the checked-out connections plus the constructors that failed, within the
      limits; an origin it does not know has nothing out while the pool is open; every opened
      connection is in exactly one place; and nothing is lost unless a constructor failed. */
  lemma ConnectionsAreAccountedFor(states: seq<Sys>, steps: seq<Step>, l: Limits, i: nat, o: string)
    requires Run(states, steps, l) && i < |states|
    ensures var s := states[i];
      && (o in s.pool.origins ==>
            var st := s.pool.origins[o];
            && st.count == |st.idle| + OutCount(s.place, o, s.next) + LeakedOf(s, o)
            && st.count <= l.max && |st.idle| <= l.maxIdle && SortedIdle(st.idle)
            && (forall x <- st.idle :: x.conn in s.place && s.place[x.conn] == InPool(o)))
      && (o !in s.pool.origins && !s.pool.closed ==> OutCount(s.place, o, s.next) == 0)
      && (forall c: nat :: c in s.place <==> c < s.next)
      && (forall c: nat :: c in s.place && s.place[c] == InPool(o) ==>
            !s.pool.closed && o in s.pool.origins && Holds(s.pool.origins[o].idle, c))
      && (s.failures == 0 ==> LeakedOf(s, o) == 0 && forall c <- s.place :: s.place[c] != Lost)
  {
    RunKeepsInv(states, steps, l, i);
    var s := states[i];
    if o in s.pool.origins {
      assert OriginInv(s.pool.origins[o], o, s.place, s.next, LeakedOf(s, o), s.clock, l);
    } else {
      assert AbsentInv(s, o);
    }
  }

  /** `x` rests with the origin. */
  predicate Rests(s: Sys, o: string, x: Resting) {
    o in s.pool.origins && x in s.pool.origins[o].idle
  }

  /** A connection comes to rest only by a release for reuse. */
  lemma RestBeginsWithARelease(s: Sys, a: Step, l: Limits, o: string, x: Resting)
    requires Enabled(s, a) && Rests(Next(s, a, l), o, x) && !Rests(s, o, x)
    ensures a == ReleaseStep(x.conn, true, x.since) && s.place[x.conn] == Out(o)
  {
    match a {
      case AcquireStep(_, _, _, _, _) => GrabbedRested(s, a, l, o, x);
      case ReleaseStep(_, _, _) =>
      case CloseStep =>
    }
  }

  lemma GrabbedRested(s: Sys, a: Step, l: Limits, o: string, x: Resting)
    requires a.AcquireStep? && Rests(AfterAcquire(s, a, l), o, x)
    ensures Rests(s, o, x)
  {
    if !s.pool.closed && o == a.origin {
      var idle := OriginOf(s.pool, o).idle;
      var n := Evictions(idle, a.anew, a.now, l.ttl);
      var left := AfterAcquire(s, a, l).pool.origins[o].idle;
      var i: nat :| i < |left| && left[i] == x;
      assert left[i] == idle[n + i];
    }
  }

  /** In every run, a connection that rests was given back for reuse at the time since when it
      rests, by the one who had it, and it has rested ever since. */
  lemma {:induction false} RestedSinceItsRelease(states: seq<Sys>, steps: seq<Step>, l: Limits, i: nat, o: string, x: Resting)
    returns (k: nat)
    requires Run(states, steps, l) && i < |states| && Rests(states[i], o, x)
    ensures k < i && steps[k] == ReleaseStep(x.conn, true, x.since)
    ensures x.conn in states[k].place && states[k].place[x.conn] == Out(o)
    ensures forall j :: k < j <= i ==> Rests(states[j], o, x)
  {
    hide Next, Enabled, Rests;
    assert i > 0 by { NothingRestsAtFirst(states, steps, l, o, x); }
    assert Enabled(states[i - 1], steps[i - 1]) && states[i - 1 + 1] == Next(states[i - 1], steps[i - 1], l);
    if Rests(states[i - 1], o, x) {
      k := RestedSinceItsRelease(states, steps, l, i - 1, o, x);
    } else {
      RestBeginsWithARelease(states[i - 1], steps[i - 1], l, o, x);
      ReleasedWasOut(states[i - 1], steps[i - 1]);
      k := i - 1;
    }
  }

  lemma ReleasedWasOut(s: Sys, a: Step)
    requires Enabled(s, a) && a.ReleaseStep?
    ensures a.conn in s.place
  {
  }

  lemma NothingRestsAtFirst(states: seq<Sys>, steps: seq<Step>, l: Limits, o: string, x: Resting)
    requires Run(states, steps, l)
    ensures !Rests(states[0], o, x)
  {
  }

  /** So a connection that an acquire hands out again was given back for reuse by the one who
      had it last, for the same origin, less than the time to live ago. */
  lemma ReusedWasGivenBack(states: seq<Sys>, steps: seq<Step>, l: Limits, i: nat) returns (k: nat)
    requires Run(states, steps, l) && i < |steps| && steps[i].AcquireStep?
    requires var a := steps[i]; Acquire(states[i].pool, a.origin, a.anew, l, a.now, a.deadline, a.opens).got.Reused?
    ensures var a := steps[i];
      var got := Acquire(states[i].pool, a.origin, a.anew, l, a.now, a.deadline, a.opens).got;
      && k < i && steps[k] == ReleaseStep(got.conn, true, got.since) && a.now - got.since < l.ttl
      && got.conn in states[k].place && states[k].place[got.conn] == Out(a.origin)
      && forall j :: k < j <= i ==> Rests(states[j], a.origin, Resting(got.conn, got.since))
  {
    var a := steps[i];
    assert Enabled(states[i], a);
    RunKeepsInv(states, steps, l, i);
    AcquiredIsUsable(states[i], l, a.origin, a.anew, a.now, a.deadline, a.opens);
    var got := Acquire(states[i].pool, a.origin, a.anew, l, a.now, a.deadline, a.opens).got;
    var idle := OriginOf(states[i].pool, a.origin).idle;
    var n := Evictions(idle, a.anew, a.now, l.ttl);
    assert idle[n..][|idle| - n - 1] == idle[|idle| - 1];
    assert Rests(states[i], a.origin, Resting(got.conn, got.since));
    k := RestedSinceItsRelease(states, steps, l, i, a.origin, Resting(got.conn, got.since));
  }

  /** Once closed, every connection that is still out is closed when it comes back, and none
      is handed out. */
  lemma ClosedPoolDrains(states: seq<Sys>, steps: seq<Step>, l: Limits, i: nat)
    requires Run(states, steps, l) && i < |steps| && states[i].pool.closed
    ensures var s, t := states[i], states[i + 1];
      && t.pool.closed && t.pool.origins == map[] && t.next == s.next
      && (forall c: nat :: c in s.place ==>
            t.place[c] == if steps[i].ReleaseStep? && c == steps[i].conn then Closing else s.place[c])
      && (forall c: nat :: c in s.place ==> s.place[c].Out? || s.place[c] == Closing || s.place[c] == Lost)
  {
    RunKeepsInv(states, steps, l, i);
  }

  /** When every constructor of an origin's allowance has failed, no acquire of that origin
      ever succeeds again: it waits or times out. */
  lemma FailedConstructorsExhaustAnOrigin(
    states: seq<Sys>, steps: seq<Step>, l: Limits, i: nat, o: string, anew: bool, now: int, deadline: int, opens: bool)
    requires Run(states, steps, l) && i < |states| && !states[i].pool.closed
    requires LeakedOf(states[i], o) >= l.max && l.max > 0
    ensures var got := Acquire(states[i].pool, o, anew, l, now, deadline, opens).got; got.Waits? || got.TimedOut?
  {
    RunKeepsInv(states, steps, l, i);
    var s := states[i];
    if o in s.pool.origins {
      assert OriginInv(s.pool.origins[o], o, s.place, s.next, LeakedOf(s, o), s.clock, l);
    } else {
      AbsentIsClean(s, l, o);
    }
  }

  lemma AbsentIsClean(s: Sys, l: Limits, o: string)
    requires Inv(s, l) && o !in s.pool.origins && !s.pool.closed
    ensures LeakedOf(s, o) == 0
  {
    assert AbsentInv(s, o);
  }

  // ---------------------------------------------------------------- how an origin runs out

  /** An origin after `k` constructors have failed in an otherwise unused pool. */
  function Failed(o: string, k: nat, start: int): Sys {
    if k == 0 then Sys(Pool(map[], false), map[], 0, map[], 0, start)
    else Sys(Pool(map[o := Origin(k, [])], false), map[], 0, map[o := k], k, start)
  }

  lemma OneMoreFails(o: string, k: nat, anew: bool, start: int, deadline: int, l: Limits)
    requires k < l.max
    ensures var a := AcquireStep(o, anew, start, deadline, false);
      Enabled(Failed(o, k, start), a) && Next(Failed(o, k, start), a, l) == Failed(o, k + 1, start)
  {
    var s := Failed(o, k, start);
    assert Moved(map[], [], Lost) == map[];
    assert Mid(s, o, 0, Lost, start) == Sys(Pool(map[o := Origin(k, [])], false), map[], 0, s.leaked, k + 1, start);
  }

  /** From the empty pool, as many acquires as the limit whose constructors raise leave the
      origin with its whole allowance counted and nothing open: the next acquire gets nothing,
      whatever it asks for. */
  lemma FailedConstructorsReachTheLimit(o: string, anew: bool, start: int, deadline: int, l: Limits)
    returns (states: seq<Sys>, steps: seq<Step>)
    requires l.max > 0
    ensures Run(states, steps, l) && steps == seq(l.max, _ => AcquireStep(o, anew, start, deadline, false))
    ensures var s := states[l.max];
      && LeakedOf(s, o) == l.max && s.pool == Pool(map[o := Origin(l.max, [])], false) && s.place == map[]
    ensures forall again: bool, now: int, until: int, opens: bool ::
      var got := Acquire(states[l.max].pool, o, again, l, now, until, opens).got; got.Waits? || got.TimedOut?
  {
    var a := AcquireStep(o, anew, start, deadline, false);
    steps := seq(l.max, _ => a);
    states := seq(l.max + 1, k requires 0 <= k => Failed(o, k, start));
    forall i | 0 <= i < |steps| ensures Enabled(states[i], steps[i]) && states[i + 1] == Next(states[i], steps[i], l) {
      OneMoreFails(o, i, anew, start, deadline, l);
    }
    forall again: bool, now: int, until: int, opens: bool
      ensures var got := Acquire(states[l.max].pool, o, again, l, now, until, opens).got; got.Waits? || got.TimedOut?
    {
      FailedConstructorsExhaustAnOrigin(states, steps, l, l.max, o, again, now, until, opens);
    }
  }
}
