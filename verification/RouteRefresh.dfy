/** Single-flight refresh of the discovery route cache, for one service name and any number of
    threads. Each region under the lock is one step, and so is taking the time of a snapshot;
    the clock strictly increases. */
module RouteRefresh {
  import opened Prelude

  /** `number` counts the stores, so that a snapshot can be told from an older one. */
  datatype Snapshot = Snapshot(rows: seq<string>, refreshedAt: int, number: nat)

  /** What the lock protects: the snapshot and the event of the refresh in flight. */
  datatype Cache = Cache(snapshot: Option<Snapshot>, refreshing: Option<nat>)

  /** An owner fetches, takes the time, stores and then finishes, in two regions. A waiter
      remembers the time it saw; `joined` is how many stores there had been. */
  datatype Thread =
    | Fetching(event: nat)
    | Stamped(event: nat, rows: seq<string>, at: int)
    | Stored(event: nat, rows: seq<string>)
    | FetchFailed(event: nat)
    | Waiting(event: nat, seen: Option<int>, joined: nat)
    | Returned(rows: seq<string>)
    | Raised

  datatype Sys = Sys(cache: Cache, threads: map<nat, Thread>, events: nat, stores: nat, clock: int)

  datatype Step =
    | Join(thread: nat, force: bool, interval: int)
    | Stamp(thread: nat, rows: seq<string>)
    | FailFetch(thread: nat)
    | Store(thread: nat)
    | Finish(thread: nat)
    | Wake(thread: nat)
    | GiveUp(thread: nat)
    | Tick

  // ---------------------------------------------------------------- the regions

  predicate IsFresh(c: Cache, now: int, interval: int) {
    c.snapshot.Some? && (if now < c.snapshot.value.refreshedAt then 0 else now - c.snapshot.value.refreshedAt) < interval
  }

  function SeenAt(c: Cache): Option<int> {
    if c.snapshot.Some? then Some(c.snapshot.value.refreshedAt) else None
  }

  datatype Role = Fresh(rows: seq<string>) | Owner | Waiter(event: nat, seen: Option<int>)

  /** The first region of `refresh`; `event` is the new event, if one is needed. */
  function Enter(c: Cache, force: bool, now: int, interval: int, event: nat): (Cache, Role) {
    if !force && IsFresh(c, now, interval) then (c, Fresh(c.snapshot.value.rows))
    else if c.refreshing.None? then (c.(refreshing := Some(event)), Owner)
    else (c, Waiter(c.refreshing.value, SeenAt(c)))
  }

  /** The region of a waiter whose event was set: None where it raises. */
  function Leave(c: Cache, seen: Option<int>): Option<seq<string>> {
    if c.snapshot.Some? && Some(c.snapshot.value.refreshedAt) != seen then Some(c.snapshot.value.rows) else None
  }

  predicate Owns(t: Thread) {
    t.Fetching? || t.Stamped? || t.Stored? || t.FetchFailed?
  }

  /** An event is set when its owner has finished. */
  predicate IsSet(s: Sys, event: nat) {
    event < s.events && s.cache.refreshing != Some(event)
  }

  function Joined(s: Sys, a: Step): Sys
    requires a.Join?
  {
    var e := Enter(s.cache, a.force, s.clock, a.interval, s.events);
    match e.1
    case Fresh(rows) => s.(threads := s.threads[a.thread := Returned(rows)])
    case Owner => s.(cache := e.0, threads := s.threads[a.thread := Fetching(s.events)], events := s.events + 1)
    case Waiter(event, seen) => s.(threads := s.threads[a.thread := Waiting(event, seen, s.stores)])
  }

  predicate Enabled(s: Sys, a: Step) {
    match a
    case Join(t, _, _) => t !in s.threads
    case Stamp(t, _) => t in s.threads && s.threads[t].Fetching?
    case FailFetch(t) => t in s.threads && s.threads[t].Fetching?
    case Store(t) => t in s.threads && s.threads[t].Stamped?
    case Finish(t) => t in s.threads && (s.threads[t].Stored? || s.threads[t].FetchFailed?)
    case Wake(t) => t in s.threads && s.threads[t].Waiting? && IsSet(s, s.threads[t].event)
    case GiveUp(t) => t in s.threads && s.threads[t].Waiting?
    case Tick => true
  }

  function With(s: Sys, t: nat, to: Thread): Sys {
    s.(threads := s.threads[t := to])
  }

  function Next(s: Sys, a: Step): Sys
    requires Enabled(s, a)
  {
    match a
    case Join(_, _, _) => Joined(s, a)
    case Stamp(t, rows) => With(s, t, Stamped(s.threads[t].event, rows, s.clock + 1)).(clock := s.clock + 1)
    case FailFetch(t) => With(s, t, FetchFailed(s.threads[t].event))
    case Store(t) =>
      var x := s.threads[t];
      With(s, t, Stored(x.event, x.rows)).(
        cache := s.cache.(snapshot := Some(Snapshot(x.rows, x.at, s.stores + 1))), stores := s.stores + 1)
    case Finish(t) =>
      var x := s.threads[t];
      With(s, t, if x.Stored? then Returned(x.rows) else Raised).(cache := s.cache.(refreshing := None))
    case Wake(t) =>
      var rows := Leave(s.cache, s.threads[t].seen);
      With(s, t, if rows.Some? then Returned(rows.value) else Raised)
    case GiveUp(t) => With(s, t, Raised)
    case Tick => s.(clock := s.clock + 1)
  }

  predicate Run(states: seq<Sys>, steps: seq<Step>) {
    && |states| == |steps| + 1
    && states[0] == Sys(Cache(None, None), map[], 0, 0, states[0].clock)
    && forall i :: 0 <= i < |steps| ==> Enabled(states[i], steps[i]) && states[i + 1] == Next(states[i], steps[i])
  }

  // ---------------------------------------------------------------- the invariant

  /** The event is registered exactly while its one owner runs. */
  ghost predicate OwnerInv(s: Sys) {
    && (forall t: nat :: t in s.threads && Owns(s.threads[t]) ==> s.cache.refreshing == Some(s.threads[t].event))
    && (forall t, u: nat :: t in s.threads && u in s.threads && Owns(s.threads[t]) && Owns(s.threads[u]) ==> t == u)
    && (s.cache.refreshing.Some? ==> exists t: nat :: t in s.threads && Owns(s.threads[t]))
    && (s.cache.refreshing.Some? ==> s.cache.refreshing.value < s.events)
    && (forall t: nat :: t in s.threads && s.threads[t].Waiting? ==> s.threads[t].event < s.events)
  }

  /** Snapshots are as old as their numbers say. */
  predicate TimeInv(s: Sys) {
    && (s.cache.snapshot.None? <==> s.stores == 0)
    && (s.cache.snapshot.Some? ==>
          s.cache.snapshot.value.number == s.stores && s.cache.snapshot.value.refreshedAt <= s.clock)
  }

  /** What the owner has stamped is newer than the snapshot. */
  ghost predicate StampInv(s: Sys) {
    forall t: nat :: t in s.threads && s.threads[t].Stamped? ==>
      s.threads[t].at <= s.clock
      && (s.cache.snapshot.Some? ==> s.cache.snapshot.value.refreshedAt < s.threads[t].at)
  }

  /** A waiter saw the time of the last store before it joined. */
  ghost predicate WaitInv(s: Sys) {
    forall t: nat :: t in s.threads && s.threads[t].Waiting? ==>
      && s.threads[t].joined <= s.stores
      && (s.threads[t].joined == s.stores ==> s.threads[t].seen == SeenAt(s.cache))
      && (s.threads[t].joined < s.stores && s.threads[t].seen.Some? ==>
            (s.cache.snapshot.Some? && s.threads[t].seen.value < s.cache.snapshot.value.refreshedAt))
  }

  ghost predicate Inv(s: Sys) {
    OwnerInv(s) && TimeInv(s) && StampInv(s) && WaitInv(s)
  }

  /** A thread that neither owns the refresh nor comes to own it may change; one that starts
      to wait has just seen the snapshot. */
  lemma BystanderKeepsInv(s: Sys, t: nat, to: Thread)
    requires Inv(s) && (t in s.threads ==> !Owns(s.threads[t])) && !Owns(to)
    requires to.Waiting? ==> to.event < s.events && to.joined == s.stores && to.seen == SeenAt(s.cache)
    ensures Inv(With(s, t, to))
  {
    BystanderKeepsOwner(s, t, to);
  }

  lemma BystanderKeepsOwner(s: Sys, t: nat, to: Thread)
    requires OwnerInv(s) && (t in s.threads ==> !Owns(s.threads[t])) && !Owns(to)
    requires to.Waiting? ==> to.event < s.events
    ensures OwnerInv(With(s, t, to))
  {
    if s.cache.refreshing.Some? {
      var u: nat :| u in s.threads && Owns(s.threads[u]);
      assert u in With(s, t, to).threads && Owns(With(s, t, to).threads[u]);
    }
  }

  lemma NewOwnerKeepsInv(s: Sys, t: nat)
    requires Inv(s) && t !in s.threads && s.cache.refreshing.None?
    ensures Inv(With(s, t, Fetching(s.events)).(cache := s.cache.(refreshing := Some(s.events)), events := s.events + 1))
  {
    var after := With(s, t, Fetching(s.events)).(cache := s.cache.(refreshing := Some(s.events)), events := s.events + 1);
    assert t in after.threads && Owns(after.threads[t]);
  }

  lemma JoinKeepsInv(s: Sys, a: Step)
    requires Inv(s) && a.Join? && Enabled(s, a)
    ensures Inv(Next(s, a))
  {
    match Enter(s.cache, a.force, s.clock, a.interval, s.events).1
    case Fresh(rows) =>
      hide Inv;
      BystanderKeepsInv(s, a.thread, Returned(rows));
    case Owner =>
      hide Inv;
      NewOwnerKeepsInv(s, a.thread);
    case Waiter(event, seen) => BystanderKeepsInv(s, a.thread, Waiting(event, seen, s.stores));
  }

  lemma OwnerKeepsInv(s: Sys, a: Step)
    requires Inv(s) && (a.Stamp? || a.FailFetch? || a.Store?) && Enabled(s, a)
    ensures Inv(Next(s, a))
  {
    var t := Next(s, a);
    assert Owns(t.threads[a.thread]) && Owns(s.threads[a.thread]);
    forall u: nat | u in t.threads && u != a.thread ensures !Owns(t.threads[u]) && t.threads[u] == s.threads[u] {}
  }

  lemma FinishKeepsInv(s: Sys, a: Step)
    requires Inv(s) && a.Finish? && Enabled(s, a)
    ensures Inv(Next(s, a))
  {
    var t := Next(s, a);
    assert Owns(s.threads[a.thread]);
    forall u: nat | u in t.threads ensures !Owns(t.threads[u]) {}
  }

  lemma WaiterKeepsInv(s: Sys, a: Step)
    requires Inv(s) && (a.Wake? || a.GiveUp?) && Enabled(s, a)
    ensures Inv(Next(s, a))
  {
    hide Inv;
    BystanderKeepsInv(s, a.thread, Next(s, a).threads[a.thread]);
  }

  lemma TickKeepsInv(s: Sys)
    requires Inv(s)
    ensures Inv(Next(s, Tick))
  {
  }

  lemma {:induction false} RunKeepsInv(states: seq<Sys>, steps: seq<Step>, i: nat)
    requires Run(states, steps) && i < |states|
    ensures Inv(states[i])
  {
    if i > 0 {
      RunKeepsInv(states, steps, i - 1);
      var s, a := states[i - 1], steps[i - 1];
      assert states[i - 1 + 1] == Next(s, a);
      match a {
        case Join(_, _, _) => JoinKeepsInv(s, a);
        case Stamp(_, _) => OwnerKeepsInv(s, a);
        case FailFetch(_) => OwnerKeepsInv(s, a);
        case Store(_) => OwnerKeepsInv(s, a);
        case Finish(_) => FinishKeepsInv(s, a);
        case Wake(_) => WaiterKeepsInv(s, a);
        case GiveUp(_) => WaiterKeepsInv(s, a);
        case Tick => TickKeepsInv(s);
      }
    }
  }

  // ---------------------------------------------------------------- the results

  /** At most one thread is refreshing, and the event is registered exactly while one is. */
  lemma RefreshIsSingleFlight(states: seq<Sys>, steps: seq<Step>, i: nat, t: nat, u: nat)
    requires Run(states, steps) && i < |states|
    ensures var s := states[i];
      && (t in s.threads && u in s.threads && Owns(s.threads[t]) && Owns(s.threads[u]) ==> t == u)
      && (s.cache.refreshing.Some? <==> exists x: nat :: x in s.threads && Owns(s.threads[x]))
  {
    RunKeepsInv(states, steps, i);
  }

  /** Snapshots never go backwards: each store is newer than the one before. */
  lemma SnapshotsMoveForward(states: seq<Sys>, steps: seq<Step>, i: nat)
    requires Run(states, steps) && i < |steps| && states[i].cache.snapshot.Some?
    ensures var before, after := states[i].cache.snapshot.value, states[i + 1].cache.snapshot;
      && after.Some?
      && (after.value == before
          || (steps[i].Store? && before.refreshedAt < after.value.refreshedAt && before.number < after.value.number))
  {
    RunKeepsInv(states, steps, i);
    assert states[i + 1] == Next(states[i], steps[i]);
  }

  /** A waiter that is woken returns if and only if something was stored after it joined, and
      then it returns the rows of the last such store. */
  lemma WaiterReturnsIffStoredSince(states: seq<Sys>, steps: seq<Step>, i: nat)
    requires Run(states, steps) && i < |steps| && steps[i].Wake?
    ensures var t := steps[i].thread;
      && t in states[i + 1].threads
      && (states[i + 1].threads[t].Returned? <==> states[i].stores > states[i].threads[t].joined)
      && (states[i + 1].threads[t].Returned? ==>
            states[i + 1].threads[t].rows == states[i].cache.snapshot.value.rows
            && states[i].cache.snapshot.value.number > states[i].threads[t].joined)
      && (!states[i + 1].threads[t].Returned? ==> states[i + 1].threads[t].Raised?)
  {
    RunKeepsInv(states, steps, i);
    assert states[i + 1] == Next(states[i], steps[i]);
  }

  // ---------------------------------------------------------------- where rows come from

  /** What a thread has stamped, it fetched, and the time was taken then. */
  lemma {:induction false} StampedOnce(states: seq<Sys>, steps: seq<Step>, i: nat, t: nat) returns (j: nat)
    requires Run(states, steps) && i < |states| && t in states[i].threads && states[i].threads[t].Stamped?
    ensures j < i && steps[j] == Stamp(t, states[i].threads[t].rows) && states[j + 1].clock == states[i].threads[t].at
  {
    assert i > 0;
    var s := states[i - 1];
    assert Enabled(s, steps[i - 1]) && states[i - 1 + 1] == Next(s, steps[i - 1]);
    if t in s.threads && s.threads[t].Stamped? && states[i].threads[t] == s.threads[t] {
      j := StampedOnce(states, steps, i - 1, t);
    } else {
      j := i - 1;
    }
  }

  /** The snapshot of a state: some owner fetched its rows at the time it is stamped with,
      stored it later, and no store came after that one. */
  lemma {:induction false} SnapshotWasStored(states: seq<Sys>, steps: seq<Step>, i: nat) returns (j: nat, k: nat)
    requires Run(states, steps) && i < |states| && states[i].cache.snapshot.Some?
    ensures j < k < i && steps[k].Store? && steps[j] == Stamp(steps[k].thread, states[i].cache.snapshot.value.rows)
    ensures states[j + 1].clock == states[i].cache.snapshot.value.refreshedAt
    ensures forall m :: k < m < i ==> !steps[m].Store?
  {
    assert i > 0;
    var s, a := states[i - 1], steps[i - 1];
    assert Enabled(s, a) && states[i - 1 + 1] == Next(s, a);
    if a.Store? {
      j := StampedOnce(states, steps, i - 1, a.thread);
      k := i - 1;
    } else {
      OnlyAStoreStores(s, a);
      j, k := SnapshotWasStored(states, steps, i - 1);
    }
  }

  lemma OnlyAStoreStores(s: Sys, a: Step)
    requires Enabled(s, a) && !a.Store?
    ensures Next(s, a).cache.snapshot == s.cache.snapshot
  {
  }

  /** How a thread joins: it returns at once exactly when it does not insist and the snapshot
      is younger than the interval; otherwise it fetches if nobody does, and waits if somebody
      does. */
  lemma JoinIsDecided(s: Sys, a: Step)
    requires Enabled(s, a) && a.Join?
    ensures a.thread in Next(s, a).threads
    ensures var t := Next(s, a).threads[a.thread];
      if !a.force && s.cache.snapshot.Some? && a.interval > 0 && s.clock - s.cache.snapshot.value.refreshedAt < a.interval
      then t == Returned(s.cache.snapshot.value.rows)
      else if s.cache.refreshing == None then t == Fetching(s.events)
      else t == Waiting(s.cache.refreshing.value,
                        if s.cache.snapshot.Some? then Some(s.cache.snapshot.value.refreshedAt) else None, s.stores)
  {
  }

  /** In every run, a thread that returns as it joins did not insist, and it returns rows that
      were fetched less than the interval before, by the last owner that stored any. */
  lemma ReturnsAtOnceOnlyWhatIsFresh(states: seq<Sys>, steps: seq<Step>, i: nat) returns (j: nat, k: nat)
    requires Run(states, steps) && i < |steps| && steps[i].Join?
    requires steps[i].thread in states[i + 1].threads && states[i + 1].threads[steps[i].thread].Returned?
    ensures !steps[i].force
    ensures j < k < i && steps[k].Store?
    ensures steps[j] == Stamp(steps[k].thread, states[i + 1].threads[steps[i].thread].rows)
    ensures states[i].clock - states[j + 1].clock < steps[i].interval
    ensures forall m :: k < m < i ==> !steps[m].Store?
  {
    assert Enabled(states[i], steps[i]) && states[i + 1] == Next(states[i], steps[i]);
    JoinIsDecided(states[i], steps[i]);
    j, k := SnapshotWasStored(states, steps, i);
  }

  /** In every run, whatever a thread returns was fetched by some owner. */
  lemma {:induction false} ReturnedWasFetched(states: seq<Sys>, steps: seq<Step>, i: nat, t: nat) returns (j: nat)
    requires Run(states, steps) && i < |states| && t in states[i].threads
    requires states[i].threads[t].Returned? || states[i].threads[t].Stored?
    ensures j < i && steps[j].Stamp? && steps[j].rows == states[i].threads[t].rows
  {
    assert i > 0;
    var s, a := states[i - 1], steps[i - 1];
    assert Enabled(s, a) && states[i - 1 + 1] == Next(s, a);
    if t in s.threads && states[i].threads[t] == s.threads[t] {
      j := ReturnedWasFetched(states, steps, i - 1, t);
    } else if a.Store? {
      j := StampedOnce(states, steps, i - 1, t);
    } else if a.Finish? {
      j := ReturnedWasFetched(states, steps, i - 1, t);
    } else {
      var k;
      j, k := SnapshotWasStored(states, steps, i - 1);
    }
  }

  /** The states of an owner and of a thread that joins between its store and its finish. */
  function Late(rows: seq<string>, start: int, i: nat): Sys
    requires i <= 6
  {
    var stored := Cache(Some(Snapshot(rows, start + 1, 1)), Some(0));
    var waiting := Waiting(0, Some(start + 1), 1);
    match i
    case 0 => Sys(Cache(None, None), map[], 0, 0, start)
    case 1 => Sys(Cache(None, Some(0)), map[0 := Fetching(0)], 1, 0, start)
    case 2 => Sys(Cache(None, Some(0)), map[0 := Stamped(0, rows, start + 1)], 1, 0, start + 1)
    case 3 => Sys(stored, map[0 := Thread.Stored(0, rows)], 1, 1, start + 1)
    case 4 => Sys(stored, map[0 := Thread.Stored(0, rows), 1 := waiting], 1, 1, start + 1)
    case 5 => Sys(stored.(refreshing := None), map[0 := Returned(rows), 1 := waiting], 1, 1, start + 1)
    case 6 => Sys(stored.(refreshing := None), map[0 := Returned(rows), 1 := Raised], 1, 1, start + 1)
  }

  function LateSteps(rows: seq<string>): seq<Step> {
    [Join(0, true, 1), Stamp(0, rows), Store(0), Join(1, true, 1), Finish(0), Wake(1)]
  }

  lemma LateStep(rows: seq<string>, start: int, i: nat)
    requires i < 6
    ensures Enabled(Late(rows, start, i), LateSteps(rows)[i])
    ensures Next(Late(rows, start, i), LateSteps(rows)[i]) == Late(rows, start, i + 1)
  {
  }

  /** A forced refresh that joins between the owner's store and its finish waits for an event
      that brings nothing new: it raises although the owner succeeded. */
  lemma LateWaiterRaises(rows: seq<string>, start: int) returns (states: seq<Sys>, steps: seq<Step>)
    ensures Run(states, steps) && |steps| == 6 && steps[5] == Wake(1)
    ensures states[6].threads == map[0 := Returned(rows), 1 := Raised]
  {
    hide Next, Enabled;
    steps := LateSteps(rows);
    states := seq(7, i requires 0 <= i < 7 => Late(rows, start, i));
    forall i | 0 <= i < 6 ensures Enabled(states[i], steps[i]) && states[i + 1] == Next(states[i], steps[i]) {
      LateStep(rows, start, i);
    }
  }

  // ---------------------------------------------------------------- the object

  /** The cache's fields for one service, and the regions of `refresh`. */
  class RouteSnapshots {
    var snapshot: Option<Snapshot>
    var refreshing: Option<nat>

    ghost function Abs(): Cache
      reads this
    {
      Cache(snapshot, refreshing)
    }

    constructor ()
      ensures Abs() == Cache(None, None)
    {
      snapshot, refreshing := None, None;
    }

    method EnterRefresh(force: bool, now: int, interval: int, event: nat) returns (role: Role)
      modifies this
      ensures (Abs(), role) == Enter(old(Abs()), force, now, interval, event)
      ensures snapshot == old(snapshot)
      ensures role.Fresh? <==>
        !force && snapshot.Some? && interval > 0 && now - snapshot.value.refreshedAt < interval
      ensures role.Fresh? ==> role.rows == snapshot.value.rows && refreshing == old(refreshing)
      ensures !role.Fresh? ==> (role == Owner <==> old(refreshing) == None)
      ensures role == Owner ==> refreshing == Some(event)
      ensures role.Waiter? ==> Some(role.event) == refreshing == old(refreshing)
      ensures role.Waiter? ==> role.seen == if snapshot.Some? then Some(snapshot.value.refreshedAt) else None
    {
      if !force && snapshot.Some? {
        var age := now - snapshot.value.refreshedAt;
        if (if age < 0 then 0 else age) < interval {
          return Fresh(snapshot.value.rows);
        }
      }
      if refreshing.None? {
        refreshing := Some(event);
        return Owner;
      }
      role := Waiter(refreshing.value, if snapshot.Some? then Some(snapshot.value.refreshedAt) else None);
    }

    /** The region of an owner whose fetch succeeded. */
    method StoreSnapshot(fetched: Snapshot)
      modifies this
      ensures Abs() == old(Abs()).(snapshot := Some(fetched))
    {
      snapshot := Some(fetched);
    }

    /** The region in which every owner ends: the event goes, whether or not it stored. */
    method FinishRefresh()
      modifies this
      ensures Abs() == old(Abs()).(refreshing := None)
    {
      refreshing := None;
    }

    method LeaveWait(seen: Option<int>) returns (rows: Option<seq<string>>)
      ensures rows == Leave(Abs(), seen)
      ensures rows.Some? <==> snapshot.Some? && (seen.None? || snapshot.value.refreshedAt != seen.value)
      ensures rows.Some? ==> rows.value == snapshot.value.rows
    {
      if snapshot.Some? && Some(snapshot.value.refreshedAt) != seen {
        return Some(snapshot.value.rows);
      }
      rows := None;
    }
  }
}
