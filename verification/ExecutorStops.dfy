/** Stopping a service or a pool: what it removes, what it spares, and that nothing but a
    new creation brings its process pool or its calls back. */
module ExecutorStops {
  import opened Prelude
  import opened ExecutorTables
  import opened ExecutorSteps
  import opened ExecutorInvariants
  import opened ExecutorRuns

  /** `m` loses exactly the futures below n that satisfy `gone`. */
  ghost predicate Removes(m: map<nat, Meta>, d: map<nat, Meta>, gone: Meta -> bool, n: nat) {
    && (forall f :: f in d <==> f in m && !(f < n && gone(m[f])))
    && (forall f :: f in d ==> d[f] == m[f])
  }

  lemma {:induction false} FailServiceEffect(c: Core, sid: string, n: nat)
    ensures Removes(c.book.inflight, FailService(c, sid, n).book.inflight, (m: Meta) => m.job.ServiceJob? && m.job.serviceId == sid, n)
    ensures FailService(c, sid, n).services == c.services && FailService(c, sid, n).pools == c.pools
  {
    if n > 0 {
      FailServiceEffect(c, sid, n - 1);
    }
  }

  lemma {:induction false} FailPoolEffect(c: Core, pid: string, n: nat)
    ensures Removes(c.book.inflight, FailPool(c, pid, n).book.inflight, (m: Meta) => m.job.PoolJob? && m.job.poolId == pid, n)
    ensures FailPool(c, pid, n).services == c.services && FailPool(c, pid, n).pools == c.pools
  {
    if n > 0 {
      FailPoolEffect(c, pid, n - 1);
    }
  }

  /** After a stop, d has no call of the service and no process pool for it, while every
      other future and every other process pool is as it was in c. */
  ghost predicate StopsExactly(c: Core, d: Core, sid: string) {
    && Removes(c.book.inflight, d.book.inflight, (m: Meta) => m.job.ServiceJob? && m.job.serviceId == sid, c.book.nextFuture)
    && sid !in d.services.workers && sid !in d.services.executors
    && d.services.executors == c.services.executors - {sid}
    && d.services.workers == c.services.workers - {sid}
    && d.pools == c.pools && d.runtime == c.runtime
  }

  /** `stop_service` compares in-flight calls with the stripped id but tables with the id as
      given, so it stops exactly its service for every state if and only if the id is
      trimmed. An id with outer white space leaves its own calls in flight. */
  lemma StopIsExactIffTrimmed(sid: string)
    ensures (forall c :: CoreInv(c) ==> StopsExactly(c, StopService(c, sid), sid)) <==> Trimmed(sid)
  {
    hide CoreInv, StopService, StopsExactly, Trimmed;
    if Trimmed(sid) {
      forall c | CoreInv(c) ensures StopsExactly(c, StopService(c, sid), sid) {
        TrimmedStopIsExact(c, sid);
      }
    } else {
      UntrimmedStopMisses(sid);
    }
  }

  lemma TrimmedStopIsExact(c: Core, sid: string)
    requires Trimmed(sid)
    ensures StopsExactly(c, StopService(c, sid), sid)
  {
    StripFixesExactlyTrimmed(sid);
    FailServiceEffect(c.(services := Stop(c.services, sid)), sid, c.book.nextFuture);
    FailServiceKeepsRuntime(c.(services := Stop(c.services, sid)), sid, c.book.nextFuture);
  }

  /** A call that is in flight for the id as it was given stays there. */
  lemma UntrimmedStopMisses(sid: string)
    requires !Trimmed(sid)
    ensures exists c :: CoreInv(c) && !StopsExactly(c, StopService(c, sid), sid)
  {
    StripFixesExactlyTrimmed(sid);
    var call := Meta(ServiceJob(sid, "req-1", 1.0, 60.0, None), 0, 0);
    var c := Init(1).(book := Init(1).book.(inflight := map[0 := call], nextFuture := 1));
    FailServiceEffect(c.(services := Stop(c.services, sid)), Strip(sid), 1);
    assert 0 in StopService(c, sid).book.inflight;
    assert CoreInv(c) && !StopsExactly(c, StopService(c, sid), sid);
  }

  lemma {:induction false} FailServiceKeepsRuntime(c: Core, sid: string, n: nat)
    ensures FailService(c, sid, n).runtime == c.runtime
  {
    if n > 0 {
      FailServiceKeepsRuntime(c, sid, n - 1);
    }
  }

  /** The same for `stop_task_pool`. */
  lemma StopPoolIsExactIffTrimmed(pid: string)
    ensures (forall c :: CoreInv(c) ==>
               var d := StopPool(c, pid);
               && Removes(c.book.inflight, d.book.inflight, (m: Meta) => m.job.PoolJob? && m.job.poolId == pid, c.book.nextFuture)
               && d.pools.executors == c.pools.executors - {pid} && d.services == c.services)
            <==> Trimmed(pid)
  {
    StripFixesExactlyTrimmed(pid);
    if Trimmed(pid) {
      forall c | CoreInv(c)
        ensures var d := StopPool(c, pid);
                && Removes(c.book.inflight, d.book.inflight, (m: Meta) => m.job.PoolJob? && m.job.poolId == pid, c.book.nextFuture)
                && d.pools.executors == c.pools.executors - {pid} && d.services == c.services
      {
        FailPoolEffect(c.(pools := Stop(c.pools, pid)), pid, c.book.nextFuture);
      }
    } else {
      var task := Meta(PoolJob(pid, "task", 0), 0, 0);
      var c := Init(1).(book := Init(1).book.(inflight := map[0 := task], nextFuture := 1));
      FailPoolEffect(c.(pools := Stop(c.pools, pid)), Strip(pid), 1);
      assert 0 in StopPool(c, pid).book.inflight;
      assert CoreInv(c);
    }
  }

  // ---------------------------------------------------------------- stop is final

  datatype Kind = Services | Pools

  function TableOf(c: Core, kind: Kind): Table {
    if kind.Services? then c.services else c.pools
  }

  /** The service or pool a job runs on. */
  function ResourceOf(j: Job, kind: Kind): Option<string> {
    if kind.Services? && j.ServiceJob? then Some(j.serviceId)
    else if kind.Pools? && j.PoolJob? then Some(j.poolId)
    else None
  }

  ghost predicate Absent(t: Table, key: string) {
    key !in t.workers && key !in t.executors
  }

  /** The resource is not registered, owns no process pool and has no job in flight. */
  ghost predicate Gone(c: Core, kind: Kind, key: string) {
    && Absent(TableOf(c, kind), key)
    && forall f :: f in c.book.inflight ==> ResourceOf(c.book.inflight[f].job, kind) != Some(key)
  }

  lemma SubmitKeepsAbsent(t: Table, other: string, e: SubmitEnv, key: string)
    requires Absent(t, key)
    ensures Absent(Submit(t, other, e).0, key) && (Submit(t, other, e).1 ==> other != key)
  {
  }

  lemma {:induction false} BackgroundKeepsAbsent(t: Table, other: string, attempts: seq<Attempt>, key: string)
    requires Absent(t, key) && other != key
    ensures Absent(Background(t, other, attempts).0, key)
    decreases |attempts|
  {
    if attempts != [] && TryOnce(t, other, attempts[0]).ok {
      BackgroundKeepsAbsent(TryOnce(t, other, attempts[0]).table, other, attempts[1..], key);
    }
  }

  lemma WarmKeepsAbsent(t: Table, other: string, e: Env, key: string)
    requires Absent(t, key)
    ensures Absent(Warm(t, other, e).0, key)
  {
    if other != key {
      BackgroundKeepsAbsent(Ensure(t, other, e.build), other, e.background, key);
    }
  }

  lemma SweepsKeepGone(c: Core, other: string, now: real, n: nat, kind: Kind, key: string)
    requires Gone(c, kind, key)
    ensures Gone(FailService(c, other, n), kind, key) && Gone(FailPool(c, other, n), kind, key)
    ensures Gone(Expire(c, now, n), kind, key) && Gone(DrainStreams(c, n), kind, key)
  {
    var inv := (d: Core) => Gone(d, kind, key);
    forall d, f: nat | inv(d)
      ensures inv(FailServiceOne(d, other, f)) && inv(FailPoolOne(d, other, f))
      ensures inv(ExpireOne(d, now, f)) && inv(DrainStream(d, f))
    {
    }
    FoldKeeps(inv, (d: Core, f: nat) => FailServiceOne(d, other, f), c, n);
    FoldKeeps(inv, (d: Core, f: nat) => FailPoolOne(d, other, f), c, n);
    FoldKeeps(inv, (d: Core, f: nat) => ExpireOne(d, now, f), c, n);
    FoldKeeps(inv, (d: Core, f: nat) => DrainStream(d, f), c, n);
  }

  lemma CompleteKeepsGone(c: Core, e: SubmitEnv, kind: Kind, key: string)
    requires Gone(c, kind, key)
    ensures Gone(Complete(c, e), kind, key)
  {
    if c.book.completed != [] && c.book.completed[0] in c.book.inflight {
      var f := c.book.completed[0];
      var m := c.book.inflight[f];
      var c1 := c.(book := Untrack(c.book.(completed := c.book.completed[1..]), f));
      ResubmitKeepsGone(c1, m.job, e, kind, key);
      RetryKeepsGone(Resubmit(c1, m.job, e).0, m, kind, key);
      RetryKeepsGone(c1, m, kind, key);
    }
  }

  lemma ResubmitKeepsGone(c: Core, j: Job, e: SubmitEnv, kind: Kind, key: string)
    requires Gone(c, kind, key) && ResourceOf(j, kind) != Some(key)
    ensures Gone(Resubmit(c, j, e).0, kind, key)
  {
    if j.ServiceJob? && kind.Services? {
      SubmitKeepsAbsent(c.services, j.serviceId, e, key);
    } else if j.PoolJob? && kind.Pools? {
      SubmitKeepsAbsent(c.pools, j.poolId, e, key);
    }
  }

  lemma RetryKeepsGone(c: Core, m: Meta, kind: Kind, key: string)
    requires Gone(c, kind, key) && ResourceOf(m.job, kind) != Some(key)
    ensures Gone(Retry(c, m), kind, key) && Gone(Fail(c, m), kind, key)
  {
  }

  lemma CallKeepsGone(c: Core, id: string, sid: string, timeout: real, now: real, streams: bool, e: Env,
                      kind: Kind, key: string)
    requires Gone(c, kind, key)
    ensures Gone(HandleCall(c, id, sid, timeout, now, streams, e), kind, key)
  {
    if kind.Services? { SubmitKeepsAbsent(c.services, sid, e.submit, key); }
  }

  lemma TasksKeepGone(c: Core, id: string, other: string, task: string, attempt: int, e: Env, kind: Kind, key: string)
    requires Gone(c, kind, key)
    ensures Gone(HandlePoolTask(c, id, other, task, attempt, e), kind, key)
    ensures Gone(HandleRuntimeTask(c, id, other, task, attempt, e), kind, key)
  {
    if kind.Pools? { SubmitKeepsAbsent(c.pools, other, e.submit, key); }
  }

  lemma StopsKeepGone(c: Core, other: string, kind: Kind, key: string)
    requires Gone(c, kind, key)
    ensures Gone(StopService(c, other), kind, key) && Gone(StopPool(c, other), kind, key)
  {
    SweepsKeepGone(c.(services := Stop(c.services, other)), Strip(other), 0.0, c.book.nextFuture, kind, key);
    SweepsKeepGone(c.(pools := Stop(c.pools, other)), Strip(other), 0.0, c.book.nextFuture, kind, key);
  }

  /** The request that creates the resource. */
  predicate Creates(a: Action, kind: Kind, key: string) {
    if kind.Services? then a.CreateService? && a.serviceId == key else a.CreatePool? && a.poolId == key
  }

  lemma TableRequestsKeepGone(c: Core, id: string, a: Action, e: Env, kind: Kind, key: string)
    requires Gone(c, kind, key) && !Creates(a, kind, key)
    ensures Gone(HandleTables(c, id, a, e), kind, key)
  {
    if a.WarmService? && kind.Services? { WarmKeepsAbsent(c.services, a.serviceId, e, key); }
    if a.WarmPool? && kind.Pools? { WarmKeepsAbsent(c.pools, a.poolId, e, key); }
  }

  lemma EndKeepsGone(c: Core, id: string, other: string, e: Env, kind: Kind, key: string)
    requires Gone(c, kind, key)
    ensures Gone(Handle(c, id, EndService(other), e), kind, key)
    ensures Gone(Handle(c, id, EndPool(other), e), kind, key)
  {
    StopsKeepGone(c, other, kind, key);
  }

  lemma HandleKeepsGone(c: Core, id: string, a: Action, e: Env, kind: Kind, key: string)
    requires Gone(c, kind, key) && !Creates(a, kind, key)
    ensures Gone(Handle(c, id, a, e), kind, key)
  {
    match a
    case EndService(other) => EndKeepsGone(c, id, other, e, kind, key);
    case EndPool(other) => EndKeepsGone(c, id, other, e, kind, key);
    case CallService(sid, timeout, now, streams) => CallKeepsGone(c, id, sid, timeout, now, streams, e, kind, key);
    case SubmitPool(other, task, attempt) => TasksKeepGone(c, id, other, task, attempt, e, kind, key);
    case SubmitRuntime(other, task, attempt) => TasksKeepGone(c, id, other, task, attempt, e, kind, key);
    case _ => TableRequestsKeepGone(c, id, a, e, kind, key);
  }

  /** Stop is final: once a service or pool is gone, no later completion, retry, warm-up,
      timeout, poll or foreign request registers it, builds a process pool for it or accepts
      a job for it, until it is created again. */
  lemma StopIsFinal(s: Sys, steps: seq<Step>, kind: Kind, key: string)
    requires Gone(s.core, kind, key)
    requires forall step :: step in steps ==> !(step.Request? && Creates(step.action, kind, key))
    ensures Gone(Run(s, steps).core, kind, key)
  {
    var inv := (t: Sys) => Gone(t.core, kind, key);
    forall t, step | inv(t) && step in steps
      ensures inv(Next(t, step))
    {
      match step
      case Request(id, a, e) => HandleKeepsGone(t.core, id, a, e, kind, key);
      case PollStreams => SweepsKeepGone(t.core, "", 0.0, t.core.book.nextFuture, kind, key);
      case PollCompletion(e) => CompleteKeepsGone(t.core, e, kind, key);
      case PollTimeouts(now) => SweepsKeepGone(t.core, "", now, t.core.book.nextFuture, kind, key);
      case _ =>
    }
    RunKeeps(inv, s, steps);
  }

  /** A stop under a trimmed id brings about what StopIsFinal then keeps. */
  lemma StopServiceMakesGone(c: Core, key: string)
    requires CoreInv(c) && Strip(key) == key
    ensures Gone(StopService(c, key), Services, key)
  {
    FailServiceEffect(c.(services := Stop(c.services, key)), key, c.book.nextFuture);
  }

  lemma StopPoolMakesGone(c: Core, key: string)
    requires CoreInv(c) && Strip(key) == key
    ensures Gone(StopPool(c, key), Pools, key)
  {
    FailPoolEffect(c.(pools := Stop(c.pools, key)), key, c.book.nextFuture);
  }

  lemma StopMakesGone(c: Core, key: string)
    requires CoreInv(c) && Trimmed(key)
    ensures Gone(StopService(c, key), Services, key) && Gone(StopPool(c, key), Pools, key)
  {
    StripFixesExactlyTrimmed(key);
    StopServiceMakesGone(c, key);
    StopPoolMakesGone(c, key);
  }
}
