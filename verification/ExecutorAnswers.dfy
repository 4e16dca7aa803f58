/** What the answers of the executor say: a result is the one a worker of that very job
    returned, an acknowledged task is one that is tracked, and only calls past their
    deadline are timed out. */
module ExecutorAnswers {
  import opened Prelude
  import opened ExecutorTables
  import opened ExecutorSteps
  import opened ExecutorInvariants
  import opened ExecutorRuns
  import opened ExecutorStops

  /** The worker's value an event reports. */
  function Reported(e: Event): Option<int> {
    match e
    case Response(_, Result(Finished(v))) => Some(v)
    case Done(_, Finished(v)) => Some(v)
    case _ => None
  }

  /** A step from c to d that reports nothing new and works on known jobs. */
  ghost predicate ReportsNothing(c: Core, d: Core) {
    && (forall e :: e in d.log && Reported(e).Some? ==> e in c.log)
    && d.book.done == c.book.done
    && (forall f :: f in d.book.inflight && f in c.book.inflight ==>
          d.book.inflight[f].job == c.book.inflight[f].job)
    && (forall f :: f in d.book.inflight && f !in c.book.inflight ==> f == c.book.nextFuture < d.book.nextFuture)
  }

  lemma {:induction false} ItemsReportNothing(request: string, q: seq<Queued>, n: nat)
    ensures forall e :: e in ItemEvents(request, q, n) ==> Reported(e) == None
  {
    if q != [] {
      ItemsReportNothing(request, q[1..], n + 1);
    }
  }

  lemma DrainReportsNothing(b: Book, m: Meta)
    ensures forall e :: e in DrainEvents(b, m) ==> Reported(e) == None
  {
    if Drains(b, m) != 0 {
      ItemsReportNothing(m.job.request, b.queues[m.job.stream.value][..Drains(b, m)], m.emitted);
    }
  }

  /** A sweep from c that has reached d. */
  ghost predicate SweepReportsNothing(c: Core, d: Core) {
    ReportsNothing(c, d) && d.book.inflight.Keys <= c.book.inflight.Keys
  }

  lemma SettleReportsNothing(c: Core, d: Core, f: nat, e: Event, services: Table)
    requires SweepReportsNothing(c, d) && f in d.book.inflight && Reported(e) == None
    ensures SweepReportsNothing(c, Settle(d, f, e).(services := services))
  {
  }

  lemma PollReportsNothing(c: Core, d: Core, f: nat)
    requires SweepReportsNothing(c, d)
    ensures SweepReportsNothing(c, DrainStream(d, f))
  {
    if f in d.book.inflight { DrainReportsNothing(d.book, d.book.inflight[f]); }
  }

  lemma FailuresReportNothing(c: Core, key: string, n: nat)
    ensures SweepReportsNothing(c, FailService(c, key, n)) && SweepReportsNothing(c, FailPool(c, key, n))
  {
    var inv := (d: Core) => SweepReportsNothing(c, d);
    forall d, f: nat | inv(d)
      ensures inv(FailServiceOne(d, key, f)) && inv(FailPoolOne(d, key, f))
    {
      if f in d.book.inflight {
        SettleReportsNothing(c, d, f, Settling(d.book.inflight[f].job, ServiceStopped), d.services);
        SettleReportsNothing(c, d, f, Settling(d.book.inflight[f].job, TaskPoolStopped), d.services);
      }
    }
    FoldKeeps(inv, (d: Core, f: nat) => FailServiceOne(d, key, f), c, n);
    FoldKeeps(inv, (d: Core, f: nat) => FailPoolOne(d, key, f), c, n);
  }

  lemma PollsReportNothing(c: Core, now: real, n: nat)
    ensures SweepReportsNothing(c, Expire(c, now, n)) && SweepReportsNothing(c, DrainStreams(c, n))
  {
    var inv := (d: Core) => SweepReportsNothing(c, d);
    forall d, f: nat | inv(d)
      ensures inv(ExpireOne(d, now, f)) && inv(DrainStream(d, f))
    {
      PollReportsNothing(c, d, f);
      if f in d.book.inflight && TimedOut(d.book.inflight[f], now) {
        var j := d.book.inflight[f].job;
        SettleReportsNothing(c, d, f, Response(j.request, InvokeTimeout),
                             if j.serviceId == "" then d.services else Close(d.services, j.serviceId));
      }
    }
    FoldKeeps(inv, (d: Core, f: nat) => ExpireOne(d, now, f), c, n);
    FoldKeeps(inv, (d: Core, f: nat) => DrainStream(d, f), c, n);
  }

  lemma StopsReportNothing(c: Core, h: Core, id: string, key: string, r: Reply)
    requires forall v :: r != Result(Finished(v))
    requires h == Answer(StopService(c, key), id, r) || h == Answer(StopPool(c, key), id, r)
    ensures ReportsNothing(c, h)
  {
    FailuresReportNothing(c.(services := Stop(c.services, key)), Strip(key), c.book.nextFuture);
    FailuresReportNothing(c.(pools := Stop(c.pools, key)), Strip(key), c.book.nextFuture);
  }

  lemma CallReportsNothing(c: Core, id: string, sid: string, timeout: real, now: real, streams: bool, e: Env)
    requires c.book.nextFuture !in c.book.inflight
    ensures ReportsNothing(c, HandleCall(c, id, sid, timeout, now, streams, e))
  {
  }

  lemma PoolTaskReportsNothing(c: Core, id: string, pid: string, task: string, attempt: int, e: Env)
    requires c.book.nextFuture !in c.book.inflight
    ensures ReportsNothing(c, HandlePoolTask(c, id, pid, task, attempt, e))
  {
  }

  lemma RuntimeTaskReportsNothing(c: Core, id: string, key: string, task: string, attempt: int, e: Env)
    requires c.book.nextFuture !in c.book.inflight
    ensures ReportsNothing(c, HandleRuntimeTask(c, id, key, task, attempt, e))
  {
  }

  lemma WorkReportsNothing(c: Core, id: string, a: Action, e: Env)
    requires c.book.nextFuture !in c.book.inflight && (a.CallService? || a.SubmitPool? || a.SubmitRuntime?)
    ensures ReportsNothing(c, Handle(c, id, a, e))
  {
    hide ReportsNothing, HandleCall, HandlePoolTask, HandleRuntimeTask;
    match a
    case CallService(sid, timeout, now, streams) => CallReportsNothing(c, id, sid, timeout, now, streams, e);
    case SubmitPool(pid, task, attempt) => PoolTaskReportsNothing(c, id, pid, task, attempt, e);
    case SubmitRuntime(key, task, attempt) => RuntimeTaskReportsNothing(c, id, key, task, attempt, e);
  }

  lemma TableRequestReportsNothing(c: Core, id: string, a: Action, e: Env)
    ensures ReportsNothing(c, HandleTables(c, id, a, e))
  {
    assert HandleTables(c, id, a, e).book == c.book;
  }

  lemma EndReportsNothing(c: Core, id: string, a: Action, e: Env)
    requires a.EndService? || a.EndPool?
    ensures ReportsNothing(c, Handle(c, id, a, e))
  {
    var h := Handle(c, id, a, e);
    var r := h.log[|h.log| - 1].reply;
    if a.EndService? {
      StopsReportNothing(c, h, id, a.serviceId, r);
    } else {
      StopsReportNothing(c, h, id, a.poolId, r);
    }
  }

  lemma HandleReportsNothing(c: Core, id: string, a: Action, e: Env)
    requires c.book.nextFuture !in c.book.inflight
    ensures ReportsNothing(c, Handle(c, id, a, e))
  {
    if a.EndService? || a.EndPool? {
      EndReportsNothing(c, id, a, e);
    } else if a.CallService? || a.SubmitPool? || a.SubmitRuntime? {
      WorkReportsNothing(c, id, a, e);
    } else {
      TableRequestReportsNothing(c, id, a, e);
    }
  }

  // ---------------------------------------------------------------- true answers

  /** Future f worked for k and its worker returned v. */
  ghost predicate Witnessed(s: Sys, f: nat, k: Key, v: int) {
    f in s.jobs && KeyOf(s.jobs[f]) == k && f in s.core.book.done && s.core.book.done[f] == Returned(v)
  }

  /** Every reported value was returned by the worker of a future that was tracked for the
      very request or task it is reported for. */
  ghost predicate Truthful(s: Sys) {
    forall e :: e in s.core.log && Reported(e).Some? ==>
      exists f :: Witnessed(s, f, KeyOfEvent(e).value, Reported(e).value)
  }

  ghost predicate Registered(s: Sys) {
    && (forall f :: f in s.core.book.inflight ==> f in s.jobs && s.jobs[f] == s.core.book.inflight[f].job)
    && (forall f :: f in s.jobs ==> f < s.core.book.nextFuture)
  }

  lemma QuietStepIsTruthful(s: Sys, t: Sys)
    requires Truthful(s) && Registered(s) && ReportsNothing(s.core, t.core)
    requires t.jobs == s.jobs + NewJobs(s.core.book, t.core.book)
    requires s.core.book.nextFuture <= t.core.book.nextFuture
    ensures Truthful(t) && Registered(t)
  {
    forall e | e in t.core.log && Reported(e).Some?
      ensures exists f :: Witnessed(t, f, KeyOfEvent(e).value, Reported(e).value)
    {
      var f :| Witnessed(s, f, KeyOfEvent(e).value, Reported(e).value);
      assert Witnessed(t, f, KeyOfEvent(e).value, Reported(e).value);
    }
  }

  /** The future that a step tracks is new, so old jobs keep their numbers. */
  lemma HandleAdvances(c: Core, id: string, a: Action, e: Env)
    requires BookInv(c.book)
    ensures c.book.nextFuture <= Handle(c, id, a, e).book.nextFuture
  {
    if a.EndService? {
      StopServiceBalanced(c, a.serviceId, Call(""));
    } else if a.EndPool? {
      StopPoolBalanced(c, a.poolId, Call(""));
    }
  }

  lemma CompleteReports(s: Sys, e: SubmitEnv)
    requires CoreInv(s.core) && Truthful(s) && Registered(s)
    ensures Truthful(Next(s, PollCompletion(e))) && Registered(Next(s, PollCompletion(e)))
  {
    var c, t := s.core, Next(s, PollCompletion(e));
    if c.book.completed != [] && c.book.completed[0] in c.book.inflight {
      var f := c.book.completed[0];
      var m, out := c.book.inflight[f], c.book.done[f];
      var b := Untrack(c.book.(completed := c.book.completed[1..]), f);
      if out.Returned? {
        DeliverReports(s, t, f, b);
      } else {
        RecoverReportsNothing(c, c.(book := b), m, out.recoverable, e);
        QuietStepIsTruthful(s, t);
      }
    } else {
      QuietStepIsTruthful(s, t);
    }
  }

  lemma RecoverReportsNothing(c: Core, d: Core, m: Meta, recoverable: bool, e: SubmitEnv)
    requires TablesInv(d) && BookInv(c.book) && d.log == c.log && d.book.inflight.Keys <= c.book.inflight.Keys
    requires d.book == c.book.(inflight := d.book.inflight, streaming := d.book.streaming, completed := d.book.completed)
    requires forall f :: f in d.book.inflight ==> d.book.inflight[f] == c.book.inflight[f]
    ensures ReportsNothing(c, Recover(d, m, recoverable, e))
    ensures c.book.nextFuture <= Recover(d, m, recoverable, e).book.nextFuture
  {
    ResubmitKeepsTables(d, m.job, e);
    var (x, ok) := if recoverable && m.recoveries < 1 then Resubmit(d, m.job, e) else (d, false);
    RetryReportsNothing(c, x, m);
  }

  lemma RetryReportsNothing(c: Core, x: Core, m: Meta)
    requires BookInv(c.book) && x.log == c.log && x.book.inflight.Keys <= c.book.inflight.Keys
    requires x.book == c.book.(inflight := x.book.inflight, streaming := x.book.streaming, completed := x.book.completed)
    requires forall f :: f in x.book.inflight ==> x.book.inflight[f] == c.book.inflight[f]
    ensures ReportsNothing(c, Retry(x, m)) && ReportsNothing(c, Fail(x, m))
  {
  }

  lemma DeliverReports(s: Sys, t: Sys, f: nat, b: Book)
    requires CoreInv(s.core) && Truthful(s) && Registered(s)
    requires f in s.core.book.inflight && f in s.core.book.done && s.core.book.done[f].Returned?
    requires b.inflight == s.core.book.inflight - {f} && b.done == s.core.book.done && b.nextFuture == s.core.book.nextFuture
    requires t.core == Deliver(s.core.(book := b), s.core.book.inflight[f], s.core.book.done[f].value)
    requires t.jobs == s.jobs
    ensures Truthful(t) && Registered(t)
  {
    var m, v := s.core.book.inflight[f], s.core.book.done[f].value;
    DrainReportsNothing(b, m);
    assert Witnessed(t, f, KeyOf(m.job), v);
    forall e | e in t.core.log && Reported(e).Some?
      ensures exists g :: Witnessed(t, g, KeyOfEvent(e).value, Reported(e).value)
    {
      assert e !in DrainEvents(b, m);
      if e in s.core.log {
        var g :| Witnessed(s, g, KeyOfEvent(e).value, Reported(e).value);
        assert Witnessed(t, g, KeyOfEvent(e).value, Reported(e).value);
      } else {
        assert e == Settling(m.job, Finished(v));
        assert KeyOfEvent(e) == Some(KeyOf(m.job)) && Reported(e) == Some(v);
      }
    }
  }

  lemma RequestIsTruthful(s: Sys, step: Step)
    requires CoreInv(s.core) && Truthful(s) && Registered(s) && step.Request?
    ensures Truthful(Next(s, step)) && Registered(Next(s, step))
  {
    hide Truthful, Registered;
    HandleReportsNothing(s.core, step.id, step.action, step.env);
    HandleAdvances(s.core, step.id, step.action, step.env);
    QuietStepIsTruthful(s, Next(s, step));
  }

  lemma SweepIsTruthful(s: Sys, step: Step)
    requires CoreInv(s.core) && Truthful(s) && Registered(s) && (step.PollStreams? || step.PollTimeouts?)
    ensures Truthful(Next(s, step)) && Registered(Next(s, step))
  {
    hide Truthful, Registered;
    var c, now := s.core, if step.PollTimeouts? then step.now else 0.0;
    PollsReportNothing(c, now, c.book.nextFuture);
    PollsAreBalanced(c, now, c.book.nextFuture, Call(""));
    QuietStepIsTruthful(s, Next(s, step));
  }

  lemma NextIsTruthful(s: Sys, step: Step)
    requires CoreInv(s.core) && Truthful(s) && Registered(s)
    ensures Truthful(Next(s, step)) && Registered(Next(s, step))
  {
    hide Truthful, Registered, CoreInv;
    match step
    case Request(_, _, _) => RequestIsTruthful(s, step);
    case PollStreams => SweepIsTruthful(s, step);
    case PollCompletion(e) => CompleteReports(s, e);
    case PollTimeouts(_) => SweepIsTruthful(s, step);
    case _ => EnvironmentIsTruthful(s, step);
  }

  lemma EnvironmentIsTruthful(s: Sys, step: Step)
    requires CoreInv(s.core) && Truthful(s) && Registered(s) && (step.Finish? || step.Put?)
    ensures Truthful(Next(s, step)) && Registered(Next(s, step))
  {
    var t := Next(s, step);
    forall e | e in t.core.log && Reported(e).Some?
      ensures exists f :: Witnessed(t, f, KeyOfEvent(e).value, Reported(e).value)
    {
      var f :| Witnessed(s, f, KeyOfEvent(e).value, Reported(e).value);
      assert Witnessed(t, f, KeyOfEvent(e).value, Reported(e).value);
    }
  }

  /** Over every run, every result that is reported was returned by a worker, for that very
      request or task. */
  lemma AnswersAreTrue(capacity: int, steps: seq<Step>)
    ensures Truthful(Run(Start(capacity), steps))
  {
    var inv := (s: Sys) => CoreInv(s.core) && Truthful(s) && Registered(s);
    forall s, step | inv(s) ensures inv(Next(s, step)) { NextKeepsInv(s, step); NextIsTruthful(s, step); }
    RunKeeps(inv, Start(capacity), steps);
  }

  // ---------------------------------------------------------------- acknowledgements, deadlines

  /** From c to d, a submission is either acknowledged and tracked or refused and not tracked. */
  ghost predicate AckMeansTracked(c: Core, d: Core, id: string, task: Key) {
    var tracked := NewKeys(c.book, d.book);
    && (tracked == multiset{task} || tracked == multiset{})
    && d.log == c.log + [Response(id, if tracked == multiset{} then Refusal else Ack)]
  }

  lemma OutcomeAcks(c: Core, id: string, m: Meta, ok: bool)
    ensures AckMeansTracked(c, TaskOutcome(c, id, m, ok), id, KeyOf(m.job))
  {
  }

  /** A submission is acknowledged exactly when a future is tracked under its own key,
      and so owes its done event. */
  lemma PoolAckMeansTracked(c: Core, id: string, pid: string, task: string, attempt: int, e: Env)
    ensures AckMeansTracked(c, HandlePoolTask(c, id, pid, task, attempt, e), id, PoolTask(pid, task, attempt))
  {
    if pid in c.pools.workers {
      var (t, ok) := Submit(c.pools, pid, e.submit);
      OutcomeAcks(c.(pools := t), id, Meta(PoolJob(pid, task, attempt), 0, 0), ok);
    }
  }

  lemma RuntimeAckMeansTracked(c: Core, id: string, key: string, task: string, attempt: int, e: Env)
    ensures AckMeansTracked(c, HandleRuntimeTask(c, id, key, task, attempt, e), id, RuntimeTask(key, task, attempt))
  {
    var (t, ok) := Submit(c.runtime, RUNTIME, e.submit);
    OutcomeAcks(c.(runtime := t), id, Meta(RuntimeJob(key, task, attempt), 0, 0), ok);
  }

  /** `_expire_service_timeouts` takes out exactly the service calls past their deadline. */
  lemma {:induction false} ExpireEffect(c: Core, now: real, n: nat)
    ensures Removes(c.book.inflight, Expire(c, now, n).book.inflight, m => TimedOut(m, now), n)
  {
    if n > 0 {
      ExpireEffect(c, now, n - 1);
    }
  }
}
