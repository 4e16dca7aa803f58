/** Why the executor answers as it does: when a failed future is run again, when a call is
    past its deadline, when a request is accepted, and, over every run, what caused each
    answer. */
module ExecutorVerdicts {
  import opened Prelude
  import opened ExecutorTables
  import opened ExecutorSteps
  import opened ExecutorInvariants
  import opened ExecutorRuns
  import opened ExecutorStops
  import opened ExecutorAnswers

  // ---------------------------------------------------------------- retries

  /** Whether the table takes a submission, by what the environment answers. */
  predicate TableTakes(t: Table, key: string, e: SubmitEnv) {
    && (key in t.executors || (key in t.workers && e.build))
    && (Takes(e.first) || (Breaks(e.first) && e.rebuild && Takes(e.second)))
  }

  /** Whether a second submission of a job is accepted. */
  predicate TakesAgain(c: Core, j: Job, e: SubmitEnv) {
    match j
    case ServiceJob(sid, _, _, _, _) => TableTakes(c.services, sid, e)
    case PoolJob(pid, _, _) => TableTakes(c.pools, pid, e)
    case RuntimeJob(_, _, _) => TableTakes(c.runtime, RUNTIME, e)
  }

  /** The answer that reports v for a job. */
  function AnswerOf(j: Job, v: Verdict): Event {
    match j
    case ServiceJob(_, r, _, _, _) => Response(r, Result(v))
    case PoolJob(p, t, a) => Done(PoolTask(p, t, a), v)
    case RuntimeJob(k, t, a) => Done(RuntimeTask(k, t, a), v)
  }

  /** What says that a resource was rebuilt for a retry; a runtime does not say so. */
  function RetryNotice(j: Job): seq<Event> {
    match j
    case ServiceJob(sid, _, _, _, _) => [Rebuilt(sid, 1)]
    case PoolJob(pid, _, _) => [Rebuilt(pid, 1)]
    case RuntimeJob(_, _, _) => []
  }

  lemma ResubmissionIsAcceptedIff(c: Core, j: Job, e: SubmitEnv)
    ensures Resubmit(c, j, e).1 <==> TakesAgain(c, j, e)
    ensures Resubmit(c, j, e).0.book == c.book && Resubmit(c, j, e).0.log == c.log
  {
    match j
    case ServiceJob(sid, _, _, _, _) => SubmissionIsAcceptedIff(c.services, sid, e);
    case PoolJob(pid, _, _) => SubmissionIsAcceptedIff(c.pools, pid, e);
    case RuntimeJob(_, _, _) => SubmissionIsAcceptedIff(c.runtime, RUNTIME, e);
  }

  /** From c to d, the failed job of m was run again under a new number, or answered. */
  ghost predicate RetriedOrFailed(c: Core, d: Core, m: Meta, again: bool) {
    if again then
      && d.book.nextFuture == c.book.nextFuture + 1
      && d.book.inflight == c.book.inflight[c.book.nextFuture := m.(recoveries := 1)]
      && d.log == c.log + RetryNotice(m.job)
    else
      && d.book.nextFuture == c.book.nextFuture
      && d.book.inflight == c.book.inflight
      && d.log == c.log + [AnswerOf(m.job, InfraFailure)]
  }

  /** A failed job is run again if and only if its pool broke, it was not retried before, and
      the second submission is accepted. Otherwise it is answered, once. */
  lemma RetriedIffThePoolBroke(c: Core, m: Meta, recoverable: bool, e: SubmitEnv)
    ensures RetriedOrFailed(c, Recover(c, m, recoverable, e), m, recoverable && m.recoveries == 0 && TakesAgain(c, m.job, e))
  {
    ResubmissionIsAcceptedIff(c, m.job, e);
  }

  /** The future at the head of the completion queue is taken out. */
  function Headless(c: Core): Core
    requires c.book.completed != []
  {
    var f := c.book.completed[0];
    c.(book := c.book.(completed := c.book.completed[1..], inflight := c.book.inflight - {f},
                       streaming := c.book.streaming - {f}))
  }

  /** One collected completion, by how the worker ended: a broken pool is retried once, any
      other failure is answered, and a result is reported behind the items of its stream. */
  lemma CompletionDecides(c: Core, e: SubmitEnv)
    requires BookInv(c.book) && c.book.completed != [] && c.book.completed[0] in c.book.inflight
    ensures var f, d := c.book.completed[0], Complete(c, e);
      var m := c.book.inflight[f];
      && f in c.book.done
      && (c.book.done[f].Raised? ==>
            RetriedOrFailed(Headless(c), d, m, c.book.done[f] == Raised(true) && m.recoveries == 0 && TakesAgain(c, m.job, e)))
      && (c.book.done[f].Returned? ==>
            (&& d.book.nextFuture == c.book.nextFuture && d.book.inflight == c.book.inflight - {f}
             && |d.log| > |c.log| && c.log <= d.log
             && d.log[|d.log| - 1] == AnswerOf(m.job, Finished(c.book.done[f].value))
             && forall i :: |c.log| <= i < |d.log| - 1 ==> d.log[i].Item?))
  {
    var f := c.book.completed[0];
    var m := c.book.inflight[f];
    RetriedIffThePoolBroke(Headless(c), m, true, e);
    RetriedIffThePoolBroke(Headless(c), m, false, e);
    DrainEmitsItems(Headless(c).book, m);
  }

  lemma DrainEmitsItems(b: Book, m: Meta)
    ensures forall x <- DrainEvents(b, m) :: x.Item?
  {
    if Drains(b, m) != 0 {
      ItemsOnly(m.job.request, b.queues[m.job.stream.value][..Drains(b, m)], m.emitted);
    }
  }

  lemma {:induction false} ItemsOnly(request: string, q: seq<Queued>, n: nat)
    ensures forall x <- ItemEvents(request, q, n) :: x.Item?
    decreases q
  {
    if q != [] {
      ItemsOnly(request, q[1..], n + 1);
    }
  }

  // ---------------------------------------------------------------- causes

  /** What d logs beyond c. */
  ghost predicate Logs(c: Core, d: Core, cause: Event -> bool) {
    c.log <= d.log && forall i :: |c.log| <= i < |d.log| ==> cause(d.log[i])
  }

  /** The same for a sweep, which keeps the jobs of the futures that it keeps. */
  ghost predicate SweepLogs(c: Core, d: Core, cause: Event -> bool) {
    && Logs(c, d, cause)
    && forall f :: f in d.book.inflight ==> f in c.book.inflight && d.book.inflight[f].job == c.book.inflight[f].job
  }

  lemma OneMoreLogged(c: Core, d: Core, e: Event, cause: Event -> bool)
    requires Logs(c, d, cause) && cause(e)
    ensures forall x: Core :: x.log == d.log + [e] ==> Logs(c, x, cause)
  {
  }

  lemma ManyMoreLogged(c: Core, d: Core, es: seq<Event>, cause: Event -> bool)
    requires Logs(c, d, cause) && forall e <- es :: cause(e)
    ensures forall x: Core :: x.log == d.log + es ==> Logs(c, x, cause)
  {
  }

  /** A call in flight for the service, and the answer that says that it was stopped. */
  ghost predicate StopsCall(c: Core, sid: string, e: Event) {
    exists f :: f in c.book.inflight && c.book.inflight[f].job.ServiceJob?
      && c.book.inflight[f].job.serviceId == sid
      && e == Response(c.book.inflight[f].job.request, Result(ServiceStopped))
  }

  ghost predicate StopsTask(c: Core, pid: string, e: Event) {
    exists f :: f in c.book.inflight && c.book.inflight[f].job.PoolJob?
      && c.book.inflight[f].job.poolId == pid
      && e == Done(PoolTask(pid, c.book.inflight[f].job.poolTask, c.book.inflight[f].job.poolAttempt), TaskPoolStopped)
  }

  /** Past its deadline: a start time of zero stands for the present. */
  predicate Overdue(j: Job, now: real) {
    j.ServiceJob? && if j.startAt == 0.0 then j.timeout < 0.0 else j.startAt + j.timeout < now
  }

  ghost predicate ExpiresCall(c: Core, now: real, e: Event) {
    exists f :: f in c.book.inflight && Overdue(c.book.inflight[f].job, now)
      && e == Response(c.book.inflight[f].job.request, InvokeTimeout)
  }

  lemma ServiceFailuresAreCaused(c: Core, sid: string, n: nat)
    ensures SweepLogs(c, FailService(c, sid, n), e => StopsCall(c, sid, e))
  {
    var cause := (e: Event) => StopsCall(c, sid, e);
    var inv := (d: Core) => SweepLogs(c, d, cause);
    forall d, f: nat | inv(d) ensures inv(FailServiceOne(d, sid, f)) {
      if f in d.book.inflight && d.book.inflight[f].job.ServiceJob? && d.book.inflight[f].job.serviceId == sid {
        var e := Response(d.book.inflight[f].job.request, Result(ServiceStopped));
        assert StopsCall(c, sid, e);
        OneMoreLogged(c, d, e, cause);
      }
    }
    FoldKeeps(inv, (d: Core, f: nat) => FailServiceOne(d, sid, f), c, n);
  }

  lemma PoolFailuresAreCaused(c: Core, pid: string, n: nat)
    ensures SweepLogs(c, FailPool(c, pid, n), e => StopsTask(c, pid, e))
  {
    var cause := (e: Event) => StopsTask(c, pid, e);
    var inv := (d: Core) => SweepLogs(c, d, cause);
    forall d, f: nat | inv(d) ensures inv(FailPoolOne(d, pid, f)) {
      if f in d.book.inflight && d.book.inflight[f].job.PoolJob? && d.book.inflight[f].job.poolId == pid {
        var j := d.book.inflight[f].job;
        var e := Done(PoolTask(pid, j.poolTask, j.poolAttempt), TaskPoolStopped);
        assert StopsTask(c, pid, e);
        OneMoreLogged(c, d, e, cause);
      }
    }
    FoldKeeps(inv, (d: Core, f: nat) => FailPoolOne(d, pid, f), c, n);
  }

  lemma TimeoutsAreCaused(c: Core, now: real, n: nat)
    ensures SweepLogs(c, Expire(c, now, n), e => ExpiresCall(c, now, e))
  {
    var cause := (e: Event) => ExpiresCall(c, now, e);
    var inv := (d: Core) => SweepLogs(c, d, cause);
    forall d, f: nat | inv(d) ensures inv(ExpireOne(d, now, f)) {
      if f in d.book.inflight && Overdue(d.book.inflight[f].job, now) {
        var e := Response(d.book.inflight[f].job.request, InvokeTimeout);
        assert ExpiresCall(c, now, e);
        OneMoreLogged(c, d, e, cause);
      }
    }
    FoldKeeps(inv, (d: Core, f: nat) => ExpireOne(d, now, f), c, n);
  }

  lemma DrainsLogItems(c: Core, n: nat)
    ensures SweepLogs(c, DrainStreams(c, n), (e: Event) => e.Item?)
  {
    var cause := (e: Event) => e.Item?;
    var inv := (d: Core) => SweepLogs(c, d, cause);
    forall d, f: nat | inv(d) ensures inv(DrainStream(d, f)) {
      if f in d.book.streaming && f in d.book.inflight {
        DrainEmitsItems(d.book, d.book.inflight[f]);
        ManyMoreLogged(c, d, DrainEvents(d.book, d.book.inflight[f]), cause);
      }
    }
    FoldKeeps(inv, (d: Core, f: nat) => DrainStream(d, f), c, n);
  }

  /** The future at the head of the completion queue is in flight for k. */
  predicate HeadFor(c: Core, k: Key) {
    && c.book.completed != [] && c.book.completed[0] in c.book.inflight && c.book.completed[0] in c.book.done
    && KeyOf(c.book.inflight[c.book.completed[0]].job) == k
  }

  /** What must be the case before a step that reports the verdict v for k. */
  ghost predicate Causes(c: Core, step: Step, k: Key, v: Verdict) {
    match v
    case Finished(x) => step.PollCompletion? && HeadFor(c, k) && c.book.done[c.book.completed[0]] == Returned(x)
    case InfraFailure =>
      && step.PollCompletion? && HeadFor(c, k)
      && var f := c.book.completed[0];
         var m := c.book.inflight[f];
         && c.book.done[f].Raised?
         && (c.book.done[f] == Raised(false) || m.recoveries > 0 || !TakesAgain(c, m.job, step.submit))
    case ServiceStopped =>
      && step.Request? && step.action.EndService?
      && exists f :: f in c.book.inflight && c.book.inflight[f].job.ServiceJob? && KeyOf(c.book.inflight[f].job) == k
           && c.book.inflight[f].job.serviceId == Strip(step.action.serviceId)
    case TaskPoolStopped =>
      && step.Request? && step.action.EndPool?
      && exists f :: f in c.book.inflight && c.book.inflight[f].job.PoolJob? && KeyOf(c.book.inflight[f].job) == k
           && c.book.inflight[f].job.poolId == Strip(step.action.poolId)
  }

  /** What must be the case before a step that emits e. */
  ghost predicate Explains(c: Core, step: Step, e: Event) {
    match e
    case Response(r, Result(v)) => Causes(c, step, Call(r), v)
    case Response(r, InvokeTimeout) => step.PollTimeouts? && ExpiresCall(c, step.now, e)
    case Response(r, _) => step.Request? && step.id == r
    case Done(k, v) => Causes(c, step, k, v)
    case Item(_, _, _) => step.PollStreams? || step.PollCompletion?
    case Rebuilt(_, _) =>
      && step.PollCompletion? && c.book.completed != []
      && c.book.completed[0] in c.book.inflight && c.book.completed[0] in c.book.done
      && var f := c.book.completed[0];
         var m := c.book.inflight[f];
         && c.book.done[f] == Raised(true) && m.recoveries == 0 && TakesAgain(c, m.job, step.submit)
         && [e] == RetryNotice(m.job)
  }

  /** A request is answered for itself, with no verdict. */
  predicate PlainAnswer(id: string, e: Event) {
    e.Response? && e.request == id && !e.reply.Result? && !e.reply.InvokeTimeout?
  }

  lemma AnswerLogs(c: Core, d: Core, id: string, r: Reply, cause: Event -> bool)
    requires Logs(c, d, cause) && cause(Response(id, r))
    ensures Logs(c, Answer(d, id, r), cause)
  {
    OneMoreLogged(c, d, Response(id, r), cause);
  }

  lemma StopServiceIsCaused(c: Core, id: string, sid: string)
    ensures Logs(c, StopService(c, sid), e => StopsCall(c, Strip(sid), e) || PlainAnswer(id, e))
  {
    hide FailService;
    var c0 := c.(services := Stop(c.services, sid));
    ServiceFailuresAreCaused(c0, Strip(sid), c.book.nextFuture);
    forall e | StopsCall(c0, Strip(sid), e) ensures StopsCall(c, Strip(sid), e) {}
  }

  lemma StopPoolIsCaused(c: Core, id: string, pid: string)
    ensures Logs(c, StopPool(c, pid), e => StopsTask(c, Strip(pid), e) || PlainAnswer(id, e))
  {
    hide FailPool;
    var c0 := c.(pools := Stop(c.pools, pid));
    PoolFailuresAreCaused(c0, Strip(pid), c.book.nextFuture);
    forall e | StopsTask(c0, Strip(pid), e) ensures StopsTask(c, Strip(pid), e) {}
  }

  lemma EndServiceIsCaused(c: Core, id: string, sid: string)
    ensures Logs(c, HandleEndService(c, id, sid), e => StopsCall(c, Strip(sid), e) || PlainAnswer(id, e))
  {
    var d := StopService(c, sid);
    var cause := (e: Event) => StopsCall(c, Strip(sid), e) || PlainAnswer(id, e);
    StopServiceIsCaused(c, id, sid);
    AnswerLogs(c, d, id, Count(|c.book.inflight| - |d.book.inflight|), cause);
  }

  lemma EndPoolIsCaused(c: Core, id: string, pid: string)
    ensures Logs(c, HandleEndPool(c, id, pid), e => StopsTask(c, Strip(pid), e) || PlainAnswer(id, e))
  {
    var d := StopPool(c, pid);
    var cause := (e: Event) => StopsTask(c, Strip(pid), e) || PlainAnswer(id, e);
    StopPoolIsCaused(c, id, pid);
    AnswerLogs(c, d, id, Count(|c.book.inflight| - |d.book.inflight|), cause);
  }

  lemma WorkIsAnsweredPlainly(c: Core, id: string, a: Action, e: Env)
    requires a.CallService? || a.SubmitPool? || a.SubmitRuntime?
    ensures Logs(c, Handle(c, id, a, e), x => PlainAnswer(id, x))
  {
  }

  lemma TablesAreAnsweredPlainly(c: Core, id: string, a: Action, e: Env)
    ensures Logs(c, HandleTables(c, id, a, e), x => PlainAnswer(id, x))
  {
  }

  lemma RequestsExplain(c: Core, id: string, a: Action, env: Env)
    ensures Logs(c, Handle(c, id, a, env), e => Explains(c, Request(id, a, env), e))
  {
    var step := Request(id, a, env);
    if a.EndService? {
      EndServiceIsCaused(c, id, a.serviceId);
      forall e | StopsCall(c, Strip(a.serviceId), e) || PlainAnswer(id, e) ensures Explains(c, step, e) {}
    } else if a.EndPool? {
      EndPoolIsCaused(c, id, a.poolId);
      forall e | StopsTask(c, Strip(a.poolId), e) || PlainAnswer(id, e) ensures Explains(c, step, e) {}
    } else if a.CallService? || a.SubmitPool? || a.SubmitRuntime? {
      WorkIsAnsweredPlainly(c, id, a, env);
    } else {
      TablesAreAnsweredPlainly(c, id, a, env);
    }
  }

  lemma CompletionsExplain(c: Core, env: SubmitEnv)
    requires BookInv(c.book)
    ensures Logs(c, Complete(c, env), e => Explains(c, PollCompletion(env), e))
  {
    var d, step := Complete(c, env), PollCompletion(env);
    if c.book.completed != [] && c.book.completed[0] in c.book.inflight {
      CompletionDecides(c, env);
      var m := c.book.inflight[c.book.completed[0]];
      forall i | |c.log| <= i < |d.log| ensures Explains(c, step, d.log[i]) {
        assert KeyOf(m.job) == match m.job case ServiceJob(_, r, _, _, _) => Call(r)
          case PoolJob(p, t, a) => PoolTask(p, t, a) case RuntimeJob(k, t, a) => RuntimeTask(k, t, a);
      }
    }
  }

  lemma NextExplains(s: Sys, step: Step)
    requires BookInv(s.core.book)
    ensures Logs(s.core, Next(s, step).core, e => Explains(s.core, step, e))
  {
    var c := s.core;
    match step
    case Request(id, a, e) => RequestsExplain(c, id, a, e);
    case PollStreams => DrainsLogItems(c, c.book.nextFuture);
    case PollCompletion(e) => CompletionsExplain(c, e);
    case PollTimeouts(now) => TimeoutsAreCaused(c, now, c.book.nextFuture);
    case Finish(_, _) =>
    case Put(_, _) =>
  }

  lemma RunIsExplained(capacity: int, steps: seq<Step>, step: Step)
    ensures var s := Run(Start(capacity), steps); Logs(s.core, Next(s, step).core, e => Explains(s.core, step, e))
  {
    hide Explains, Next;
    RunsAreConsistent(capacity, steps);
    NextExplains(Run(Start(capacity), steps), step);
  }

  /** Step i of a run emitted event j of its log, and had a cause. */
  ghost predicate CausedBy(capacity: int, steps: seq<Step>, i: nat, j: nat, e: Event)
    requires i < |steps|
  {
    var before, after := Run(Start(capacity), steps[..i]).core, Run(Start(capacity), steps[..i + 1]).core;
    |before.log| <= j < |after.log| && after.log[j] == e && Explains(before, steps[i], e)
  }

  /** Over every run, every event has its cause in the state before the step that emitted it:
      a result was returned by the worker at the head of the completion queue; an
      infrastructure failure is that of a worker that raised, and no second try was left,
      allowed or accepted; a stop names the resource of an in-flight job; a timeout is that of
      an overdue call; and a resource is rebuilt for the one retry of a broken pool. */
  lemma {:induction false} EveryEventHasItsCause(capacity: int, steps: seq<Step>, j: nat)
    requires j < |Run(Start(capacity), steps).core.log|
    ensures exists i: nat :: i < |steps| && CausedBy(capacity, steps, i, j, Run(Start(capacity), steps).core.log[j])
    decreases steps
  {
    hide Explains, CoreInv, BookInv, Next;
    if steps != [] {
      var last := |steps| - 1;
      var s := Run(Start(capacity), steps[..last]);
      var e := Run(Start(capacity), steps).core.log[j];
      RunIsExplained(capacity, steps[..last], steps[last]);
      assert steps[..last + 1] == steps;
      if j < |s.core.log| {
        EveryEventHasItsCause(capacity, steps[..last], j);
        var i: nat :| i < last && CausedBy(capacity, steps[..last], i, j, s.core.log[j]);
        assert steps[..last][..i] == steps[..i] && steps[..last][..i + 1] == steps[..i + 1];
        assert CausedBy(capacity, steps, i, j, e);
      } else {
        assert CausedBy(capacity, steps, last, j, e);
      }
    }
  }

  // ---------------------------------------------------------------- second tries

  /** Where k was owed once, an earlier future for it is over, and its pool had broken. */
  ghost predicate SecondTries(s: Sys, k: Key) {
    && (forall f :: f in s.jobs && KeyOf(s.jobs[f]) == k ==> s.owed[k] > 0)
    && (s.owed[k] <= 1 ==> forall f, g :: f in s.jobs && g in s.jobs && f < g && KeyOf(s.jobs[f]) == k && KeyOf(s.jobs[g]) == k ==>
          f !in s.core.book.inflight && f in s.core.book.done && s.core.book.done[f] == Raised(true))
  }

  /** A step that tracks nothing for k. */
  lemma QuietKeepsTries(s: Sys, t: Sys, k: Key)
    requires SecondTries(s, k) && s.owed[k] <= t.owed[k]
    requires forall f :: f in t.jobs && KeyOf(t.jobs[f]) == k ==> f in s.jobs && s.jobs[f] == t.jobs[f]
    requires forall f :: f in s.core.book.done ==> f in t.core.book.done && t.core.book.done[f] == s.core.book.done[f]
    requires forall f :: f in s.jobs && f in t.core.book.inflight ==> f in s.core.book.inflight
    ensures SecondTries(t, k)
  {
  }

  /** A request that tracks a future for k owes one answer more for it. */
  lemma TrackingOwes(c: Core, id: string, a: Action, e: Env, k: Key)
    ensures var d := Handle(c, id, a, e);
      c.book.nextFuture in NewJobs(c.book, d.book) && KeyOf(NewJobs(c.book, d.book)[c.book.nextFuture]) == k ==>
        Owes(id, a, c.book, d.book)[k] > 0
  {
    if a.CallService? {
      CallIsTrackedForItself(c, id, a.serviceId, a.timeout, a.now, a.streams, e);
    }
  }

  lemma CallIsTrackedForItself(c: Core, id: string, sid: string, timeout: real, now: real, streams: bool, e: Env)
    ensures var d := HandleCall(c, id, sid, timeout, now, streams, e);
      c.book.nextFuture in NewJobs(c.book, d.book) ==> KeyOf(NewJobs(c.book, d.book)[c.book.nextFuture]) == Call(id)
  {
  }

  /** A step that tracks the future n for k, for which one answer more is owed. */
  lemma FreshKeepsTries(s: Sys, t: Sys, k: Key, n: nat)
    requires SecondTries(s, k) && s.owed[k] < t.owed[k]
    requires forall f :: f in t.jobs && KeyOf(t.jobs[f]) == k ==> f == n || (f in s.jobs && s.jobs[f] == t.jobs[f])
    ensures SecondTries(t, k)
  {
  }

  /** A step that tracks the future n for k in place of the future f, whose pool had broken. */
  lemma RetryKeepsTries(s: Sys, t: Sys, k: Key, f: nat, n: nat)
    requires SecondTries(s, k) && s.owed == t.owed && s.core.book.done == t.core.book.done
    requires f in s.jobs && KeyOf(s.jobs[f]) == k && f in s.core.book.inflight
    requires f in s.core.book.done && s.core.book.done[f] == Raised(true)
    requires forall g :: g in s.jobs ==> g < n
    requires forall g :: g in t.jobs && KeyOf(t.jobs[g]) == k ==> g == n || (g in s.jobs && s.jobs[g] == t.jobs[g])
    requires forall g :: g in t.core.book.inflight ==> g == n || (g in s.core.book.inflight && g != f)
    ensures SecondTries(t, k)
  {
  }

  lemma RequestKeepsTries(s: Sys, step: Step, k: Key)
    requires CoreInv(s.core) && Registered(s) && SecondTries(s, k) && step.Request?
    ensures SecondTries(Next(s, step), k)
  {
    hide Handle, CoreInv, SecondTries, Owes, NewKeys;
    var t := Next(s, step);
    var n, begun := s.core.book.nextFuture, NewJobs(s.core.book, t.core.book);
    RequestLeavesOld(s, step);
    TrackingOwes(s.core, step.id, step.action, step.env, k);
    assert t.jobs == s.jobs + begun && begun.Keys <= {n};
    if n in begun && KeyOf(begun[n]) == k {
      FreshKeepsTries(s, t, k, n);
    } else {
      QuietKeepsTries(s, t, k);
    }
  }

  lemma RequestLeavesOld(s: Sys, step: Step)
    requires CoreInv(s.core) && Registered(s) && step.Request?
    ensures var t := Next(s, step);
      && t.core.book.done == s.core.book.done
      && forall f :: f in s.jobs && f in t.core.book.inflight ==> f in s.core.book.inflight
  {
    hide Handle;
    HandleReportsNothing(s.core, step.id, step.action, step.env);
  }

  lemma CompletionKeepsTries(s: Sys, e: SubmitEnv, k: Key)
    requires CoreInv(s.core) && Registered(s) && SecondTries(s, k)
    ensures SecondTries(Next(s, PollCompletion(e)), k)
  {
    hide Complete, SecondTries, CoreInv, TakesAgain;
    var c, t := s.core, Next(s, PollCompletion(e));
    CompletionKeepsDone(c, e);
    if c.book.completed != [] && c.book.completed[0] in c.book.inflight {
      CompletionTracks(c, e);
      var n, begun := c.book.nextFuture, NewJobs(c.book, t.core.book);
      assert t.jobs == s.jobs + begun && begun.Keys <= {n};
      if n in begun && KeyOf(begun[n]) == k {
        RetryKeepsTries(s, t, k, c.book.completed[0], n);
      } else {
        QuietKeepsTries(s, t, k);
      }
    } else {
      IdleCompletion(c, e);
      QuietKeepsTries(s, t, k);
    }
  }

  lemma IdleCompletion(c: Core, e: SubmitEnv)
    requires c.book.completed == [] || c.book.completed[0] !in c.book.inflight
    ensures Complete(c, e).book.inflight == c.book.inflight && Complete(c, e).book.nextFuture == c.book.nextFuture
  {
  }

  /** What a completion tracks is the retry of the one it collects, whose pool broke. */
  lemma CompletionTracks(c: Core, e: SubmitEnv)
    requires CoreInv(c) && c.book.completed != [] && c.book.completed[0] in c.book.inflight
    ensures var f, d, n := c.book.completed[0], Complete(c, e), c.book.nextFuture;
      && (forall g :: g in d.book.inflight ==> g == n || (g in c.book.inflight && g != f))
      && (n in NewJobs(c.book, d.book) ==>
            (NewJobs(c.book, d.book)[n] == c.book.inflight[f].job && f in c.book.done && c.book.done[f] == Raised(true)))
      && (n !in NewJobs(c.book, d.book) ==> n !in d.book.inflight)
  {
    hide Complete, TakesAgain;
    CompletionDecides(c, e);
  }

  lemma CompletionKeepsDone(c: Core, e: SubmitEnv)
    ensures Complete(c, e).book.done == c.book.done
  {
    if c.book.completed != [] && c.book.completed[0] in c.book.inflight {
      ResubmissionIsAcceptedIff(c, c.book.inflight[c.book.completed[0]].job, e);
    }
  }

  lemma SweepKeepsTries(s: Sys, step: Step, k: Key)
    requires Registered(s) && SecondTries(s, k) && (step.PollStreams? || step.PollTimeouts?)
    ensures SecondTries(Next(s, step), k)
  {
    hide DrainStreams, Expire;
    PollsReportNothing(s.core, if step.PollTimeouts? then step.now else 0.0, s.core.book.nextFuture);
    QuietKeepsTries(s, Next(s, step), k);
  }

  lemma NextKeepsTries(s: Sys, step: Step, k: Key)
    requires CoreInv(s.core) && Registered(s) && SecondTries(s, k)
    ensures SecondTries(Next(s, step), k)
  {
    match step
    case Request(_, _, _) =>
      hide SecondTries, Next, Registered;
      RequestKeepsTries(s, step, k);
    case PollCompletion(e) =>
      hide SecondTries, Next, Registered;
      CompletionKeepsTries(s, e, k);
    case PollStreams => SweepKeepsTries(s, step, k);
    case PollTimeouts(_) => SweepKeepsTries(s, step, k);
    case _ => QuietKeepsTries(s, Next(s, step), k);
  }

  /** Over every run: where a reply or a done event is owed once and two futures were tracked
      for it, the first one ended because its pool broke, and it is no longer in flight. */
  lemma SecondTriesFollowBrokenPools(capacity: int, steps: seq<Step>, f: nat, g: nat)
    requires var s := Run(Start(capacity), steps);
      f in s.jobs && g in s.jobs && f < g && KeyOf(s.jobs[f]) == KeyOf(s.jobs[g]) && s.owed[KeyOf(s.jobs[f])] == 1
    ensures var b := Run(Start(capacity), steps).core.book; f !in b.inflight && f in b.done && b.done[f] == Raised(true)
  {
    var k := KeyOf(Run(Start(capacity), steps).jobs[f]);
    TriesOfRun(capacity, steps, k);
  }

  lemma TriesOfRun(capacity: int, steps: seq<Step>, k: Key)
    ensures SecondTries(Run(Start(capacity), steps), k)
  {
    hide Next, Truthful, Registered, SecondTries, CoreInv;
    var inv := (s: Sys) => CoreInv(s.core) && Truthful(s) && Registered(s) && SecondTries(s, k);
    forall s, step | inv(s) ensures inv(Next(s, step)) {
      NextKeepsInv(s, step);
      NextIsTruthful(s, step);
      NextKeepsTries(s, step, k);
    }
    StartIsSound(capacity, k);
    RunKeeps(inv, Start(capacity), steps);
  }

  lemma StartIsSound(capacity: int, k: Key)
    ensures var s := Start(capacity); CoreInv(s.core) && Truthful(s) && Registered(s) && SecondTries(s, k)
  {
  }

  // ---------------------------------------------------------------- requests

  /** A call is refused at once, or tracked with its start and its patience: it is accepted if
      and only if its service is registered, its stream comes up, and its pool takes it. */
  lemma CallIsAcceptedIff(c: Core, id: string, sid: string, timeout: real, now: real, streams: bool, e: Env)
    ensures var d := Handle(c, id, CallService(sid, timeout, now, streams), e);
      var patience := if timeout == 0.0 then 60.0 else if timeout < 0.1 then 0.1 else timeout;
      var stream := if streams then Some(c.book.nextQueue) else None;
      if sid in c.services.workers && (streams ==> e.build) && TableTakes(c.services, sid, e.submit) then
        && d.log == c.log && d.book.nextFuture == c.book.nextFuture + 1
        && d.book.inflight == c.book.inflight[c.book.nextFuture := Meta(ServiceJob(sid, id, now, patience, stream), 0, 0)]
      else d.log == c.log + [Response(id, Refusal)] && d.book.inflight == c.book.inflight
  {
    SubmissionIsAcceptedIff(c.services, sid, e.submit);
  }

  /** A task is acknowledged and tracked if and only if its pool is registered and takes it. */
  lemma PoolTaskIsAcceptedIff(c: Core, id: string, pid: string, task: string, attempt: int, e: Env)
    ensures var d := Handle(c, id, SubmitPool(pid, task, attempt), e);
      if pid in c.pools.workers && TableTakes(c.pools, pid, e.submit) then
        && d.log == c.log + [Response(id, Ack)]
        && d.book.inflight == c.book.inflight[c.book.nextFuture := Meta(PoolJob(pid, task, attempt), 0, 0)]
      else d.log == c.log + [Response(id, Refusal)] && d.book.inflight == c.book.inflight
  {
    SubmissionIsAcceptedIff(c.pools, pid, e.submit);
  }

  lemma RuntimeTaskIsAcceptedIff(c: Core, id: string, key: string, task: string, attempt: int, e: Env)
    ensures var d := Handle(c, id, SubmitRuntime(key, task, attempt), e);
      if TableTakes(c.runtime, RUNTIME, e.submit) then
        && d.log == c.log + [Response(id, Ack)]
        && d.book.inflight == c.book.inflight[c.book.nextFuture := Meta(RuntimeJob(key, task, attempt), 0, 0)]
      else d.log == c.log + [Response(id, Refusal)] && d.book.inflight == c.book.inflight
  {
    SubmissionIsAcceptedIff(c.runtime, RUNTIME, e.submit);
  }

  /** Creating a service registers it; it is acknowledged, with a new process pool, if and
      only if that comes up. */
  lemma ServiceIsCreated(c: Core, id: string, sid: string, count: int, e: Env)
    ensures var d := Handle(c, id, CreateService(sid, count), e);
      && d.services.workers == c.services.workers[sid := if count >= 1 then count else 1]
      && (if e.build then sid in d.services.executors && d.services.executors[sid] == c.services.built
          else sid !in d.services.executors)
      && d.services.executors - {sid} == c.services.executors - {sid}
      && d.pools == c.pools && d.runtime == c.runtime && d.book == c.book
      && d.log == c.log + [Response(id, if e.build then Ack else Refusal)]
  {
    CreateEffect(c.services, sid, count, e.build);
  }

  lemma PoolIsCreated(c: Core, id: string, pid: string, count: int, e: Env)
    ensures var d := Handle(c, id, CreatePool(pid, count), e);
      && d.pools.workers == c.pools.workers[pid := if count >= 1 then count else 1]
      && (if e.build then pid in d.pools.executors && d.pools.executors[pid] == c.pools.built
          else pid !in d.pools.executors)
      && d.pools.executors - {pid} == c.pools.executors - {pid}
      && d.services == c.services && d.runtime == c.runtime && d.book == c.book
      && d.log == c.log + [Response(id, if e.build then Ack else Refusal)]
  {
    CreateEffect(c.pools, pid, count, e.build);
  }

  /** Warming up is answered with the number of submissions if there is a pool and it takes
      them all, and refused otherwise. */
  lemma WarmingAnswers(t: Table, key: string, e: Env)
    ensures Warm(t, key, e).1 ==
      if (key in t.executors || (key in t.workers && e.build))
         && forall i :: 0 <= i < |e.background| ==> Takes(e.background[i])
      then Count(|e.background|) else Refusal
  {
    BackgroundSucceedsIff(Ensure(t, key, e.build), key, e.background);
  }

  // ---------------------------------------------------------------- deadlines

  /** The timeout sweep takes out exactly the overdue calls, and the process pools of their
      services; nothing else. */
  lemma {:induction false} ExpiryIsExact(c: Core, now: real, n: nat)
    ensures var d := Expire(c, now, n);
      && (forall f :: f in d.book.inflight <==> f in c.book.inflight && !(f < n && Overdue(c.book.inflight[f].job, now)))
      && (forall f :: f in d.book.inflight ==> d.book.inflight[f] == c.book.inflight[f])
      && (forall k :: k in d.services.executors <==> k in c.services.executors && !Hangs(c, now, n, k))
      && (forall k :: k in d.services.executors ==> d.services.executors[k] == c.services.executors[k])
      && d.services.workers == c.services.workers && d.pools == c.pools && d.runtime == c.runtime
  {
    if n > 0 {
      ExpiryIsExact(c, now, n - 1);
      var d := Expire(c, now, n - 1);
      var f := n - 1;
      forall k ensures Hangs(c, now, n, k) <==> (Hangs(c, now, n - 1, k) || (k != "" && IsHung(c, now, f, k))) {
        HangsMore(c, now, f, k);
      }
      assert Expire(c, now, n) == ExpireOne(d, now, f);
    }
  }

  /** The future f is an overdue call of the service. */
  predicate IsHung(c: Core, now: real, f: nat, key: string) {
    f in c.book.inflight && Overdue(c.book.inflight[f].job, now) && c.book.inflight[f].job.serviceId == key
  }

  /** One of the first n futures is. */
  ghost predicate Hangs(c: Core, now: real, n: nat, key: string) {
    key != "" && exists f: nat :: f < n && IsHung(c, now, f, key)
  }

  lemma HangsMore(c: Core, now: real, f: nat, key: string)
    ensures Hangs(c, now, f + 1, key) <==> (Hangs(c, now, f, key) || (key != "" && IsHung(c, now, f, key)))
  {
  }

  // ---------------------------------------------------------------- stops

  /** Taking out `gone` leaves as many fewer. */
  lemma FewerAreLeft(m: map<nat, Meta>, d: map<nat, Meta>, gone: set<nat>)
    requires gone <= m.Keys && d.Keys == m.Keys - gone
    ensures |m| - |d| == |gone|
  {
    assert m.Keys == d.Keys + gone;
    assert |m| == |m.Keys| && |d| == |d.Keys|;
  }

  lemma CallsAreTracked(c: Core, id: string)
    ensures CallsOf(c, id) <= c.book.inflight.Keys && TasksOf(c, id) <= c.book.inflight.Keys
  {
  }

  /** The calls in flight for a service: a stop is answered with their number. */
  function CallsOf(c: Core, sid: string): set<nat> {
    set f | f in c.book.inflight && c.book.inflight[f].job.ServiceJob? && c.book.inflight[f].job.serviceId == sid :: f
  }

  lemma StopTakesTheCalls(c: Core, sid: string)
    requires forall f <- c.book.inflight :: f < c.book.nextFuture
    ensures StopService(c, sid).book.inflight.Keys == c.book.inflight.Keys - CallsOf(c, Strip(sid))
  {
    hide Fold, FailService, Strip;
    FailServiceEffect(c.(services := Stop(c.services, sid)), Strip(sid), c.book.nextFuture);
  }

  lemma ServiceStopIsAnswered(c: Core, id: string, sid: string, e: Env)
    requires forall f <- c.book.inflight :: f < c.book.nextFuture
    ensures var d := Handle(c, id, EndService(sid), e);
      d.log != [] && d.log[|d.log| - 1] == Response(id, Count(|CallsOf(c, Strip(sid))|))
  {
    hide StopService, CallsOf, Strip;
    StopTakesTheCalls(c, sid);
    CallsAreTracked(c, Strip(sid));
    FewerAreLeft(c.book.inflight, StopService(c, sid).book.inflight, CallsOf(c, Strip(sid)));
  }

  /** The tasks in flight for a pool, and the same for its stop. */
  function TasksOf(c: Core, pid: string): set<nat> {
    set f | f in c.book.inflight && c.book.inflight[f].job.PoolJob? && c.book.inflight[f].job.poolId == pid :: f
  }

  lemma StopTakesTheTasks(c: Core, pid: string)
    requires forall f <- c.book.inflight :: f < c.book.nextFuture
    ensures StopPool(c, pid).book.inflight.Keys == c.book.inflight.Keys - TasksOf(c, Strip(pid))
  {
    hide Fold, FailPool, Strip;
    FailPoolEffect(c.(pools := Stop(c.pools, pid)), Strip(pid), c.book.nextFuture);
  }

  lemma PoolStopIsAnswered(c: Core, id: string, pid: string, e: Env)
    requires forall f <- c.book.inflight :: f < c.book.nextFuture
    ensures var d := Handle(c, id, EndPool(pid), e);
      d.log != [] && d.log[|d.log| - 1] == Response(id, Count(|TasksOf(c, Strip(pid))|))
  {
    hide StopPool, TasksOf, Strip;
    StopTakesTheTasks(c, pid);
    CallsAreTracked(c, Strip(pid));
    FewerAreLeft(c.book.inflight, StopPool(c, pid).book.inflight, TasksOf(c, Strip(pid)));
  }

  // ---------------------------------------------------------------- drains

  lemma {:induction false} ItemEventsAre(request: string, q: seq<Queued>, emitted: nat)
    ensures |ItemEvents(request, q, emitted)| == |q|
    ensures forall k :: 0 <= k < |q| ==>
      ItemEvents(request, q, emitted)[k] == Item(request, if q[k].index == 0 then emitted + k else q[k].index, q[k].value)
  {
    if q != [] {
      ItemEventsAre(request, q[1..], emitted + 1);
    }
  }

  /** One drain of a stream: the oldest items, at most 32 of them, leave the queue and are
      emitted in order, each under the number its worker gave it or the next one. */
  lemma DrainIsDecided(b: Book, m: Meta, request: string, q: nat)
    requires m.job.ServiceJob? && m.job.stream == Some(q) && m.job.request == request != "" && q in b.queues
    ensures var n := if |b.queues[q]| < 32 then |b.queues[q]| else 32;
      && Drains(b, m) == n && |DrainEvents(b, m)| == n
      && DrainQueue(b, m).queues == b.queues[q := b.queues[q][n..]]
      && forall k :: 0 <= k < n ==>
           var item := b.queues[q][k];
           DrainEvents(b, m)[k] == Item(request, if item.index == 0 then m.emitted + k else item.index, item.value)
  {
    ItemEventsAre(request, b.queues[q][..Drains(b, m)], m.emitted);
    assert b.queues[q][0..] == b.queues[q];
    assert b.queues[q := b.queues[q]] == b.queues;
  }
}
