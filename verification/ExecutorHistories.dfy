/** Streams over whole runs, looking back from the reply: what was emitted for a stream call
    that succeeded is exactly what its workers put, all of it before the reply. */
module ExecutorHistories {
  import opened Prelude
  import opened ExecutorTables
  import opened ExecutorSteps
  import opened ExecutorInvariants
  import opened ExecutorRuns
  import opened ExecutorStreams
  import opened ExecutorAnswers

  // ---------------------------------------------------------------- what a step may track

  /** A step from c to d only appends to the log and leaves the futures it keeps as they were. */
  ghost predicate Kept(c: Core, d: Core) {
    && c.log <= d.log
    && c.book.nextFuture <= d.book.nextFuture && c.book.nextQueue <= d.book.nextQueue
    && forall f :: f in d.book.inflight && f in c.book.inflight ==>
         d.book.inflight[f].job == c.book.inflight[f].job
         && d.book.inflight[f].recoveries == c.book.inflight[f].recoveries
  }

  /** A new future is a first try with a queue of its own, or the retry of one that goes. */
  ghost predicate Begun(c: Core, d: Core, m: Meta) {
    || (m.recoveries == 0 && (IsStream(m) ==> c.book.nextQueue <= m.job.stream.value < d.book.nextQueue))
    || (exists g :: g in c.book.inflight && c.book.inflight[g].job == m.job)
  }

  ghost predicate Advances(c: Core, d: Core) {
    && Kept(c, d)
    && forall f :: f in d.book.inflight && f !in c.book.inflight ==>
         f == c.book.nextFuture < d.book.nextFuture && Begun(c, d, d.book.inflight[f])
  }

  /** A sweep tracks nothing. */
  ghost predicate Swept(c: Core, d: Core) {
    Kept(c, d) && d.book.inflight.Keys <= c.book.inflight.Keys
  }

  lemma SettleSweeps(c: Core, d: Core, f: nat, e: Event, services: Table)
    requires Swept(c, d) && f in d.book.inflight
    ensures Swept(c, Settle(d, f, e).(services := services))
  {
  }

  lemma DrainSweeps(c: Core, d: Core, f: nat)
    requires Swept(c, d)
    ensures Swept(c, DrainStream(d, f))
  {
  }

  lemma FailuresSweep(c: Core, key: string, n: nat)
    ensures Swept(c, FailService(c, key, n)) && Swept(c, FailPool(c, key, n))
  {
    var inv := (d: Core) => Swept(c, d);
    forall d, f: nat | inv(d)
      ensures inv(FailServiceOne(d, key, f)) && inv(FailPoolOne(d, key, f))
    {
      if f in d.book.inflight {
        SettleSweeps(c, d, f, Settling(d.book.inflight[f].job, ServiceStopped), d.services);
        SettleSweeps(c, d, f, Settling(d.book.inflight[f].job, TaskPoolStopped), d.services);
      }
    }
    FoldKeeps(inv, (d: Core, f: nat) => FailServiceOne(d, key, f), c, n);
    FoldKeeps(inv, (d: Core, f: nat) => FailPoolOne(d, key, f), c, n);
  }

  lemma PollsSweep(c: Core, now: real, n: nat)
    ensures Swept(c, Expire(c, now, n)) && Swept(c, DrainStreams(c, n))
  {
    var inv := (d: Core) => Swept(c, d);
    forall d, f: nat | inv(d)
      ensures inv(ExpireOne(d, now, f)) && inv(DrainStream(d, f))
    {
      DrainSweeps(c, d, f);
      if f in d.book.inflight && TimedOut(d.book.inflight[f], now) {
        var j := d.book.inflight[f].job;
        SettleSweeps(c, d, f, Response(j.request, InvokeTimeout),
                     if j.serviceId == "" then d.services else Close(d.services, j.serviceId));
      }
    }
    FoldKeeps(inv, (d: Core, f: nat) => ExpireOne(d, now, f), c, n);
    FoldKeeps(inv, (d: Core, f: nat) => DrainStream(d, f), c, n);
  }

  lemma StopServiceAdvances(c: Core, id: string, sid: string)
    ensures Advances(c, HandleEndService(c, id, sid))
  {
    FailuresSweep(c.(services := Stop(c.services, sid)), Strip(sid), c.book.nextFuture);
  }

  lemma StopPoolAdvances(c: Core, id: string, pid: string)
    ensures Advances(c, HandleEndPool(c, id, pid))
  {
    FailuresSweep(c.(pools := Stop(c.pools, pid)), Strip(pid), c.book.nextFuture);
  }

  lemma CallAdvances(c: Core, id: string, sid: string, timeout: real, now: real, streams: bool, e: Env)
    requires c.book.nextFuture !in c.book.inflight
    ensures Advances(c, HandleCall(c, id, sid, timeout, now, streams, e))
  {
  }

  lemma PoolTaskAdvances(c: Core, id: string, pid: string, task: string, attempt: int, e: Env)
    requires c.book.nextFuture !in c.book.inflight
    ensures Advances(c, HandlePoolTask(c, id, pid, task, attempt, e))
  {
  }

  lemma RuntimeTaskAdvances(c: Core, id: string, key: string, task: string, attempt: int, e: Env)
    requires c.book.nextFuture !in c.book.inflight
    ensures Advances(c, HandleRuntimeTask(c, id, key, task, attempt, e))
  {
  }

  lemma TablesAdvance(c: Core, id: string, a: Action, e: Env)
    ensures Advances(c, HandleTables(c, id, a, e))
  {
    TableRequestAnswers(c, id, a, e);
  }

  lemma RequestAdvances(c: Core, id: string, a: Action, e: Env)
    requires c.book.nextFuture !in c.book.inflight
    ensures Advances(c, Handle(c, id, a, e))
  {
    hide Advances, HandleEndService, HandleEndPool, HandleCall, HandlePoolTask, HandleRuntimeTask, HandleTables;
    match a
    case EndService(sid) => StopServiceAdvances(c, id, sid);
    case EndPool(pid) => StopPoolAdvances(c, id, pid);
    case CallService(sid, timeout, now, streams) => CallAdvances(c, id, sid, timeout, now, streams, e);
    case SubmitPool(pid, task, attempt) => PoolTaskAdvances(c, id, pid, task, attempt, e);
    case SubmitRuntime(key, task, attempt) => RuntimeTaskAdvances(c, id, key, task, attempt, e);
    case _ => TablesAdvance(c, id, a, e);
  }

  /** The completion of a future that was tracked: the retry takes over its job. */
  lemma RecoverAdvances(c: Core, d: Core, f: nat, m: Meta, recoverable: bool, e: SubmitEnv)
    requires BookInv(c.book) && f in c.book.inflight && m == c.book.inflight[f] && d.log == c.log
    requires d.book == Untrack(c.book.(completed := d.book.completed), f)
    requires TablesInv(d)
    ensures Advances(c, Recover(d, m, recoverable, e))
  {
    ResubmitKeepsTables(d, m.job, e);
    var (x, ok) := if recoverable && m.recoveries < 1 then Resubmit(d, m.job, e) else (d, false);
    RetryAdvances(c, x, f, m);
  }

  lemma RetryAdvances(c: Core, x: Core, f: nat, m: Meta)
    requires BookInv(c.book) && f in c.book.inflight && m == c.book.inflight[f] && x.log == c.log
    requires x.book == Untrack(c.book.(completed := x.book.completed), f)
    ensures Advances(c, Retry(x, m)) && Advances(c, Fail(x, m))
  {
  }

  lemma CompletionAdvances(c: Core, e: SubmitEnv)
    requires CoreInv(c)
    ensures Advances(c, Complete(c, e))
  {
    if c.book.completed != [] && c.book.completed[0] in c.book.inflight {
      var f := c.book.completed[0];
      var m, out := c.book.inflight[f], c.book.done[f];
      var b := Untrack(c.book.(completed := c.book.completed[1..]), f);
      if !out.Returned? {
        RecoverAdvances(c, c.(book := b), f, m, out.recoverable, e);
      }
    }
  }

  lemma NextAdvances(s: Sys, step: Step)
    requires CoreInv(s.core)
    ensures Advances(s.core, Next(s, step).core)
  {
    var c := s.core;
    match step
    case Request(id, a, e) => RequestAdvances(c, id, a, e);
    case PollStreams => PollsSweep(c, 0.0, c.book.nextFuture);
    case PollCompletion(e) => CompletionAdvances(c, e);
    case PollTimeouts(now) => PollsSweep(c, now, c.book.nextFuture);
    case _ =>
  }

  // ---------------------------------------------------------------- the jobs of a stream

  function StreamOf(j: Job): Option<nat> {
    if j.ServiceJob? then j.stream else None
  }

  predicate SameStream(i: Job, j: Job) {
    StreamOf(i).Some? && StreamOf(i) == StreamOf(j)
  }

  /** Whoever shares a stream works on the same job, streams are numbered as they are opened,
      and a retry is not the only future of its job. */
  ghost predicate Traced(s: Sys) {
    && Registered(s)
    && (forall f :: f in s.jobs && StreamOf(s.jobs[f]).Some? ==> StreamOf(s.jobs[f]).value < s.core.book.nextQueue)
    && (forall f, g :: f in s.jobs && g in s.jobs && SameStream(s.jobs[f], s.jobs[g]) ==> s.jobs[f] == s.jobs[g])
    && (forall f :: f in s.core.book.inflight && s.core.book.inflight[f].recoveries > 0 ==> HasTwin(s, f))
  }

  /** Another future had the job of f. */
  ghost predicate HasTwin(s: Sys, f: nat)
    requires f in s.core.book.inflight
  {
    exists g :: g in s.jobs && g != f && s.jobs[g] == s.core.book.inflight[f].job
  }

  /** What a step from s to t may do to the registers. */
  ghost predicate Recorded(s: Sys, t: Sys) {
    && Advances(s.core, t.core) && BookInv(s.core.book) && BookInv(t.core.book)
    && t.jobs == s.jobs + NewJobs(s.core.book, t.core.book)
  }

  lemma NewJobIsNew(c: Core, d: Core)
    requires Advances(c, d) && BookInv(c.book) && BookInv(d.book)
    ensures NewJobs(c.book, d.book) == map f | f in d.book.inflight && f !in c.book.inflight :: d.book.inflight[f].job
    ensures forall f :: f in d.book.inflight && f !in c.book.inflight ==> f == c.book.nextFuture
  {
    assert c.book.nextFuture !in c.book.inflight;
  }

  lemma JobsGrowByOne(s: Sys, t: Sys)
    requires Recorded(s, t) && Registered(s)
    ensures Registered(t)
    ensures forall f :: f in s.jobs ==> f in t.jobs && t.jobs[f] == s.jobs[f]
    ensures forall f :: f in t.jobs && f !in s.jobs ==>
      && f == s.core.book.nextFuture && f in t.core.book.inflight && f !in s.core.book.inflight
      && t.jobs[f] == t.core.book.inflight[f].job
  {
    NewJobIsNew(s.core, t.core);
  }

  /** The job of the new future is new to the registers or is one that they hold. */
  lemma NewJobFits(s: Sys, t: Sys, f: nat, g: nat)
    requires Recorded(s, t) && Traced(s) && f in t.jobs && f !in s.jobs && g in s.jobs
    ensures SameStream(t.jobs[f], s.jobs[g]) ==> t.jobs[f] == s.jobs[g]
  {
    JobsGrowByOne(s, t);
    var m := t.core.book.inflight[f];
    assert Begun(s.core, t.core, m);
    if h :| h in s.core.book.inflight && s.core.book.inflight[h].job == m.job {
      assert h in s.jobs && s.jobs[h] == m.job;
    }
  }

  lemma NewStreamIsNumbered(s: Sys, t: Sys, f: nat)
    requires Recorded(s, t) && Traced(s) && f in t.jobs && f !in s.jobs && StreamOf(t.jobs[f]).Some?
    ensures StreamOf(t.jobs[f]).value < t.core.book.nextQueue
  {
    JobsGrowByOne(s, t);
    var m := t.core.book.inflight[f];
    assert Begun(s.core, t.core, m);
    if h :| h in s.core.book.inflight && s.core.book.inflight[h].job == m.job {
      assert h in s.jobs && s.jobs[h] == m.job;
    }
  }

  lemma TwinsStay(s: Sys, t: Sys, f: nat)
    requires Recorded(s, t) && Traced(s)
    requires f in t.core.book.inflight && t.core.book.inflight[f].recoveries > 0
    ensures HasTwin(t, f)
  {
    JobsGrowByOne(s, t);
    var m := t.core.book.inflight[f];
    if f in s.core.book.inflight {
      assert HasTwin(s, f);
      var g :| g in s.jobs && g != f && s.jobs[g] == m.job;
      assert g in t.jobs;
    } else {
      assert Begun(s.core, t.core, m);
      var h :| h in s.core.book.inflight && s.core.book.inflight[h].job == m.job;
      assert h in t.jobs && h != f && t.jobs[h] == m.job;
    }
  }

  lemma StepKeepsTrace(s: Sys, t: Sys)
    requires Recorded(s, t) && Traced(s)
    ensures Traced(t)
  {
    JobsGrowByOne(s, t);
    forall f | f in t.jobs && StreamOf(t.jobs[f]).Some? ensures StreamOf(t.jobs[f]).value < t.core.book.nextQueue {
      if f !in s.jobs {
        NewStreamIsNumbered(s, t, f);
      }
    }
    forall f, g | f in t.jobs && g in t.jobs && SameStream(t.jobs[f], t.jobs[g])
      ensures t.jobs[f] == t.jobs[g]
    {
      if f !in s.jobs && g in s.jobs {
        NewJobFits(s, t, f, g);
      } else if g !in s.jobs && f in s.jobs {
        NewJobFits(s, t, g, f);
      }
    }
    forall f | f in t.core.book.inflight && t.core.book.inflight[f].recoveries > 0 ensures HasTwin(t, f) {
      TwinsStay(s, t, f);
    }
  }

  /** Nothing is tracked, nothing is recorded. */
  lemma QuietStepRecords(s: Sys, t: Sys)
    requires Advances(s.core, t.core) && BookInv(s.core.book) && BookInv(t.core.book)
    requires t.jobs == s.jobs && t.core.book.nextFuture == s.core.book.nextFuture
    ensures Recorded(s, t)
  {
    assert NewJobs(s.core.book, t.core.book) == map[];
  }

  lemma SweepsAdvanceNothing(c: Core, now: real)
    requires BookInv(c.book)
    ensures DrainStreams(c, c.book.nextFuture).book.nextFuture == c.book.nextFuture
    ensures Expire(c, now, c.book.nextFuture).book.nextFuture == c.book.nextFuture
  {
    PollsAreBalanced(c, now, c.book.nextFuture, Call(""));
  }

  /** Every step records what it tracks. */
  lemma NextRecords(s: Sys, step: Step)
    requires CoreInv(s.core)
    ensures Recorded(s, Next(s, step))
  {
    hide Advances, BookInv, TablesInv;
    NextKeepsInv(s, step);
    NextAdvances(s, step);
    hide Handle, Complete, Expire, DrainStreams;
    match step
    case Request(_, _, _) =>
    case PollCompletion(_) =>
    case PollStreams =>
      SweepsAdvanceNothing(s.core, 0.0);
      QuietStepRecords(s, Next(s, step));
    case PollTimeouts(now) =>
      SweepsAdvanceNothing(s.core, now);
      QuietStepRecords(s, Next(s, step));
    case _ => QuietStepRecords(s, Next(s, step));
  }

  // ---------------------------------------------------------------- one job for a request

  /** A request id that was used once has one job, which its retries share. */
  ghost predicate OneJob(s: Sys, r: string) {
    && (forall f :: f in s.jobs && KeyOf(s.jobs[f]) == Call(r) ==> s.owed[Call(r)] >= 1)
    && (s.owed[Call(r)] <= 1 ==> SameJobs(s, r))
  }

  ghost predicate SameJobs(s: Sys, r: string) {
    forall f, g :: f in s.jobs && g in s.jobs && KeyOf(s.jobs[f]) == Call(r) && KeyOf(s.jobs[g]) == Call(r) ==>
      s.jobs[f] == s.jobs[g]
  }

  /** A future for r that is new is owed by this very step, or shares a job. */
  ghost predicate Ordered(s: Sys, t: Sys, r: string) {
    && s.owed[Call(r)] <= t.owed[Call(r)]
    && forall f :: f in t.jobs && f !in s.jobs && KeyOf(t.jobs[f]) == Call(r) ==>
         s.owed[Call(r)] < t.owed[Call(r)] || (exists g :: g in s.jobs && s.jobs[g] == t.jobs[f])
  }

  lemma StepKeepsOneJob(s: Sys, t: Sys, r: string)
    requires Recorded(s, t) && Traced(s) && OneJob(s, r) && Ordered(s, t, r)
    ensures OneJob(t, r)
  {
    JobsGrowByOne(s, t);
    if t.owed[Call(r)] <= 1 {
      forall f, g | f in t.jobs && g in t.jobs && KeyOf(t.jobs[f]) == Call(r) && KeyOf(t.jobs[g]) == Call(r)
        ensures t.jobs[f] == t.jobs[g]
      {
        if f !in s.jobs && g in s.jobs {
          var h :| h in s.jobs && s.jobs[h] == t.jobs[f];
        } else if g !in s.jobs && f in s.jobs {
          var h :| h in s.jobs && s.jobs[h] == t.jobs[g];
        }
      }
    }
  }

  /** Only a call request starts a future of a call. */
  lemma RequestStarts(c: Core, id: string, a: Action, e: Env, f: nat)
    requires BookInv(c.book) && f in Handle(c, id, a, e).book.inflight && f !in c.book.inflight
    ensures var j := Handle(c, id, a, e).book.inflight[f].job; j.ServiceJob? ==> j.request == id
  {
    if a.EndService? {
      FailuresSweep(c.(services := Stop(c.services, a.serviceId)), Strip(a.serviceId), c.book.nextFuture);
    } else if a.EndPool? {
      FailuresSweep(c.(pools := Stop(c.pools, a.poolId)), Strip(a.poolId), c.book.nextFuture);
    } else if !a.CallService? && !a.SubmitPool? && !a.SubmitRuntime? {
      TableRequestAnswers(c, id, a, e);
    }
  }

  /** A completion starts only retries. */
  lemma CompletionStarts(s: Sys, e: SubmitEnv, f: nat)
    requires CoreInv(s.core) && Registered(s)
    requires f in Complete(s.core, e).book.inflight && f !in s.core.book.inflight
    ensures exists g :: g in s.jobs && s.jobs[g] == Complete(s.core, e).book.inflight[f].job
  {
    var c := s.core;
    var done := c.book.completed[0];
    assert done in s.jobs;
    var m, out := c.book.inflight[done], c.book.done[done];
    var d := c.(book := Untrack(c.book.(completed := c.book.completed[1..]), done));
    var (x, ok) := if out.recoverable && m.recoveries < 1 then Resubmit(d, m.job, e) else (d, false);
  }

  lemma RequestIsOrdered(s: Sys, id: string, a: Action, e: Env, r: string)
    requires BookInv(s.core.book) && Recorded(s, Next(s, Request(id, a, e))) && Registered(s)
    ensures Ordered(s, Next(s, Request(id, a, e)), r)
  {
    var t := Next(s, Request(id, a, e));
    JobsGrowByOne(s, t);
    OwesCounts(id, a, s.core.book, t.core.book, Call(r));
    hide Handle, Advances, BookInv;
    forall f | f in t.jobs && f !in s.jobs && KeyOf(t.jobs[f]) == Call(r)
      ensures s.owed[Call(r)] < t.owed[Call(r)]
    {
      RequestStarts(s.core, id, a, e, f);
    }
  }

  lemma CompletionIsOrdered(s: Sys, e: SubmitEnv, r: string)
    requires CoreInv(s.core) && Recorded(s, Next(s, PollCompletion(e))) && Registered(s)
    ensures Ordered(s, Next(s, PollCompletion(e)), r)
  {
    var t := Next(s, PollCompletion(e));
    JobsGrowByOne(s, t);
    hide Complete, Advances, BookInv, TablesInv;
    forall f | f in t.jobs && f !in s.jobs && KeyOf(t.jobs[f]) == Call(r)
      ensures exists g :: g in s.jobs && s.jobs[g] == t.jobs[f]
    {
      CompletionStarts(s, e, f);
    }
  }

  lemma NextIsOrdered(s: Sys, step: Step, r: string)
    requires CoreInv(s.core) && Registered(s)
    ensures Ordered(s, Next(s, step), r)
  {
    NextRecords(s, step);
    hide Advances, BookInv, TablesInv, Handle, Complete, Expire, DrainStreams, Registered, Recorded;
    match step
    case Request(id, a, e) => RequestIsOrdered(s, id, a, e, r);
    case PollCompletion(e) => CompletionIsOrdered(s, e, r);
    case _ =>
  }

  // ---------------------------------------------------------------- looking back from the reply

  predicate IsSuccess(e: Event, r: string) {
    e.Response? && e.request == r && e.reply.Result? && e.reply.verdict.Finished?
  }

  ghost predicate Replied(log: seq<Event>, r: string) {
    exists e :: e in log && IsSuccess(e, r)
  }

  /** No other future had the job of f: the call was not retried. */
  ghost predicate Lone(s: Sys, f: nat)
    requires f in s.jobs
  {
    forall g :: g in s.jobs && s.jobs[g] == s.jobs[f] ==> g == f
  }

  /** What was emitted for f's call is what was put into its stream. */
  ghost predicate CompleteFor(s: Sys, f: nat, r: string)
    requires f in s.jobs && StreamOf(s.jobs[f]).Some?
  {
    && Values(Emitted(s.core.log, r)) == PutsTo(s, StreamOf(s.jobs[f]).value)
    && (Lone(s, f) ==> ExecutorStreams.Numbered(Emitted(s.core.log, r), 0))
  }

  ghost predicate Delivered(s: Sys, r: string) {
    s.owed[Call(r)] == 1 && Replied(s.core.log, r) ==>
      forall f :: f in s.jobs && KeyOf(s.jobs[f]) == Call(r) && StreamOf(s.jobs[f]).Some? ==> CompleteFor(s, f, r)
  }

  /** A request id that was used once and has been answered has nothing in flight. */
  lemma AnsweredMeansGone(s: Sys, r: string)
    requires BookInv(s.core.book) && Accounted(s, Call(r)) && Replied(s.core.log, r) && s.owed[Call(r)] <= 1
    ensures s.owed[Call(r)] == 1
    ensures forall f :: f in s.core.book.inflight ==> KeyOf(s.core.book.inflight[f].job) != Call(r)
  {
    var e :| e in s.core.log && IsSuccess(e, r);
    var i: nat :| i < |s.core.log| && s.core.log[i] == e;
    AnsweredMeansSettled(s.core.log, i, r);
    forall f | f in s.core.book.inflight ensures KeyOf(s.core.book.inflight[f].job) != Call(r) {
      HeldIfInFlight(s.core.book.inflight, f, s.core.book.nextFuture);
    }
  }

  lemma {:induction false} NoItemsMeansNothingEmitted(log: seq<Event>, r: string)
    requires forall e :: e in log && e.Item? ==> e.request != r
    ensures Emitted(log, r) == []
  {
    if log != [] {
      assert log[|log| - 1] in log;
      NoItemsMeansNothingEmitted(log[..|log| - 1], r);
    }
  }

  /** Behind a reply nothing is emitted. */
  lemma NothingBehindTheReply(log: seq<Event>, i: nat, r: string)
    requires Quiet(log, r) && i < |log| && log[i].Response? && log[i].request == r
    ensures Emitted(log[i..], r) == [] && Emitted(log[..i], r) == Emitted(log, r)
  {
    forall e | e in log[i..] && e.Item? ensures e.request != r {
      var j: nat :| j < |log[i..]| && log[i..][j] == e;
      assert log[i + j] == e && j > 0;
    }
    NoItemsMeansNothingEmitted(log[i..], r);
    EmittedAppend(log[..i], log[i..], r);
    assert log == log[..i] + log[i..];
  }

  /** Once the reply is there, a step changes neither what was emitted nor what was put. */
  lemma RepliedStays(s: Sys, t: Sys, r: string, i: nat)
    requires s.core.log <= t.core.log && Quiet(t.core.log, r) && i < |s.core.log|
    requires s.core.log[i].Response? && s.core.log[i].request == r
    ensures Emitted(t.core.log, r) == Emitted(s.core.log, r)
  {
    var log, grown := s.core.log, t.core.log;
    assert grown == log + grown[|log|..];
    forall e | e in grown[|log|..] && e.Item? ensures e.request != r {
      var j: nat :| j < |grown[|log|..]| && grown[|log|..][j] == e;
      assert grown[|log| + j] == e && grown[i] == log[i];
    }
    NoItemsMeansNothingEmitted(grown[|log|..], r);
    EmittedAppend(log, grown[|log|..], r);
  }

  lemma OtherCallsHaveOtherStreams(s: Sys, f: nat, g: nat)
    requires Traced(s) && f in s.jobs && g in s.jobs && KeyOf(s.jobs[f]) != KeyOf(s.jobs[g])
    ensures !SameStream(s.jobs[f], s.jobs[g])
  {
  }

  /** A worker of another call cannot put into r's stream once r has been answered. */
  lemma PutsElsewhere(s: Sys, step: Step, f: nat, r: string)
    requires CoreInv(s.core) && Traced(s) && f in s.jobs && KeyOf(s.jobs[f]) == Call(r) && StreamOf(s.jobs[f]).Some?
    requires forall g :: g in s.core.book.inflight ==> KeyOf(s.core.book.inflight[g].job) != Call(r)
    ensures PutsTo(Next(s, step), StreamOf(s.jobs[f]).value) == PutsTo(s, StreamOf(s.jobs[f]).value)
  {
    if step.Put? && CanPut(s.core.book, step.future) {
      assert step.future in s.jobs && s.jobs[step.future] == s.core.book.inflight[step.future].job;
      OtherCallsHaveOtherStreams(s, step.future, f);
    }
  }

  /** What the history of r rests on. */
  ghost predicate Sound(s: Sys, r: string) {
    CoreInv(s.core) && Accounted(s, Call(r)) && StreamInv(s, r) && Traced(s) && OneJob(s, r)
  }

  /** A future of r that is registered after the step was registered before. */
  lemma NothingNewFor(s: Sys, t: Sys, r: string, f: nat)
    requires Recorded(s, t) && Registered(s) && f in t.jobs && KeyOf(t.jobs[f]) == Call(r)
    requires forall g :: g in t.core.book.inflight ==> KeyOf(t.core.book.inflight[g].job) != Call(r)
    ensures f in s.jobs && s.jobs[f] == t.jobs[f]
  {
    JobsGrowByOne(s, t);
  }

  lemma CompleteForStays(s: Sys, t: Sys, r: string, f: nat)
    requires f in s.jobs && StreamOf(s.jobs[f]).Some? && CompleteFor(s, f, r)
    requires forall g :: g in s.jobs ==> g in t.jobs && t.jobs[g] == s.jobs[g]
    requires Emitted(t.core.log, r) == Emitted(s.core.log, r)
    requires PutsTo(t, StreamOf(s.jobs[f]).value) == PutsTo(s, StreamOf(s.jobs[f]).value)
    ensures CompleteFor(t, f, r)
  {
    if Lone(t, f) {
      forall g | g in s.jobs && s.jobs[g] == s.jobs[f] ensures g == f { assert g in t.jobs; }
    }
  }

  lemma StepKeepsTheReply(s: Sys, t: Sys, r: string)
    requires Sound(s, r) && Sound(t, r) && Advances(s.core, t.core) && Replied(s.core.log, r) && t.owed[Call(r)] == 1
    requires s.owed[Call(r)] <= t.owed[Call(r)]
    ensures s.owed[Call(r)] == 1 && Emitted(t.core.log, r) == Emitted(s.core.log, r)
    ensures forall g :: g in s.core.book.inflight ==> KeyOf(s.core.book.inflight[g].job) != Call(r)
    ensures forall g :: g in t.core.book.inflight ==> KeyOf(t.core.book.inflight[g].job) != Call(r)
  {
    var e :| e in s.core.log && IsSuccess(e, r);
    var i: nat :| i < |s.core.log| && s.core.log[i] == e;
    assert e == t.core.log[i];
    AnsweredMeansGone(s, r);
    AnsweredMeansGone(t, r);
    RepliedStays(s, t, r, i);
  }

  lemma AnsweredStaysDelivered(s: Sys, step: Step, r: string)
    requires Sound(s, r) && Sound(Next(s, step), r) && Delivered(s, r) && Replied(s.core.log, r)
    requires Next(s, step).owed[Call(r)] == 1
    ensures Delivered(Next(s, step), r)
  {
    var t := Next(s, step);
    NextRecords(s, step);
    NextIsOrdered(s, step, r);
    StepKeepsTheReply(s, t, r);
    JobsGrowByOne(s, t);
    hide Handle, Complete, Expire, DrainStreams, Advances, Accounted, CoreInv, StreamInv, CompleteFor;
    forall f | f in t.jobs && KeyOf(t.jobs[f]) == Call(r) && StreamOf(t.jobs[f]).Some? ensures CompleteFor(t, f, r) {
      NothingNewFor(s, t, r, f);
      PutsElsewhere(s, step, f, r);
      CompleteForStays(s, t, r, f);
    }
  }

  /** Only a completion reports a result. */
  lemma OnlyCompletionsReport(s: Sys, step: Step, e: Event)
    requires CoreInv(s.core) && !step.PollCompletion?
    requires e in Next(s, step).core.log && Reported(e).Some?
    ensures e in s.core.log
  {
    var c := s.core;
    match step
    case Request(id, a, env) => HandleReportsNothing(c, id, a, env);
    case PollStreams => PollsReportNothing(c, 0.0, c.book.nextFuture);
    case PollTimeouts(now) => PollsReportNothing(c, now, c.book.nextFuture);
    case _ =>
  }

  /** A completion that reports a result of r is that of a future of r whose worker returned. */
  lemma CompletionOf(c: Core, env: SubmitEnv, e: Event, r: string)
    requires CoreInv(c) && IsSuccess(e, r) && e in Complete(c, env).log && e !in c.log
    ensures var b := c.book;
            && b.completed != [] && b.completed[0] in b.inflight && b.done[b.completed[0]].Returned?
            && KeyOf(b.inflight[b.completed[0]].job) == Call(r)
            && NewJobs(b, Complete(c, env).book) == map[]
  {
    var f := c.book.completed[0];
    var m, out := c.book.inflight[f], c.book.done[f];
    var b := Untrack(c.book.(completed := c.book.completed[1..]), f);
    if out.Returned? {
      ReturnedReports(c.(book := b), m, out.value, e, r);
    } else {
      RecoverReportsNothing(c, c.(book := b), m, out.recoverable, env);
    }
  }

  lemma ReturnedReports(d: Core, m: Meta, value: int, e: Event, r: string)
    requires IsSuccess(e, r) && e in Deliver(d, m, value).log && e !in d.log
    ensures KeyOf(m.job) == Call(r)
    ensures Deliver(d, m, value).book.nextFuture == d.book.nextFuture
  {
    DrainReportsNothing(d.book, m);
    assert e !in DrainEvents(d.book, m);
    assert e == Settling(m.job, Finished(value));
  }

  lemma TwinIsNotLone(s: Sys, f: nat)
    requires Registered(s) && f in s.core.book.inflight && HasTwin(s, f)
    ensures f in s.jobs && !Lone(s, f)
  {
    var g :| g in s.jobs && g != f && s.jobs[g] == s.core.book.inflight[f].job;
  }

  /** The completed future speaks for every future of r. */
  lemma CompletedForAll(s: Sys, t: Sys, r: string, f: nat, g: nat)
    requires Traced(s) && OneJob(s, r) && s.owed[Call(r)] == 1 && t.jobs == s.jobs && t.puts == s.puts
    requires f in s.core.book.inflight && f in s.jobs && g in s.jobs
    requires KeyOf(s.jobs[f]) == Call(r) && KeyOf(s.jobs[g]) == Call(r) && StreamOf(s.jobs[g]).Some?
    requires StreamOf(s.jobs[f]).Some? ==> Values(Emitted(t.core.log, r)) == PutsTo(s, StreamOf(s.jobs[f]).value)
    requires StreamOf(s.jobs[f]).Some? && s.core.book.inflight[f].recoveries == 0 ==>
      ExecutorStreams.Numbered(Emitted(t.core.log, r), 0)
    ensures CompleteFor(t, g, r)
  {
    assert s.jobs[g] == s.jobs[f];
    if s.core.book.inflight[f].recoveries > 0 {
      TwinIsNotLone(s, f);
      var h :| h in s.jobs && s.jobs[h] == s.jobs[f] && h != f;
      assert !Lone(t, g);
    }
  }

  /** What the completion of r's future emits. */
  lemma CompletionEmits(s: Sys, env: SubmitEnv, f: nat, r: string)
    requires CoreInv(s.core) && Accounted(s, Call(r)) && StreamInv(s, r) && r != "" && s.owed[Call(r)] == 1
    requires var b := s.core.book;
             && b.completed != [] && b.completed[0] == f && f in b.inflight && b.done[f].Returned?
             && KeyOf(b.inflight[f].job) == Call(r)
    ensures var log, m := Complete(s.core, env).log, s.core.book.inflight[f];
            StreamOf(m.job).Some? ==>
              (&& Values(Emitted(log, r)) == PutsTo(s, StreamOf(m.job).value)
               && (m.recoveries == 0 ==> ExecutorStreams.Numbered(Emitted(log, r), 0)))
  {
    if StreamOf(s.core.book.inflight[f].job).Some? {
      StreamIsCompleteAtTheReply(s, env, r);
    }
  }

  lemma CompletionDelivers(s: Sys, env: SubmitEnv, e: Event, r: string)
    requires Sound(s, r) && IsSuccess(e, r) && r != "" && s.owed[Call(r)] == 1
    requires e in Complete(s.core, env).log && e !in s.core.log
    ensures Delivered(Next(s, PollCompletion(env)), r)
  {
    hide CompleteFor, Complete, CoreInv, Accounted, StreamInv;
    CompletionOf(s.core, env, e, r);
    var t := Next(s, PollCompletion(env));
    var f := s.core.book.completed[0];
    CompletionEmits(s, env, f, r);
    assert t.jobs == s.jobs;
    forall g | g in t.jobs && KeyOf(t.jobs[g]) == Call(r) && StreamOf(t.jobs[g]).Some? ensures CompleteFor(t, g, r) {
      CompletedForAll(s, t, r, f, g);
    }
  }

  lemma NextIsDelivered(s: Sys, step: Step, r: string)
    requires Sound(s, r) && Sound(Next(s, step), r) && Delivered(s, r) && r != ""
    ensures Delivered(Next(s, step), r)
  {
    var t := Next(s, step);
    if t.owed[Call(r)] != 1 {
    } else if Replied(s.core.log, r) {
      AnsweredStaysDelivered(s, step, r);
    } else if Replied(t.core.log, r) {
      var e :| e in t.core.log && IsSuccess(e, r);
      assert e !in s.core.log;
      NewReplyDelivers(s, step, e, r);
    }
  }

  lemma NewReplyDelivers(s: Sys, step: Step, e: Event, r: string)
    requires Sound(s, r) && r != "" && IsSuccess(e, r) && e in Next(s, step).core.log && e !in s.core.log
    requires Next(s, step).owed[Call(r)] == 1
    ensures Delivered(Next(s, step), r)
  {
    hide Delivered, Handle, Complete, Expire, DrainStreams;
    if step.PollCompletion? {
      CompletionDelivers(s, step.submit, e, r);
    } else {
      OnlyCompletionsReport(s, step, e);
    }
  }

  lemma NextIsSound(s: Sys, step: Step, r: string)
    requires Sound(s, r) && r != ""
    ensures Sound(Next(s, step), r)
  {
    NextKeepsInv(s, step);
    NextIsAccounted(s, step, Call(r));
    NextKeepsStream(s, step, r);
    NextRecords(s, step);
    NextIsOrdered(s, step, r);
    StepKeepsTrace(s, Next(s, step));
    StepKeepsOneJob(s, Next(s, step), r);
  }

  // ---------------------------------------------------------------- every run

  lemma RunsAreDelivered(capacity: int, steps: seq<Step>, r: string)
    requires r != ""
    ensures Sound(Run(Start(capacity), steps), r) && Delivered(Run(Start(capacity), steps), r)
  {
    var inv := (s: Sys) => Sound(s, r) && Delivered(s, r);
    forall s, step | inv(s) ensures inv(Next(s, step)) {
      NextIsSound(s, step, r);
      NextIsDelivered(s, step, r);
    }
    RunKeeps(inv, Start(capacity), steps);
  }

  /** Stream completeness, at the step: in every reachable state, when the worker of a stream
      call returned, its completion answers last, and what was emitted by then is what the
      workers of the call put, numbered by position unless the call was retried. */
  lemma CompletionsAreComplete(capacity: int, steps: seq<Step>, e: SubmitEnv, r: string)
    requires r != "" && Run(Start(capacity), steps).owed[Call(r)] == 1
    requires var b := Run(Start(capacity), steps).core.book;
             b.completed != [] && Streams(b.inflight, b.completed[0], r) && b.completed[0] in b.done
    requires var b := Run(Start(capacity), steps).core.book; b.done[b.completed[0]].Returned?
    ensures var s := Run(Start(capacity), steps);
            var b := s.core.book;
            var d := Complete(s.core, e);
            && d.log[|d.log| - 1] == Response(r, Result(Finished(b.done[b.completed[0]].value)))
            && Values(Emitted(d.log, r)) == PutsTo(s, b.inflight[b.completed[0]].job.stream.value)
            && (b.inflight[b.completed[0]].recoveries == 0 ==> ExecutorStreams.Numbered(Emitted(d.log, r), 0))
  {
    RunsAreDelivered(capacity, steps, r);
    StreamIsCompleteAtTheReply(Run(Start(capacity), steps), e, r);
  }

  /** Stream completeness, looking back: in every run, where a stream call whose id was used
      once has been answered with a result, the items emitted before the reply are exactly
      those put into its stream, in order, none is emitted behind it, and they are numbered
      0, 1, 2, ... if no second future worked for the call. */
  lemma StreamsAreComplete(capacity: int, steps: seq<Step>, r: string, f: nat, i: nat)
    requires r != "" && Run(Start(capacity), steps).owed[Call(r)] == 1
    requires var s := Run(Start(capacity), steps);
             && f in s.jobs && KeyOf(s.jobs[f]) == Call(r) && StreamOf(s.jobs[f]).Some?
             && i < |s.core.log| && IsSuccess(s.core.log[i], r)
    ensures var s := Run(Start(capacity), steps);
            && Values(Emitted(s.core.log[..i], r)) == PutsTo(s, StreamOf(s.jobs[f]).value)
            && Emitted(s.core.log[i..], r) == []
            && (Lone(s, f) ==> ExecutorStreams.Numbered(Emitted(s.core.log[..i], r), 0))
  {
    RunsAreDelivered(capacity, steps, r);
    var s := Run(Start(capacity), steps);
    assert s.core.log[i] in s.core.log;
    assert CompleteFor(s, f, r);
    NothingBehindTheReply(s.core.log, i, r);
  }
}
