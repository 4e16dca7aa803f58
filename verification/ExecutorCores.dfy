/** `ExecutorCore` itself: the object whose methods update its tables in place. Every method
    brings about exactly the step of the state machine it is named after. */
module ExecutorCores {
  import opened Prelude
  import opened ExecutorTables
  import opened ExecutorSteps
  import opened ExecutorStops
  import opened ExecutorAnswers
  import opened ExecutorVerdicts

  lemma {:induction false} ItemEventsSnoc(request: string, q: seq<Queued>, n: nat, k: nat)
    requires k < |q|
    ensures ItemEvents(request, q[..k + 1], n)
            == ItemEvents(request, q[..k], n) + [Item(request, if q[k].index == 0 then n + k else q[k].index, q[k].value)]
  {
    if k == 0 {
      assert q[..1][1..] == [];
    } else {
      ItemEventsSnoc(request, q[1..], n + 1, k - 1);
      assert q[..k + 1][1..] == q[1..][..k] && q[..k][1..] == q[1..][..k - 1];
    }
  }

  /** The first n iterations of `_drain_completed_futures`. */
  function CompleteUpTo(c: Core, envs: nat -> SubmitEnv, n: nat): Core {
    if n == 0 then c else Complete(CompleteUpTo(c, envs, n - 1), envs(n - 1))
  }

  lemma CompleteOneMore(c: Core, envs: nat -> SubmitEnv, n: nat)
    ensures CompleteUpTo(c, envs, n + 1) == Complete(CompleteUpTo(c, envs, n), envs(n))
  {
  }

  /** Between two futures that time out, the sweep does nothing. */
  lemma {:induction false} ExpireSkips(c: Core, now: real, a: nat, b: nat)
    requires a <= b
    requires forall f :: a <= f < b ==> f !in c.book.inflight || !TimedOut(c.book.inflight[f], now)
    ensures Expire(c, now, b) == Expire(c, now, a)
  {
    if a < b {
      ExpireSkips(c, now, a, b - 1);
      ExpireEffect(c, now, b - 1);
    }
  }

  /** The sweep up to the next listed future, or to the end, is the sweep so far. */
  lemma ExpireReaches(c: Core, now: real, a: nat, b: nat, timedOut: seq<nat>, i: nat)
    requires i <= |timedOut| && a == (if i == 0 then 0 else timedOut[i - 1] + 1) && a <= b
    requires b <= c.book.nextFuture && (i < |timedOut| ==> b == timedOut[i])
    requires i == |timedOut| ==> b == c.book.nextFuture
    requires forall j, k :: 0 <= j < k < |timedOut| ==> timedOut[j] < timedOut[k]
    requires forall g: nat :: g < c.book.nextFuture ==>
               (g in timedOut <==> g in c.book.inflight && TimedOut(c.book.inflight[g], now))
    ensures Expire(c, now, b) == Expire(c, now, a)
    ensures b in c.book.inflight ==> b in Expire(c, now, b).book.inflight
                                     && Expire(c, now, b).book.inflight[b] == c.book.inflight[b]
  {
    forall k | 0 <= k < |timedOut|
      ensures timedOut[k] < a || timedOut[k] >= b
    {
      assert k < i - 1 || k == i - 1 || k == i || k > i;
    }
    ExpireSkips(c, now, a, b);
    ExpireEffect(c, now, b);
  }

  class ExecutorCore {
    var services: Table
    var pools: Table
    var runtime: Table
    var inflight: map<nat, Meta>
    var nextFuture: nat
    var streaming: set<nat>
    var queues: map<nat, seq<Queued>>
    var nextQueue: nat
    var done: map<nat, Outcome>
    var completed: seq<nat>
    var log: seq<Event>

    ghost function Abs(): Core
      reads this
    {
      Core(services, pools, runtime, Book(inflight, nextFuture, streaming, queues, nextQueue, done, completed), log)
    }

    constructor (capacity: int)
      ensures Abs() == Init(capacity)
    {
      var none := Table(map[], map[], 0, {});
      services, pools := none, none;
      runtime := none.(workers := map[RUNTIME := AtLeastOne(capacity)]);
      inflight, nextFuture, streaming := map[], 0, {};
      queues, nextQueue := map[], 0;
      done, completed, log := map[], [], [];
    }

    method EmitResponse(id: string, r: Reply)
      modifies this`log
      ensures Abs() == Answer(old(Abs()), id, r)
    {
      log := log + [Response(id, r)];
    }

    method TrackInflight(m: Meta)
      modifies this`inflight, this`nextFuture, this`streaming
      ensures Abs() == old(Abs()).(book := Track(old(Abs()).book, m))
    {
      inflight := inflight[nextFuture := m];
      if IsStream(m) {
        streaming := streaming + {nextFuture};
      }
      nextFuture := nextFuture + 1;
    }

    method CleanupStreamState(m: Meta)
      modifies this`queues
      ensures Abs() == old(Abs()).(book := Cleanup(old(Abs()).book, m))
    {
      if IsStream(m) {
        queues := queues - {m.job.stream.value};
      }
    }

    method FailServiceInflight(serviceId: string) returns (failed: int)
      modifies this`inflight, this`streaming, this`queues, this`log
      ensures Abs() == FailService(old(Abs()), Strip(serviceId), old(nextFuture))
      ensures failed == |old(inflight)| - |inflight|
    {
      var sid := Strip(serviceId);
      failed := 0;
      for f := 0 to nextFuture
        invariant Abs() == FailService(old(Abs()), sid, f)
        invariant failed == |old(inflight)| - |inflight|
      {
        if f in inflight && ServesStopped(inflight[f], sid) {
          var m := inflight[f];
          inflight := inflight - {f};
          failed := failed + 1;
          streaming := streaming - {f};
          CleanupStreamState(m);
          EmitResponse(m.job.request, Result(ServiceStopped));
        }
      }
    }

    method FailPoolInflight(poolId: string) returns (failed: int)
      modifies this`inflight, this`streaming, this`log
      ensures Abs() == FailPool(old(Abs()), Strip(poolId), old(nextFuture))
      ensures failed == |old(inflight)| - |inflight|
    {
      var pid := Strip(poolId);
      failed := 0;
      for f := 0 to nextFuture
        invariant Abs() == FailPool(old(Abs()), pid, f)
        invariant failed == |old(inflight)| - |inflight|
      {
        if f in inflight && PoolsStopped(inflight[f], pid) {
          var m := inflight[f];
          inflight := inflight - {f};
          streaming := streaming - {f};
          failed := failed + 1;
          log := log + [Done(PoolTask(pid, m.job.poolTask, m.job.poolAttempt), TaskPoolStopped)];
        }
      }
    }

    /** At most DRAIN_BOUND items go from the stream queue to the log. */
    method DrainStreamMeta(m: Meta) returns (emitted: nat)
      modifies this`queues, this`log
      ensures var c := old(Abs());
              Abs() == c.(book := DrainQueue(c.book, m), log := c.log + DrainEvents(c.book, m))
      ensures emitted == m.emitted + Drains(old(Abs()).book, m)
      ensures
        if m.job.ServiceJob? && m.job.stream.Some? && m.job.request != "" && m.job.stream.value in old(queues) then
          var q := m.job.stream.value;
          var n := if |old(queues)[q]| < 32 then |old(queues)[q]| else 32;
          && emitted == m.emitted + n && queues == old(queues)[q := old(queues)[q][n..]]
        else emitted == m.emitted && queues == old(queues) && log == old(log)
    {
      emitted := m.emitted;
      if !IsStream(m) || m.job.request == "" || m.job.stream.value !in queues {
        return;
      }
      ghost var c := Abs();
      var q := m.job.stream.value;
      ghost var items := queues[q];
      var i := 0;
      while i < DRAIN_BOUND && queues[q] != []
        invariant q in queues && i <= DRAIN_BOUND && i <= |items|
        invariant emitted == m.emitted + i
        invariant Abs() == c.(book := c.book.(queues := c.book.queues[q := items[i..]]),
                              log := c.log + ItemEvents(m.job.request, items[..i], m.emitted))
      {
        var item := queues[q][0];
        queues := queues[q := queues[q][1..]];
        ItemEventsSnoc(m.job.request, items, m.emitted, i);
        log := log + [Item(m.job.request, if item.index == 0 then emitted else item.index, item.value)];
        emitted := emitted + 1;
        i := i + 1;
      }
      assert i == Drains(c.book, m);
    }

    method DrainStreamQueues()
      modifies this`queues, this`log, this`inflight
      ensures Abs() == DrainStreams(old(Abs()), old(nextFuture))
    {
      for f := 0 to nextFuture
        invariant Abs() == DrainStreams(old(Abs()), f)
      {
        if f in streaming && f in inflight {
          var m := inflight[f];
          var emitted := DrainStreamMeta(m);
          inflight := inflight[f := m.(emitted := emitted)];
        }
      }
    }

    method SubmitAgain(j: Job, e: SubmitEnv) returns (ok: bool)
      modifies this`services, this`pools, this`runtime
      ensures (Abs(), ok) == Resubmit(old(Abs()), j, e)
    {
      match j
      case ServiceJob(sid, _, _, _, _) => var r := Submit(services, sid, e); services, ok := r.0, r.1;
      case PoolJob(pid, _, _) => var r := Submit(pools, pid, e); pools, ok := r.0, r.1;
      case RuntimeJob(_, _, _) => var r := Submit(runtime, RUNTIME, e); runtime, ok := r.0, r.1;
    }

    method RecoverOrFailFuture(m: Meta, recoverable: bool, e: SubmitEnv)
      modifies this
      ensures Abs() == Recover(old(Abs()), m, recoverable, e)
      ensures RetriedOrFailed(old(Abs()), Abs(), m,
                              recoverable && m.recoveries == 0 && TakesAgain(old(Abs()), m.job, e))
    {
      RetriedIffThePoolBroke(Abs(), m, recoverable, e);
      var ok := false;
      if recoverable && m.recoveries < 1 {
        ok := SubmitAgain(m.job, e);
      }
      if ok {
        log := log + RebuiltEvents(m);
        TrackInflight(m.(recoveries := m.recoveries + 1));
      } else {
        CleanupStreamState(m);
        log := log + [Settling(m.job, InfraFailure)];
      }
    }

    /** Collects the futures that are in the completion queue. */
    method DrainCompletedFutures(envs: nat -> SubmitEnv)
      modifies this
      ensures Abs() == CompleteUpTo(old(Abs()), envs, |old(completed)|)
      ensures completed == []
    {
      ghost var n := |completed|;
      var i := 0;
      while completed != []
        invariant i + |completed| == n
        invariant Abs() == CompleteUpTo(old(Abs()), envs, i)
        decreases |completed|
      {
        CompleteOneMore(old(Abs()), envs, i);
        CollectOne(envs(i));
        i := i + 1;
      }
    }

    method CollectOne(e: SubmitEnv)
      requires completed != []
      modifies this
      ensures Abs() == Complete(old(Abs()), e)
      ensures completed == old(completed)[1..]
    {
      var f := completed[0];
      completed := completed[1..];
      if f in inflight {
        var m := inflight[f];
        inflight := inflight - {f};
        streaming := streaming - {f};
        var out := if f in done then done[f] else Raised(false);
        match out
        case Raised(recoverable) =>
          RecoverOrFailFuture(m, recoverable, e);
        case Returned(value) =>
          var _ := DrainStreamMeta(m);
          CleanupStreamState(m);
          log := log + [Settling(m.job, Finished(value))];
      }
    }

    /** The in-flight service calls past their deadline, in order. */
    method TimedOutFutures(now: real) returns (timedOut: seq<nat>)
      ensures forall i :: 0 <= i < |timedOut| ==> timedOut[i] < nextFuture
      ensures forall i, j :: 0 <= i < j < |timedOut| ==> timedOut[i] < timedOut[j]
      ensures forall g: nat :: g < nextFuture ==> (g in timedOut <==> g in inflight && TimedOut(inflight[g], now))
    {
      timedOut := [];
      for f := 0 to nextFuture
        invariant forall i :: 0 <= i < |timedOut| ==> timedOut[i] < f
        invariant forall i, j :: 0 <= i < j < |timedOut| ==> timedOut[i] < timedOut[j]
        invariant forall g: nat :: g < f ==> (g in timedOut <==> g in inflight && TimedOut(inflight[g], now))
      {
        if f in inflight && TimedOut(inflight[f], now) {
          timedOut := timedOut + [f];
        }
      }
    }

    method ExpireFuture(now: real, f: nat)
      requires f in inflight && TimedOut(inflight[f], now)
      modifies this
      ensures Abs() == ExpireOne(old(Abs()), now, f)
    {
      var m := inflight[f];
      inflight := inflight - {f};
      streaming := streaming - {f};
      CleanupStreamState(m);
      if m.job.serviceId != "" {
        services := Close(services, m.job.serviceId);
      }
      EmitResponse(m.job.request, InvokeTimeout);
    }

    /** First collects the calls past their deadline, then takes them out. */
    method ExpireServiceTimeouts(now: real)
      modifies this
      ensures Abs() == Expire(old(Abs()), now, old(nextFuture))
      ensures forall f :: f in inflight <==>
        f in old(inflight) && !(f < old(nextFuture) && Overdue(old(inflight)[f].job, now))
    {
      ExpiryIsExact(Abs(), now, nextFuture);
      var timedOut := TimedOutFutures(now);
      ghost var c, n := Abs(), nextFuture;
      ghost var reached := 0;
      for i := 0 to |timedOut|
        invariant reached == if i == 0 then 0 else timedOut[i - 1] + 1
        invariant Abs() == Expire(c, now, reached)
      {
        var f := timedOut[i];
        ExpireReaches(c, now, reached, f, timedOut, i);
        ExpireFuture(now, f);
        reached := f + 1;
      }
      ExpireReaches(c, now, reached, n, timedOut, |timedOut|);
    }

    method PollOnce(now: real, envs: nat -> SubmitEnv)
      modifies this
      ensures var c := DrainStreams(old(Abs()), old(nextFuture));
              var d := CompleteUpTo(c, envs, |old(completed)|);
              Abs() == Expire(d, now, d.book.nextFuture)
    {
      DrainStreamQueues();
      DrainCompletedFutures(envs);
      ExpireServiceTimeouts(now);
    }

    // -------------------------------------------------------------- requests

    method CallService(id: string, sid: string, timeout: real, now: real, streams: bool, e: Env)
      modifies this
      ensures Abs() == HandleCall(old(Abs()), id, sid, timeout, now, streams, e)
    {
      if sid !in services.workers {
        EmitResponse(id, Refusal);
        return;
      }
      var stream := None;
      if streams {
        if !e.build {
          EmitResponse(id, Refusal);
          return;
        }
        stream := Some(nextQueue);
        queues := queues[nextQueue := []];
        nextQueue := nextQueue + 1;
      }
      var (t, ok) := Submit(services, sid, e.submit);
      services := t;
      if ok {
        TrackInflight(Meta(ServiceJob(sid, id, now, EffectiveTimeout(timeout), stream), 0, 0));
      } else {
        EmitResponse(id, Refusal);
      }
    }

    method SubmitPoolTask(id: string, pid: string, task: string, attempt: int, e: Env)
      modifies this
      ensures Abs() == HandlePoolTask(old(Abs()), id, pid, task, attempt, e)
    {
      if pid !in pools.workers {
        EmitResponse(id, Refusal);
        return;
      }
      var (t, ok) := Submit(pools, pid, e.submit);
      pools := t;
      if ok {
        TrackInflight(Meta(PoolJob(pid, task, attempt), 0, 0));
        EmitResponse(id, Ack);
      } else {
        EmitResponse(id, Refusal);
      }
    }

    method SubmitRuntimeTask(id: string, key: string, task: string, attempt: int, e: Env)
      modifies this
      ensures Abs() == HandleRuntimeTask(old(Abs()), id, key, task, attempt, e)
    {
      var (t, ok) := Submit(runtime, RUNTIME, e.submit);
      runtime := t;
      if ok {
        TrackInflight(Meta(RuntimeJob(key, task, attempt), 0, 0));
        EmitResponse(id, Ack);
      } else {
        EmitResponse(id, Refusal);
      }
    }

    method StopServiceRequest(id: string, sid: string, e: Env)
      modifies this
      ensures Abs() == Handle(old(Abs()), id, EndService(sid), e)
    {
      services := Stop(services, sid);
      var failed := FailServiceInflight(sid);
      EmitResponse(id, Count(failed));
    }

    method StopPoolRequest(id: string, pid: string, e: Env)
      modifies this
      ensures Abs() == Handle(old(Abs()), id, EndPool(pid), e)
    {
      pools := Stop(pools, pid);
      var failed := FailPoolInflight(pid);
      EmitResponse(id, Count(failed));
    }

    method TableRequest(id: string, a: Action, e: Env)
      modifies this
      ensures Abs() == HandleTables(old(Abs()), id, a, e)
    {
      var reply := Refusal;
      match a {
        case Shutdown => reply := Ack;
        case Prepare(good) => if good { reply := Ack; }
        case CreateService(sid, n) =>
          services := Create(services, sid, n, e.build);
          if e.build { reply := Ack; }
        case CreatePool(pid, n) =>
          pools := Create(pools, pid, n, e.build);
          if e.build { reply := Ack; }
        case WarmService(sid) => var (t, r) := Warm(services, sid, e); services, reply := t, r;
        case WarmPool(pid) => var (t, r) := Warm(pools, pid, e); pools, reply := t, r;
        case WarmRuntime => var (t, r) := Warm(runtime, RUNTIME, e); runtime, reply := t, r;
        case _ =>
      }
      EmitResponse(id, reply);
    }

    /** `handle_request`; the result says whether the host goes on. */
    method HandleRequest(id: string, a: Action, e: Env) returns (running: bool)
      modifies this
      ensures Abs() == Handle(old(Abs()), id, a, e)
      ensures running == !a.Shutdown?
    {
      match a {
        case CallService(sid, timeout, now, streams) => CallService(id, sid, timeout, now, streams, e);
        case SubmitPool(pid, task, attempt) => SubmitPoolTask(id, pid, task, attempt, e);
        case SubmitRuntime(key, task, attempt) => SubmitRuntimeTask(id, key, task, attempt, e);
        case EndService(sid) => StopServiceRequest(id, sid, e);
        case EndPool(pid) => StopPoolRequest(id, pid, e);
        case _ => TableRequest(id, a, e);
      }
      running := !a.Shutdown?;
    }
  }
}
