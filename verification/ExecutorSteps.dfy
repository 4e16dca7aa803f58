/** `ExecutorCore` as a state and the atomic steps that change it.

    The host thread is the only one that touches the tables; other threads only put items
    into stream queues and append finished futures to the completion queue. A request, one
    collected completion, and each of the two sweeps over the in-flight table is one step.
    That a sweep is one step loses nothing: what another thread does while it runs is seen
    by a later iteration or by the next sweep, as if it had happened before or after. */
module ExecutorSteps {
  import opened Prelude
  import opened ExecutorTables

  /** What a submitted future computes; `stream` is the queue of a streaming call. */
  datatype Job =
    | ServiceJob(serviceId: string, request: string, startAt: real, timeout: real, stream: Option<nat>)
    | PoolJob(poolId: string, poolTask: string, poolAttempt: int)
    | RuntimeJob(runtimeKey: string, runtimeTask: string, runtimeAttempt: int)

  /** The meta dictionary of an in-flight future. `_stream_state` holds the very same
      dictionary, so `emitted` is stored once. */
  datatype Meta = Meta(job: Job, recoveries: nat, emitted: nat)

  /** What somebody waits for: the reply to a request or the done event of a task. */
  datatype Key =
    | Call(request: string)
    | PoolTask(pool: string, task: string, attempt: int)
    | RuntimeTask(runtime: string, task: string, attempt: int)

  function KeyOf(j: Job): Key {
    match j
    case ServiceJob(_, r, _, _, _) => Call(r)
    case PoolJob(p, t, a) => PoolTask(p, t, a)
    case RuntimeJob(k, t, a) => RuntimeTask(k, t, a)
  }

  /** How a future ends: the worker returned, or `future.result()` raises. */
  datatype Outcome = Returned(value: int) | Raised(recoverable: bool)

  datatype Verdict = Finished(value: int) | ServiceStopped | TaskPoolStopped | InfraFailure

  datatype Reply = Ack | Count(n: int) | Refusal | Result(verdict: Verdict) | InvokeTimeout

  datatype Event =
    | Response(request: string, reply: Reply)
    | Item(request: string, index: nat, value: int)
    | Done(key: Key, verdict: Verdict)
    | Rebuilt(resource: string, recoveries: nat)

  /** An item in a stream queue, numbered by the worker that put it. */
  datatype Queued = Queued(index: nat, value: int)

  /** The futures and their streams. `done` and `completed` are written by worker threads:
      how a future ended, and the completion queue. `queues` are the stream queues whose
      manager is alive. */
  datatype Book = Book(
    inflight: map<nat, Meta>, nextFuture: nat, streaming: set<nat>,
    queues: map<nat, seq<Queued>>, nextQueue: nat,
    done: map<nat, Outcome>, completed: seq<nat>)

  datatype Core = Core(services: Table, pools: Table, runtime: Table, book: Book, log: seq<Event>)

  const DRAIN_BOUND := 32
  const QUEUE_CAPACITY := 32

  function Init(capacity: int): Core {
    var none := Table(map[], map[], 0, {});
    Core(none, none, none.(workers := map[RUNTIME := AtLeastOne(capacity)]),
         Book(map[], 0, {}, map[], 0, map[], []), [])
  }

  // ---------------------------------------------------------------- the book

  predicate IsStream(m: Meta) {
    m.job.ServiceJob? && m.job.stream.Some?
  }

  /** `_track_inflight` on a fresh future. */
  function Track(b: Book, m: Meta): Book {
    b.(inflight := b.inflight[b.nextFuture := m],
       streaming := b.streaming + if IsStream(m) then {b.nextFuture} else {},
       nextFuture := b.nextFuture + 1)
  }

  /** Forgets a future whose stream is still needed. */
  function Untrack(b: Book, f: nat): Book {
    b.(inflight := b.inflight - {f}, streaming := b.streaming - {f})
  }

  /** `_cleanup_stream_state`: the queue dies with its manager. */
  function Cleanup(b: Book, m: Meta): Book {
    if IsStream(m) then b.(queues := b.queues - {m.job.stream.value}) else b
  }

  /** Takes a future out of the tables and frees its stream. */
  function Drop(b: Book, f: nat): Book
    requires f in b.inflight
  {
    Cleanup(Untrack(b, f), b.inflight[f])
  }

  /** `_new_stream_queue` */
  function OpenQueue(b: Book): Book {
    b.(queues := b.queues[b.nextQueue := []], nextQueue := b.nextQueue + 1)
  }

  /** How many items one `_drain_stream_meta` takes. */
  function Drains(b: Book, m: Meta): nat {
    if !IsStream(m) || m.job.request == "" || m.job.stream.value !in b.queues then 0 else
    var n := |b.queues[m.job.stream.value]|;
    if n < DRAIN_BOUND then n else DRAIN_BOUND
  }

  /** The book after `_drain_stream_meta`, apart from the counter in the meta. */
  function DrainQueue(b: Book, m: Meta): Book {
    if Drains(b, m) == 0 then b else
    var q := m.job.stream.value;
    b.(queues := b.queues[q := b.queues[q][Drains(b, m)..]])
  }

  /** The stream events of the items `q`, when `emitted` items came before them. An item
      numbered 0 by its worker is numbered by the counter instead. */
  function ItemEvents(request: string, q: seq<Queued>, emitted: nat): seq<Event> {
    if q == [] then [] else
    [Item(request, if q[0].index == 0 then emitted else q[0].index, q[0].value)]
    + ItemEvents(request, q[1..], emitted + 1)
  }

  /** What `_drain_stream_meta` emits. */
  function DrainEvents(b: Book, m: Meta): seq<Event> {
    if Drains(b, m) == 0 then [] else
    ItemEvents(m.job.request, b.queues[m.job.stream.value][..Drains(b, m)], m.emitted)
  }

  // ---------------------------------------------------------------- stopping

  /** The answer that settles a job. */
  function Settling(j: Job, v: Verdict): Event {
    if j.ServiceJob? then Response(j.request, Result(v)) else Done(KeyOf(j), v)
  }

  /** Takes a future out and answers for it. */
  function Settle(c: Core, f: nat, e: Event): Core
    requires f in c.book.inflight
  {
    c.(book := Drop(c.book, f), log := c.log + [e])
  }

  predicate ServesStopped(m: Meta, sid: string) {
    m.job.ServiceJob? && m.job.serviceId == sid
  }

  predicate PoolsStopped(m: Meta, pid: string) {
    m.job.PoolJob? && m.job.poolId == pid
  }

  function FailServiceOne(c: Core, sid: string, f: nat): Core {
    var m := c.book.inflight;
    if f in m && ServesStopped(m[f], sid) then Settle(c, f, Settling(m[f].job, ServiceStopped)) else c
  }

  function FailPoolOne(c: Core, pid: string, f: nat): Core {
    var m := c.book.inflight;
    if f in m && PoolsStopped(m[f], pid) then Settle(c, f, Settling(m[f].job, TaskPoolStopped)) else c
  }

  /** Applies a step to the futures 0, ..., n - 1. Every tracked future gets a fresh
      number, so this is the insertion order of the in-flight table. */
  function Fold(step: (Core, nat) -> Core, c: Core, n: nat): Core {
    if n == 0 then c else step(Fold(step, c, n - 1), n - 1)
  }

  /** `_fail_service_inflight` over the futures below n; `sid` is already stripped. */
  function FailService(c: Core, sid: string, n: nat): Core {
    Fold((d: Core, f: nat) => FailServiceOne(d, sid, f), c, n)
  }

  /** `_fail_pool_inflight` over the futures below n; the event carries the stripped id. */
  function FailPool(c: Core, pid: string, n: nat): Core {
    Fold((d: Core, f: nat) => FailPoolOne(d, pid, f), c, n)
  }

  function StopService(c: Core, sid: string): Core {
    FailService(c.(services := Stop(c.services, sid)), Strip(sid), c.book.nextFuture)
  }

  function StopPool(c: Core, pid: string): Core {
    FailPool(c.(pools := Stop(c.pools, pid)), Strip(pid), c.book.nextFuture)
  }

  // ---------------------------------------------------------------- streams

  function DrainStream(c: Core, f: nat): Core {
    if f !in c.book.streaming || f !in c.book.inflight then c else
    var m := c.book.inflight[f];
    var b := DrainQueue(c.book, m);
    c.(book := b.(inflight := b.inflight[f := m.(emitted := m.emitted + Drains(c.book, m))]),
       log := c.log + DrainEvents(c.book, m))
  }

  /** `_drain_stream_queues` over the futures below n. */
  function DrainStreams(c: Core, n: nat): Core {
    Fold((d: Core, f: nat) => DrainStream(d, f), c, n)
  }

  // ---------------------------------------------------------------- completion

  /** The retry submission of `_recover_or_fail_future`. */
  function Resubmit(c: Core, j: Job, e: SubmitEnv): (Core, bool) {
    match j
    case ServiceJob(sid, _, _, _, _) => var (t, ok) := Submit(c.services, sid, e); (c.(services := t), ok)
    case PoolJob(pid, _, _) => var (t, ok) := Submit(c.pools, pid, e); (c.(pools := t), ok)
    case RuntimeJob(_, _, _) => var (t, ok) := Submit(c.runtime, RUNTIME, e); (c.(runtime := t), ok)
  }

  function RebuiltEvents(m: Meta): seq<Event> {
    match m.job
    case ServiceJob(sid, _, _, _, _) => [Rebuilt(sid, m.recoveries + 1)]
    case PoolJob(pid, _, _) => [Rebuilt(pid, m.recoveries + 1)]
    case RuntimeJob(_, _, _) => []
  }

  /** One iteration of `_drain_completed_futures`. */
  function Complete(c: Core, e: SubmitEnv): Core {
    if c.book.completed == [] then c else
    var f := c.book.completed[0];
    var rest := c.book.(completed := c.book.completed[1..]);
    if f !in c.book.inflight then c.(book := rest) else
    var b := Untrack(rest, f);
    var m := c.book.inflight[f];
    var out := if f in c.book.done then c.book.done[f] else Raised(false);
    if out.Returned? then Deliver(c.(book := b), m, out.value)
    else Recover(c.(book := b), m, out.recoverable, e)
  }

  /** The worker returned: empty the stream, then answer. */
  function Deliver(c: Core, m: Meta, value: int): Core {
    c.(book := Cleanup(DrainQueue(c.book, m), m),
       log := c.log + DrainEvents(c.book, m) + [Settling(m.job, Finished(value))])
  }

  /** `_recover_or_fail_future`: one retry after a pool crash, otherwise an answer. */
  function Recover(c: Core, m: Meta, recoverable: bool, e: SubmitEnv): Core {
    var (d, ok) := if recoverable && m.recoveries < 1 then Resubmit(c, m.job, e) else (c, false);
    if ok then Retry(d, m) else Fail(d, m)
  }

  /** Tracks the retry with a copy of the meta. */
  function Retry(c: Core, m: Meta): Core {
    c.(book := Track(c.book, m.(recoveries := m.recoveries + 1)), log := c.log + RebuiltEvents(m))
  }

  function Fail(c: Core, m: Meta): Core {
    c.(book := Cleanup(c.book, m), log := c.log + [Settling(m.job, InfraFailure)])
  }

  // ---------------------------------------------------------------- timeouts

  /** The test of `_expire_service_timeouts`; a start time of zero counts as `now`. */
  predicate TimedOut(m: Meta, now: real) {
    m.job.ServiceJob? && now - (if m.job.startAt == 0.0 then now else m.job.startAt) > m.job.timeout
  }

  function ExpireOne(c: Core, now: real, f: nat): Core {
    var m := c.book.inflight;
    if f !in m || !TimedOut(m[f], now) then c else
    var d := Settle(c, f, Response(m[f].job.request, InvokeTimeout));
    if m[f].job.serviceId == "" then d else d.(services := Close(d.services, m[f].job.serviceId))
  }

  /** `_expire_service_timeouts` over the futures below n. */
  function Expire(c: Core, now: real, n: nat): Core {
    Fold((d: Core, f: nat) => ExpireOne(d, now, f), c, n)
  }

  // ---------------------------------------------------------------- requests

  datatype Action =
    | Shutdown
    | Prepare(succeeds: bool)
    | CreateService(serviceId: string, count: int)
    | EndService(serviceId: string)
    | CreatePool(poolId: string, count: int)
    | EndPool(poolId: string)
    | CallService(serviceId: string, timeout: real, now: real, streams: bool)
    | WarmService(serviceId: string)
    | SubmitRuntime(runtimeKey: string, task: string, attempt: int)
    | WarmRuntime
    | SubmitPool(poolId: string, task: string, attempt: int)
    | WarmPool(poolId: string)
    | Unknown

  /** The environment's answers while one request is handled: does the process pool or the
      stream manager that is asked for come up, and how do the submissions go. */
  datatype Env = Env(build: bool, submit: SubmitEnv, background: seq<Attempt>)

  /** `max(0.1, float(timeout or 60.0))` */
  function EffectiveTimeout(t: real): real {
    var u := if t == 0.0 then 60.0 else t;
    if u < 0.1 then 0.1 else u
  }

  function Answer(c: Core, id: string, r: Reply): Core {
    c.(log := c.log + [Response(id, r)])
  }

  /** `warmup_*` and `preload_*` on one table. */
  function Warm(t: Table, key: string, e: Env): (Table, Reply) {
    var t0 := Ensure(t, key, e.build);
    if key !in t0.executors then (t0, Refusal) else
    var (t1, ok) := Background(t0, key, e.background);
    (t1, if ok then Count(|e.background|) else Refusal)
  }

  /** A call is answered when its future is; a refused one at once. */
  function CallOutcome(c: Core, id: string, m: Meta, ok: bool): Core {
    if ok then c.(book := Track(c.book, m)) else Answer(c, id, Refusal)
  }

  /** A task is acknowledged at once and reported by an event when it is done. */
  function TaskOutcome(c: Core, id: string, m: Meta, ok: bool): Core {
    if ok then Answer(c.(book := Track(c.book, m)), id, Ack) else Answer(c, id, Refusal)
  }

  /** `call_service` and `call_service_stream` */
  function HandleCall(c: Core, id: string, sid: string, timeout: real, now: real, streams: bool, e: Env): Core {
    if sid !in c.services.workers || (streams && !e.build) then Answer(c, id, Refusal) else
    var (t, ok) := Submit(c.services, sid, e.submit);
    var stream := if streams then Some(c.book.nextQueue) else None;
    var m := Meta(ServiceJob(sid, id, now, EffectiveTimeout(timeout), stream), 0, 0);
    CallOutcome(c.(services := t, book := if streams then OpenQueue(c.book) else c.book), id, m, ok)
  }

  /** `submit_pool_task` */
  function HandlePoolTask(c: Core, id: string, pid: string, task: string, attempt: int, e: Env): Core {
    if pid !in c.pools.workers then Answer(c, id, Refusal) else
    var (t, ok) := Submit(c.pools, pid, e.submit);
    TaskOutcome(c.(pools := t), id, Meta(PoolJob(pid, task, attempt), 0, 0), ok)
  }

  /** `submit_runtime_task` */
  function HandleRuntimeTask(c: Core, id: string, key: string, task: string, attempt: int, e: Env): Core {
    var (t, ok) := Submit(c.runtime, RUNTIME, e.submit);
    TaskOutcome(c.(runtime := t), id, Meta(RuntimeJob(key, task, attempt), 0, 0), ok)
  }

  /** The requests that change at most one table. */
  function HandleTables(c: Core, id: string, a: Action, e: Env): Core {
    match a
    case Shutdown => Answer(c, id, Ack)
    case Prepare(good) => Answer(c, id, if good then Ack else Refusal)
    case CreateService(sid, n) =>
      Answer(c.(services := Create(c.services, sid, n, e.build)), id, if e.build then Ack else Refusal)
    case CreatePool(pid, n) =>
      Answer(c.(pools := Create(c.pools, pid, n, e.build)), id, if e.build then Ack else Refusal)
    case WarmService(sid) => var (t, r) := Warm(c.services, sid, e); Answer(c.(services := t), id, r)
    case WarmPool(pid) => var (t, r) := Warm(c.pools, pid, e); Answer(c.(pools := t), id, r)
    case WarmRuntime => var (t, r) := Warm(c.runtime, RUNTIME, e); Answer(c.(runtime := t), id, r)
    case _ => Answer(c, id, Refusal)
  }

  /** Stopping answers with the number of futures that it settled. */
  function HandleEndService(c: Core, id: string, sid: string): Core {
    var d := StopService(c, sid);
    Answer(d, id, Count(|c.book.inflight| - |d.book.inflight|))
  }

  function HandleEndPool(c: Core, id: string, pid: string): Core {
    var d := StopPool(c, pid);
    Answer(d, id, Count(|c.book.inflight| - |d.book.inflight|))
  }

  /** `handle_request`: an exception of the environment becomes a refusal. */
  function Handle(c: Core, id: string, a: Action, e: Env): Core {
    match a
    case EndService(sid) => HandleEndService(c, id, sid)
    case EndPool(pid) => HandleEndPool(c, id, pid)
    case CallService(sid, timeout, now, streams) => HandleCall(c, id, sid, timeout, now, streams, e)
    case SubmitPool(pid, task, attempt) => HandlePoolTask(c, id, pid, task, attempt, e)
    case SubmitRuntime(key, task, attempt) => HandleRuntimeTask(c, id, key, task, attempt, e)
    case _ => HandleTables(c, id, a, e)
  }
}
