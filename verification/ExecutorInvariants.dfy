/** The tables, the in-flight book and the streams stay consistent over every step. */
module ExecutorInvariants {
  import opened Prelude
  import opened ExecutorTables
  import opened ExecutorSteps

  ghost predicate TablesInv(c: Core) {
    TableInv(c.services) && TableInv(c.pools) && TableInv(c.runtime) && RUNTIME in c.runtime.workers
  }

  ghost predicate StreamsApart(m: map<nat, Meta>) {
    forall f, g :: f in m && g in m && IsStream(m[f]) && IsStream(m[g]) && f != g ==>
      m[f].job.stream != m[g].job.stream
  }

  /** `_stream_state` is the streaming part of `_inflight`; each stream has its own live,
      bounded queue; no future is retried twice; and an in-flight future whose worker has
      finished waits in the completion queue, so no answer is lost. */
  ghost predicate BookInv(b: Book) {
    && (forall f :: f in b.inflight ==> f < b.nextFuture && b.inflight[f].recoveries <= 1)
    && (forall f :: f in b.streaming <==> f in b.inflight && IsStream(b.inflight[f]))
    && (forall q :: q in b.queues ==> q < b.nextQueue && |b.queues[q]| <= QUEUE_CAPACITY)
    && (forall f :: f in b.inflight && IsStream(b.inflight[f]) ==> b.inflight[f].job.stream.value in b.queues)
    && StreamsApart(b.inflight)
    && (forall f :: f in b.done ==> f < b.nextFuture)
    && (forall f :: f in b.completed ==> f in b.done)
    && (forall f :: f in b.inflight && f in b.done ==> f in b.completed)
  }

  ghost predicate CoreInv(c: Core) {
    TablesInv(c) && BookInv(c.book)
  }

  /** What every step of a fold keeps, the fold keeps. */
  lemma {:induction false} FoldKeeps(inv: Core -> bool, step: (Core, nat) -> Core, c: Core, n: nat)
    requires inv(c) && forall d, f :: inv(d) ==> inv(step(d, f))
    ensures inv(Fold(step, c, n))
  {
    if n > 0 {
      FoldKeeps(inv, step, c, n - 1);
    }
  }

  // ---------------------------------------------------------------- the book

  /** The stream of m is alive and no in-flight future uses it. */
  ghost predicate StreamFree(b: Book, m: Meta) {
    IsStream(m) ==>
      && m.job.stream.value in b.queues
      && forall f :: f in b.inflight && IsStream(b.inflight[f]) ==> b.inflight[f].job.stream != m.job.stream
  }

  lemma DropKeepsBook(b: Book, f: nat)
    requires BookInv(b) && f in b.inflight
    ensures BookInv(Drop(b, f))
  {
  }

  lemma PopKeepsBook(b: Book)
    requires BookInv(b) && b.completed != []
    ensures var f := b.completed[0];
            var d := Untrack(b.(completed := b.completed[1..]), f);
            BookInv(d) && (f in b.inflight ==> StreamFree(d, b.inflight[f]))
  {
    assert b.completed == [b.completed[0]] + b.completed[1..];
  }

  lemma DrainQueueKeepsBook(b: Book, m: Meta)
    requires BookInv(b) && StreamFree(b, m)
    ensures BookInv(DrainQueue(b, m)) && StreamFree(DrainQueue(b, m), m)
  {
  }

  lemma CleanupKeepsBook(b: Book, m: Meta)
    requires BookInv(b) && StreamFree(b, m)
    ensures BookInv(Cleanup(b, m))
  {
  }

  lemma TrackKeepsBook(b: Book, m: Meta)
    requires BookInv(b) && StreamFree(b, m) && m.recoveries <= 1
    ensures BookInv(Track(b, m))
  {
  }

  lemma OpenQueueKeepsBook(b: Book, m: Meta)
    requires BookInv(b) && IsStream(m) && m.job.stream == Some(b.nextQueue)
    ensures BookInv(OpenQueue(b)) && StreamFree(OpenQueue(b), m)
  {
  }

  lemma DrainStreamKeepsBook(c: Core, f: nat)
    requires BookInv(c.book)
    ensures BookInv(DrainStream(c, f).book)
  {
  }

  // ---------------------------------------------------------------- sweeps

  lemma FailServiceKeepsInv(c: Core, sid: string, n: nat)
    requires CoreInv(c)
    ensures CoreInv(FailService(c, sid, n))
  {
    forall d, f: nat | CoreInv(d)
      ensures CoreInv(FailServiceOne(d, sid, f))
    {
      if f in d.book.inflight { DropKeepsBook(d.book, f); }
    }
    FoldKeeps(d => CoreInv(d), (d: Core, f: nat) => FailServiceOne(d, sid, f), c, n);
  }

  lemma FailPoolKeepsInv(c: Core, pid: string, n: nat)
    requires CoreInv(c)
    ensures CoreInv(FailPool(c, pid, n))
  {
    forall d, f: nat | CoreInv(d)
      ensures CoreInv(FailPoolOne(d, pid, f))
    {
      if f in d.book.inflight { DropKeepsBook(d.book, f); }
    }
    FoldKeeps(d => CoreInv(d), (d: Core, f: nat) => FailPoolOne(d, pid, f), c, n);
  }

  lemma ExpireKeepsInv(c: Core, now: real, n: nat)
    requires CoreInv(c)
    ensures CoreInv(Expire(c, now, n))
  {
    forall d, f: nat | CoreInv(d)
      ensures CoreInv(ExpireOne(d, now, f))
    {
      if f in d.book.inflight && TimedOut(d.book.inflight[f], now) {
        DropKeepsBook(d.book, f);
        CloseKeepsTable(d.services, d.book.inflight[f].job.serviceId);
      }
    }
    FoldKeeps(d => CoreInv(d), (d: Core, f: nat) => ExpireOne(d, now, f), c, n);
  }

  lemma DrainStreamsKeepsInv(c: Core, n: nat)
    requires CoreInv(c)
    ensures CoreInv(DrainStreams(c, n))
  {
    forall d, f: nat | CoreInv(d)
      ensures CoreInv(DrainStream(d, f))
    {
      DrainStreamKeepsBook(d, f);
    }
    FoldKeeps(d => CoreInv(d), (d: Core, f: nat) => DrainStream(d, f), c, n);
  }

  // ---------------------------------------------------------------- completions

  lemma ResubmitKeepsTables(c: Core, j: Job, e: SubmitEnv)
    requires TablesInv(c)
    ensures TablesInv(Resubmit(c, j, e).0)
    ensures Resubmit(c, j, e).0.book == c.book && Resubmit(c, j, e).0.log == c.log
  {
    match j
    case ServiceJob(sid, _, _, _, _) => SubmitKeepsTable(c.services, sid, e);
    case PoolJob(pid, _, _) => SubmitKeepsTable(c.pools, pid, e);
    case RuntimeJob(_, _, _) => SubmitKeepsTable(c.runtime, RUNTIME, e);
  }

  lemma RecoverKeepsInv(c: Core, m: Meta, recoverable: bool, e: SubmitEnv)
    requires CoreInv(c) && StreamFree(c.book, m)
    ensures CoreInv(Recover(c, m, recoverable, e))
  {
    var d := Recover(c, m, recoverable, e);
    RecoverKeepsBook(c.book, m);
    ResubmitKeepsTables(c, m.job, e);
    assert d.book == Cleanup(c.book, m) || (m.recoveries < 1 && d.book == Track(c.book, m.(recoveries := m.recoveries + 1)));
    assert d.services == c.services || d.services == Resubmit(c, m.job, e).0.services;
  }

  lemma RecoverKeepsBook(b: Book, m: Meta)
    requires BookInv(b) && StreamFree(b, m)
    ensures BookInv(Cleanup(b, m))
    ensures m.recoveries < 1 ==> BookInv(Track(b, m.(recoveries := m.recoveries + 1)))
  {
    CleanupKeepsBook(b, m);
    if m.recoveries < 1 {
      assert StreamFree(b, m.(recoveries := m.recoveries + 1));
      TrackKeepsBook(b, m.(recoveries := m.recoveries + 1));
    }
  }

  lemma DeliverKeepsInv(c: Core, m: Meta, value: int)
    requires CoreInv(c) && StreamFree(c.book, m)
    ensures CoreInv(Deliver(c, m, value))
  {
    DrainQueueKeepsBook(c.book, m);
    CleanupKeepsBook(DrainQueue(c.book, m), m);
  }

  lemma CompleteKeepsInv(c: Core, e: SubmitEnv)
    requires CoreInv(c)
    ensures CoreInv(Complete(c, e))
  {
    if c.book.completed != [] {
      PopKeepsBook(c.book);
      var f := c.book.completed[0];
      var d := c.(book := Untrack(c.book.(completed := c.book.completed[1..]), f));
      if f in c.book.inflight {
        var out := c.book.done[f];
        if out.Returned? {
          DeliverKeepsInv(d, c.book.inflight[f], out.value);
        } else {
          RecoverKeepsInv(d, c.book.inflight[f], out.recoverable, e);
        }
      }
    }
  }

  // ---------------------------------------------------------------- requests

  lemma WarmKeepsTable(t: Table, key: string, e: Env)
    requires TableInv(t)
    ensures TableInv(Warm(t, key, e).0) && Warm(t, key, e).0.workers == t.workers
  {
    if key in t.workers {
      RebuildKeepsTable(t, key, e.build);
      BackgroundKeepsTable(Ensure(t, key, e.build), key, e.background);
    }
  }

  lemma HandleTablesKeepsInv(c: Core, id: string, a: Action, e: Env)
    requires CoreInv(c)
    ensures CoreInv(HandleTables(c, id, a, e))
  {
    match a
    case CreateService(sid, n) => CreateKeepsTable(c.services, sid, n, e.build);
    case CreatePool(pid, n) => CreateKeepsTable(c.pools, pid, n, e.build);
    case WarmService(sid) => WarmKeepsTable(c.services, sid, e);
    case WarmPool(pid) => WarmKeepsTable(c.pools, pid, e);
    case WarmRuntime => WarmKeepsTable(c.runtime, RUNTIME, e);
    case _ =>
  }

  lemma HandleCallKeepsInv(c: Core, id: string, sid: string, timeout: real, now: real, streams: bool, e: Env)
    requires CoreInv(c)
    ensures CoreInv(HandleCall(c, id, sid, timeout, now, streams, e))
  {
    SubmitKeepsTable(c.services, sid, e.submit);
    var stream := if streams then Some(c.book.nextQueue) else None;
    var m := Meta(ServiceJob(sid, id, now, EffectiveTimeout(timeout), stream), 0, 0);
    if streams { OpenQueueKeepsBook(c.book, m); }
    TrackKeepsBook(if streams then OpenQueue(c.book) else c.book, m);
  }

  lemma StopServiceKeepsInv(c: Core, sid: string)
    requires CoreInv(c)
    ensures CoreInv(StopService(c, sid))
  {
    StopKeepsTable(c.services, sid);
    FailServiceKeepsInv(c.(services := Stop(c.services, sid)), Strip(sid), c.book.nextFuture);
  }

  lemma StopPoolKeepsInv(c: Core, pid: string)
    requires CoreInv(c)
    ensures CoreInv(StopPool(c, pid))
  {
    StopKeepsTable(c.pools, pid);
    FailPoolKeepsInv(c.(pools := Stop(c.pools, pid)), Strip(pid), c.book.nextFuture);
  }

  lemma AnswerKeepsInv(c: Core, id: string, r: Reply)
    requires CoreInv(c)
    ensures CoreInv(Answer(c, id, r))
  {
  }

  lemma HandleTaskKeepsInv(c: Core, id: string, key: string, task: string, attempt: int, e: Env)
    requires CoreInv(c)
    ensures CoreInv(HandlePoolTask(c, id, key, task, attempt, e))
    ensures CoreInv(HandleRuntimeTask(c, id, key, task, attempt, e))
  {
    SubmitKeepsTable(c.pools, key, e.submit);
    SubmitKeepsTable(c.runtime, RUNTIME, e.submit);
    TrackKeepsBook(c.book, Meta(PoolJob(key, task, attempt), 0, 0));
    TrackKeepsBook(c.book, Meta(RuntimeJob(key, task, attempt), 0, 0));
  }

  lemma EndServiceKeepsInv(c: Core, id: string, sid: string)
    requires CoreInv(c)
    ensures CoreInv(HandleEndService(c, id, sid))
  {
    var d := StopService(c, sid);
    StopServiceKeepsInv(c, sid);
    AnswerKeepsInv(d, id, Count(|c.book.inflight| - |d.book.inflight|));
  }

  lemma EndPoolKeepsInv(c: Core, id: string, pid: string)
    requires CoreInv(c)
    ensures CoreInv(HandleEndPool(c, id, pid))
  {
    var d := StopPool(c, pid);
    StopPoolKeepsInv(c, pid);
    AnswerKeepsInv(d, id, Count(|c.book.inflight| - |d.book.inflight|));
  }

  lemma HandleKeepsInv(c: Core, id: string, a: Action, e: Env)
    requires CoreInv(c)
    ensures CoreInv(Handle(c, id, a, e))
  {
    hide CoreInv, HandleEndService, HandleEndPool, HandleCall, HandlePoolTask, HandleRuntimeTask, HandleTables;
    match a
    case EndService(sid) => EndServiceKeepsInv(c, id, sid);
    case EndPool(pid) => EndPoolKeepsInv(c, id, pid);
    case CallService(sid, timeout, now, streams) => HandleCallKeepsInv(c, id, sid, timeout, now, streams, e);
    case SubmitPool(pid, task, attempt) => HandleTaskKeepsInv(c, id, pid, task, attempt, e);
    case SubmitRuntime(key, task, attempt) => HandleTaskKeepsInv(c, id, key, task, attempt, e);
    case _ => HandleTablesKeepsInv(c, id, a, e);
  }
}
