/** Every run of the executor: requests, polls, completions, crashes, timeouts and stops in
    any order. Each accepted call or task is answered exactly once, and stopping is final. */
module ExecutorRuns {
  import opened Prelude
  import opened ExecutorTables
  import opened ExecutorSteps
  import opened ExecutorInvariants

  /** The executor together with what happened so far: the answers owed to somebody, the
      futures tracked for each of them, the job of every future, and what workers put into
      each stream queue (`sent` counts the items of each future). */
  datatype Sys = Sys(core: Core, owed: multiset<Key>, tries: multiset<Key>, jobs: map<nat, Job>,
                     puts: map<nat, seq<int>>, sent: map<nat, nat>)

  datatype Step =
    | Request(id: string, action: Action, env: Env)
    | PollStreams
    | PollCompletion(submit: SubmitEnv)
    | PollTimeouts(now: real)
    | Finish(future: nat, outcome: Outcome)
    | Put(future: nat, value: int)

  function PutsTo(s: Sys, q: nat): seq<int> {
    if q in s.puts then s.puts[q] else []
  }

  function SentBy(s: Sys, f: nat): nat {
    if f in s.sent then s.sent[f] else 0
  }

  /** The key of the future a step started tracking, if it did. */
  function NewKeys(before: Book, after: Book): multiset<Key> {
    if after.nextFuture > before.nextFuture && before.nextFuture in after.inflight then
      multiset{KeyOf(after.inflight[before.nextFuture].job)}
    else multiset{}
  }

  function NewJobs(before: Book, after: Book): map<nat, Job> {
    if after.nextFuture > before.nextFuture && before.nextFuture in after.inflight then
      map[before.nextFuture := after.inflight[before.nextFuture].job]
    else map[]
  }

  /** A worker can put into its queue while it runs and the queue has room. */
  predicate CanPut(b: Book, f: nat) {
    && f in b.inflight && f !in b.done && IsStream(b.inflight[f])
    && b.inflight[f].job.stream.value in b.queues
    && |b.queues[b.inflight[f].job.stream.value]| < QUEUE_CAPACITY
  }

  /** What a request adds to what is owed: a reply, and for an accepted task a done event. */
  function Owes(id: string, a: Action, before: Book, after: Book): multiset<Key> {
    multiset{Call(id)} + if a.CallService? then multiset{} else NewKeys(before, after)
  }

  /** One atomic step; a step that cannot happen leaves the state as it is. */
  function Next(s: Sys, step: Step): Sys {
    var c := s.core;
    match step
    case Request(id, a, e) =>
      var d := Handle(c, id, a, e);
      s.(core := d, owed := s.owed + Owes(id, a, c.book, d.book), tries := s.tries + NewKeys(c.book, d.book),
         jobs := s.jobs + NewJobs(c.book, d.book))
    case PollStreams => s.(core := DrainStreams(c, c.book.nextFuture))
    case PollCompletion(e) =>
      var d := Complete(c, e);
      s.(core := d, tries := s.tries + NewKeys(c.book, d.book), jobs := s.jobs + NewJobs(c.book, d.book))
    case PollTimeouts(now) => s.(core := Expire(c, now, c.book.nextFuture))
    case Finish(f, out) => s.(core := c.(book := FinishFuture(c.book, f, out)))
    case Put(f, v) =>
      if !CanPut(c.book, f) then s else
      var q := c.book.inflight[f].job.stream.value;
      s.(core := c.(book := PutItem(c.book, f, Queued(SentBy(s, f), v))),
         puts := s.puts[q := PutsTo(s, q) + [v]],
         sent := s.sent[f := SentBy(s, f) + 1])
  }

  function FinishFuture(b: Book, f: nat, out: Outcome): Book {
    if f < b.nextFuture && f !in b.done then
      b.(done := b.done[f := out], completed := b.completed + [f])
    else b
  }

  function PutItem(b: Book, f: nat, x: Queued): Book
    requires CanPut(b, f)
  {
    var q := b.inflight[f].job.stream.value;
    b.(queues := b.queues[q := b.queues[q] + [x]])
  }

  function Start(capacity: int): Sys {
    Sys(Init(capacity), multiset{}, multiset{}, map[], map[], map[])
  }

  function Run(s: Sys, steps: seq<Step>): Sys {
    if steps == [] then s else Next(Run(s, steps[..|steps| - 1]), steps[|steps| - 1])
  }

  /** What every step keeps, every run keeps. */
  lemma {:induction false} RunKeeps(inv: Sys -> bool, s: Sys, steps: seq<Step>)
    requires inv(s)
    requires forall t, step :: inv(t) && step in steps ==> inv(Next(t, step))
    ensures inv(Run(s, steps))
  {
    if steps != [] {
      RunKeeps(inv, s, steps[..|steps| - 1]);
    }
  }

  // ---------------------------------------------------------------- consistency

  lemma EnvironmentKeepsBook(b: Book, f: nat, out: Outcome, x: Queued)
    requires BookInv(b)
    ensures BookInv(FinishFuture(b, f, out))
    ensures CanPut(b, f) ==> BookInv(PutItem(b, f, x))
  {
  }

  lemma NextKeepsInv(s: Sys, step: Step)
    requires CoreInv(s.core)
    ensures CoreInv(Next(s, step).core)
  {
    match step
    case Request(id, a, e) => HandleKeepsInv(s.core, id, a, e);
    case PollStreams => DrainStreamsKeepsInv(s.core, s.core.book.nextFuture);
    case PollCompletion(e) => CompleteKeepsInv(s.core, e);
    case PollTimeouts(now) => ExpireKeepsInv(s.core, now, s.core.book.nextFuture);
    case Finish(f, out) => EnvironmentKeepsBook(s.core.book, f, out, Queued(0, 0));
    case Put(f, v) => EnvironmentKeepsBook(s.core.book, f, Raised(false), Queued(SentBy(s, f), v));
  }

  /** In every reachable state no process pool is leaked, the stream table mirrors the
      in-flight table, and every finished in-flight future waits to be collected. */
  lemma RunsAreConsistent(capacity: int, steps: seq<Step>)
    ensures CoreInv(Run(Start(capacity), steps).core)
  {
    forall s: Sys, step | CoreInv(s.core) ensures CoreInv(Next(s, step).core) { NextKeepsInv(s, step); }
    RunKeeps((s: Sys) => CoreInv(s.core), Start(capacity), steps);
  }

  // ---------------------------------------------------------------- counting

  function One(b: bool): nat {
    if b then 1 else 0
  }

  /** Whether future f works for k; optionally only if it was not retried yet. */
  predicate WorksFor(m: map<nat, Meta>, f: nat, k: Key, freshOnly: bool) {
    f in m && KeyOf(m[f].job) == k && (freshOnly ==> m[f].recoveries == 0)
  }

  /** How many of the in-flight futures below n work for k. */
  function Tally(m: map<nat, Meta>, k: Key, freshOnly: bool, n: nat): nat {
    if n == 0 then 0 else Tally(m, k, freshOnly, n - 1) + One(WorksFor(m, n - 1, k, freshOnly))
  }

  function KeyOfEvent(e: Event): Option<Key> {
    match e
    case Response(r, _) => Some(Call(r))
    case Done(k, _) => Some(k)
    case _ => None
  }

  /** How many answers for k have been emitted. */
  function Settled(log: seq<Event>, k: Key): nat {
    if log == [] then 0 else
    Settled(log[..|log| - 1], k) + if KeyOfEvent(log[|log| - 1]) == Some(k) then 1 else 0
  }

  /** Futures in flight for k. */
  function Held(b: Book, k: Key): nat {
    Tally(b.inflight, k, false, b.nextFuture)
  }

  /** Futures in flight for k that may still be retried. */
  function Fresh(b: Book, k: Key): nat {
    Tally(b.inflight, k, true, b.nextFuture)
  }

  /** Tables that differ at f at most have tallies that differ by what f contributes. */
  lemma {:induction false} TallyChange(m: map<nat, Meta>, d: map<nat, Meta>, f: nat, k: Key, freshOnly: bool, n: nat)
    requires forall g: nat :: g != f ==> (g in m <==> g in d) && (g in m ==> m[g] == d[g])
    ensures Tally(d, k, freshOnly, n) + One(f < n && WorksFor(m, f, k, freshOnly))
            == Tally(m, k, freshOnly, n) + One(f < n && WorksFor(d, f, k, freshOnly))
  {
    if n > 0 {
      TallyChange(m, d, f, k, freshOnly, n - 1);
    }
  }

  lemma {:induction false} SettledAppend(log: seq<Event>, more: seq<Event>, k: Key)
    ensures Settled(log + more, k) == Settled(log, k) + Settled(more, k)
  {
    if more == [] {
      assert log + more == log;
    } else {
      assert (log + more)[..|log + more| - 1] == log + more[..|more| - 1];
      SettledAppend(log, more[..|more| - 1], k);
    }
  }

  lemma {:induction false} ItemsSettleNothing(request: string, q: seq<Queued>, emitted: nat, k: Key)
    ensures Settled(ItemEvents(request, q, emitted), k) == 0
  {
    if q != [] {
      ItemsSettleNothing(request, q[1..], emitted + 1, k);
      var head := [Item(request, if q[0].index == 0 then emitted else q[0].index, q[0].value)];
      SettledAppend(head, ItemEvents(request, q[1..], emitted + 1), k);
    }
  }

  lemma DrainSettlesNothing(b: Book, m: Meta, k: Key)
    ensures Settled(DrainEvents(b, m), k) == 0
  {
    if Drains(b, m) != 0 {
      ItemsSettleNothing(m.job.request, b.queues[m.job.stream.value][..Drains(b, m)], m.emitted, k);
    }
  }

  /** A step from c to d that tracks nothing keeps what is held or answered for k. */
  ghost predicate Balanced(c: Core, d: Core, k: Key) {
    && d.book.nextFuture == c.book.nextFuture
    && (forall f :: f in d.book.inflight ==> f < c.book.nextFuture)
    && Held(d.book, k) + Settled(d.log, k) == Held(c.book, k) + Settled(c.log, k)
    && Fresh(d.book, k) <= Fresh(c.book, k)
  }

  lemma SettleIsBalanced(c: Core, d: Core, f: nat, e: Event, k: Key)
    requires Balanced(c, d, k) && f in d.book.inflight && KeyOfEvent(e) == Some(KeyOf(d.book.inflight[f].job))
    ensures Balanced(c, Settle(d, f, e), k)
  {
    var m := d.book.inflight;
    TallyChange(m, m - {f}, f, k, false, d.book.nextFuture);
    TallyChange(m, m - {f}, f, k, true, d.book.nextFuture);
    SettledAppend(d.log, [e], k);
  }

  lemma DrainEventsSettleNothing(log: seq<Event>, b: Book, m: Meta, k: Key)
    ensures Settled(log + DrainEvents(b, m), k) == Settled(log, k)
  {
    DrainSettlesNothing(b, m, k);
    SettledAppend(log, DrainEvents(b, m), k);
  }

  /** The counter of a meta plays no part in the tallies. */
  lemma EmittedIsNotTallied(inflight: map<nat, Meta>, f: nat, emitted: nat, k: Key, n: nat)
    requires f in inflight
    ensures var x := inflight[f := inflight[f].(emitted := emitted)];
            forall freshOnly :: Tally(x, k, freshOnly, n) == Tally(inflight, k, freshOnly, n)
  {
    var x := inflight[f := inflight[f].(emitted := emitted)];
    TallyChange(inflight, x, f, k, false, n);
    TallyChange(inflight, x, f, k, true, n);
  }

  lemma DrainIsBalanced(c: Core, d: Core, f: nat, k: Key)
    requires Balanced(c, d, k)
    ensures Balanced(c, DrainStream(d, f), k)
  {
    if f in d.book.streaming && f in d.book.inflight {
      var m := d.book.inflight[f];
      EmittedIsNotTallied(d.book.inflight, f, m.emitted + Drains(d.book, m), k, d.book.nextFuture);
      DrainEventsSettleNothing(d.log, d.book, m, k);
    }
  }

  lemma FailuresAreBalanced(c: Core, key: string, n: nat, k: Key)
    requires Balanced(c, c, k)
    ensures Balanced(c, FailService(c, key, n), k) && Balanced(c, FailPool(c, key, n), k)
  {
    var inv := (d: Core) => Balanced(c, d, k);
    forall d, f: nat | inv(d)
      ensures inv(FailServiceOne(d, key, f)) && inv(FailPoolOne(d, key, f))
    {
      if f in d.book.inflight {
        SettleIsBalanced(c, d, f, Settling(d.book.inflight[f].job, ServiceStopped), k);
        SettleIsBalanced(c, d, f, Settling(d.book.inflight[f].job, TaskPoolStopped), k);
      }
    }
    FoldKeeps(inv, (d: Core, f: nat) => FailServiceOne(d, key, f), c, n);
    FoldKeeps(inv, (d: Core, f: nat) => FailPoolOne(d, key, f), c, n);
  }

  lemma PollsAreBalanced(c: Core, now: real, n: nat, k: Key)
    requires Balanced(c, c, k)
    ensures Balanced(c, Expire(c, now, n), k) && Balanced(c, DrainStreams(c, n), k)
  {
    var inv := (d: Core) => Balanced(c, d, k);
    forall d, f: nat | inv(d)
      ensures inv(ExpireOne(d, now, f)) && inv(DrainStream(d, f))
    {
      DrainIsBalanced(c, d, f, k);
      if f in d.book.inflight && d.book.inflight[f].job.ServiceJob? {
        SettleIsBalanced(c, d, f, Response(d.book.inflight[f].job.request, InvokeTimeout), k);
      }
    }
    FoldKeeps(inv, (d: Core, f: nat) => ExpireOne(d, now, f), c, n);
    FoldKeeps(inv, (d: Core, f: nat) => DrainStream(d, f), c, n);
  }

  /** Tracking a fresh future adds it to the tallies. */
  lemma TrackCounts(b: Book, m: Meta, k: Key)
    requires b.nextFuture !in b.inflight
    ensures Held(Track(b, m), k) == Held(b, k) + One(KeyOf(m.job) == k)
    ensures Fresh(Track(b, m), k) == Fresh(b, k) + One(KeyOf(m.job) == k && m.recoveries == 0)
    ensures NewKeys(b, Track(b, m)) == multiset{KeyOf(m.job)}
  {
    var n := b.nextFuture;
    TallyChange(b.inflight, b.inflight[n := m], n, k, false, n);
    TallyChange(b.inflight, b.inflight[n := m], n, k, true, n);
  }

  /** A step from c to d that may track one future and adds `extra` answers to k's bill. */
  ghost predicate Counts(c: Core, d: Core, k: Key, extra: nat) {
    && Held(d.book, k) + Settled(d.log, k) == Held(c.book, k) + Settled(c.log, k) + extra
    && NewKeys(c.book, d.book)[k] + Fresh(d.book, k) <= Fresh(c.book, k) + 2 * extra
  }

  lemma RebuiltSettlesNothing(log: seq<Event>, m: Meta, k: Key)
    ensures Settled(log + RebuiltEvents(m), k) == Settled(log, k)
  {
    SettledAppend(log, RebuiltEvents(m), k);
  }

  lemma RetryTracks(b: Book, m: Meta, k: Key)
    requires b.nextFuture !in b.inflight && m.recoveries > 0
    ensures Held(Track(b, m), k) == Held(b, k) + One(KeyOf(m.job) == k)
    ensures Fresh(Track(b, m), k) == Fresh(b, k)
    ensures NewKeys(b, Track(b, m))[k] == One(KeyOf(m.job) == k)
  {
    TrackCounts(b, m, k);
  }

  lemma RetryCounts(c: Core, m: Meta, k: Key)
    requires c.book.nextFuture !in c.book.inflight
    ensures var d := Retry(c, m);
            && Held(d.book, k) + Settled(d.log, k) == Held(c.book, k) + Settled(c.log, k) + One(KeyOf(m.job) == k)
            && Fresh(d.book, k) == Fresh(c.book, k)
            && NewKeys(c.book, d.book)[k] == One(KeyOf(m.job) == k)
  {
    RetryTracks(c.book, m.(recoveries := m.recoveries + 1), k);
    RebuiltSettlesNothing(c.log, m, k);
  }

  lemma FailCounts(c: Core, m: Meta, k: Key)
    ensures var d := Fail(c, m);
            && Held(d.book, k) + Settled(d.log, k) == Held(c.book, k) + Settled(c.log, k) + One(KeyOf(m.job) == k)
            && Fresh(d.book, k) == Fresh(c.book, k) && d.book.nextFuture == c.book.nextFuture
  {
    SettledAppend(c.log, [Settling(m.job, InfraFailure)], k);
  }

  lemma RecoverCounts(c: Core, m: Meta, recoverable: bool, e: SubmitEnv, k: Key)
    requires TablesInv(c) && c.book.nextFuture !in c.book.inflight
    ensures var d := Recover(c, m, recoverable, e);
            && Held(d.book, k) + Settled(d.log, k) == Held(c.book, k) + Settled(c.log, k) + One(KeyOf(m.job) == k)
            && NewKeys(c.book, d.book)[k] + Fresh(d.book, k)
               <= Fresh(c.book, k) + One(KeyOf(m.job) == k && m.recoveries == 0)
  {
    ResubmitKeepsTables(c, m.job, e);
    var (d, ok) := if recoverable && m.recoveries < 1 then Resubmit(c, m.job, e) else (c, false);
    RetryCounts(d, m, k);
    FailCounts(d, m, k);
  }

  lemma DeliverCounts(c: Core, m: Meta, value: int, k: Key)
    ensures var d := Deliver(c, m, value);
            && Held(d.book, k) + Settled(d.log, k) == Held(c.book, k) + Settled(c.log, k) + One(KeyOf(m.job) == k)
            && d.book.nextFuture == c.book.nextFuture && Fresh(d.book, k) == Fresh(c.book, k)
  {
    DrainSettlesNothing(c.book, m, k);
    SettledAppend(c.log, DrainEvents(c.book, m), k);
    SettledAppend(c.log + DrainEvents(c.book, m), [Settling(m.job, Finished(value))], k);
  }

  lemma PopCounts(b: Book, k: Key)
    requires b.completed != []
    ensures var f := b.completed[0];
            var d := Untrack(b.(completed := b.completed[1..]), f);
            && Held(d, k) + One(f < b.nextFuture && WorksFor(b.inflight, f, k, false)) == Held(b, k)
            && Fresh(d, k) + One(f < b.nextFuture && WorksFor(b.inflight, f, k, true)) == Fresh(b, k)
  {
    var f := b.completed[0];
    TallyChange(b.inflight, b.inflight - {f}, f, k, false, b.nextFuture);
    TallyChange(b.inflight, b.inflight - {f}, f, k, true, b.nextFuture);
  }

  lemma CompleteCounts(c: Core, e: SubmitEnv, k: Key)
    requires CoreInv(c)
    ensures Counts(c, Complete(c, e), k, 0)
  {
    if c.book.completed != [] {
      var f := c.book.completed[0];
      var b := Untrack(c.book.(completed := c.book.completed[1..]), f);
      PopCounts(c.book, k);
      if f in c.book.inflight {
        var out := c.book.done[f];
        if out.Returned? {
          DeliverCounts(c.(book := b), c.book.inflight[f], out.value, k);
        } else {
          RecoverCounts(c.(book := b), c.book.inflight[f], out.recoverable, e, k);
        }
      }
    }
  }

  /** Answering after a step that tracked nothing. */
  lemma AnswerSettles(d: Core, id: string, r: Reply, k: Key)
    ensures Settled(Answer(d, id, r).log, k) == Settled(d.log, k) + One(k == Call(id))
    ensures Answer(d, id, r).book == d.book
  {
    SettledAppend(d.log, [Response(id, r)], k);
  }

  lemma AnswerCounts(c: Core, d: Core, id: string, r: Reply, k: Key)
    requires Balanced(c, d, k)
    ensures Counts(c, Answer(d, id, r), k, One(k == Call(id)))
    ensures Answer(d, id, r).book.nextFuture == c.book.nextFuture
  {
    AnswerSettles(d, id, r, k);
  }

  lemma CallOutcomeCounts(c: Core, id: string, m: Meta, ok: bool, k: Key)
    requires Balanced(c, c, k) && m.recoveries == 0 && KeyOf(m.job) == Call(id)
    ensures Counts(c, CallOutcome(c, id, m, ok), k, One(k == Call(id)))
  {
    TrackCounts(c.book, m, k);
    AnswerCounts(c, c, id, Refusal, k);
  }

  lemma TaskOutcomeCounts(c: Core, id: string, m: Meta, ok: bool, k: Key)
    requires Balanced(c, c, k) && m.recoveries == 0
    ensures var d := TaskOutcome(c, id, m, ok);
            Counts(c, d, k, One(k == Call(id)) + NewKeys(c.book, d.book)[k])
  {
    TrackCounts(c.book, m, k);
    AnswerCounts(c, c, id, Refusal, k);
    SettledAppend(c.log, [Response(id, Ack)], k);
  }

  lemma StopServiceBalanced(c: Core, sid: string, k: Key)
    requires Balanced(c, c, k)
    ensures Balanced(c, StopService(c, sid), k)
  {
    FailuresAreBalanced(c.(services := Stop(c.services, sid)), Strip(sid), c.book.nextFuture, k);
  }

  lemma StopPoolBalanced(c: Core, pid: string, k: Key)
    requires Balanced(c, c, k)
    ensures Balanced(c, StopPool(c, pid), k)
  {
    FailuresAreBalanced(c.(pools := Stop(c.pools, pid)), Strip(pid), c.book.nextFuture, k);
  }

  lemma CallCounts(c: Core, id: string, sid: string, timeout: real, now: real, streams: bool, e: Env, k: Key)
    requires Balanced(c, c, k)
    ensures Counts(c, HandleCall(c, id, sid, timeout, now, streams, e), k, One(k == Call(id)))
  {
    if sid !in c.services.workers || (streams && !e.build) {
      AnswerCounts(c, c, id, Refusal, k);
    } else {
      var (t, ok) := Submit(c.services, sid, e.submit);
      var stream := if streams then Some(c.book.nextQueue) else None;
      var m := Meta(ServiceJob(sid, id, now, EffectiveTimeout(timeout), stream), 0, 0);
      CallOutcomeCounts(c.(services := t, book := if streams then OpenQueue(c.book) else c.book), id, m, ok, k);
    }
  }

  lemma PoolTaskCounts(c: Core, id: string, pid: string, task: string, attempt: int, e: Env, k: Key)
    requires Balanced(c, c, k)
    ensures var d := HandlePoolTask(c, id, pid, task, attempt, e);
            Counts(c, d, k, One(k == Call(id)) + NewKeys(c.book, d.book)[k])
  {
    if pid !in c.pools.workers {
      AnswerCounts(c, c, id, Refusal, k);
    } else {
      var (t, ok) := Submit(c.pools, pid, e.submit);
      TaskOutcomeCounts(c.(pools := t), id, Meta(PoolJob(pid, task, attempt), 0, 0), ok, k);
    }
  }

  lemma RuntimeTaskCounts(c: Core, id: string, key: string, task: string, attempt: int, e: Env, k: Key)
    requires Balanced(c, c, k)
    ensures var d := HandleRuntimeTask(c, id, key, task, attempt, e);
            Counts(c, d, k, One(k == Call(id)) + NewKeys(c.book, d.book)[k])
  {
    var (t, ok) := Submit(c.runtime, RUNTIME, e.submit);
    TaskOutcomeCounts(c.(runtime := t), id, Meta(RuntimeJob(key, task, attempt), 0, 0), ok, k);
  }

  /** Such a request changes no book and is answered once. */
  lemma TableRequestAnswers(c: Core, id: string, a: Action, e: Env)
    ensures var d := HandleTables(c, id, a, e);
            && d.book == c.book && |d.log| == |c.log| + 1 && d.log == c.log + [d.log[|c.log|]]
            && d.log[|c.log|].Response? && d.log[|c.log|].request == id
  {
  }

  lemma TableRequestCounts(c: Core, id: string, a: Action, e: Env, k: Key)
    requires Balanced(c, c, k)
    ensures Counts(c, HandleTables(c, id, a, e), k, One(k == Call(id)))
    ensures HandleTables(c, id, a, e).book == c.book
  {
    TableRequestAnswers(c, id, a, e);
    SettledAppend(c.log, [HandleTables(c, id, a, e).log[|c.log|]], k);
  }

  lemma EndServiceCounts(c: Core, id: string, sid: string, k: Key)
    requires Balanced(c, c, k)
    ensures var d := HandleEndService(c, id, sid);
            Counts(c, d, k, One(k == Call(id))) && d.book.nextFuture == c.book.nextFuture
  {
    var d := StopService(c, sid);
    StopServiceBalanced(c, sid, k);
    AnswerCounts(c, d, id, Count(|c.book.inflight| - |d.book.inflight|), k);
  }

  lemma EndPoolCounts(c: Core, id: string, pid: string, k: Key)
    requires Balanced(c, c, k)
    ensures var d := HandleEndPool(c, id, pid);
            Counts(c, d, k, One(k == Call(id))) && d.book.nextFuture == c.book.nextFuture
  {
    var d := StopPool(c, pid);
    StopPoolBalanced(c, pid, k);
    AnswerCounts(c, d, id, Count(|c.book.inflight| - |d.book.inflight|), k);
  }

  lemma OwesCounts(id: string, a: Action, before: Book, after: Book, k: Key)
    ensures Owes(id, a, before, after)[k] == One(k == Call(id)) + if a.CallService? then 0 else NewKeys(before, after)[k]
    ensures before.nextFuture == after.nextFuture ==> NewKeys(before, after)[k] == 0
  {
  }

  lemma HandleCounts(c: Core, id: string, a: Action, e: Env, k: Key)
    requires Balanced(c, c, k)
    ensures var d := Handle(c, id, a, e); Counts(c, d, k, Owes(id, a, c.book, d.book)[k])
  {
    hide Counts, Balanced, Owes, NewKeys;
    hide HandleEndService, HandleEndPool, HandleCall, HandlePoolTask, HandleRuntimeTask, HandleTables;
    OwesCounts(id, a, c.book, Handle(c, id, a, e).book, k);
    match a
    case EndService(sid) => EndServiceCounts(c, id, sid, k);
    case EndPool(pid) => EndPoolCounts(c, id, pid, k);
    case CallService(sid, timeout, now, streams) => CallCounts(c, id, sid, timeout, now, streams, e, k);
    case SubmitPool(pid, task, attempt) => PoolTaskCounts(c, id, pid, task, attempt, e, k);
    case SubmitRuntime(key, task, attempt) => RuntimeTaskCounts(c, id, key, task, attempt, e, k);
    case _ => TableRequestCounts(c, id, a, e, k);
  }

  // ---------------------------------------------------------------- exactly once

  /** What is owed for k is either held by an in-flight future or has been answered, and no
      more than two futures are ever tracked for each answer owed. */
  ghost predicate Accounted(s: Sys, k: Key) {
    && Held(s.core.book, k) + Settled(s.core.log, k) == s.owed[k]
    && s.tries[k] + Fresh(s.core.book, k) <= 2 * s.owed[k]
  }

  lemma NextIsAccounted(s: Sys, step: Step, k: Key)
    requires CoreInv(s.core) && Accounted(s, k)
    ensures Accounted(Next(s, step), k)
  {
    match step
    case Request(id, a, e) => HandleCounts(s.core, id, a, e, k);
    case PollStreams => PollsAreBalanced(s.core, 0.0, s.core.book.nextFuture, k);
    case PollCompletion(e) => CompleteCounts(s.core, e, k);
    case PollTimeouts(now) => PollsAreBalanced(s.core, now, s.core.book.nextFuture, k);
    case Finish(_, _) =>
    case Put(_, _) =>
  }

  /** Exactly-once reply. Over every interleaving, each owed reply or done event is either
      still held by an in-flight future or has been emitted: the two counts add up to what
      is owed, so nothing is answered twice, nothing is forgotten, nothing is made up. */
  lemma ExactlyOnce(capacity: int, steps: seq<Step>, k: Key)
    ensures var s := Run(Start(capacity), steps);
            && Held(s.core.book, k) + Settled(s.core.log, k) == s.owed[k]
            && s.tries[k] <= 2 * s.owed[k]
  {
    var inv := (s: Sys) => CoreInv(s.core) && Accounted(s, k);
    forall s, step | inv(s) ensures inv(Next(s, step)) { NextKeepsInv(s, step); NextIsAccounted(s, step, k); }
    RunKeeps(inv, Start(capacity), steps);
  }
}
