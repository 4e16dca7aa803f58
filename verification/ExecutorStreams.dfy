/** Streams over every run: what a worker queued is what the client is sent, in order and
    once each, and nothing of a stream follows its reply. */
module ExecutorStreams {
  import opened Prelude
  import opened ExecutorTables
  import opened ExecutorSteps
  import opened ExecutorInvariants
  import opened ExecutorRuns

  /** The items emitted for a request, in order. */
  function Emitted(log: seq<Event>, r: string): seq<Queued> {
    if log == [] then [] else
    var e := log[|log| - 1];
    Emitted(log[..|log| - 1], r) + if e.Item? && e.request == r then [Queued(e.index, e.value)] else []
  }

  function Values(q: seq<Queued>): seq<int> {
    seq(|q|, i requires 0 <= i < |q| => q[i].value)
  }

  lemma {:induction false} EmittedAppend(log: seq<Event>, more: seq<Event>, r: string)
    ensures Emitted(log + more, r) == Emitted(log, r) + Emitted(more, r)
  {
    if more == [] {
      assert log + more == log;
    } else {
      assert (log + more)[..|log + more| - 1] == log + more[..|more| - 1];
      EmittedAppend(log, more[..|more| - 1], r);
    }
  }

  /** Draining `q` emits its values in order, each with its own number unless that is 0. */
  lemma {:induction false} ItemsEmitted(request: string, q: seq<Queued>, n: nat, r: string)
    ensures var out := Emitted(ItemEvents(request, q, n), r);
            if r != request then out == [] else
            && |out| == |q|
            && forall i :: 0 <= i < |q| ==>
                 out[i].value == q[i].value && out[i].index == if q[i].index == 0 then n + i else q[i].index
  {
    if q != [] {
      var head := [Item(request, if q[0].index == 0 then n else q[0].index, q[0].value)];
      ItemsEmitted(request, q[1..], n + 1, r);
      EmittedAppend(head, ItemEvents(request, q[1..], n + 1), r);
      assert head[..0] == [];
    }
  }

  lemma {:induction false} AnsweredMeansSettled(log: seq<Event>, i: nat, r: string)
    requires i < |log| && log[i].Response? && log[i].request == r
    ensures Settled(log, Call(r)) >= 1
  {
    if i < |log| - 1 {
      AnsweredMeansSettled(log[..|log| - 1], i, r);
    }
  }

  lemma {:induction false} HeldIfInFlight(m: map<nat, Meta>, f: nat, n: nat)
    requires f in m && f < n
    ensures Tally(m, KeyOf(m[f].job), false, n) >= 1
  {
    if f < n - 1 {
      HeldIfInFlight(m, f, n - 1);
    }
  }

  lemma {:induction false} HeldTwice(m: map<nat, Meta>, f: nat, g: nat, n: nat)
    requires f in m && g in m && f < g < n && KeyOf(m[f].job) == KeyOf(m[g].job)
    ensures Tally(m, KeyOf(m[f].job), false, n) >= 2
  {
    if g == n - 1 {
      HeldIfInFlight(m, f, n - 1);
    } else {
      HeldTwice(m, f, g, n - 1);
    }
  }

  // ---------------------------------------------------------------- the invariant

  /** No item of r follows a reply to r. */
  ghost predicate Quiet(log: seq<Event>, r: string) {
    forall i, j :: 0 <= i < j < |log| && log[i].Response? && log[j].Item? && log[i].request == r ==> log[j].request != r
  }

  ghost predicate Numbered(q: seq<Queued>, first: nat) {
    forall i :: 0 <= i < |q| ==> q[i].index == first + i
  }

  ghost predicate Streams(m: map<nat, Meta>, f: nat, r: string) {
    f in m && IsStream(m[f]) && m[f].job.request == r
  }

  /** What was emitted (`out`) and what is `queued` is what was `put`. */
  ghost predicate Lossless(m: Meta, queued: seq<Queued>, out: seq<Queued>, put: seq<int>) {
    Values(out) + Values(queued) == put && m.emitted == |out|
  }

  /** And while the call has not been retried, items carry their positions. */
  ghost predicate Flow(m: Meta, queued: seq<Queued>, out: seq<Queued>, put: seq<int>, sent: nat) {
    && Lossless(m, queued, out, put)
    && (m.recoveries == 0 ==> sent == |put| && Numbered(out, 0) && Numbered(queued, |out|))
  }

  ghost predicate FlowOf(s: Sys, f: nat, r: string)
    requires Streams(s.core.book.inflight, f, r)
  {
    var m := s.core.book.inflight[f];
    var q := m.job.stream.value;
    && q in s.core.book.queues
    && Flow(m, s.core.book.queues[q], Emitted(s.core.log, r), PutsTo(s, q), SentBy(s, f))
  }

  ghost predicate Flows(s: Sys, r: string) {
    forall f :: Streams(s.core.book.inflight, f, r) ==> FlowOf(s, f, r)
  }

  ghost predicate Heard(s: Sys, r: string) {
    && (s.owed[Call(r)] <= 1 ==> Quiet(s.core.log, r))
    && (Emitted(s.core.log, r) != [] ==> s.owed[Call(r)] >= 1)
  }

  ghost predicate HistoryFits(s: Sys) {
    && (forall q :: q in s.puts ==> q < s.core.book.nextQueue)
    && (forall f :: f in s.sent ==> f < s.core.book.nextFuture)
  }

  /** The stream invariant of one request id. Everything below speaks of ids that were used
      for one request, which is what the client's counter provides. */
  ghost predicate StreamInv(s: Sys, r: string) {
    HistoryFits(s) && Heard(s, r) && (s.owed[Call(r)] == 1 ==> Flows(s, r))
  }

  lemma {:induction false} ItemMeansEmitted(log: seq<Event>, j: nat, r: string)
    requires j < |log| && log[j].Item? && log[j].request == r
    ensures Emitted(log, r) != []
  {
    if j < |log| - 1 {
      ItemMeansEmitted(log[..|log| - 1], j, r);
    }
  }

  /** The log grows by `more`; items of r may only come while r is unanswered. */
  lemma LogGrows(s: Sys, t: Sys, more: seq<Event>, r: string)
    requires Heard(s, r) && t.core.log == s.core.log + more && s.owed[Call(r)] <= t.owed[Call(r)]
    requires Quiet(more, r)
    requires Emitted(more, r) != [] ==> s.owed[Call(r)] >= 1
    requires Emitted(more, r) != [] && s.owed[Call(r)] <= 1 ==> Settled(s.core.log, Call(r)) == 0
    ensures Heard(t, r)
  {
    var log := s.core.log;
    EmittedAppend(log, more, r);
    var grown := t.core.log;
    forall i, j | 0 <= i < j < |grown| && grown[i].Response? && grown[j].Item? && grown[i].request == r
                  && t.owed[Call(r)] <= 1
      ensures grown[j].request != r
    {
      if i < |log| <= j {
        AnsweredMeansSettled(log, i, r);
        if grown[j].request == r {
          ItemMeansEmitted(more, j - |log|, r);
        }
      } else if i >= |log| {
        assert grown[i] == more[i - |log|] && grown[j] == more[j - |log|];
      }
    }
  }

  /** Futures of r that are left as they were keep flowing. */
  lemma FlowsShrink(s: Sys, t: Sys, r: string)
    requires Flows(s, r)
    requires Emitted(t.core.log, r) == Emitted(s.core.log, r) && t.puts == s.puts && t.sent == s.sent
    requires forall f :: Streams(t.core.book.inflight, f, r) ==>
               && Streams(s.core.book.inflight, f, r)
               && t.core.book.inflight[f] == s.core.book.inflight[f]
               && var q := t.core.book.inflight[f].job.stream.value;
                  q in s.core.book.queues && q in t.core.book.queues && t.core.book.queues[q] == s.core.book.queues[q]
    ensures Flows(t, r)
  {
  }

  /** One event that is not an item. */
  lemma OneEvent(s: Sys, t: Sys, e: Event, r: string)
    requires Heard(s, r) && t.core.log == s.core.log + [e] && !e.Item? && s.owed[Call(r)] <= t.owed[Call(r)]
    ensures Heard(t, r) && Emitted(t.core.log, r) == Emitted(s.core.log, r)
  {
    assert [e][..0] == [];
    assert Emitted([e], r) == [];
    EmittedAppend(s.core.log, [e], r);
    LogGrows(s, t, [e], r);
  }

  lemma SettleKeepsStream(s: Sys, f: nat, e: Event, services: Table, r: string)
    requires BookInv(s.core.book) && StreamInv(s, r) && f in s.core.book.inflight && !e.Item?
    ensures StreamInv(s.(core := Settle(s.core, f, e).(services := services)), r)
  {
    var t := s.(core := Settle(s.core, f, e).(services := services));
    OneEvent(s, t, e, r);
    if s.owed[Call(r)] == 1 {
      FlowsShrink(s, t, r);
    }
  }

  // ---------------------------------------------------------------- draining

  lemma {:induction false} ItemsHoldNoReply(request: string, q: seq<Queued>, n: nat)
    ensures forall e :: e in ItemEvents(request, q, n) ==> e.Item?
  {
    if q != [] {
      ItemsHoldNoReply(request, q[1..], n + 1);
    }
  }

  /** What a drain of m emits for r. */
  lemma DrainEmits(b: Book, m: Meta, r: string)
    ensures Quiet(DrainEvents(b, m), r) && forall e :: e in DrainEvents(b, m) ==> e.Item?
    ensures !(IsStream(m) && m.job.request == r) ==> Emitted(DrainEvents(b, m), r) == []
    ensures IsStream(m) && m.job.request == r ==>
              var out := Emitted(DrainEvents(b, m), r);
              && |out| == Drains(b, m)
              && forall i :: 0 <= i < |out| ==>
                   var x := b.queues[m.job.stream.value][i];
                   out[i].value == x.value && out[i].index == if x.index == 0 then m.emitted + i else x.index
  {
    if Drains(b, m) != 0 {
      var q := b.queues[m.job.stream.value][..Drains(b, m)];
      ItemsEmitted(m.job.request, q, m.emitted, r);
      ItemsHoldNoReply(m.job.request, q, m.emitted);
      var items := DrainEvents(b, m);
      forall i | 0 <= i < |items| ensures items[i].Item? { assert items[i] in items; }
    }
  }

  /** A stream call in flight whose id was used once has not been answered, and no other
      future works for the same id. */
  lemma InFlightMeansUnanswered(s: Sys, f: nat, r: string)
    requires BookInv(s.core.book) && Accounted(s, Call(r)) && Streams(s.core.book.inflight, f, r)
    ensures s.owed[Call(r)] >= 1
    ensures s.owed[Call(r)] == 1 ==> Settled(s.core.log, Call(r)) == 0
    ensures s.owed[Call(r)] == 1 ==> forall g :: Streams(s.core.book.inflight, g, r) ==> g == f
  {
    var b := s.core.book;
    HeldIfInFlight(b.inflight, f, b.nextFuture);
    forall g: nat | Streams(b.inflight, g, r) && g != f
      ensures s.owed[Call(r)] >= 2
    {
      HeldTwice(b.inflight, if f < g then f else g, if f < g then g else f, b.nextFuture);
    }
  }

  /** Moving the first n queued items out keeps the flow. */
  lemma FlowAfterDrain(m: Meta, queued: seq<Queued>, out: seq<Queued>, more: seq<Queued>, put: seq<int>, sent: nat, n: nat)
    requires Flow(m, queued, out, put, sent) && n <= |queued| && |more| == n
    requires forall i :: 0 <= i < n ==>
               more[i].value == queued[i].value
               && more[i].index == if queued[i].index == 0 then m.emitted + i else queued[i].index
    ensures Flow(m.(emitted := m.emitted + n), queued[n..], out + more, put, sent)
  {
    assert Values(more) == Values(queued)[..n] && Values(queued[n..]) == Values(queued)[n..];
    assert Values(out + more) == Values(out) + Values(more);
    assert Values(queued) == Values(more) + Values(queued[n..]);
  }

  lemma OwnDrainKeepsFlow(s: Sys, f: nat, r: string)
    requires BookInv(s.core.book) && r != "" && Streams(s.core.book.inflight, f, r) && FlowOf(s, f, r)
    ensures FlowOf(s.(core := DrainStream(s.core, f)), f, r)
  {
    var m := s.core.book.inflight[f];
    var q := m.job.stream.value;
    var n := Drains(s.core.book, m);
    DrainEmits(s.core.book, m, r);
    var more := Emitted(DrainEvents(s.core.book, m), r);
    EmittedAppend(s.core.log, DrainEvents(s.core.book, m), r);
    FlowAfterDrain(m, s.core.book.queues[q], Emitted(s.core.log, r), more, PutsTo(s, q), SentBy(s, f), n);
    assert DrainQueue(s.core.book, m).queues[q] == s.core.book.queues[q][n..];
  }

  lemma OwnDrainKeepsStream(s: Sys, f: nat, r: string)
    requires BookInv(s.core.book) && Accounted(s, Call(r)) && StreamInv(s, r) && r != ""
    requires Streams(s.core.book.inflight, f, r)
    ensures StreamInv(s.(core := DrainStream(s.core, f)), r)
  {
    var m := s.core.book.inflight[f];
    var t := s.(core := DrainStream(s.core, f));
    DrainEmits(s.core.book, m, r);
    InFlightMeansUnanswered(s, f, r);
    LogGrows(s, t, DrainEvents(s.core.book, m), r);
    if s.owed[Call(r)] == 1 {
      OwnDrainKeepsFlow(s, f, r);
      forall g: nat | Streams(t.core.book.inflight, g, r) ensures FlowOf(t, g, r) {
        assert Streams(s.core.book.inflight, g, r);
      }
    }
  }

  lemma ForeignDrainKeepsFlows(s: Sys, f: nat, r: string)
    requires BookInv(s.core.book) && Flows(s, r)
    requires f in s.core.book.inflight && IsStream(s.core.book.inflight[f]) && s.core.book.inflight[f].job.request != r
    requires Emitted(DrainStream(s.core, f).log, r) == Emitted(s.core.log, r)
    ensures Flows(s.(core := DrainStream(s.core, f)), r)
  {
    var t := s.(core := DrainStream(s.core, f));
    forall g: nat | Streams(t.core.book.inflight, g, r) ensures FlowOf(t, g, r) {
      assert Streams(s.core.book.inflight, g, r) && FlowOf(s, g, r);
    }
  }

  lemma ForeignDrainKeepsStream(s: Sys, f: nat, r: string)
    requires BookInv(s.core.book) && StreamInv(s, r)
    requires f in s.core.book.inflight && IsStream(s.core.book.inflight[f]) && s.core.book.inflight[f].job.request != r
    ensures StreamInv(s.(core := DrainStream(s.core, f)), r)
  {
    var m := s.core.book.inflight[f];
    var t := s.(core := DrainStream(s.core, f));
    DrainEmits(s.core.book, m, r);
    EmittedAppend(s.core.log, DrainEvents(s.core.book, m), r);
    LogGrows(s, t, DrainEvents(s.core.book, m), r);
    if s.owed[Call(r)] == 1 { ForeignDrainKeepsFlows(s, f, r); }
  }

  // ---------------------------------------------------------------- sweeps

  /** What holds midway through a sweep that started in s and has reached d. */
  ghost predicate Midway(s: Sys, d: Core, r: string) {
    BookInv(d.book) && Balanced(s.core, d, Call(r)) && StreamInv(s.(core := d), r)
  }

  lemma SettleStep(s: Sys, d: Core, f: nat, e: Event, services: Table, r: string)
    requires Midway(s, d, r) && f in d.book.inflight && KeyOfEvent(e) == Some(KeyOf(d.book.inflight[f].job))
    ensures Midway(s, Settle(d, f, e).(services := services), r)
  {
    DropKeepsBook(d.book, f);
    SettleIsBalanced(s.core, d, f, e, Call(r));
    SettleKeepsStream(s.(core := d), f, e, services, r);
  }

  lemma DrainStep(s: Sys, d: Core, f: nat, r: string)
    requires Midway(s, d, r) && Accounted(s, Call(r)) && r != ""
    ensures Midway(s, DrainStream(d, f), r)
  {
    if f in d.book.streaming {
      DrainStreamKeepsBook(d, f);
      DrainIsBalanced(s.core, d, f, Call(r));
      if d.book.inflight[f].job.request == r {
        OwnDrainKeepsStream(s.(core := d), f, r);
      } else {
        ForeignDrainKeepsStream(s.(core := d), f, r);
      }
    }
  }

  lemma FailuresKeepStream(s: Sys, key: string, n: nat, r: string)
    requires Midway(s, s.core, r)
    ensures Midway(s, FailService(s.core, key, n), r) && Midway(s, FailPool(s.core, key, n), r)
  {
    var inv := (d: Core) => Midway(s, d, r);
    forall d, f: nat | inv(d)
      ensures inv(FailServiceOne(d, key, f)) && inv(FailPoolOne(d, key, f))
    {
      if f in d.book.inflight {
        SettleStep(s, d, f, Settling(d.book.inflight[f].job, ServiceStopped), d.services, r);
        SettleStep(s, d, f, Settling(d.book.inflight[f].job, TaskPoolStopped), d.services, r);
      }
    }
    FoldKeeps(inv, (d: Core, f: nat) => FailServiceOne(d, key, f), s.core, n);
    FoldKeeps(inv, (d: Core, f: nat) => FailPoolOne(d, key, f), s.core, n);
  }

  lemma ExpireKeepsStream(s: Sys, now: real, n: nat, r: string)
    requires Midway(s, s.core, r)
    ensures Midway(s, Expire(s.core, now, n), r)
  {
    var inv := (d: Core) => Midway(s, d, r);
    forall d, f: nat | inv(d)
      ensures inv(ExpireOne(d, now, f))
    {
      if f in d.book.inflight && TimedOut(d.book.inflight[f], now) {
        var j := d.book.inflight[f].job;
        var services := if j.serviceId == "" then d.services else Close(d.services, j.serviceId);
        SettleStep(s, d, f, Response(j.request, InvokeTimeout), services, r);
      }
    }
    FoldKeeps(inv, (d: Core, f: nat) => ExpireOne(d, now, f), s.core, n);
  }

  lemma PollKeepsStream(s: Sys, n: nat, r: string)
    requires Midway(s, s.core, r) && Accounted(s, Call(r)) && r != ""
    ensures Midway(s, DrainStreams(s.core, n), r)
  {
    var inv := (d: Core) => Midway(s, d, r);
    forall d, f: nat | inv(d)
      ensures inv(DrainStream(d, f))
    {
      DrainStep(s, d, f, r);
    }
    FoldKeeps(inv, (d: Core, f: nat) => DrainStream(d, f), s.core, n);
  }

  // ---------------------------------------------------------------- completions

  lemma PopKeepsStream(s: Sys, r: string)
    requires BookInv(s.core.book) && StreamInv(s, r) && s.core.book.completed != []
    ensures var b := s.core.book;
            StreamInv(s.(core := s.core.(book := Untrack(b.(completed := b.completed[1..]), b.completed[0]))), r)
  {
    var b := s.core.book;
    var t := s.(core := s.core.(book := Untrack(b.(completed := b.completed[1..]), b.completed[0])));
    if s.owed[Call(r)] == 1 { FlowsShrink(s, t, r); }
  }

  /** Delivering the result of the only future of r, or of a future of somebody else. */
  lemma DeliverKeepsStream(s: Sys, m: Meta, value: int, r: string)
    requires BookInv(s.core.book) && StreamFree(s.core.book, m) && StreamInv(s, r)
    requires KeyOf(m.job) == Call(r) ==> s.owed[Call(r)] >= 1
    requires KeyOf(m.job) == Call(r) && s.owed[Call(r)] == 1 ==>
               Settled(s.core.log, Call(r)) == 0 && forall g :: !Streams(s.core.book.inflight, g, r)
    ensures StreamInv(s.(core := Deliver(s.core, m, value)), r)
  {
    var c := s.core;
    var mid := s.(core := c.(log := c.log + DrainEvents(c.book, m)));
    var t := s.(core := Deliver(c, m, value));
    DrainEmits(c.book, m, r);
    EmittedAppend(c.log, DrainEvents(c.book, m), r);
    LogGrows(s, mid, DrainEvents(c.book, m), r);
    OneEvent(mid, t, Settling(m.job, Finished(value)), r);
    if s.owed[Call(r)] == 1 && KeyOf(m.job) != Call(r) {
      DeliverKeepsFlows(s, m, value, r);
    }
  }

  lemma DeliverKeepsFlows(s: Sys, m: Meta, value: int, r: string)
    requires StreamFree(s.core.book, m) && Flows(s, r)
    requires Emitted(Deliver(s.core, m, value).log, r) == Emitted(s.core.log, r)
    ensures Flows(s.(core := Deliver(s.core, m, value)), r)
  {
    FlowsShrink(s, s.(core := Deliver(s.core, m, value)), r);
  }

  lemma FailKeepsStream(s: Sys, m: Meta, r: string)
    requires BookInv(s.core.book) && StreamFree(s.core.book, m) && StreamInv(s, r)
    ensures StreamInv(s.(core := Fail(s.core, m)), r)
  {
    var t := s.(core := Fail(s.core, m));
    OneEvent(s, t, Settling(m.job, InfraFailure), r);
    if s.owed[Call(r)] == 1 { FlowsShrink(s, t, r); }
  }

  /** The retry goes on with the stream where the crashed future left it. */
  lemma RetryKeepsStream(s: Sys, m: Meta, r: string)
    requires BookInv(s.core.book) && StreamFree(s.core.book, m) && StreamInv(s, r)
    requires IsStream(m) && m.job.request == r && s.owed[Call(r)] == 1 ==>
               Lossless(m, s.core.book.queues[m.job.stream.value], Emitted(s.core.log, r),
                        PutsTo(s, m.job.stream.value))
    ensures StreamInv(s.(core := Retry(s.core, m)), r)
  {
    var t := s.(core := Retry(s.core, m));
    if m.job.RuntimeJob? {
      assert s.core.log + RebuiltEvents(m) == s.core.log;
    } else {
      OneEvent(s, t, RebuiltEvents(m)[0], r);
    }
    if s.owed[Call(r)] == 1 {
      forall g: nat | Streams(t.core.book.inflight, g, r) ensures FlowOf(t, g, r) {
        if g != s.core.book.nextFuture {
          assert Streams(s.core.book.inflight, g, r) && FlowOf(s, g, r);
        }
      }
    }
  }

  lemma CompleteKeepsStream(s: Sys, e: SubmitEnv, r: string)
    requires CoreInv(s.core) && Accounted(s, Call(r)) && StreamInv(s, r)
    ensures StreamInv(s.(core := Complete(s.core, e)), r)
  {
    var c := s.core;
    if c.book.completed != [] {
      var f := c.book.completed[0];
      PopKeepsBook(c.book);
      PopKeepsStream(s, r);
      if f in c.book.inflight {
        var t := s.(core := c.(book := Untrack(c.book.(completed := c.book.completed[1..]), f)));
        ConcludeKeepsStream(s, t, f, e, r);
      }
    }
  }

  lemma ConcludeKeepsStream(s: Sys, t: Sys, f: nat, e: SubmitEnv, r: string)
    requires CoreInv(s.core) && Accounted(s, Call(r)) && StreamInv(s, r) && f in s.core.book.inflight
    requires t == s.(core := s.core.(book := t.core.book)) && t.core.book.inflight == s.core.book.inflight - {f}
    requires t.core.book.queues == s.core.book.queues
    requires CoreInv(t.core) && StreamInv(t, r) && StreamFree(t.core.book, s.core.book.inflight[f])
    ensures forall v :: StreamInv(t.(core := Deliver(t.core, s.core.book.inflight[f], v)), r)
    ensures forall rec :: StreamInv(t.(core := Recover(t.core, s.core.book.inflight[f], rec, e)), r)
  {
    var m := s.core.book.inflight[f];
    CallHolds(s, f, r);
    if Streams(s.core.book.inflight, f, r) && s.owed[Call(r)] == 1 {
      assert FlowOf(s, f, r);
    }
    forall v ensures StreamInv(t.(core := Deliver(t.core, m, v)), r) { DeliverKeepsStream(t, m, v, r); }
    forall rec ensures StreamInv(t.(core := Recover(t.core, m, rec, e)), r) { RecoverKeepsStream(t, m, rec, e, r); }
  }

  /** A call in flight is owed its reply, and has not had it when its id was used once. */
  lemma CallHolds(s: Sys, f: nat, r: string)
    requires BookInv(s.core.book) && Accounted(s, Call(r)) && f in s.core.book.inflight
    ensures KeyOf(s.core.book.inflight[f].job) == Call(r) ==>
              && s.owed[Call(r)] >= 1
              && (s.owed[Call(r)] == 1 ==>
                    && Settled(s.core.log, Call(r)) == 0
                    && forall g :: Streams(s.core.book.inflight - {f}, g, r) ==> false)
  {
    var b := s.core.book;
    HeldIfInFlight(b.inflight, f, b.nextFuture);
    forall g: nat | Streams(b.inflight - {f}, g, r) && KeyOf(b.inflight[f].job) == Call(r)
      ensures s.owed[Call(r)] >= 2
    {
      assert b.inflight[g] == (b.inflight - {f})[g];
      HeldTwice(b.inflight, if f < g then f else g, if f < g then g else f, b.nextFuture);
    }
  }

  lemma RecoverKeepsStream(s: Sys, m: Meta, recoverable: bool, e: SubmitEnv, r: string)
    requires CoreInv(s.core) && StreamFree(s.core.book, m) && StreamInv(s, r)
    requires IsStream(m) && m.job.request == r && s.owed[Call(r)] == 1 ==>
               Lossless(m, s.core.book.queues[m.job.stream.value], Emitted(s.core.log, r),
                        PutsTo(s, m.job.stream.value))
    ensures StreamInv(s.(core := Recover(s.core, m, recoverable, e)), r)
  {
    ResubmitKeepsTables(s.core, m.job, e);
    var (d, ok) := if recoverable && m.recoveries < 1 then Resubmit(s.core, m.job, e) else (s.core, false);
    TablesAreIgnored(s, d, r);
    if ok {
      RetryKeepsStream(s.(core := d), m, r);
    } else {
      FailKeepsStream(s.(core := d), m, r);
    }
  }

  lemma TablesAreIgnored(s: Sys, d: Core, r: string)
    requires StreamInv(s, r) && d.book == s.core.book && d.log == s.core.log
    ensures StreamInv(s.(core := d), r)
  {
    if s.owed[Call(r)] == 1 { FlowsShrink(s, s.(core := d), r); }
  }

  // ---------------------------------------------------------------- requests

  /** A new request under id r: its first use starts a clean stream. */
  lemma CallKeepsStream(s: Sys, id: string, m: Meta, ok: bool, owed: multiset<Key>, r: string)
    requires BookInv(s.core.book) && Accounted(s, Call(r)) && StreamInv(s, r)
    requires m.job.ServiceJob? && m.job.request == id && m.recoveries == 0 && m.emitted == 0
    requires IsStream(m) ==> m.job.stream.value in s.core.book.queues && s.core.book.queues[m.job.stream.value] == []
                             && PutsTo(s, m.job.stream.value) == []
    requires owed[Call(r)] == s.owed[Call(r)] + One(id == r)
    ensures StreamInv(s.(core := CallOutcome(s.core, id, m, ok), owed := owed), r)
  {
    var t := s.(core := CallOutcome(s.core, id, m, ok), owed := owed);
    if !ok { OneEvent(s, t, Response(id, Refusal), r); }
    if owed[Call(r)] == 1 {
      forall g: nat | Streams(t.core.book.inflight, g, r) ensures FlowOf(t, g, r) {
        if g in s.core.book.inflight && g != s.core.book.nextFuture {
          assert Streams(s.core.book.inflight, g, r);
          InFlightMeansUnanswered(s, g, r);
          assert FlowOf(s, g, r);
        }
      }
    }
  }

  /** A request that is no call adds one event and leaves the streams alone, unless it stops. */
  lemma OtherRequestKeepsStream(s: Sys, t: Sys, e: Event, r: string)
    requires BookInv(s.core.book) && Accounted(s, Call(r)) && StreamInv(s, r) && !e.Item?
    requires t.core.log == s.core.log + [e] && t.puts == s.puts && t.sent == s.sent
    requires s.owed[Call(r)] <= t.owed[Call(r)]
    requires s.core.book.nextQueue <= t.core.book.nextQueue && s.core.book.nextFuture <= t.core.book.nextFuture
    requires t.core.book.queues == s.core.book.queues
    requires forall f :: Streams(t.core.book.inflight, f, r) ==>
               f in s.core.book.inflight && t.core.book.inflight[f] == s.core.book.inflight[f]
    ensures StreamInv(t, r)
  {
    OneEvent(s, t, e, r);
    if t.owed[Call(r)] == 1 {
      forall g: nat | Streams(t.core.book.inflight, g, r) ensures FlowOf(t, g, r) {
        assert Streams(s.core.book.inflight, g, r);
        InFlightMeansUnanswered(s, g, r);
        assert FlowOf(s, g, r);
      }
    }
  }

  lemma OpenKeepsStream(s: Sys, services: Table, r: string)
    requires BookInv(s.core.book) && StreamInv(s, r)
    ensures StreamInv(s.(core := s.core.(services := services, book := OpenQueue(s.core.book))), r)
    ensures StreamInv(s.(core := s.core.(services := services)), r)
  {
    if s.owed[Call(r)] == 1 {
      FlowsShrink(s, s.(core := s.core.(services := services, book := OpenQueue(s.core.book))), r);
    }
  }

  lemma HandleCallKeepsStream(s: Sys, id: string, a: Action, e: Env, owed: multiset<Key>, r: string)
    requires CoreInv(s.core) && Accounted(s, Call(r)) && StreamInv(s, r) && a.CallService?
    requires owed == s.owed + multiset{Call(id)}
    ensures StreamInv(s.(core := HandleCall(s.core, id, a.serviceId, a.timeout, a.now, a.streams, e), owed := owed), r)
  {
    var c := s.core;
    if a.serviceId !in c.services.workers || (a.streams && !e.build) {
      OtherRequestKeepsStream(s, s.(core := Answer(c, id, Refusal), owed := owed), Response(id, Refusal), r);
    } else {
      var (t, ok) := Submit(c.services, a.serviceId, e.submit);
      var stream := if a.streams then Some(c.book.nextQueue) else None;
      var m := Meta(ServiceJob(a.serviceId, id, a.now, EffectiveTimeout(a.timeout), stream), 0, 0);
      OpenKeepsStream(s, t, r);
      var b := if a.streams then OpenQueue(c.book) else c.book;
      if a.streams { OpenQueueKeepsBook(c.book, m); }
      CallKeepsStream(s.(core := c.(services := t, book := b)), id, m, ok, owed, r);
    }
  }

  lemma HandleStopKeepsStream(s: Sys, services: Table, pools: Table, d: Core, id: string, reply: Reply,
                              owed: multiset<Key>, r: string)
    requires Midway(s.(core := s.core.(services := services, pools := pools)), d, r)
    requires Accounted(s, Call(r)) && owed == s.owed + multiset{Call(id)}
    ensures StreamInv(s.(core := Answer(d, id, reply), owed := owed), r)
  {
    OtherRequestKeepsStream(s.(core := d, tries := multiset{}), s.(core := Answer(d, id, reply), owed := owed),
                            Response(id, reply), r);
  }

  lemma HandleTaskKeepsStream(s: Sys, id: string, a: Action, e: Env, owed: multiset<Key>, r: string)
    requires CoreInv(s.core) && Accounted(s, Call(r)) && StreamInv(s, r)
    requires a.SubmitPool? || a.SubmitRuntime?
    requires s.owed[Call(r)] <= owed[Call(r)]
    ensures StreamInv(s.(core := Handle(s.core, id, a, e), owed := owed), r)
  {
    var d := Handle(s.core, id, a, e);
    OtherRequestKeepsStream(s, s.(core := d, owed := owed), d.log[|s.core.log|], r);
  }

  lemma HandleTablesKeepsStream(s: Sys, id: string, a: Action, e: Env, owed: multiset<Key>, r: string)
    requires CoreInv(s.core) && Accounted(s, Call(r)) && StreamInv(s, r)
    requires s.owed[Call(r)] <= owed[Call(r)]
    ensures StreamInv(s.(core := HandleTables(s.core, id, a, e), owed := owed), r)
  {
    var d := HandleTables(s.core, id, a, e);
    OtherRequestKeepsStream(s, s.(core := d, owed := owed), d.log[|s.core.log|], r);
  }

  // ---------------------------------------------------------------- every run

  lemma PutKeepsFlow(s: Sys, f: nat, v: int, r: string, g: nat)
    requires BookInv(s.core.book) && CanPut(s.core.book, f)
    requires Streams(s.core.book.inflight, g, r) && FlowOf(s, g, r)
    ensures var t := Next(s, Put(f, v)); Streams(t.core.book.inflight, g, r) && FlowOf(t, g, r)
  {
    var b := s.core.book;
    var q := b.inflight[f].job.stream.value;
    assert Values(b.queues[q] + [Queued(SentBy(s, f), v)]) == Values(b.queues[q]) + [v];
  }

  lemma PutKeepsStream(s: Sys, f: nat, v: int, r: string)
    requires BookInv(s.core.book) && StreamInv(s, r)
    ensures StreamInv(Next(s, Put(f, v)), r)
  {
    var b := s.core.book;
    if CanPut(b, f) && s.owed[Call(r)] == 1 {
      var t := Next(s, Put(f, v));
      forall g: nat | Streams(t.core.book.inflight, g, r) ensures FlowOf(t, g, r) {
        assert Streams(b.inflight, g, r) && FlowOf(s, g, r);
        PutKeepsFlow(s, f, v, r, g);
      }
    }
  }

  /** The counters of tries and the job register play no part in the streams. */
  lemma RestIsIgnored(s: Sys, t: Sys, r: string)
    requires StreamInv(s, r) && t == s.(tries := t.tries, jobs := t.jobs)
    ensures StreamInv(t, r)
  {
    if s.owed[Call(r)] == 1 { FlowsShrink(s, t, r); }
  }

  lemma StopServiceKeepsStream(s: Sys, sid: string, h: Core, id: string, reply: Reply, owed: multiset<Key>, r: string)
    requires CoreInv(s.core) && Accounted(s, Call(r)) && StreamInv(s, r)
    requires owed == s.owed + multiset{Call(id)} && h == Answer(StopService(s.core, sid), id, reply)
    ensures StreamInv(s.(core := h, owed := owed), r)
  {
    var services := Stop(s.core.services, sid);
    TablesAreIgnored(s, s.core.(services := services), r);
    FailuresKeepStream(s.(core := s.core.(services := services)), Strip(sid), s.core.book.nextFuture, r);
    HandleStopKeepsStream(s, services, s.core.pools, StopService(s.core, sid), id, reply, owed, r);
  }

  lemma StopPoolKeepsStream(s: Sys, pid: string, h: Core, id: string, reply: Reply, owed: multiset<Key>, r: string)
    requires CoreInv(s.core) && Accounted(s, Call(r)) && StreamInv(s, r)
    requires owed == s.owed + multiset{Call(id)} && h == Answer(StopPool(s.core, pid), id, reply)
    ensures StreamInv(s.(core := h, owed := owed), r)
  {
    var pools := Stop(s.core.pools, pid);
    TablesAreIgnored(s, s.core.(pools := pools), r);
    FailuresKeepStream(s.(core := s.core.(pools := pools)), Strip(pid), s.core.book.nextFuture, r);
    HandleStopKeepsStream(s, s.core.services, pools, StopPool(s.core, pid), id, reply, owed, r);
  }

  lemma EndKeepsStream(s: Sys, id: string, a: Action, e: Env, owed: multiset<Key>, r: string)
    requires CoreInv(s.core) && Accounted(s, Call(r)) && StreamInv(s, r)
    requires (a.EndService? || a.EndPool?) && owed == s.owed + multiset{Call(id)}
    ensures StreamInv(s.(core := Handle(s.core, id, a, e), owed := owed), r)
  {
    var h := Handle(s.core, id, a, e);
    var reply := h.log[|h.log| - 1].reply;
    if a.EndService? {
      StopServiceKeepsStream(s, a.serviceId, h, id, reply, owed, r);
    } else {
      StopPoolKeepsStream(s, a.poolId, h, id, reply, owed, r);
    }
  }

  lemma HandleKeepsStream(s: Sys, id: string, a: Action, e: Env, owed: multiset<Key>, r: string)
    requires CoreInv(s.core) && Accounted(s, Call(r)) && StreamInv(s, r)
    requires s.owed[Call(r)] <= owed[Call(r)]
    requires a.EndService? || a.EndPool? || a.CallService? ==> owed == s.owed + multiset{Call(id)}
    ensures StreamInv(s.(core := Handle(s.core, id, a, e), owed := owed), r)
  {
    if a.EndService? || a.EndPool? {
      EndKeepsStream(s, id, a, e, owed, r);
    } else if a.CallService? {
      HandleCallKeepsStream(s, id, a, e, owed, r);
    } else if a.SubmitPool? || a.SubmitRuntime? {
      HandleTaskKeepsStream(s, id, a, e, owed, r);
    } else {
      HandleTablesKeepsStream(s, id, a, e, owed, r);
    }
  }

  lemma StopsOweOneReply(c: Core, id: string, a: Action, e: Env)
    requires BookInv(c.book) && (a.EndService? || a.EndPool?)
    ensures Owes(id, a, c.book, Handle(c, id, a, e).book) == multiset{Call(id)}
  {
    if a.EndService? {
      StopServiceBalanced(c, a.serviceId, Call(id));
    } else {
      StopPoolBalanced(c, a.poolId, Call(id));
    }
  }

  lemma NextKeepsStream(s: Sys, step: Step, r: string)
    requires CoreInv(s.core) && Accounted(s, Call(r)) && StreamInv(s, r) && r != ""
    ensures StreamInv(Next(s, step), r)
  {
    var c := s.core;
    match step
    case Request(id, a, e) =>
      var owed := s.owed + Owes(id, a, c.book, Handle(c, id, a, e).book);
      if a.EndService? || a.EndPool? { StopsOweOneReply(c, id, a, e); }
      HandleKeepsStream(s, id, a, e, owed, r);
      RestIsIgnored(s.(core := Handle(c, id, a, e), owed := owed), Next(s, step), r);
    case PollStreams => PollKeepsStream(s, c.book.nextFuture, r);
    case PollCompletion(e) =>
      CompleteKeepsStream(s, e, r);
      RestIsIgnored(s.(core := Complete(c, e)), Next(s, step), r);
    case PollTimeouts(now) => ExpireKeepsStream(s, now, c.book.nextFuture, r);
    case Finish(f, out) => if s.owed[Call(r)] == 1 { FlowsShrink(s, Next(s, step), r); }
    case Put(f, v) => PutKeepsStream(s, f, v, r);
  }

  /** Over every run, for every request id used at most once: no item follows the reply, and
      as long as the call is in flight, what was emitted followed by what is queued is
      exactly what the workers put, numbered 0, 1, 2, ... unless the call was retried. */
  lemma StreamsAreFaithful(capacity: int, steps: seq<Step>, r: string)
    requires r != ""
    ensures var s := Run(Start(capacity), steps);
            && (s.owed[Call(r)] <= 1 ==> Quiet(s.core.log, r))
            && (s.owed[Call(r)] == 1 ==> Flows(s, r))
  {
    var inv := (s: Sys) => CoreInv(s.core) && Accounted(s, Call(r)) && StreamInv(s, r);
    forall s, step | inv(s) ensures inv(Next(s, step)) {
      NextKeepsInv(s, step);
      NextIsAccounted(s, step, Call(r));
      NextKeepsStream(s, step, r);
    }
    RunKeeps(inv, Start(capacity), steps);
  }

  /** Stream completeness. When a worker has returned, its last poll empties the stream
      before it answers: the items emitted for the call are then exactly those put into the
      queue. This rests on the drain bound reaching the queue capacity. */
  lemma StreamIsCompleteAtTheReply(s: Sys, e: SubmitEnv, r: string)
    requires CoreInv(s.core) && Accounted(s, Call(r)) && StreamInv(s, r) && r != "" && s.owed[Call(r)] == 1
    requires var b := s.core.book; b.completed != [] && Streams(b.inflight, b.completed[0], r)
    requires var b := s.core.book; b.done[b.completed[0]].Returned?
    ensures var b := s.core.book;
            var f := b.completed[0];
            var d := Complete(s.core, e);
            && d.log[|d.log| - 1] == Response(r, Result(Finished(b.done[f].value)))
            && Values(Emitted(d.log, r)) == PutsTo(s, b.inflight[f].job.stream.value)
            && (b.inflight[f].recoveries == 0 ==> Numbered(Emitted(d.log, r), 0))
  {
    var b := s.core.book;
    var f := b.completed[0];
    var m := b.inflight[f];
    hide CoreInv, Accounted, StreamInv, Complete;
    QueueOfTheStream(s, f, r);
    LastDrainEmitsAll(b, s.core.log, m, r, PutsTo(s, m.job.stream.value), SentBy(s, f));
    AnswerFollowsTheDrain(s.core, e, r);
    EmittedAppend(s.core.log + DrainEvents(b, m), [Response(r, Result(Finished(b.done[f].value)))], r);
  }

  lemma AnswerFollowsTheDrain(c: Core, e: SubmitEnv, r: string)
    requires var b := c.book; b.completed != [] && Streams(b.inflight, b.completed[0], r)
    requires c.book.completed[0] in c.book.done && c.book.done[c.book.completed[0]].Returned?
    ensures var b := c.book; var f := b.completed[0];
      Complete(c, e).log == c.log + DrainEvents(b, b.inflight[f]) + [Response(r, Result(Finished(b.done[f].value)))]
  {
    var b, f := c.book, c.book.completed[0];
    var m := b.inflight[f];
    assert DrainEvents(Untrack(b.(completed := b.completed[1..]), f), m) == DrainEvents(b, m);
  }

  lemma QueueOfTheStream(s: Sys, f: nat, r: string)
    requires CoreInv(s.core) && Accounted(s, Call(r)) && StreamInv(s, r) && r != "" && s.owed[Call(r)] == 1
    requires Streams(s.core.book.inflight, f, r)
    ensures var b := s.core.book; var m := b.inflight[f];
      && BookInv(b) && m.job.stream.value in b.queues
      && Flow(m, b.queues[m.job.stream.value], Emitted(s.core.log, r), PutsTo(s, m.job.stream.value), SentBy(s, f))
  {
    assert FlowOf(s, f, r);
  }

  lemma LastDrainEmitsAll(b: Book, log: seq<Event>, m: Meta, r: string, put: seq<int>, sent: nat)
    requires BookInv(b) && IsStream(m) && m.job.request == r && r != "" && m.job.stream.value in b.queues
    requires Flow(m, b.queues[m.job.stream.value], Emitted(log, r), put, sent)
    ensures var out := Emitted(log + DrainEvents(b, m), r);
            Values(out) == put && (m.recoveries == 0 ==> Numbered(out, 0))
  {
    var queued := b.queues[m.job.stream.value];
    var more := Emitted(DrainEvents(b, m), r);
    DrainEmits(b, m, r);
    EmittedAppend(log, DrainEvents(b, m), r);
    FlowAfterDrain(m, queued, Emitted(log, r), more, put, sent, |queued|);
    assert Values(queued[|queued|..]) == [];
  }
}
