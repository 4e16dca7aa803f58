/** The bounded HTTP server: one semaphore of slots shared by admission, the workers and the
    drain at shutdown. Regions under a lock, and single calls of the queue or the semaphore,
    are atomic steps of any number of threads. */
module BoundedServer {
  import opened Prelude

  datatype Worker = Waiting | Serving(request: nat, discarded: bool) | Exited

  /** Where `server_close` stands; only the first call gets past `Open`. */
  datatype Closer = Open | Snapshotting | Draining | Holding(request: nat, discarded: bool) | Sending(sent: nat) | Closed

  /** An item of the request queue; the sentinel tells a worker to stop. */
  datatype Item = Request(id: nat) | Sentinel

  /** `releases` counts how often the slot of an admitted request was released; requests are
      numbered as they arrive, and `admitted` are those that got a slot. */
  datatype Server = Server(
    free: nat, queue: seq<Item>, workers: seq<Worker>, closer: Closer, active: set<nat>,
    next: nat, admitted: set<nat>, releases: map<nat, nat>, rejected: nat, forced: set<nat>)

  function Init(maxWorkers: nat, capacity: nat): Server {
    Server(maxWorkers + capacity, [], seq(maxWorkers, _ => Waiting), Open, {}, 0, {}, map[], 0, {})
  }

  datatype Step =
    | Arrive
    | Take(worker: nat)
    | Discard(worker: nat)
    | ReleaseSlot(worker: nat)
    | CloseBegin
    | Snapshot
    | DrainTake
    | DrainDiscard
    | DrainRelease
    | SendSentinel

  // ---------------------------------------------------------------- the steps

  /** `process_request` */
  function Admit(s: Server): Server {
    var r := s.next;
    if !s.closer.Open? || s.free == 0 then
      s.(next := r + 1, rejected := s.rejected + 1, forced := s.forced + {r})
    else
      s.(next := r + 1, free := s.free - 1, active := s.active + {r}, queue := s.queue + [Request(r)],
         admitted := s.admitted + {r}, releases := s.releases[r := 0])
  }

  function WithWorker(s: Server, w: nat, to: Worker): Server
    requires w < |s.workers|
  {
    s.(workers := s.workers[w := to])
  }

  /** A waiting worker gets the next item. */
  function TakeItem(s: Server, w: nat): Server
    requires w < |s.workers| && s.queue != []
  {
    var to := if s.queue[0].Sentinel? then Exited else Serving(s.queue[0].id, false);
    WithWorker(s, w, to).(queue := s.queue[1..])
  }

  function ReleasesOf(s: Server, r: nat): nat {
    if r in s.releases then s.releases[r] else 0
  }

  /** `_request_slots.release()` for a request. */
  function Released(s: Server, r: nat): Server {
    s.(free := s.free + 1, releases := s.releases[r := ReleasesOf(s, r) + 1])
  }

  /** The drain gets the next item, or finds the queue empty. */
  function DrainItem(s: Server): Server {
    if s.queue == [] then s.(closer := Sending(0))
    else if s.queue[0].Sentinel? then s.(queue := s.queue[1..])
    else s.(queue := s.queue[1..], closer := Holding(s.queue[0].id, false))
  }

  /** One sentinel for each worker. */
  function Send(s: Server): Server
    requires s.closer.Sending?
  {
    if s.closer.sent < |s.workers| then s.(queue := s.queue + [Sentinel], closer := Sending(s.closer.sent + 1))
    else s.(closer := Closed)
  }

  predicate Enabled(s: Server, a: Step) {
    match a
    case Arrive => true
    case Take(w) => w < |s.workers| && s.workers[w].Waiting? && s.queue != []
    case Discard(w) => w < |s.workers| && s.workers[w].Serving? && !s.workers[w].discarded
    case ReleaseSlot(w) => w < |s.workers| && s.workers[w].Serving? && s.workers[w].discarded
    case CloseBegin => true
    case Snapshot => s.closer.Snapshotting?
    case DrainTake => s.closer.Draining?
    case DrainDiscard => s.closer.Holding? && !s.closer.discarded
    case DrainRelease => s.closer.Holding? && s.closer.discarded
    case SendSentinel => s.closer.Sending?
  }

  function Next(s: Server, a: Step): Server
    requires Enabled(s, a)
  {
    match a
    case Arrive => Admit(s)
    case Take(w) => TakeItem(s, w)
    case Discard(w) =>
      var r := s.workers[w].request;
      WithWorker(s, w, Serving(r, true)).(active := s.active - {r})
    case ReleaseSlot(w) => Released(WithWorker(s, w, Waiting), s.workers[w].request)
    case CloseBegin => if s.closer.Open? then s.(closer := Snapshotting) else s
    case Snapshot => s.(forced := s.forced + s.active, closer := Draining)
    case DrainTake => DrainItem(s)
    case DrainDiscard => s.(active := s.active - {s.closer.request}, closer := Holding(s.closer.request, true))
    case DrainRelease =>
      Released(s, s.closer.request).(forced := s.forced + {s.closer.request}, closer := Draining)
    case SendSentinel => Send(s)
  }

  predicate Run(states: seq<Server>, steps: seq<Step>, maxWorkers: nat, capacity: nat) {
    && |states| == |steps| + 1 && states[0] == Init(maxWorkers, capacity)
    && forall i :: 0 <= i < |steps| ==> Enabled(states[i], steps[i]) && states[i + 1] == Next(states[i], steps[i])
  }

  // ---------------------------------------------------------------- counting

  function One(b: bool): nat {
    if b then 1 else 0
  }

  /** How often a request is in the queue. */
  function InQueue(queue: seq<Item>, r: nat): nat {
    if queue == [] then 0 else One(queue[0] == Request(r)) + InQueue(queue[1..], r)
  }

  function Requests(queue: seq<Item>): nat {
    if queue == [] then 0 else One(queue[0].Request?) + Requests(queue[1..])
  }

  /** How many workers hold the request `r`. */
  function Holders(workers: seq<Worker>, r: nat): nat {
    if workers == [] then 0
    else One(workers[0].Serving? && workers[0].request == r) + Holders(workers[1..], r)
  }

  function Busy(workers: seq<Worker>): nat {
    if workers == [] then 0 else One(workers[0].Serving?) + Busy(workers[1..])
  }

  function Stopped(workers: seq<Worker>): nat {
    if workers == [] then 0 else One(workers[0].Exited?) + Stopped(workers[1..])
  }

  lemma {:induction false} QueueSnoc(queue: seq<Item>, x: Item)
    ensures forall r: nat :: InQueue(queue + [x], r) == InQueue(queue, r) + One(x == Request(r))
    ensures Requests(queue + [x]) == Requests(queue) + One(x.Request?)
  {
    if queue == [] {
      assert [x][1..] == [];
    } else {
      QueueSnoc(queue[1..], x);
      assert (queue + [x])[1..] == queue[1..] + [x];
    }
  }

  lemma {:induction false} WorkerChange(workers: seq<Worker>, w: nat, to: Worker)
    requires w < |workers|
    ensures var a, b := workers[w], to; var after := workers[w := to];
      && Busy(after) + One(a.Serving?) == Busy(workers) + One(b.Serving?)
      && Stopped(after) + One(a.Exited?) == Stopped(workers) + One(b.Exited?)
      && forall r: nat :: Holders(after, r) + One(a.Serving? && a.request == r)
            == Holders(workers, r) + One(b.Serving? && b.request == r)
  {
    if w > 0 {
      WorkerChange(workers[1..], w - 1, to);
      assert workers[w := to][1..] == workers[1..][w - 1 := to];
    } else {
      assert workers[0 := to][1..] == workers[1..];
    }
  }

  lemma {:induction false} HolderCounts(workers: seq<Worker>, w: nat)
    requires w < |workers| && workers[w].Serving?
    ensures Holders(workers, workers[w].request) >= 1 && Busy(workers) >= 1
  {
    if w > 0 {
      HolderCounts(workers[1..], w - 1);
    }
  }

  lemma {:induction false} AllWaiting(n: nat)
    ensures var workers := seq(n, _ => Waiting);
      Busy(workers) == 0 && Stopped(workers) == 0 && forall r: nat :: Holders(workers, r) == 0
  {
    if n > 0 {
      AllWaiting(n - 1);
      assert seq(n, _ => Waiting)[1..] == seq(n - 1, _ => Waiting);
    }
  }

  // ---------------------------------------------------------------- the invariant

  /** How often a request holds a slot: queued, at a worker, or at the drain. */
  function Held(s: Server, r: nat): nat {
    InQueue(s.queue, r) + Holders(s.workers, r) + One(s.closer.Holding? && s.closer.request == r)
  }

  predicate SlotInv(s: Server, slots: nat) {
    s.free + Requests(s.queue) + Busy(s.workers) + One(s.closer.Holding?) == slots
  }

  ghost predicate RequestInv(s: Server) {
    forall r: nat ::
      && (r in s.admitted ==> r < s.next && Held(s, r) + ReleasesOf(s, r) == 1)
      && (r !in s.admitted ==> Held(s, r) == 0 && ReleasesOf(s, r) == 0)
  }

  predicate OnlySentinels(queue: seq<Item>) {
    forall x <- queue :: x.Sentinel?
  }

  /** Sentinels come only after the drain, one for each worker, and the queue then holds
      nothing else. */
  predicate SentinelInv(s: Server) {
    match s.closer
    case Sending(sent) => sent <= |s.workers| && OnlySentinels(s.queue) && |s.queue| + Stopped(s.workers) == sent
    case Closed => OnlySentinels(s.queue) && |s.queue| + Stopped(s.workers) == |s.workers|
    case _ => Stopped(s.workers) == 0 && |s.queue| == Requests(s.queue)
  }

  ghost predicate Inv(s: Server, slots: nat) {
    SlotInv(s, slots) && RequestInv(s) && SentinelInv(s)
  }

  lemma ArriveKeepsInv(s: Server, slots: nat)
    requires Inv(s, slots)
    ensures Inv(Admit(s), slots)
  {
    QueueSnoc(s.queue, Request(s.next));
    assert s.next !in s.admitted;
  }

  lemma TakeKeepsInv(s: Server, slots: nat, w: nat)
    requires Inv(s, slots) && Enabled(s, Take(w))
    ensures Inv(TakeItem(s, w), slots)
  {
    var t := TakeItem(s, w);
    WorkerChange(s.workers, w, t.workers[w]);
    assert forall x <- s.queue[1..] :: x in s.queue;
    assert s.queue[0] in s.queue;
    forall r: nat ensures Held(t, r) == Held(s, r) {}
    RequestsAreShort(s.queue[1..]);
  }

  lemma {:induction false} RequestsAreShort(queue: seq<Item>)
    ensures Requests(queue) <= |queue|
  {
    if queue != [] {
      RequestsAreShort(queue[1..]);
    }
  }

  lemma DiscardKeepsInv(s: Server, slots: nat, w: nat)
    requires Inv(s, slots) && Enabled(s, Discard(w))
    ensures Inv(Next(s, Discard(w)), slots)
  {
    var t := Next(s, Discard(w));
    WorkerChange(s.workers, w, t.workers[w]);
    forall r: nat ensures Held(t, r) == Held(s, r) {}
  }

  lemma ReleaseKeepsInv(s: Server, slots: nat, w: nat)
    requires Inv(s, slots) && Enabled(s, ReleaseSlot(w))
    ensures Inv(Next(s, ReleaseSlot(w)), slots)
  {
    var t := Next(s, ReleaseSlot(w));
    var q := s.workers[w].request;
    WorkerChange(s.workers, w, Waiting);
    HolderCounts(s.workers, w);
    assert Held(s, q) >= 1;
    forall r: nat ensures Held(t, r) == Held(s, r) - One(r == q) && ReleasesOf(t, r) == ReleasesOf(s, r) + One(r == q) {}
  }

  lemma DrainKeepsInv(s: Server, slots: nat)
    requires Inv(s, slots) && s.closer.Draining?
    ensures Inv(DrainItem(s), slots)
  {
    var t := DrainItem(s);
    if s.queue != [] {
      RequestsAreShort(s.queue[1..]);
    }
    forall r: nat ensures Held(t, r) == Held(s, r) {}
  }

  lemma DrainReleaseKeepsInv(s: Server, slots: nat)
    requires Inv(s, slots) && Enabled(s, DrainRelease)
    ensures Inv(Next(s, DrainRelease), slots)
  {
    var t, q := Next(s, DrainRelease), s.closer.request;
    assert Held(s, q) >= 1;
    forall r: nat ensures Held(t, r) == Held(s, r) - One(r == q) && ReleasesOf(t, r) == ReleasesOf(s, r) + One(r == q) {}
  }

  lemma SendKeepsInv(s: Server, slots: nat)
    requires Inv(s, slots) && s.closer.Sending?
    ensures Inv(Send(s), slots)
  {
    QueueSnoc(s.queue, Sentinel);
    var t := Send(s);
    forall r: nat ensures Held(t, r) == Held(s, r) {}
  }

  lemma CloserKeepsInv(s: Server, slots: nat, a: Step)
    requires Inv(s, slots) && Enabled(s, a) && (a.CloseBegin? || a.Snapshot? || a.DrainDiscard?)
    ensures Inv(Next(s, a), slots)
  {
    forall r: nat ensures Held(Next(s, a), r) == Held(s, r) && ReleasesOf(Next(s, a), r) == ReleasesOf(s, r) {}
  }

  lemma NextKeepsInv(s: Server, slots: nat, a: Step)
    requires Inv(s, slots) && Enabled(s, a)
    ensures Inv(Next(s, a), slots)
  {
    match a {
      case Arrive => ArriveKeepsInv(s, slots);
      case Take(w) => TakeKeepsInv(s, slots, w);
      case Discard(w) => DiscardKeepsInv(s, slots, w);
      case ReleaseSlot(w) => ReleaseKeepsInv(s, slots, w);
      case DrainTake => DrainKeepsInv(s, slots);
      case DrainRelease => DrainReleaseKeepsInv(s, slots);
      case SendSentinel => SendKeepsInv(s, slots);
      case CloseBegin => CloserKeepsInv(s, slots, a);
      case Snapshot => CloserKeepsInv(s, slots, a);
      case DrainDiscard => CloserKeepsInv(s, slots, a);
    }
  }

  lemma {:induction false} RunKeepsInv(states: seq<Server>, steps: seq<Step>, maxWorkers: nat, capacity: nat, i: nat)
    requires Run(states, steps, maxWorkers, capacity) && i < |states|
    ensures Inv(states[i], maxWorkers + capacity) && |states[i].workers| == maxWorkers
  {
    if i > 0 {
      RunKeepsInv(states, steps, maxWorkers, capacity, i - 1);
      assert states[i - 1 + 1] == Next(states[i - 1], steps[i - 1]);
      NextKeepsInv(states[i - 1], maxWorkers + capacity, steps[i - 1]);
    } else {
      AllWaiting(maxWorkers);
    }
  }

  /** The main result: at all times every slot is free or held by exactly one request, in the
      queue, at a worker or at the drain; an admitted request holds one slot until it releases
      it, once; and the semaphore is never released beyond its bound. */
  lemma SlotsAreConserved(states: seq<Server>, steps: seq<Step>, maxWorkers: nat, capacity: nat, i: nat, r: nat)
    requires Run(states, steps, maxWorkers, capacity) && i < |states|
    ensures var s := states[i];
      && s.free + Requests(s.queue) + Busy(s.workers) + One(s.closer.Holding?) == maxWorkers + capacity
      && (r in s.admitted ==> Held(s, r) + ReleasesOf(s, r) == 1)
      && (r !in s.admitted ==> Held(s, r) == 0 && ReleasesOf(s, r) == 0)
      && (i < |steps| && (steps[i].ReleaseSlot? || steps[i].DrainRelease?) ==> s.free < maxWorkers + capacity)
  {
    RunKeepsInv(states, steps, maxWorkers, capacity, i);
    if i < |steps| && steps[i].ReleaseSlot? {
      HolderCounts(states[i].workers, steps[i].worker);
    }
  }

  /** A request that arrives is queued exactly when the server has not begun to close and fewer
      requests than there are slots are queued or at a worker; otherwise its connection is
      closed at once and it is counted as rejected. */
  lemma AdmittedIffASlotIsFree(states: seq<Server>, steps: seq<Step>, maxWorkers: nat, capacity: nat, i: nat)
    requires Run(states, steps, maxWorkers, capacity) && i < |steps| && steps[i].Arrive?
    ensures var s, t := states[i], states[i + 1]; var r := s.next;
      && (r in t.admitted <==> s.closer == Open && Requests(s.queue) + Busy(s.workers) < maxWorkers + capacity)
      && (r in t.admitted ==>
            (t.queue == s.queue + [Request(r)] && r in t.active && t.rejected == s.rejected && t.forced == s.forced))
      && (r !in t.admitted ==>
            (t.queue == s.queue && t.active == s.active && t.rejected == s.rejected + 1 && r in t.forced))
      && (forall q :: q != r ==> (q in t.admitted <==> q in s.admitted))
  {
    RunKeepsInv(states, steps, maxWorkers, capacity, i);
    assert states[i + 1] == Next(states[i], steps[i]);
    assert states[i].next !in states[i].admitted;
  }

  /** None is admitted after closing starts, and closing does not undo itself. */
  lemma {:induction false} NothingIsAdmittedAfterClose(
    states: seq<Server>, steps: seq<Step>, maxWorkers: nat, capacity: nat, i: nat, j: nat)
    requires Run(states, steps, maxWorkers, capacity) && i <= j < |states| && !states[i].closer.Open?
    ensures !states[j].closer.Open? && states[j].admitted == states[i].admitted
    decreases j
  {
    if i < j {
      NothingIsAdmittedAfterClose(states, steps, maxWorkers, capacity, i, j - 1);
      assert states[j - 1 + 1] == Next(states[j - 1], steps[j - 1]);
    }
  }

  /** Once the sentinels are sent, exactly one is in the queue for every worker that has not
      stopped; so when the queue is empty, every worker has stopped and every slot of a
      request that was admitted has been released. */
  lemma EverySentinelReachesOneWorker(states: seq<Server>, steps: seq<Step>, maxWorkers: nat, capacity: nat, i: nat)
    requires Run(states, steps, maxWorkers, capacity) && i < |states| && states[i].closer.Closed?
    ensures var s := states[i];
      && OnlySentinels(s.queue) && |s.queue| + Stopped(s.workers) == maxWorkers
      && (s.queue == [] ==>
            (&& (forall w :: 0 <= w < |s.workers| ==> s.workers[w].Exited?)
             && s.free == maxWorkers + capacity
             && (forall r <- s.admitted :: ReleasesOf(s, r) == 1)))
  {
    RunKeepsInv(states, steps, maxWorkers, capacity, i);
    var s := states[i];
    if s.queue == [] {
      AllStopped(s.workers);
      forall r | r in s.admitted ensures ReleasesOf(s, r) == 1 {
        assert Held(s, r) == 0;
      }
    }
  }

  lemma {:induction false} AllStopped(workers: seq<Worker>)
    ensures Stopped(workers) + Busy(workers) <= |workers|
    ensures Stopped(workers) == |workers| ==> forall w :: 0 <= w < |workers| ==> workers[w].Exited?
    ensures Stopped(workers) == |workers| ==> forall r: nat :: Holders(workers, r) == 0
  {
    if workers != [] {
      AllStopped(workers[1..]);
      if Stopped(workers) == |workers| {
        forall w | 0 <= w < |workers| ensures workers[w].Exited? {
          if w > 0 {
            assert workers[w] == workers[1..][w - 1];
          }
        }
      }
    }
  }

  // ---------------------------------------------------------------- what is in flight

  /** How many workers are still at the request `r`. */
  function Undone(workers: seq<Worker>, r: nat): nat {
    if workers == [] then 0 else One(workers[0] == Serving(r, false)) + Undone(workers[1..], r)
  }

  function InFlight(s: Server, r: nat): nat {
    InQueue(s.queue, r) + Undone(s.workers, r) + One(s.closer == Holding(r, false))
  }

  /** `_active_requests` holds exactly the admitted requests that nobody has finished with. */
  ghost predicate ActiveInv(s: Server) {
    forall r: nat :: r in s.active <==> InFlight(s, r) > 0
  }

  lemma {:induction false} UndoneChange(workers: seq<Worker>, w: nat, to: Worker, r: nat)
    requires w < |workers|
    ensures Undone(workers[w := to], r) + One(workers[w] == Serving(r, false)) == Undone(workers, r) + One(to == Serving(r, false))
    ensures Undone(workers, r) <= Holders(workers, r)
  {
    UndoneIsHeld(workers, r);
    if w > 0 {
      UndoneChange(workers[1..], w - 1, to, r);
      assert workers[w := to][1..] == workers[1..][w - 1 := to];
    } else {
      assert workers[0 := to][1..] == workers[1..];
    }
  }

  lemma {:induction false} UndoneIsHeld(workers: seq<Worker>, r: nat)
    ensures Undone(workers, r) <= Holders(workers, r)
  {
    if workers != [] {
      UndoneIsHeld(workers[1..], r);
    }
  }

  /** Each step changes what is in flight exactly as it changes the active set. */
  lemma NextKeepsActive(s: Server, slots: nat, a: Step)
    requires Inv(s, slots) && ActiveInv(s) && Enabled(s, a)
    ensures ActiveInv(Next(s, a))
  {
    var t := Next(s, a);
    forall r: nat ensures r in t.active <==> InFlight(t, r) > 0 {
      UndoneIsHeld(s.workers, r);
      assert InFlight(s, r) <= Held(s, r) <= 1;
      assert r in s.active <==> InFlight(s, r) > 0;
      match a {
        case Arrive => QueueSnoc(s.queue, Request(s.next));
        case Take(w) => UndoneChange(s.workers, w, t.workers[w], r);
        case Discard(w) => UndoneChange(s.workers, w, t.workers[w], r);
        case ReleaseSlot(w) => UndoneChange(s.workers, w, Waiting, r);
        case SendSentinel => QueueSnoc(s.queue, Sentinel);
        case _ =>
      }
    }
  }

  lemma {:induction false} RunKeepsActive(states: seq<Server>, steps: seq<Step>, maxWorkers: nat, capacity: nat, i: nat)
    requires Run(states, steps, maxWorkers, capacity) && i < |states|
    ensures ActiveInv(states[i])
  {
    if i > 0 {
      RunKeepsActive(states, steps, maxWorkers, capacity, i - 1);
      RunKeepsInv(states, steps, maxWorkers, capacity, i - 1);
      assert states[i - 1 + 1] == Next(states[i - 1], steps[i - 1]);
      NextKeepsActive(states[i - 1], maxWorkers + capacity, steps[i - 1]);
    } else {
      NobodyWorks(maxWorkers);
    }
  }

  lemma {:induction false} NobodyWorks(n: nat)
    ensures var workers := seq(n, _ => Waiting); forall r: nat :: Undone(workers, r) == 0
  {
    if n > 0 {
      NobodyWorks(n - 1);
      assert seq(n, _ => Waiting)[1..] == seq(n - 1, _ => Waiting);
    }
  }

  /** At shutdown the connection of every request in flight is closed: the snapshot misses
      none, because none can be admitted any more. */
  lemma ShutdownClosesEverythingInFlight(states: seq<Server>, steps: seq<Step>, maxWorkers: nat, capacity: nat, i: nat, r: nat)
    requires Run(states, steps, maxWorkers, capacity) && i < |steps| && steps[i].Snapshot?
    requires InFlight(states[i], r) > 0
    ensures r in states[i + 1].forced
  {
    RunKeepsActive(states, steps, maxWorkers, capacity, i);
    assert states[i + 1] == Next(states[i], steps[i]);
  }

  // ---------------------------------------------------------------- the object

  /** The server's fields, and its regions as methods. */
  class BoundedThreadPoolHTTPServer {
    var free: nat
    var queue: seq<Item>
    var active: set<nat>
    var closed: bool
    var rejected: nat
    var forced: set<nat>
    const maxWorkers: nat

    /** The constructor has checked the two limits. */
    constructor (workers: nat, capacity: nat)
      requires workers > 0
      ensures maxWorkers == workers && free == workers + capacity && queue == [] && active == {}
      ensures !closed && rejected == 0 && forced == {}
    {
      maxWorkers, free, queue, active := workers, workers + capacity, [], {};
      closed, rejected, forced := false, 0, {};
    }

    /** The fields agree with a state of the system. */
    predicate Shows(s: Server)
      reads this
    {
      && free == s.free && queue == s.queue && active == s.active && closed == !s.closer.Open?
      && rejected == s.rejected && forced == s.forced && maxWorkers == |s.workers|
    }

    method ProcessRequest(request: nat, ghost s: Server)
      requires Shows(s) && request == s.next
      modifies this
      ensures Shows(Admit(s)) && closed == old(closed)
      ensures if !old(closed) && old(free) > 0 then
          && free == old(free) - 1 && queue == old(queue) + [Request(request)] && active == old(active) + {request}
          && rejected == old(rejected) && forced == old(forced)
        else
          && free == old(free) && queue == old(queue) && active == old(active)
          && rejected == old(rejected) + 1 && forced == old(forced) + {request}
    {
      if closed || free == 0 {
        rejected := rejected + 1;
        forced := forced + {request};
        return;
      }
      free := free - 1;
      active := active + {request};
      queue := queue + [Request(request)];
    }

    /** A worker's `get`: None is the sentinel. */
    method GetItem(w: nat, ghost s: Server) returns (request: Option<nat>)
      requires Shows(s) && Enabled(s, Take(w))
      modifies this
      ensures Shows(TakeItem(s, w))
      ensures request == if old(queue)[0].Request? then Some(old(queue)[0].id) else None
      ensures queue == old(queue)[1..] && free == old(free) && active == old(active) && closed == old(closed)
      ensures TakeItem(s, w).workers[w] == if request.Some? then Serving(request.value, false) else Exited
    {
      request := if queue[0].Sentinel? then None else Some(queue[0].id);
      queue := queue[1..];
    }

    /** The end of `_process_request`: two regions. */
    method FinishRequest(w: nat, request: nat, ghost s: Server)
      requires Shows(s) && w < |s.workers| && s.workers[w] == Serving(request, false)
      modifies this
      ensures Shows(Next(Next(s, Discard(w)), ReleaseSlot(w)))
      ensures active == old(active) - {request} && free == old(free) + 1 && queue == old(queue) && closed == old(closed)
    {
      active := active - {request};
      free := free + 1;
    }

    /** The state after a drain that nothing interrupts. */
    ghost function Drained(s: Server): Server
      requires s.closer.Draining?
      decreases |s.queue|
    {
      if s.queue == [] then DrainItem(s)
      else
        var t := DrainItem(s);
        if t.closer.Holding? then Drained(Next(Next(t, DrainDiscard), DrainRelease)) else Drained(t)
    }

    /** The drain of `server_close`. */
    method Drain(ghost s: Server) returns (ghost t: Server)
      requires Shows(s) && s.closer.Draining?
      modifies this
      ensures old(forced) <= forced && closed == old(closed)
      ensures t == Drained(s) && Shows(t) && queue == [] && t.closer == Sending(0) && t.workers == s.workers
    {
      ghost var at := s;
      while queue != []
        invariant old(forced) <= forced && closed == old(closed)
        invariant Shows(at) && at.closer.Draining? && Drained(at) == Drained(s) && at.workers == s.workers
        decreases |queue|
      {
        var item := queue[0];
        queue := queue[1..];
        if item.Request? {
          active := active - {item.id};
          free := free + 1;
          forced := forced + {item.id};
          at := Next(Next(DrainItem(at), DrainDiscard), DrainRelease);
        } else {
          at := DrainItem(at);
        }
      }
      t := DrainItem(at);
    }

    /** The sentinels, one for each worker. */
    method SendSentinels(ghost s: Server) returns (ghost t: Server)
      requires Shows(s) && s.closer == Sending(0)
      modifies this
      ensures Shows(t) && t.closer.Closed? && t.workers == s.workers
      ensures queue == old(queue) + seq(maxWorkers, _ => Sentinel) && forced == old(forced) && closed == old(closed)
    {
      t := s;
      for i := 0 to maxWorkers
        invariant Shows(t) && t.closer == Sending(i) && t.workers == s.workers
        invariant queue == old(queue) + seq(i, _ => Sentinel) && forced == old(forced) && closed == old(closed)
      {
        queue := queue + [Sentinel];
        t := Send(t);
      }
      t := Send(t);
    }

    /** `server_close`, when no worker comes between: only the first call does anything. */
    method ServerClose(ghost s: Server) returns (ghost t: Server)
      requires Shows(s)
      modifies this
      ensures Shows(t) && t.workers == s.workers
      ensures !s.closer.Open? ==> t == s
      ensures s.closer.Open? ==> t.closer.Closed? && queue == seq(maxWorkers, _ => Sentinel)
      ensures s.closer.Open? ==> s.active <= forced && closed
    {
      t := s;
      if closed {
        return;
      }
      closed := true;
      t := Next(t, CloseBegin);
      forced := forced + active;
      t := Next(t, Snapshot);
      t := Drain(t);
      t := SendSentinels(t);
    }
  }
}
