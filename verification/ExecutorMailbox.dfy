/** `ExecutorHostClient`: the mailbox between the executor host and its callers. The reader
    thread stores what arrives; consumers take it out, time out or leave. Each region that
    holds the condition variable is one atomic step. */
module ExecutorMailbox {
  import opened Prelude

  const MAX_BYTES := 8 * 1024 * 1024
  const MAX_ITEMS := 128

  datatype Item = Item(value: int, size: nat)

  datatype Reply = FromHost(value: int) | BufferLimitExceeded

  /** `_responses`, `_stream_events`, `_stream_buffer_bytes`, `_overflowed_streams`,
      `_expired_requests` and the request counter. */
  datatype Box = Box(
    responses: map<nat, Reply>, events: map<nat, seq<Item>>, bytes: map<nat, int>,
    overflowed: set<nat>, expired: set<nat>, next: nat)

  function EventsOf(b: Box, r: nat): seq<Item> {
    if r in b.events then b.events[r] else []
  }

  function BytesOf(b: Box, r: nat): int {
    if r in b.bytes then b.bytes[r] else 0
  }

  function Size(q: seq<Item>): nat {
    if q == [] then 0 else Size(q[..|q| - 1]) + q[|q| - 1].size
  }

  // ---------------------------------------------------------------- the locked regions

  /** The reader gets a response. */
  function OnResponse(b: Box, r: nat, reply: Reply): Box {
    if r in b.overflowed then b.(overflowed := b.overflowed - {r})
    else if r in b.expired then b.(expired := b.expired - {r})
    else b.(responses := b.responses[r := reply])
  }

  predicate TooMuch(b: Box, r: nat, x: Item) {
    BytesOf(b, r) + x.size > MAX_BYTES || |EventsOf(b, r)| >= MAX_ITEMS
  }

  /** The reader gets a stream item. */
  function OnItem(b: Box, r: nat, x: Item): Box {
    if r in b.overflowed || r in b.expired then b
    else if TooMuch(b, r, x) then
      b.(overflowed := b.overflowed + {r}, events := b.events - {r}, bytes := b.bytes - {r},
         responses := b.responses[r := BufferLimitExceeded])
    else
      b.(bytes := b.bytes[r := BytesOf(b, r) + x.size], events := b.events[r := EventsOf(b, r) + [x]])
  }

  /** The consumer takes the next item. */
  function TakeItem(b: Box, r: nat): Box
    requires EventsOf(b, r) != []
  {
    var q := b.events[r];
    var left := BytesOf(b, r) - q[0].size;
    b.(bytes := b.bytes[r := if left < 0 then 0 else left],
       events := if |q| == 1 then b.events - {r} else b.events[r := q[1..]])
  }

  function TakeResponse(b: Box, r: nat): Box {
    b.(responses := b.responses - {r})
  }

  /** The deadline passes while a stream consumer waits. */
  function StreamTimeout(b: Box, r: nat): Box {
    b.(responses := b.responses - {r}, events := b.events - {r}, expired := b.expired + {r})
  }

  /** The `finally` block of a stream consumer. */
  function Finish(b: Box, r: nat, completed: bool): Box {
    b.(events := b.events - {r}, bytes := b.bytes - {r}, responses := b.responses - {r},
       expired := b.expired + if completed then {} else {r})
  }

  /** The deadline passes in `_wait_response`. */
  function WaitTimeout(b: Box, r: nat): Box {
    b.(responses := b.responses - {r}, expired := b.expired + {r})
  }

  // ---------------------------------------------------------------- the object

  class Mailbox {
    var responses: map<nat, Reply>
    var events: map<nat, seq<Item>>
    var bytes: map<nat, int>
    var overflowed: set<nat>
    var expired: set<nat>
    var next: nat

    ghost function Abs(): Box
      reads this
    {
      Box(responses, events, bytes, overflowed, expired, next)
    }

    constructor ()
      ensures Abs() == Box(map[], map[], map[], {}, {}, 0)
    {
      responses, events, bytes, overflowed, expired, next := map[], map[], map[], {}, {}, 0;
    }

    method NewRequest() returns (r: nat)
      modifies this`next
      ensures r == old(next) && Abs() == old(Abs()).(next := r + 1)
    {
      r := next;
      next := next + 1;
    }

    method StoreResponse(r: nat, reply: Reply)
      modifies this
      ensures Abs() == OnResponse(old(Abs()), r, reply)
      ensures events == old(events) && bytes == old(bytes)
      ensures responses == if r in old(overflowed) || r in old(expired) then old(responses) else old(responses)[r := reply]
      ensures overflowed == old(overflowed) - {r}
      ensures expired == if r in old(overflowed) then old(expired) else old(expired) - {r}
    {
      if r in overflowed {
        overflowed := overflowed - {r};
      } else if r in expired {
        expired := expired - {r};
      } else {
        responses := responses[r := reply];
      }
    }

    method StoreItem(r: nat, x: Item)
      modifies this
      ensures Abs() == OnItem(old(Abs()), r, x)
      ensures r in old(overflowed) || r in old(expired) ==> Abs() == old(Abs())
      ensures r !in old(overflowed) && r !in old(expired) ==>
        var buffered := if r in old(bytes) then old(bytes)[r] else 0;
        var queue := if r in old(events) then old(events)[r] else [];
        if buffered + x.size <= 8388608 && |queue| < 128 then
          && events == old(events)[r := queue + [x]] && bytes == old(bytes)[r := buffered + x.size]
          && responses == old(responses) && overflowed == old(overflowed)
        else
          && events == old(events) - {r} && bytes == old(bytes) - {r}
          && responses == old(responses)[r := BufferLimitExceeded] && overflowed == old(overflowed) + {r}
      ensures expired == old(expired)
    {
      if r in overflowed || r in expired {
        return;
      }
      var buffered := if r in bytes then bytes[r] else 0;
      var queue := if r in events then events[r] else [];
      if buffered + x.size > MAX_BYTES || |queue| >= MAX_ITEMS {
        overflowed := overflowed + {r};
        events := events - {r};
        bytes := bytes - {r};
        responses := responses[r := BufferLimitExceeded];
        return;
      }
      bytes := bytes[r := buffered + x.size];
      events := events[r := queue + [x]];
    }

    /** The locked region of a stream consumer that need not wait. */
    method Take(r: nat) returns (item: Option<Item>, reply: Option<Reply>)
      requires r in responses || (r in events && events[r] != [])
      modifies this
      ensures EventsOf(old(Abs()), r) != [] ==>
                item == Some(old(events)[r][0]) && reply == None && Abs() == TakeItem(old(Abs()), r)
      ensures EventsOf(old(Abs()), r) == [] ==>
                item == None && reply == Some(old(responses)[r]) && Abs() == TakeResponse(old(Abs()), r)
    {
      item, reply := None, None;
      if r in events && events[r] != [] {
        var queue := events[r];
        item := Some(queue[0]);
        var left := (if r in bytes then bytes[r] else 0) - queue[0].size;
        bytes := bytes[r := if left < 0 then 0 else left];
        queue := queue[1..];
        events := if queue == [] then events - {r} else events[r := queue];
      } else {
        reply := Some(responses[r]);
        responses := responses - {r};
      }
    }

    method TimeOutStream(r: nat)
      modifies this
      ensures Abs() == StreamTimeout(old(Abs()), r)
    {
      responses := responses - {r};
      events := events - {r};
      expired := expired + {r};
    }

    method Leave(r: nat, completed: bool)
      modifies this
      ensures Abs() == Finish(old(Abs()), r, completed)
    {
      events := events - {r};
      bytes := bytes - {r};
      responses := responses - {r};
      if !completed {
        expired := expired + {r};
      }
    }

    method TimeOutWait(r: nat)
      modifies this
      ensures Abs() == WaitTimeout(old(Abs()), r)
    {
      responses := responses - {r};
      expired := expired + {r};
    }
  }

  // ---------------------------------------------------------------- runs

  /** Where the caller of a request is. Streams: the generator was not started, runs, has
      left its loop (with or without a reply) or is gone. Plain requests: the caller waits,
      has been released, or has run away because the host died. */
  datatype Phase = Unstarted | Running | Leaving(completed: bool) | Left | Waiting | Released | Abandoned

  /** The mailbox, the phases of its callers, the replies the host has sent, and per request
      the items that arrived and what was handed to the caller. */
  datatype Sys = Sys(box: Box, phases: map<nat, Phase>, replied: map<nat, Reply>, spilled: set<nat>,
                     arrived: map<nat, seq<Item>>, items: map<nat, seq<Item>>, answers: map<nat, seq<Reply>>)

  datatype Step =
    | OpenStream | OpenWait
    | Begin(r: nat)
    | ReadItem(r: nat, x: Item)
    | ReadResponse(r: nat, value: int)
    | Take(r: nat)
    | TimeOut(r: nat)
    | HostDied(r: nat)
    | CloseEarly(r: nat)
    | Leave(r: nat)

  function Listed<T>(m: map<nat, seq<T>>, r: nat): seq<T> {
    if r in m then m[r] else []
  }

  predicate InPhase(s: Sys, r: nat, p: Phase) {
    r in s.phases && s.phases[r] == p
  }

  predicate IsStream(p: Phase) {
    p.Unstarted? || p.Running? || p.Leaving? || p.Left?
  }

  /** Nothing to take: the caller has to wait. */
  predicate Idle(b: Box, r: nat) {
    r !in b.responses && EventsOf(b, r) == []
  }

  function Open(s: Sys, p: Phase): Sys {
    s.(box := s.box.(next := s.box.next + 1), phases := s.phases[s.box.next := p])
  }

  function Reading(s: Sys, r: nat, x: Item): Sys {
    if r !in s.phases || !IsStream(s.phases[r]) || r in s.replied then s else
    var d := OnItem(s.box, r, x);
    s.(box := d, arrived := s.arrived[r := Listed(s.arrived, r) + [x]],
       spilled := s.spilled + if r in d.overflowed then {r} else {})
  }

  function Replying(s: Sys, r: nat, value: int): Sys {
    if r !in s.phases || r in s.replied then s else
    s.(box := OnResponse(s.box, r, FromHost(value)), replied := s.replied[r := FromHost(value)])
  }

  function TakingItem(s: Sys, r: nat): Sys
    requires EventsOf(s.box, r) != []
  {
    s.(box := TakeItem(s.box, r), items := s.items[r := Listed(s.items, r) + [s.box.events[r][0]]])
  }

  function TakingReply(s: Sys, r: nat): Sys
    requires r in s.box.responses && r in s.phases
  {
    s.(box := TakeResponse(s.box, r), answers := s.answers[r := Listed(s.answers, r) + [s.box.responses[r]]],
       phases := s.phases[r := if s.phases[r].Running? then Leaving(true) else Released])
  }

  function Taking(s: Sys, r: nat): Sys {
    if InPhase(s, r, Running) && EventsOf(s.box, r) != [] then TakingItem(s, r)
    else if (InPhase(s, r, Running) || InPhase(s, r, Waiting)) && r in s.box.responses then TakingReply(s, r)
    else s
  }

  function StreamTimingOut(s: Sys, r: nat): Sys {
    s.(box := StreamTimeout(s.box, r), phases := s.phases[r := Leaving(false)])
  }

  function WaitTimingOut(s: Sys, r: nat): Sys {
    s.(box := WaitTimeout(s.box, r), phases := s.phases[r := Released])
  }

  function TimingOut(s: Sys, r: nat): Sys {
    if !Idle(s.box, r) then s
    else if InPhase(s, r, Running) then StreamTimingOut(s, r)
    else if InPhase(s, r, Waiting) then WaitTimingOut(s, r)
    else s
  }

  function Dying(s: Sys, r: nat): Sys {
    if !Idle(s.box, r) then s
    else if InPhase(s, r, Running) then s.(phases := s.phases[r := Leaving(false)])
    else if InPhase(s, r, Waiting) then s.(phases := s.phases[r := Abandoned])
    else s
  }

  function Finishing(s: Sys, r: nat): Sys {
    if r in s.phases && s.phases[r].Leaving? then
      s.(box := Finish(s.box, r, s.phases[r].completed), phases := s.phases[r := Left])
    else s
  }

  /** One atomic step; a step that cannot happen leaves the state as it is. The host replies
      at most once to a request and sends no item after its reply. */
  function Next(s: Sys, step: Step): Sys {
    match step
    case OpenStream => Open(s, Unstarted)
    case OpenWait => Open(s, Waiting)
    case Begin(r) => if InPhase(s, r, Unstarted) then s.(phases := s.phases[r := Running]) else s
    case ReadItem(r, x) => Reading(s, r, x)
    case ReadResponse(r, v) => Replying(s, r, v)
    case Take(r) => Taking(s, r)
    case TimeOut(r) => TimingOut(s, r)
    case HostDied(r) => Dying(s, r)
    case CloseEarly(r) => if InPhase(s, r, Running) then s.(phases := s.phases[r := Leaving(false)]) else s
    case Leave(r) => Finishing(s, r)
  }

  function Start(): Sys {
    Sys(Box(map[], map[], map[], {}, {}, 0), map[], map[], {}, map[], map[], map[])
  }

  function Run(steps: seq<Step>): Sys {
    if steps == [] then Start() else Next(Run(steps[..|steps| - 1]), steps[|steps| - 1])
  }

  lemma {:induction false} RunKeeps(inv: Sys -> bool, steps: seq<Step>)
    requires inv(Start()) && forall s, step :: inv(s) ==> inv(Next(s, step))
    ensures inv(Run(steps))
  {
    if steps != [] {
      RunKeeps(inv, steps[..|steps| - 1]);
    }
  }

  // ---------------------------------------------------------------- one request at a time

  function Lookup<T>(m: map<nat, T>, r: nat): Option<T> {
    if r in m then Some(m[r]) else None
  }

  /** All that the state says about one request. */
  datatype View = View(
    response: Option<Reply>, queue: Option<seq<Item>>, bytes: Option<int>, overflowed: bool, expired: bool,
    phase: Option<Phase>, replied: Option<Reply>, spilled: bool,
    arrived: seq<Item>, items: seq<Item>, answers: seq<Reply>)

  function ViewOf(s: Sys, r: nat): View {
    View(Lookup(s.box.responses, r), Lookup(s.box.events, r), Lookup(s.box.bytes, r),
         r in s.box.overflowed, r in s.box.expired, Lookup(s.phases, r), Lookup(s.replied, r), r in s.spilled,
         Listed(s.arrived, r), Listed(s.items, r), Listed(s.answers, r))
  }

  function Queue(v: View): seq<Item> {
    if v.queue.Some? then v.queue.value else []
  }

  function Bytes(v: View): int {
    if v.bytes.Some? then v.bytes.value else 0
  }

  function ViewItem(v: View, x: Item): View {
    var w := v.(arrived := v.arrived + [x]);
    if v.overflowed then w.(spilled := true) else if v.expired then w
    else if Bytes(v) + x.size > MAX_BYTES || |Queue(v)| >= MAX_ITEMS then
      w.(overflowed := true, queue := None, bytes := None, response := Some(BufferLimitExceeded), spilled := true)
    else w.(bytes := Some(Bytes(v) + x.size), queue := Some(Queue(v) + [x]))
  }

  function ViewTakeItem(v: View): View
    requires Queue(v) != []
  {
    var left := Bytes(v) - Queue(v)[0].size;
    v.(bytes := Some(if left < 0 then 0 else left),
       queue := if |Queue(v)| == 1 then None else Some(Queue(v)[1..]), items := v.items + [Queue(v)[0]])
  }

  /** What a step does to the request it is about. */
  function ViewNext(v: View, step: Step): View {
    var running, waiting := v.phase == Some(Running), v.phase == Some(Waiting);
    var idle := v.response.None? && Queue(v) == [];
    match step
    case OpenStream => v.(phase := Some(Unstarted))
    case OpenWait => v.(phase := Some(Waiting))
    case Begin(_) => if v.phase == Some(Unstarted) then v.(phase := Some(Running)) else v
    case ReadItem(_, x) =>
      if v.phase.None? || !IsStream(v.phase.value) || v.replied.Some? then v else ViewItem(v, x)
    case ReadResponse(_, value) =>
      if v.phase.None? || v.replied.Some? then v else
      var w := v.(replied := Some(FromHost(value)));
      if v.overflowed then w.(overflowed := false)
      else if v.expired then w.(expired := false)
      else w.(response := Some(FromHost(value)))
    case Take(_) =>
      if running && Queue(v) != [] then ViewTakeItem(v)
      else if (running || waiting) && v.response.Some? then
        v.(response := None, answers := v.answers + [v.response.value],
           phase := Some(if running then Leaving(true) else Released))
      else v
    case TimeOut(_) =>
      if !idle then v
      else if running then v.(response := None, queue := None, expired := true, phase := Some(Leaving(false)))
      else if waiting then v.(response := None, expired := true, phase := Some(Released))
      else v
    case HostDied(_) =>
      if !idle then v
      else if running then v.(phase := Some(Leaving(false)))
      else if waiting then v.(phase := Some(Abandoned))
      else v
    case CloseEarly(_) => if running then v.(phase := Some(Leaving(false))) else v
    case Leave(_) =>
      if v.phase.Some? && v.phase.value.Leaving? then
        v.(queue := None, bytes := None, response := None,
           expired := v.expired || !v.phase.value.completed, phase := Some(Left))
      else v
  }

  /** The request a step is about. */
  function Subject(s: Sys, step: Step): nat {
    match step
    case OpenStream => s.box.next
    case OpenWait => s.box.next
    case Begin(r) => r
    case ReadItem(r, _) => r
    case ReadResponse(r, _) => r
    case Take(r) => r
    case TimeOut(r) => r
    case HostDied(r) => r
    case CloseEarly(r) => r
    case Leave(r) => r
  }

  /** The view of r is that of a step of its own, or unchanged when the step is another's. */
  ghost predicate Acts(s: Sys, t: Sys, step: Step, own: bool, r: nat) {
    ViewOf(t, r) == if own then ViewNext(ViewOf(s, r), step) else ViewOf(s, r)
  }

  lemma ReadingLeavesOthers(s: Sys, q: nat, x: Item, r: nat)
    requires r != q
    ensures ViewOf(Reading(s, q, x), r) == ViewOf(s, r)
  {
  }

  lemma ReadingActsOnItsOwn(s: Sys, q: nat, x: Item)
    ensures ViewOf(Reading(s, q, x), q) == ViewNext(ViewOf(s, q), ReadItem(q, x))
  {
  }

  lemma ReadingActs(s: Sys, q: nat, x: Item, r: nat)
    ensures Acts(s, Reading(s, q, x), ReadItem(q, x), r == q, r)
  {
    if r != q {
      ReadingLeavesOthers(s, q, x, r);
    } else {
      ReadingActsOnItsOwn(s, q, x);
    }
  }

  lemma ReplyingLeavesOthers(s: Sys, q: nat, v: int, r: nat)
    requires r != q
    ensures ViewOf(Replying(s, q, v), r) == ViewOf(s, r)
  {
  }

  lemma ReplyingActsOnItsOwn(s: Sys, q: nat, v: int)
    ensures ViewOf(Replying(s, q, v), q) == ViewNext(ViewOf(s, q), ReadResponse(q, v))
  {
    if q in s.phases && q !in s.replied {
      ResponseActs(s, q, v);
    }
  }

  lemma ResponseActs(s: Sys, q: nat, v: int)
    requires q in s.phases && q !in s.replied
    ensures var t := Replying(s, q, v);
      ViewOf(t, q) == ViewOf(s, q).(replied := Some(FromHost(v)), overflowed := q in t.box.overflowed,
                                    expired := q in t.box.expired, response := Lookup(t.box.responses, q))
  {
  }

  lemma ReplyingActs(s: Sys, q: nat, v: int, r: nat)
    ensures Acts(s, Replying(s, q, v), ReadResponse(q, v), r == q, r)
  {
    if r != q {
      ReplyingLeavesOthers(s, q, v, r);
    } else {
      ReplyingActsOnItsOwn(s, q, v);
    }
  }

  lemma TakingItemActs(s: Sys, q: nat, r: nat)
    requires InPhase(s, q, Running) && EventsOf(s.box, q) != []
    ensures Acts(s, TakingItem(s, q), Take(q), r == q, r)
  {
  }

  lemma TakingReplyActs(s: Sys, q: nat, r: nat)
    requires InPhase(s, q, Running) || InPhase(s, q, Waiting)
    requires q in s.box.responses && (InPhase(s, q, Running) ==> EventsOf(s.box, q) == [])
    ensures Acts(s, TakingReply(s, q), Take(q), r == q, r)
  {
  }

  lemma TakingActs(s: Sys, q: nat, r: nat)
    ensures Acts(s, Taking(s, q), Take(q), r == q, r)
  {
    if InPhase(s, q, Running) && EventsOf(s.box, q) != [] {
      TakingItemActs(s, q, r);
    } else if (InPhase(s, q, Running) || InPhase(s, q, Waiting)) && q in s.box.responses {
      TakingReplyActs(s, q, r);
    }
  }

  lemma StreamTimingOutActs(s: Sys, q: nat, r: nat)
    requires Idle(s.box, q) && InPhase(s, q, Running)
    ensures Acts(s, StreamTimingOut(s, q), TimeOut(q), r == q, r)
  {
  }

  lemma WaitTimingOutActs(s: Sys, q: nat, r: nat)
    requires Idle(s.box, q) && InPhase(s, q, Waiting)
    ensures Acts(s, WaitTimingOut(s, q), TimeOut(q), r == q, r)
  {
  }

  lemma TimingOutActs(s: Sys, q: nat, r: nat)
    ensures Acts(s, TimingOut(s, q), TimeOut(q), r == q, r)
  {
    if Idle(s.box, q) && InPhase(s, q, Running) {
      StreamTimingOutActs(s, q, r);
    } else if Idle(s.box, q) && InPhase(s, q, Waiting) {
      WaitTimingOutActs(s, q, r);
    }
  }

  lemma RunningAwayActs(s: Sys, q: nat, to: Phase, r: nat)
    requires q in s.phases
    ensures ViewOf(s.(phases := s.phases[q := to]), r)
      == if r == q then ViewOf(s, r).(phase := Some(to)) else ViewOf(s, r)
  {
  }

  lemma DyingActs(s: Sys, q: nat, r: nat)
    ensures Acts(s, Dying(s, q), HostDied(q), r == q, r)
  {
    if Idle(s.box, q) && InPhase(s, q, Running) {
      RunningAwayActs(s, q, Leaving(false), r);
    } else if Idle(s.box, q) && InPhase(s, q, Waiting) {
      RunningAwayActs(s, q, Abandoned, r);
    }
  }

  lemma FinishingActs(s: Sys, q: nat, r: nat)
    ensures Acts(s, Finishing(s, q), Leave(q), r == q, r)
  {
  }

  lemma MovingActs(s: Sys, step: Step, r: nat)
    requires step.OpenStream? || step.OpenWait? || step.Begin? || step.CloseEarly?
    ensures Acts(s, Next(s, step), step, r == Subject(s, step), r)
  {
  }

  /** Requests do not interfere: a step changes what the mailbox knows about its own request
      as if that request were alone, and leaves every other request as it was. */
  lemma RequestsDoNotInterfere(s: Sys, step: Step, r: nat)
    ensures ViewOf(Next(s, step), r) == if r == Subject(s, step) then ViewNext(ViewOf(s, r), step) else ViewOf(s, r)
  {
    hide ViewOf, ViewNext, Reading, Replying, Taking, TimingOut, Dying, Finishing, Open;
    match step
    case ReadItem(q, x) => ReadingActs(s, q, x, r);
    case ReadResponse(q, v) => ReplyingActs(s, q, v, r);
    case Take(q) => TakingActs(s, q, r);
    case TimeOut(q) => TimingOutActs(s, q, r);
    case HostDied(q) => DyingActs(s, q, r);
    case Leave(q) => FinishingActs(s, q, r);
    case _ => MovingActs(s, step, r);
  }

  // ---------------------------------------------------------------- what every step keeps

  lemma {:induction false} SizeOfRest(q: seq<Item>)
    requires q != []
    ensures Size(q) == q[0].size + Size(q[1..])
  {
    if |q| > 1 {
      SizeOfRest(q[..|q| - 1]);
      assert q[..|q| - 1][1..] == q[1..][..|q| - 2];
    }
  }

  /** Whatever still arrives will be dropped, or nothing arrives any more. */
  predicate Sealed(v: View) {
    v.replied.Some? || v.expired || v.overflowed
  }

  predicate Empty(v: View) {
    v.response.None? && v.queue.None? && v.bytes.None?
  }

  /** The caller still listens. */
  predicate Listening(v: View) {
    v.phase == Some(Unstarted) || v.phase == Some(Running) || v.phase == Some(Waiting)
  }

  /** What is known of a request in each phase of its caller. */
  ghost predicate ViewInv(v: View) {
    && Bytes(v) == Size(Queue(v)) <= MAX_BYTES && |Queue(v)| <= MAX_ITEMS
    && (v.overflowed ==> v.queue.None? && v.bytes.None? && v.replied.None?)
    && (v.spilled ==> v.overflowed || v.replied.Some?)
    && (v.overflowed ==> v.spilled)
    && (v.phase.None? ==> v == View(None, None, None, false, false, None, None, false, [], [], []))
    && (v.phase == Some(Left) ==> Empty(v) && Sealed(v))
    && (v.phase == Some(Leaving(true)) ==> v.response.None? && Queue(v) == [] && Sealed(v))
    && (v.phase == Some(Released) ==> v.response.None? && Sealed(v))
    && (v.phase.Some? && !IsStream(v.phase.value) ==> v.queue.None? && !v.spilled)
    && (Listening(v) ==> !v.expired && v.answers == [])
    && (Listening(v) && v.spilled ==> v.response == Some(BufferLimitExceeded) && v.queue.None?)
    && (Listening(v) && !v.spilled ==> v.arrived == v.items + Queue(v) && v.response == v.replied)
    && (v.answers != [] ==>
          if v.spilled then v.answers == [BufferLimitExceeded]
          else v.replied.Some? && v.answers == [v.replied.value] && v.arrived == v.items)
  }

  lemma ReadKeeps(v: View, r: nat, x: Item)
    requires ViewInv(v)
    ensures ViewInv(ViewNext(v, ReadItem(r, x)))
  {
    assert (Queue(v) + [x])[..|Queue(v)|] == Queue(v);
  }

  lemma TakeKeeps(v: View, r: nat)
    requires ViewInv(v)
    ensures ViewInv(ViewNext(v, Take(r)))
  {
    var q := Queue(v);
    if q != [] {
      SizeOfRest(q);
      assert [q[0]] + q[1..] == q;
    }
  }

  lemma StepKeeps(v: View, step: Step)
    requires ViewInv(v) && (step.OpenStream? || step.OpenWait? ==> v.phase.None?)
    ensures ViewInv(ViewNext(v, step))
  {
    match step
    case ReadItem(r, x) => ReadKeeps(v, r, x);
    case Take(r) => TakeKeeps(v, r);
    case _ =>
  }

  ghost predicate Numbered(s: Sys) {
    forall r :: r in s.phases ==> r < s.box.next
  }

  lemma NextIsNumbered(s: Sys, step: Step)
    requires Numbered(s)
    ensures Numbered(Next(s, step))
  {
  }

  lemma NextKeepsView(s: Sys, step: Step, r: nat)
    requires ViewInv(ViewOf(s, r)) && Numbered(s)
    ensures ViewInv(ViewOf(Next(s, step), r))
  {
    RequestsDoNotInterfere(s, step, r);
    if r == Subject(s, step) { StepKeeps(ViewOf(s, r), step); }
  }

  lemma NumberedAlways(steps: seq<Step>)
    ensures Numbered(Run(steps))
  {
    forall s, step | Numbered(s) ensures Numbered(Next(s, step)) { NextIsNumbered(s, step); }
    RunKeeps(s => Numbered(s), steps);
  }

  lemma ViewInvAlways(steps: seq<Step>, r: nat)
    ensures ViewInv(ViewOf(Run(steps), r))
  {
    var inv := (s: Sys) => ViewInv(ViewOf(s, r)) && Numbered(s);
    forall s, step | inv(s) ensures inv(Next(s, step)) { NextKeepsView(s, step, r); NextIsNumbered(s, step); }
    RunKeeps(inv, steps);
  }

  // ---------------------------------------------------------------- main results

  /** In every reachable state the byte counter of every request equals the sizes of its
      queued items, and both bounds hold: the subtraction in the consumer never clamps. */
  lemma BuffersAreMeasuredAndBounded(steps: seq<Step>, r: nat)
    ensures var b := Run(steps).box;
            BytesOf(b, r) == Size(EventsOf(b, r)) <= MAX_BYTES && |EventsOf(b, r)| <= MAX_ITEMS
  {
    ViewInvAlways(steps, r);
  }

  /** In every reachable state an item of a stream that is neither overflowed nor expired is
      queued exactly when it fits, 128 items and 8 MiB in all; otherwise the queue is given up
      and the error waits for the caller. */
  lemma OverflowsIffItDoesNotFit(steps: seq<Step>, r: nat, x: Item)
    requires var s := Run(steps);
      && r in s.phases && IsStream(s.phases[r]) && r !in s.replied
      && r !in s.spilled && r !in s.box.overflowed && r !in s.box.expired
    ensures var s, t := Run(steps), Next(Run(steps), ReadItem(r, x)); var queue := EventsOf(s.box, r);
      if |queue| < 128 && Size(queue) + x.size <= 8388608 then
        && r !in t.spilled && r !in t.box.overflowed && EventsOf(t.box, r) == queue + [x]
        && t.box.responses == s.box.responses
      else
        && r in t.spilled && r in t.box.overflowed && EventsOf(t.box, r) == []
        && Lookup(t.box.responses, r) == Some(BufferLimitExceeded)
  {
    BuffersAreMeasuredAndBounded(steps, r);
  }

  /** A deadline counts only for a caller that waits with nothing to take; then its request is
      marked, and nothing of it is left to take. */
  lemma TimesOutIffNothingIsThere(s: Sys, r: nat)
    ensures var t := Next(s, TimeOut(r));
      var waits := r in s.phases && (s.phases[r] == Running || s.phases[r] == Waiting)
        && r !in s.box.responses && EventsOf(s.box, r) == [];
      if waits then
        && r in t.box.expired && r !in t.box.responses && EventsOf(t.box, r) == []
        && r in t.phases && t.phases[r] == if s.phases[r] == Running then Leaving(false) else Released
      else t == s
  {
  }

  /** Once a stream consumer has left, however it left, no response, queued item or counter
      for its request remains, and none is ever stored again. */
  lemma NothingRemainsAfterLeaving(steps: seq<Step>, more: seq<Step>, r: nat)
    requires InPhase(Run(steps), r, Left)
    ensures var b := Run(steps + more).box;
            r !in b.responses && r !in b.events && r !in b.bytes
  {
    GoneForGood(steps, more, r, Left);
    ViewInvAlways(steps + more, r);
    assert ViewOf(Run(steps + more), r).phase == Some(Left);
  }

  /** A caller that has left or was released stays so. */
  lemma {:induction false} GoneForGood(steps: seq<Step>, more: seq<Step>, r: nat, p: Phase)
    requires (p == Left || p == Released) && InPhase(Run(steps), r, p)
    ensures InPhase(Run(steps + more), r, p)
    decreases more
  {
    if more == [] {
      assert steps + more == steps;
    } else {
      GoneForGood(steps, more[..|more| - 1], r, p);
      assert (steps + more)[..|steps + more| - 1] == steps + more[..|more| - 1];
      GoneStays(Run(steps + more[..|more| - 1]), more[|more| - 1], steps + more[..|more| - 1], r, p);
    }
  }

  lemma GonePhaseStays(v: View, step: Step)
    requires (v.phase == Some(Left) || v.phase == Some(Released)) && !step.OpenStream? && !step.OpenWait?
    ensures ViewNext(v, step).phase == v.phase
  {
  }

  lemma GoneStays(s: Sys, step: Step, steps: seq<Step>, r: nat, p: Phase)
    requires s == Run(steps) && (p == Left || p == Released) && InPhase(s, r, p)
    ensures InPhase(Next(s, step), r, p)
  {
    hide Next, ViewNext;
    NumberedAlways(steps);
    RequestsDoNotInterfere(s, step, r);
    assert ViewOf(s, r).phase == Some(p);
    if r == Subject(s, step) {
      GonePhaseStays(ViewOf(s, r), step);
    }
    assert ViewOf(Next(s, step), r).phase == Some(p);
  }

  /** A released caller of a plain request leaves no response behind either, now or later: the
      host has replied, or its request is still marked, so that a late response is dropped. */
  lemma NothingRemainsAfterAWait(steps: seq<Step>, more: seq<Step>, r: nat)
    requires InPhase(Run(steps), r, Released)
    ensures var s := Run(steps + more); r !in s.box.responses && (r in s.replied || r in s.box.expired)
  {
    GoneForGood(steps, more, r, Released);
    ViewInvAlways(steps + more, r);
    assert ViewOf(Run(steps + more), r).phase == Some(Released);
  }

  /** A mark that no response will take away: the host's only reply has come, or it will be
      spent on the mark of the overflow. */
  predicate Stuck(v: View) {
    v.expired && (v.replied.Some? || v.overflowed)
  }

  lemma StuckStays(v: View, step: Step)
    requires Stuck(v)
    ensures Stuck(ViewNext(v, step))
  {
  }

  lemma {:induction false} StuckForGood(steps: seq<Step>, more: seq<Step>, r: nat)
    requires Stuck(ViewOf(Run(steps), r))
    ensures Stuck(ViewOf(Run(steps + more), r))
    decreases more
  {
    if more == [] {
      assert steps + more == steps;
    } else {
      var before, last := more[..|more| - 1], more[|more| - 1];
      StuckForGood(steps, before, r);
      assert (steps + more)[..|steps + more| - 1] == steps + before;
      RequestsDoNotInterfere(Run(steps + before), last, r);
      StuckStays(ViewOf(Run(steps + before), r), last);
    }
  }

  /** The mark of an expired request stays for good if and only if the host has replied or the
      stream has overflowed: otherwise the host's reply takes it away. */
  lemma MarkStaysIffNoReplyTakesIt(steps: seq<Step>, r: nat)
    requires r in Run(steps).box.expired
    ensures (forall more :: r in Run(steps + more).box.expired) <==> r in Run(steps).replied || r in Run(steps).box.overflowed
  {
    var s := Run(steps);
    if r in s.replied || r in s.box.overflowed {
      forall more ensures r in Run(steps + more).box.expired {
        StuckForGood(steps, more, r);
        assert ViewOf(Run(steps + more), r).expired;
      }
    } else {
      ReplyTakesTheMark(steps, r);
    }
  }

  lemma ReplyTakesTheMark(steps: seq<Step>, r: nat)
    requires var s := Run(steps); r in s.box.expired && r !in s.replied && r !in s.box.overflowed
    ensures r !in Run(steps + [ReadResponse(r, 0)]).box.expired
  {
    var s, reply := Run(steps), ReadResponse(r, 0);
    assert (steps + [reply])[..|steps|] == steps;
    ViewInvAlways(steps, r);
    assert ViewOf(s, r).expired && ViewOf(s, r).phase.Some?;
    RequestsDoNotInterfere(s, reply, r);
    assert !ViewOf(Next(s, reply), r).expired;
  }

  /** A stream consumer that leaves without having taken a reply, after the host's has arrived
      or after an overflow, leaves a mark that stays for good. */
  lemma LateLeavingMarksForGood(steps: seq<Step>, more: seq<Step>, r: nat)
    requires var s := Run(steps); InPhase(s, r, Leaving(false)) && (r in s.replied || r in s.box.overflowed)
    ensures r in Run(steps + [Leave(r)] + more).box.expired
  {
    var s := Run(steps);
    assert (steps + [Leave(r)])[..|steps|] == steps;
    RequestsDoNotInterfere(s, Leave(r), r);
    assert ViewOf(s, r).phase == Some(Leaving(false));
    assert Stuck(ViewOf(Run(steps + [Leave(r)]), r));
    StuckForGood(steps + [Leave(r)], more, r);
    assert ViewOf(Run(steps + [Leave(r)] + more), r).expired;
  }

  /** A caller gets at most one reply. If its stream overflowed, that reply is the overflow
      error; otherwise it is the host's reply, and it comes after every item the host sent,
      in the order they were sent. */
  lemma OneReplyAfterAllItems(steps: seq<Step>, r: nat)
    requires Listed(Run(steps).answers, r) != []
    ensures var s := Run(steps);
            if r in s.spilled then Listed(s.answers, r) == [BufferLimitExceeded]
            else r in s.replied && Listed(s.answers, r) == [s.replied[r]] && Listed(s.items, r) == Listed(s.arrived, r)
  {
    ViewInvAlways(steps, r);
  }

  /** As long as a caller listens nothing is lost: after an overflow the error waits for it,
      otherwise what it took and what is queued is all that arrived, and the host's reply
      waits for it as soon as it has arrived. */
  lemma ListenersLoseNothing(steps: seq<Step>, r: nat)
    requires var s := Run(steps); InPhase(s, r, Unstarted) || InPhase(s, r, Running) || InPhase(s, r, Waiting)
    ensures var s := Run(steps);
            if r in s.spilled then Lookup(s.box.responses, r) == Some(BufferLimitExceeded)
            else Listed(s.arrived, r) == Listed(s.items, r) + EventsOf(s.box, r)
                 && Lookup(s.box.responses, r) == Lookup(s.replied, r)
  {
    ViewInvAlways(steps, r);
    assert Listening(ViewOf(Run(steps), r));
  }
}
