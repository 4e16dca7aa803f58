/** The executor tables of `ExecutorCore`: which services, pools or runtimes are
    registered, and which process pool each of them currently owns.

    `_service_workers`/`_service_executors`, `_pool_workers`/`_pool_executors` and
    `_task_executor` run the same code over different fields; the runtime scope is a
    table in which the single key RUNTIME is always registered. */
module ExecutorTables {

  const RUNTIME := ""

  /** `executors` holds process pools by identity: the k-th pool ever built is k.
      `closed` is the set of pools handed to `_shutdown_executor`. */
  datatype Table = Table(workers: map<string, nat>, executors: map<string, nat>, built: nat, closed: set<nat>)

  /** How one call of `_submit_with_spawn_fallback` goes. */
  datatype Attempt =
    | Accepted
    | Refused(recoverable: bool)
    | FellBack(rebuilt: bool, accepted: bool, recoverable: bool)

  /** The environment's answers while one payload is submitted: does the pool that is
      missing come up, how does the first try go, does the rebuild come up, and how
      does the second try go. */
  datatype SubmitEnv = SubmitEnv(build: bool, first: Attempt, rebuild: bool, second: Attempt)

  /** Takes the key's pool out of the table and shuts it down. */
  function Close(t: Table, key: string): Table {
    t.(executors := t.executors - {key},
       closed := t.closed + if key in t.executors then {t.executors[key]} else {})
  }

  /** `_rebuild_*_executor_with_context`; `ok` says whether the new pool comes up. */
  function Rebuild(t: Table, key: string, ok: bool): Table {
    var u := Close(t, key);
    if ok then u.(executors := u.executors[key := u.built], built := u.built + 1) else u
  }

  /** `max(1, n)` */
  function AtLeastOne(n: int): nat {
    if n <= 1 then 1 else n
  }

  /** `create_service` and `create_task_pool`. */
  function Create(t: Table, key: string, count: int, ok: bool): Table {
    Rebuild(t.(workers := t.workers[key := AtLeastOne(count)]), key, ok)
  }

  /** The table part of `stop_service` and `stop_task_pool`. */
  function Stop(t: Table, key: string): Table {
    Close(t, key).(workers := t.workers - {key})
  }

  datatype Tried = Tried(table: Table, ok: bool, recoverable: bool)

  /** `_submit_with_spawn_fallback` */
  function TryOnce(t: Table, key: string, a: Attempt): Tried {
    match a
    case Accepted => Tried(t, true, false)
    case Refused(r) => Tried(t, false, r)
    case FellBack(rebuilt, accepted, r) =>
      var u := Rebuild(t, key, rebuilt);
      if rebuilt && accepted then Tried(u, true, false) else Tried(u, false, r)
  }

  /** `_executors.get(key)`, rebuilt first when the key is registered without a pool. */
  function Ensure(t: Table, key: string, ok: bool): Table {
    if key !in t.executors && key in t.workers then Rebuild(t, key, ok) else t
  }

  /** `_submit_service_future`, `_submit_pool_future`, `_submit_runtime_future`. */
  function Submit(t: Table, key: string, e: SubmitEnv): (r: (Table, bool)) {
    var t0 := Ensure(t, key, e.build);
    if key !in t0.executors then (t0, false) else
    var one := TryOnce(t0, key, e.first);
    if one.ok || !one.recoverable then (one.table, one.ok) else
    var t2 := Rebuild(one.table, key, e.rebuild);
    if !e.rebuild then (t2, false) else
    var two := TryOnce(t2, key, e.second);
    (two.table, two.ok)
  }

  /** An attempt that ends with an accepted submission, at once or after a fallback. */
  predicate Takes(a: Attempt) {
    a == Accepted || (a.FellBack? && a.rebuilt && a.accepted)
  }

  /** An attempt whose error says that the pool is broken. */
  predicate Breaks(a: Attempt) {
    !Takes(a) && a.recoverable
  }

  /** A submission is accepted if and only if there is a pool, or one comes up for a key that
      is registered, and either the first attempt is taken, or it finds the pool broken, the
      pool comes up again and the second attempt is taken. Then the key owns a pool. */
  lemma SubmissionIsAcceptedIff(t: Table, key: string, e: SubmitEnv)
    ensures var (after, ok) := Submit(t, key, e);
      && (ok <==> (key in t.executors || (key in t.workers && e.build))
                  && (Takes(e.first) || (Breaks(e.first) && e.rebuild && Takes(e.second))))
      && (ok ==> key in after.executors)
  {
  }

  /** From t to u, only the pool of `key` may have changed. */
  ghost predicate OnlyItsPool(t: Table, u: Table, key: string) {
    u.workers == t.workers && forall k :: k != key ==>
      (k in u.executors <==> k in t.executors) && (k in t.executors ==> u.executors[k] == t.executors[k])
  }

  lemma TryTouchesOnlyItsKey(t: Table, key: string, a: Attempt)
    ensures OnlyItsPool(t, TryOnce(t, key, a).table, key)
  {
  }

  /** No other key is touched, and a pool that takes the first attempt without a fallback is
      left as it is. */
  lemma SubmissionTouchesOnlyItsKey(t: Table, key: string, e: SubmitEnv)
    ensures OnlyItsPool(t, Submit(t, key, e).0, key)
    ensures key in t.executors && e.first == Accepted ==> Submit(t, key, e).0 == t
  {
    hide TryOnce;
    var t0 := Ensure(t, key, e.build);
    TryTouchesOnlyItsKey(t0, key, e.first);
    var t2 := Rebuild(TryOnce(t0, key, e.first).table, key, e.rebuild);
    TryTouchesOnlyItsKey(t2, key, e.second);
    if key in t.executors && e.first == Accepted {
      AcceptedAsItIs(t, key);
    }
  }

  lemma AcceptedAsItIs(t: Table, key: string)
    ensures TryOnce(t, key, Accepted) == Tried(t, true, false)
  {
  }

  /** `_submit_background_calls`: one submission per element, stopping at the first failure. */
  function Background(t: Table, key: string, attempts: seq<Attempt>): (Table, bool)
    decreases |attempts|
  {
    if attempts == [] then (t, true) else
    var one := TryOnce(t, key, attempts[0]);
    if one.ok then Background(one.table, key, attempts[1..]) else (one.table, false)
  }

  ghost predicate Owned(t: Table, e: nat) {
    exists k :: k in t.executors && t.executors[k] == e
  }

  /** Only registered keys own a pool, and every pool ever built is owned by exactly one
      key or has been shut down: none is leaked and none is used after its shutdown. */
  ghost predicate TableInv(t: Table) {
    && t.executors.Keys <= t.workers.Keys
    && (forall e :: e in t.closed ==> e < t.built)
    && (forall k :: k in t.executors ==> t.executors[k] < t.built && t.executors[k] !in t.closed)
    && (forall k, l :: k in t.executors && l in t.executors && t.executors[k] == t.executors[l] ==> k == l)
    && (forall e: nat {:trigger Owned(t, e)} :: e < t.built ==> e in t.closed || Owned(t, e))
  }

  lemma CloseKeepsTable(t: Table, key: string)
    requires TableInv(t)
    ensures TableInv(Close(t, key))
  {
    var u := Close(t, key);
    forall e: nat | e < u.built && e !in u.closed
      ensures Owned(u, e)
    {
      assert Owned(t, e);
      var k :| k in t.executors && t.executors[k] == e;
      assert k in u.executors && u.executors[k] == e;
    }
  }

  lemma RebuildKeepsTable(t: Table, key: string, ok: bool)
    requires TableInv(t) && key in t.workers
    ensures TableInv(Rebuild(t, key, ok))
  {
    CloseKeepsTable(t, key);
    var u, v := Close(t, key), Rebuild(t, key, ok);
    if ok {
      assert key !in u.executors && v.executors[key] == u.built;
      forall e: nat | e < v.built && e !in v.closed
        ensures Owned(v, e)
      {
        if e < u.built {
          assert Owned(u, e);
          var k :| k in u.executors && u.executors[k] == e;
          assert k in v.executors && v.executors[k] == e;
        }
      }
    }
  }

  lemma TryKeepsTable(t: Table, key: string, a: Attempt)
    requires TableInv(t) && key in t.workers
    ensures TableInv(TryOnce(t, key, a).table) && TryOnce(t, key, a).table.workers == t.workers
  {
    if a.FellBack? {
      RebuildKeepsTable(t, key, a.rebuilt);
    }
  }

  lemma SubmitKeepsTable(t: Table, key: string, e: SubmitEnv)
    requires TableInv(t)
    ensures TableInv(Submit(t, key, e).0) && Submit(t, key, e).0.workers == t.workers
  {
    if key in t.workers {
      RebuildKeepsTable(t, key, e.build);
      var t0 := Ensure(t, key, e.build);
      TryKeepsTable(t0, key, e.first);
      var one := TryOnce(t0, key, e.first);
      RebuildKeepsTable(one.table, key, e.rebuild);
      TryKeepsTable(Rebuild(one.table, key, e.rebuild), key, e.second);
    }
  }

  lemma {:induction false} BackgroundKeepsTable(t: Table, key: string, attempts: seq<Attempt>)
    requires TableInv(t) && key in t.workers
    ensures TableInv(Background(t, key, attempts).0) && Background(t, key, attempts).0.workers == t.workers
    decreases |attempts|
  {
    if attempts != [] {
      TryKeepsTable(t, key, attempts[0]);
      BackgroundKeepsTable(TryOnce(t, key, attempts[0]).table, key, attempts[1..]);
    }
  }

  lemma CreateKeepsTable(t: Table, key: string, count: int, ok: bool)
    requires TableInv(t)
    ensures TableInv(Create(t, key, count, ok)) && key in Create(t, key, count, ok).workers
  {
    var u := t.(workers := t.workers[key := AtLeastOne(count)]);
    RegisterKeepsTable(t, u);
    RebuildKeepsTable(u, key, ok);
  }

  /** Creating registers the key with at least one worker; its pool is a new one, if that
      comes up, and the one it had is closed. No other key is touched. */
  lemma CreateEffect(t: Table, key: string, count: int, ok: bool)
    ensures var after := Create(t, key, count, ok);
      && after.workers == t.workers[key := if count >= 1 then count else 1]
      && after.executors - {key} == t.executors - {key}
      && (if ok then key in after.executors && after.executors[key] == t.built && after.built == t.built + 1
          else key !in after.executors && after.built == t.built)
      && after.closed == t.closed + if key in t.executors then {t.executors[key]} else {}
  {
  }

  /** Background submissions succeed if and only if every one of them is taken. */
  lemma {:induction false} BackgroundSucceedsIff(t: Table, key: string, attempts: seq<Attempt>)
    ensures Background(t, key, attempts).1 <==> forall i :: 0 <= i < |attempts| ==> Takes(attempts[i])
    decreases |attempts|
  {
    if attempts != [] {
      BackgroundSucceedsIff(TryOnce(t, key, attempts[0]).table, key, attempts[1..]);
      forall i | 1 <= i < |attempts| ensures attempts[i] == attempts[1..][i - 1] {}
    }
  }

  lemma StopKeepsTable(t: Table, key: string)
    requires TableInv(t)
    ensures TableInv(Stop(t, key)) && key !in Stop(t, key).workers && key !in Stop(t, key).executors
  {
    CloseKeepsTable(t, key);
    RegisterKeepsTable(Close(t, key), Stop(t, key));
  }

  lemma RegisterKeepsTable(t: Table, u: Table)
    requires TableInv(t) && u == t.(workers := u.workers) && t.executors.Keys <= u.workers.Keys
    ensures TableInv(u)
  {
    forall e: nat | e < u.built
      ensures e in u.closed || Owned(u, e)
    {
      assert e in t.closed || Owned(t, e);
    }
  }
}
