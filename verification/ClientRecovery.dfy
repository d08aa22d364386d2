/**
  Recovery of the CBC client from a TLS failure: the HTTP client is rebuilt under a lock, swapped
  in, and the previous one closed, while other threads go on sending.

  HTTP clients are numbered in the order they are built.
*/
module ClientRecovery {
  import opened Options

  /** How one send ends: with a status, a transport error (perhaps TLS, see `IsTlsFailure`), or another request error. */
  datatype Outcome = Answered(status: int) | TransportError(tls: bool) | RequestError

  datatype Result =
    | Response(status: int)
    | ClientError
    | ServerError
    | NetworkError
    | ConfigError
    | ClientClosed

  function Translate(status: int): Result {
    if status >= 500 then ServerError else if status >= 400 then ClientError else Response(status)
  }

  // ---------- The pool of clients ----------

  /** Clients 0, 1, ..., built-1 exist; `current` is in use; `closes` are the calls to `close`, in order. */
  datatype Pool = Pool(current: nat, built: nat, closes: seq<nat>)

  function Fresh(): Pool {
    Pool(0, 1, [])
  }

  // ---------- Threads ----------

  datatype Pc =
    | Idle(retry: bool)                    // about to read the current client
    | Sending(client: nat, retry: bool)    // has read it; the request is out
    | Locking                              // before the lock
    | Building(previous: nat)              // holds the lock; the factory runs
    | Swapping(previous: nat, next: nat)  // the new client is in a local
    | Closing(previous: nat)              // the new client is current
    | Done(result: Result)

  datatype Thread = Thread(pc: Pc, sends: nat, rebuilds: nat)

  datatype State = State(pool: Pool, lock: Option<nat>, threads: seq<Thread>)

  /**
    What the outside answers at a step: the send's outcome, whether a send over a closed client
    is refused for that, and whether the factory works.
  */
  datatype Event = Event(thread: nat, outcome: Outcome, refused: bool, factoryOk: bool)

  predicate InLock(pc: Pc) {
    pc.Building? || pc.Swapping? || pc.Closing?
  }

  function After(reloadable: bool, retry: bool, outcome: Outcome): Pc {
    match outcome
    case Answered(status) => Done(Translate(status))
    case RequestError => Done(NetworkError)
    case TransportError(tls) => if !retry && reloadable && tls then Locking else Done(NetworkError)
  }

  function With(s: State, t: nat, thread: Thread, pool: Pool, lock: Option<nat>): State
    requires t < |s.threads|
  {
    State(pool, lock, s.threads[t := thread])
  }

  /** One step of one thread; a thread that waits for the lock, or is done, does not move. */
  function Step(reloadable: bool, s: State, e: Event): State {
    if e.thread >= |s.threads| then s
    else
      var t := e.thread;
      var me := s.threads[t];
      var pool := s.pool;
      match me.pc
      case Idle(retry) => With(s, t, me.(pc := Sending(pool.current, retry), sends := me.sends + 1), pool, s.lock)
      case Sending(client, retry) =>
        var after := if e.refused && client in pool.closes then Done(ClientClosed) else After(reloadable, retry, e.outcome);
        With(s, t, me.(pc := after), pool, s.lock)
      case Locking => if s.lock.Some? then s else With(s, t, me.(pc := Building(pool.current)), pool, Some(t))
      case Building(previous) =>
        if !e.factoryOk then With(s, t, me.(pc := Done(ConfigError)), pool, None)
        else With(s, t, me.(pc := Swapping(previous, pool.built), rebuilds := me.rebuilds + 1),
                  pool.(built := pool.built + 1), s.lock)
      case Swapping(previous, next) => With(s, t, me.(pc := Closing(previous)), pool.(current := next), s.lock)
      case Closing(previous) =>
        With(s, t, me.(pc := Idle(true)), pool.(closes := pool.closes + [previous]), None)
      case Done(_) => s
  }

  function Run(reloadable: bool, s: State, events: seq<Event>): State {
    if events == [] then s else Step(reloadable, Run(reloadable, s, events[..|events| - 1]), events[|events| - 1])
  }

  function Start(n: nat): State {
    State(Fresh(), None, seq(n, i => Thread(Idle(false), 0, 0)))
  }

  // ---------- What every step keeps ----------

  /** Each thread's own part: how often it has sent and rebuilt, and which client it may hold. */
  ghost predicate ThreadInv(pool: Pool, thread: Thread) {
    match thread.pc
    case Idle(retry) =>
      && thread.sends == thread.rebuilds == (if retry then 1 else 0)
      && (retry ==> pool.current >= 1)
    case Sending(client, retry) =>
      && thread.rebuilds == (if retry then 1 else 0) && thread.sends == 1 + thread.rebuilds
      && thread.rebuilds <= client <= pool.current
    case Locking => thread.sends == 1 && thread.rebuilds == 0
    case Building(_) => thread.sends == 1 && thread.rebuilds == 0
    case Swapping(_, _) => thread.sends == 1 && thread.rebuilds == 1
    case Closing(_) => thread.sends == 1 && thread.rebuilds == 1
    case Done(_) => 1 <= thread.sends <= 1 + thread.rebuilds <= 2
  }

  /**
    The clients, as the thread inside the lock has left them so far: replaced in the order they
    were built, and closed in that order, each once.
  */
  ghost predicate PoolInv(pool: Pool, holder: Pc) {
    && (forall k :: 0 <= k < |pool.closes| ==> pool.closes[k] == k)
    && (match holder
        case Building(previous) => pool.current == previous == |pool.closes| && pool.built == previous + 1
        case Swapping(previous, next) =>
          pool.current == previous == |pool.closes| && next == previous + 1 && pool.built == previous + 2
        case Closing(previous) => previous == |pool.closes| && pool.current == previous + 1 && pool.built == previous + 2
        case _ => pool.current == |pool.closes| && pool.built == pool.current + 1)
  }

  function Holder(s: State): Pc {
    if s.lock.Some? && s.lock.value < |s.threads| then s.threads[s.lock.value].pc else Locking
  }

  ghost predicate Inv(s: State) {
    && (forall t :: 0 <= t < |s.threads| ==> ThreadInv(s.pool, s.threads[t]))
    && (forall t :: 0 <= t < |s.threads| ==> (InLock(s.threads[t].pc) <==> s.lock == Some(t)))
    && (s.lock.Some? ==> s.lock.value < |s.threads|)
    && PoolInv(s.pool, Holder(s))
  }

  /** A thread that moves keeps the invariant if its own part, the lock and the clients fit together again. */
  lemma MoveInv(s: State, t: nat, thread: Thread, pool: Pool, lock: Option<nat>)
    requires Inv(s) && t < |s.threads|
    requires ThreadInv(pool, thread) && pool.current >= s.pool.current
    requires lock == s.lock || (lock.None? && s.lock == Some(t)) || (lock == Some(t) && s.lock.None?)
    requires InLock(thread.pc) <==> lock == Some(t)
    requires PoolInv(pool, if lock == Some(t) then thread.pc else if lock.None? then Locking else Holder(s))
    ensures Inv(With(s, t, thread, pool, lock))
  {
  }

  lemma StepInv(reloadable: bool, s: State, e: Event)
    requires Inv(s)
    ensures Inv(Step(reloadable, s, e))
  {
    var s' := Step(reloadable, s, e);
    if s' != s {
      var t := e.thread;
      assert ThreadInv(s.pool, s.threads[t]);
      OwnStep(reloadable, s, e);
      MoveInv(s, t, s'.threads[t], s'.pool, s'.lock);
    }
  }

  lemma OwnStep(reloadable: bool, s: State, e: Event)
    requires Inv(s) && e.thread < |s.threads| && ThreadInv(s.pool, s.threads[e.thread])
    requires Step(reloadable, s, e) != s
    ensures var t, s' := e.thread, Step(reloadable, s, e);
            && s' == With(s, t, s'.threads[t], s'.pool, s'.lock)
            && ThreadInv(s'.pool, s'.threads[t]) && s'.pool.current >= s.pool.current
            && (s'.lock == s.lock || (s'.lock.None? && s.lock == Some(t)) || (s'.lock == Some(t) && s.lock.None?))
            && (InLock(s'.threads[t].pc) <==> s'.lock == Some(t))
            && PoolInv(s'.pool, if s'.lock == Some(t) then s'.threads[t].pc else if s'.lock.None? then Locking else Holder(s))
  {
  }

  lemma {:induction false} RunInv(reloadable: bool, s: State, events: seq<Event>)
    requires Inv(s)
    ensures Inv(Run(reloadable, s, events))
    decreases |events|
  {
    if events != [] {
      RunInv(reloadable, s, events[..|events| - 1]);
      StepInv(reloadable, Run(reloadable, s, events[..|events| - 1]), events[|events| - 1]);
    }
  }

  // ---------- Conservation ----------

  /**
    Whatever the interleaving: the current client is open; every client replaced so far has been
    closed exactly once, in order, but for the one whose rebuild is still inside the lock; and no
    other client was ever built.
  */
  lemma Conservation(reloadable: bool, n: nat, events: seq<Event>)
    ensures var s := Run(reloadable, Start(n), events);
            && s.pool.current !in s.pool.closes
            && (forall k :: 0 <= k < |s.pool.closes| ==> s.pool.closes[k] == k)
            && |s.pool.closes| <= s.pool.current < s.pool.built <= |s.pool.closes| + 2
            && (s.lock.None? ==> s.pool.current == |s.pool.closes| == s.pool.built - 1)
  {
    RunInv(reloadable, Start(n), events);
  }

  /** A request sends at most twice and rebuilds at most once. */
  lemma BoundedRequest(reloadable: bool, n: nat, events: seq<Event>, t: nat)
    requires t < n
    ensures var s := Run(reloadable, Start(n), events);
            t < |s.threads| && s.threads[t].sends <= 2 && s.threads[t].rebuilds <= 1
            && (s.threads[t].sends == 2 ==> s.threads[t].rebuilds == 1)
  {
    RunInv(reloadable, Start(n), events);
    SameThreads(reloadable, Start(n), events);
    var s := Run(reloadable, Start(n), events);
    assert ThreadInv(s.pool, s.threads[t]);
  }

  lemma {:induction false} SameThreads(reloadable: bool, s: State, events: seq<Event>)
    ensures |Run(reloadable, s, events).threads| == |s.threads|
    decreases |events|
  {
    if events != [] {
      SameThreads(reloadable, s, events[..|events| - 1]);
    }
  }

  // ---------- What a request ends with ----------

  /** A status told to the caller: from 500 on a server error, from 400 on a client error, otherwise the response itself. */
  ghost predicate Says(status: int, result: Result) {
    match result
    case Response(r) => r == status && status < 400
    case ClientError => 400 <= status <= 499
    case ServerError => 500 <= status
    case _ => false
  }

  /** This event ends the request so: a TLS failure does it only where there is no factory, or at the second send. */
  ghost predicate EndsFor(reloadable: bool, e: Event, thread: Thread) {
    thread.pc.Done? &&
    match thread.pc.result
    case NetworkError => e.outcome.RequestError? || (e.outcome.TransportError? && (!e.outcome.tls || !reloadable || thread.sends == 2))
    case ConfigError => !e.factoryOk && reloadable && thread.sends == 1
    case ClientClosed => e.refused
    case result => e.outcome.Answered? && Says(e.outcome.status, result)
  }

  lemma StepEnds(reloadable: bool, s: State, e: Event)
    requires Inv(s) && (forall t :: 0 <= t < |s.threads| && !reloadable ==> !InLock(s.threads[t].pc))
    requires e.thread < |s.threads| && !s.threads[e.thread].pc.Done? && Step(reloadable, s, e).threads[e.thread].pc.Done?
    ensures EndsFor(reloadable, e, Step(reloadable, s, e).threads[e.thread])
  {
    assert ThreadInv(s.pool, s.threads[e.thread]);
  }

  ghost predicate Ended(reloadable: bool, events: seq<Event>, thread: Thread, t: nat) {
    exists k :: 0 <= k < |events| && events[k].thread == t && EndsFor(reloadable, events[k], thread)
  }

  lemma {:induction false} NeverLocked(n: nat, events: seq<Event>, t: nat)
    requires t < |Run(false, Start(n), events).threads|
    ensures var pc := Run(false, Start(n), events).threads[t].pc; !InLock(pc) && !pc.Locking?
    decreases |events|
  {
    if events != [] {
      var before := events[..|events| - 1];
      SameThreads(false, Start(n), before);
      SameThreads(false, Start(n), events);
      NeverLocked(n, before, t);
    }
  }

  /** In every interleaving a finished request ends as one of its own answers says. */
  lemma {:induction false} EndsAsAnswered(reloadable: bool, n: nat, events: seq<Event>, t: nat)
    requires t < |Run(reloadable, Start(n), events).threads| && Run(reloadable, Start(n), events).threads[t].pc.Done?
    ensures Ended(reloadable, events, Run(reloadable, Start(n), events).threads[t], t)
    decreases |events|
  {
    SameThreads(reloadable, Start(n), events);
    if events != [] {
      var last := |events| - 1;
      var before, e := events[..last], events[last];
      var s := Run(reloadable, Start(n), before);
      SameThreads(reloadable, Start(n), before);
      if s.threads[t].pc.Done? {
        EndsAsAnswered(reloadable, n, before, t);
        var k :| 0 <= k < |before| && before[k].thread == t && EndsFor(reloadable, before[k], s.threads[t]);
        assert events[k] == before[k];
      } else {
        RunInv(reloadable, Start(n), before);
        if !reloadable {
          forall i | 0 <= i < |s.threads|
            ensures !InLock(s.threads[i].pc)
          {
            NeverLocked(n, before, i);
          }
        }
        StepEnds(reloadable, s, e);
        assert events[last].thread == t;
      }
    }
  }

  /** A factory that fails leaves the clients as they were and the lock free, and the request ends in a configuration error. */
  lemma FailedFactoryChangesNothing(reloadable: bool, s: State, e: Event)
    requires e.thread < |s.threads| && s.threads[e.thread].pc.Building? && !e.factoryOk
    ensures var s' := Step(reloadable, s, e);
            && s'.pool == s.pool && s'.lock.None?
            && s'.threads == s.threads[e.thread := s.threads[e.thread].(pc := Done(ConfigError))]
  {
  }

  /** No thread has got past the factory. */
  ghost predicate NoneBuilt(reloadable: bool, s: State) {
    && s.pool == Fresh()
    && forall t :: 0 <= t < |s.threads| ==>
         var pc := s.threads[t].pc;
         && (pc.Idle? || pc.Sending? || pc.Done? || (reloadable && (pc.Locking? || pc.Building?)))
         && pc != Done(ClientClosed)
  }

  /**
    In every interleaving in which the factory always fails, or there is none, the first client
    stays the only one, is never closed, and no request finds it closed.
  */
  lemma {:induction false} FailingFactoryRun(reloadable: bool, n: nat, events: seq<Event>)
    requires !reloadable || forall k :: 0 <= k < |events| ==> !events[k].factoryOk
    ensures NoneBuilt(reloadable, Run(reloadable, Start(n), events))
    decreases |events|
  {
    if events != [] {
      var before, e := events[..|events| - 1], events[|events| - 1];
      FailingFactoryRun(reloadable, n, before);
      var s := Run(reloadable, Start(n), before);
      var s' := Step(reloadable, s, e);
      assert forall t :: 0 <= t < |s.threads| && t != e.thread ==> s'.threads[t] == s.threads[t];
    }
  }

  // ---------- Counting rebuilds ----------

  function Rebuilds(threads: seq<Thread>): nat {
    if threads == [] then 0 else Rebuilds(threads[..|threads| - 1]) + threads[|threads| - 1].rebuilds
  }

  lemma {:induction false} RebuildsUpdated(threads: seq<Thread>, t: nat, thread: Thread)
    requires t < |threads|
    ensures Rebuilds(threads[t := thread]) == Rebuilds(threads) - threads[t].rebuilds + thread.rebuilds
    decreases |threads|
  {
    var last := |threads| - 1;
    var updated := threads[t := thread];
    if t < last {
      RebuildsUpdated(threads[..last], t, thread);
      assert updated[..last] == threads[..last][t := thread];
    } else {
      assert updated[..last] == threads[..last];
    }
  }

  lemma StepBuilds(reloadable: bool, s: State, e: Event)
    ensures Step(reloadable, s, e).pool.built - Rebuilds(Step(reloadable, s, e).threads)
            == s.pool.built - Rebuilds(s.threads)
  {
    if e.thread < |s.threads| {
      var s' := Step(reloadable, s, e);
      if s' != s {
        RebuildsUpdated(s.threads, e.thread, s'.threads[e.thread]);
      }
    }
  }

  lemma {:induction false} NoRebuildsYet(n: nat)
    ensures Rebuilds(Start(n).threads) == 0
  {
    if n > 0 {
      NoRebuildsYet(n - 1);
      assert Start(n).threads[..n - 1] == Start(n - 1).threads;
    }
  }

  /** Every client beyond the first was built by one thread's rebuild, and each rebuild built one. */
  lemma {:induction false} RebuildsAddUp(reloadable: bool, n: nat, events: seq<Event>)
    ensures var s := Run(reloadable, Start(n), events);
            s.pool.built == 1 + Rebuilds(s.threads)
    decreases |events|
  {
    if events == [] {
      NoRebuildsYet(n);
    } else {
      RebuildsAddUp(reloadable, n, events[..|events| - 1]);
      StepBuilds(reloadable, Run(reloadable, Start(n), events[..|events| - 1]), events[|events| - 1]);
    }
  }

  lemma {:induction false} OnlyOwnRebuilds(threads: seq<Thread>, t: nat)
    requires t < |threads|
    requires forall u :: 0 <= u < |threads| && u != t ==> threads[u].rebuilds == 0
    ensures Rebuilds(threads) == threads[t].rebuilds
    decreases |threads|
  {
    var last := |threads| - 1;
    if t < last {
      OnlyOwnRebuilds(threads[..last], t);
    } else {
      NoneRebuilt(threads[..last]);
    }
  }

  lemma {:induction false} NoneRebuilt(threads: seq<Thread>)
    requires forall u :: 0 <= u < |threads| ==> threads[u].rebuilds == 0
    ensures Rebuilds(threads) == 0
    decreases |threads|
  {
    if threads != [] {
      NoneRebuilt(threads[..|threads| - 1]);
    }
  }

  lemma SomeoneElse(threads: seq<Thread>, t: nat)
    requires t < |threads| && Rebuilds(threads) != threads[t].rebuilds
    ensures exists u :: 0 <= u < |threads| && u != t && threads[u].rebuilds != 0
  {
    if forall u :: 0 <= u < |threads| && u != t ==> threads[u].rebuilds == 0 {
      OnlyOwnRebuilds(threads, t);
    }
  }

  /** A request finds its client closed under it only where another request has rebuilt. */
  lemma ClosedOnlyByOthers(reloadable: bool, n: nat, events: seq<Event>, t: nat)
    requires var s := Run(reloadable, Start(n), events);
             t < |s.threads| && s.threads[t].pc.Sending? && s.threads[t].pc.client in s.pool.closes
    ensures var s := Run(reloadable, Start(n), events);
            exists u :: 0 <= u < |s.threads| && u != t && s.threads[u].rebuilds == 1
  {
    var s := Run(reloadable, Start(n), events);
    RunInv(reloadable, Start(n), events);
    RebuildsAddUp(reloadable, n, events);
    assert ThreadInv(s.pool, s.threads[t]);
    SomeoneElse(s.threads, t);
    var u :| 0 <= u < |s.threads| && u != t && s.threads[u].rebuilds != 0;
    assert ThreadInv(s.pool, s.threads[u]);
  }

  // ---------- No reuse after the wait ----------

  function FourSteps(reloadable: bool, s: State, e: Event): State {
    Step(reloadable, Step(reloadable, Step(reloadable, Step(reloadable, s, e), e), e), e)
  }

  /**
    A thread that gets the lock builds a client of its own, whether or not the client it failed
    on has been replaced while it waited.
  */
  lemma WaiterBuildsAgain(reloadable: bool, s: State, t: nat, o: Outcome, refused: bool)
    requires Inv(s) && t < |s.threads| && s.threads[t].pc.Locking? && s.lock.None?
    ensures var e := Event(t, o, refused, true);
            var s' := FourSteps(reloadable, s, e);
            && s'.pool == Pool(s.pool.current + 1, s.pool.built + 1, s.pool.closes + [s.pool.current])
            && s'.threads == s.threads[t := Thread(Idle(true), s.threads[t].sends, s.threads[t].rebuilds + 1)]
            && s'.lock.None?
  {
  }

  ghost predicate Reaches(reloadable: bool, s: State, t: State) {
    exists events :: Run(reloadable, s, events) == t
  }

  lemma ReachesStep(reloadable: bool, s: State, t: State, e: Event)
    requires Reaches(reloadable, s, t)
    ensures Reaches(reloadable, s, Step(reloadable, t, e))
  {
    var events :| Run(reloadable, s, events) == t;
    assert (events + [e])[..|events|] == events;
    assert Run(reloadable, s, events + [e]) == Step(reloadable, t, e);
  }

  lemma ReachesItself(reloadable: bool, s: State)
    ensures Reaches(reloadable, s, s)
  {
    assert Run(reloadable, s, []) == s;
  }

  lemma ReachedInv(reloadable: bool, n: nat, t: State)
    requires Reaches(reloadable, Start(n), t)
    ensures Inv(t)
  {
    var events :| Run(reloadable, Start(n), events) == t;
    RunInv(reloadable, Start(n), events);
  }

  function TlsEvent(t: nat): Event {
    Event(t, TransportError(true), false, true)
  }

  /** A thread that starts sends and fails on TLS, undisturbed. */
  lemma FailsOnTls(n: nat, s: State, t: nat) returns (s': State)
    requires Reaches(true, Start(n), s) && t < |s.threads|
    requires s.threads[t].pc == Idle(false) && s.pool.current !in s.pool.closes
    ensures Reaches(true, Start(n), s')
    ensures s' == State(s.pool, s.lock, s.threads[t := Thread(Locking, s.threads[t].sends + 1, s.threads[t].rebuilds)])
  {
    var e := TlsEvent(t);
    ReachesStep(true, Start(n), s, e);
    ReachesStep(true, Start(n), Step(true, s, e), e);
    s' := Step(true, Step(true, s, e), e);
  }

  /** A thread that waits for a free lock goes through it. */
  lemma RebuildsInTurn(n: nat, s: State, t: nat) returns (s': State)
    requires Reaches(true, Start(n), s) && t < |s.threads| && s.threads[t].pc.Locking? && s.lock.None?
    ensures Reaches(true, Start(n), s')
    ensures s' == State(Pool(s.pool.current + 1, s.pool.built + 1, s.pool.closes + [s.pool.current]), None,
                        s.threads[t := Thread(Idle(true), s.threads[t].sends, s.threads[t].rebuilds + 1)])
  {
    var e := TlsEvent(t);
    ReachedInv(true, n, s);
    WaiterBuildsAgain(true, s, t, TransportError(true), false);
    ReachesStep(true, Start(n), s, e);
    ReachesStep(true, Start(n), Step(true, s, e), e);
    ReachesStep(true, Start(n), Step(true, Step(true, s, e), e), e);
    ReachesStep(true, Start(n), Step(true, Step(true, Step(true, s, e), e), e), e);
    s' := FourSteps(true, s, e);
  }

  /** The first k threads have failed on TLS, nobody has rebuilt. */
  function Failed(n: nat, k: nat): State {
    State(Fresh(), None, seq(n, i => if i < k then Thread(Locking, 1, 0) else Thread(Idle(false), 0, 0)))
  }

  lemma {:induction false} AllFail(n: nat, k: nat)
    requires k <= n
    ensures Reaches(true, Start(n), Failed(n, k))
  {
    if k == 0 {
      ReachesItself(true, Start(n));
      assert Start(n).threads == Failed(n, 0).threads;
    } else {
      AllFail(n, k - 1);
      var s := FailsOnTls(n, Failed(n, k - 1), k - 1);
      assert s.threads == Failed(n, k).threads;
    }
  }

  lemma {:induction false} AllRebuild(n: nat, k: nat) returns (s: State)
    requires k <= n
    ensures Reaches(true, Start(n), s)
    ensures s.lock.None? && s.pool.built == k + 1 && |s.threads| == n
    ensures forall t :: k <= t < n ==> s.threads[t].pc == Locking
  {
    if k == 0 {
      AllFail(n, n);
      s := Failed(n, n);
    } else {
      var before := AllRebuild(n, k - 1);
      s := RebuildsInTurn(n, before, k - 1);
    }
  }

  /** However many requests fail together, each builds a client: nothing built while waiting is reused. */
  lemma HerdRebuilds(n: nat)
    ensures exists events :: Run(true, Start(n), events).pool.built == n + 1
  {
    var s := AllRebuild(n, n);
  }

  /** One rebuild serves all requests, as the docstring has it, exactly if there is at most one request or nothing rebuilds. */
  lemma OneRebuildExactly(reloadable: bool, n: nat)
    ensures (forall events :: Run(reloadable, Start(n), events).pool.built <= 2) <==> n <= 1 || !reloadable
  {
    if n <= 1 || !reloadable {
      forall events
        ensures Run(reloadable, Start(n), events).pool.built <= 2
      {
        if !reloadable {
          FailingFactoryRun(reloadable, n, events);
        } else {
          RebuildsAddUp(reloadable, n, events);
          SameThreads(reloadable, Start(n), events);
          var s := Run(reloadable, Start(n), events);
          if n == 1 {
            BoundedRequest(reloadable, n, events, 0);
            OnlyOwnRebuilds(s.threads, 0);
          }
        }
      }
    } else {
      HerdRebuilds(n);
    }
  }

  // ---------- A client closed under a request ----------

  /** No request in flight ever holds a closed client. */
  ghost predicate NeverClosedUnder(reloadable: bool, n: nat) {
    forall events, t: nat ::
      var s := Run(reloadable, Start(n), events);
      t < |s.threads| && s.threads[t].pc.Sending? ==> s.threads[t].pc.client !in s.pool.closes
  }

  /** No request ever ends because its client was closed. */
  ghost predicate NeverFailsClosed(reloadable: bool, n: nat) {
    forall events, t: nat ::
      var s := Run(reloadable, Start(n), events);
      t < |s.threads| ==> s.threads[t].pc != Done(ClientClosed)
  }

  /** While thread 1's request is out, thread 0 fails on TLS and rebuilds; then thread 1 is refused by its closed client. */
  lemma ClosedWitness(n: nat)
    requires n >= 2
    ensures !NeverClosedUnder(true, n) && !NeverFailsClosed(true, n)
  {
    ReachesItself(true, Start(n));
    ReachesStep(true, Start(n), Start(n), TlsEvent(1));
    var failed := FailsOnTls(n, Step(true, Start(n), TlsEvent(1)), 0);
    var rebuilt := RebuildsInTurn(n, failed, 0);
    assert rebuilt.threads[1].pc == Sending(0, false) && rebuilt.pool.closes == [0];
    var refusal := Event(1, RequestError, true, true);
    ReachesStep(true, Start(n), rebuilt, refusal);
    assert Step(true, rebuilt, refusal).threads[1].pc == Done(ClientClosed);
  }

  lemma {:induction false} OnlySendersFailClosed(reloadable: bool, n: nat, events: seq<Event>, t: nat)
    requires NeverClosedUnder(reloadable, n) && t < |Run(reloadable, Start(n), events).threads|
    ensures Run(reloadable, Start(n), events).threads[t].pc != Done(ClientClosed)
    decreases |events|
  {
    if events != [] {
      var before := events[..|events| - 1];
      OnlySendersFailClosed(reloadable, n, before, t);
      var s := Run(reloadable, Start(n), before);
      assert s.threads[t].pc.Sending? ==> s.threads[t].pc.client !in s.pool.closes;
    }
  }

  /**
    A request can find its client closed under it, and fail for that, exactly if there are two
    requests or more and the client is one that rebuilds.
  */
  lemma ClosedExactly(reloadable: bool, n: nat)
    ensures NeverClosedUnder(reloadable, n) <==> n <= 1 || !reloadable
    ensures NeverFailsClosed(reloadable, n) <==> n <= 1 || !reloadable
  {
    if n <= 1 || !reloadable {
      forall events, t: nat
        ensures var s := Run(reloadable, Start(n), events);
                t < |s.threads| && s.threads[t].pc.Sending? ==> s.threads[t].pc.client !in s.pool.closes
      {
        var s := Run(reloadable, Start(n), events);
        SameThreads(reloadable, Start(n), events);
        if !reloadable {
          FailingFactoryRun(reloadable, n, events);
        } else if t < |s.threads| && s.threads[t].pc.Sending? && s.threads[t].pc.client in s.pool.closes {
          ClosedOnlyByOthers(reloadable, n, events, t);
        }
      }
      forall events, t: nat | t < |Run(reloadable, Start(n), events).threads|
        ensures Run(reloadable, Start(n), events).threads[t].pc != Done(ClientClosed)
      {
        OnlySendersFailClosed(reloadable, n, events, t);
      }
    } else {
      ClosedWitness(n);
    }
  }

  // ---------- Runs end ----------

  function Rank(pc: Pc): nat {
    match pc
    case Idle(retry) => if retry then 2 else 8
    case Sending(_, retry) => if retry then 1 else 7
    case Locking => 6
    case Building(_) => 5
    case Swapping(_, _) => 4
    case Closing(_) => 3
    case Done(_) => 0
  }

  function Work(threads: seq<Thread>): nat {
    if threads == [] then 0 else Work(threads[..|threads| - 1]) + Rank(threads[|threads| - 1].pc)
  }

  lemma {:induction false} WorkUpdated(threads: seq<Thread>, t: nat, thread: Thread)
    requires t < |threads|
    ensures Work(threads[t := thread]) == Work(threads) - Rank(threads[t].pc) + Rank(thread.pc)
    decreases |threads|
  {
    var last := |threads| - 1;
    var updated := threads[t := thread];
    if t < last {
      WorkUpdated(threads[..last], t, thread);
      assert updated[..last] == threads[..last][t := thread];
    } else {
      assert updated[..last] == threads[..last];
    }
  }

  lemma RankDrops(reloadable: bool, s: State, e: Event)
    requires e.thread < |s.threads| && Step(reloadable, s, e) != s
    ensures var threads := Step(reloadable, s, e).threads;
            && |threads| == |s.threads| && threads == s.threads[e.thread := threads[e.thread]]
            && Rank(threads[e.thread].pc) < Rank(s.threads[e.thread].pc)
  {
  }

  lemma StepWorks(reloadable: bool, s: State, e: Event)
    ensures var s' := Step(reloadable, s, e);
            s' != s ==> Work(s'.threads) < Work(s.threads)
  {
    var s' := Step(reloadable, s, e);
    if s' != s {
      RankDrops(reloadable, s, e);
      WorkUpdated(s.threads, e.thread, s'.threads[e.thread]);
    }
  }

  /** How many steps of the run changed anything. */
  function Moves(reloadable: bool, s: State, events: seq<Event>): nat {
    if events == [] then 0
    else
      var before := Run(reloadable, s, events[..|events| - 1]);
      Moves(reloadable, s, events[..|events| - 1])
      + if Step(reloadable, before, events[|events| - 1]) != before then 1 else 0
  }

  lemma {:induction false} MovesUseWork(reloadable: bool, s: State, events: seq<Event>)
    ensures Moves(reloadable, s, events) + Work(Run(reloadable, s, events).threads) <= Work(s.threads)
    decreases |events|
  {
    if events != [] {
      MovesUseWork(reloadable, s, events[..|events| - 1]);
      StepWorks(reloadable, Run(reloadable, s, events[..|events| - 1]), events[|events| - 1]);
    }
  }

  lemma {:induction false} WorkAtStart(n: nat)
    ensures Work(Start(n).threads) == 8 * n
  {
    if n > 0 {
      WorkAtStart(n - 1);
      assert Start(n).threads[..n - 1] == Start(n - 1).threads;
    }
  }

  /** Can this thread move, whatever the outside answers? */
  ghost predicate CanMove(reloadable: bool, s: State, t: nat) {
    forall o, refused, ok :: Step(reloadable, s, Event(t, o, refused, ok)) != s
  }

  lemma Unblocked(reloadable: bool, s: State, t: nat)
    requires t < |s.threads| && !s.threads[t].pc.Done? && (s.threads[t].pc.Locking? ==> s.lock.None?)
    ensures CanMove(reloadable, s, t)
  {
  }

  lemma SomeoneMoves(reloadable: bool, s: State)
    requires Inv(s)
    ensures || (forall t :: 0 <= t < |s.threads| ==> s.threads[t].pc.Done?)
            || exists t: nat :: t < |s.threads| && CanMove(reloadable, s, t)
  {
    if t :| 0 <= t < |s.threads| && !s.threads[t].pc.Done? {
      Unblocked(reloadable, s, if s.lock.Some? then s.lock.value else t);
    }
  }

  /** The requests of n threads take at most 8n steps together, and until all are done one of them can move. */
  lemma EveryRunEnds(reloadable: bool, n: nat, events: seq<Event>)
    ensures Moves(reloadable, Start(n), events) <= 8 * n
    ensures var s := Run(reloadable, Start(n), events);
            || (forall t :: 0 <= t < |s.threads| ==> s.threads[t].pc.Done?)
            || exists t: nat :: t < |s.threads| && CanMove(reloadable, s, t)
  {
    MovesUseWork(reloadable, Start(n), events);
    WorkAtStart(n);
    RunInv(reloadable, Start(n), events);
    SomeoneMoves(reloadable, Run(reloadable, Start(n), events));
  }

  // ---------- The client, on its own thread ----------

  /** The events of one request that no other thread disturbs: send, rebuild, send. */
  function LoneEvents(first: Outcome, factoryOk: bool, second: Outcome): seq<Event> {
    Twice(first, factoryOk) + (Twice(first, factoryOk) + Twice(first, factoryOk)) + Twice(second, factoryOk)
  }

  function Twice(outcome: Outcome, factoryOk: bool): seq<Event> {
    [Event(0, outcome, false, factoryOk), Event(0, outcome, false, factoryOk)]
  }

  function Lone(pool: Pool, thread: Thread): State {
    State(pool, None, [thread])
  }

  class CbcClient {
    const reloadable: bool
    var pool: Pool

    constructor (reloadable: bool)
      ensures this.reloadable == reloadable && pool == Fresh() && PoolInv(pool, Locking)
    {
      this.reloadable := reloadable;
      this.pool := Fresh();
    }

    method RebuildHttpClient(factoryOk: bool) returns (ok: bool)
      requires PoolInv(pool, Locking)
      modifies this
      ensures PoolInv(pool, Locking) && ok == factoryOk
      ensures pool == if factoryOk then Pool(old(pool.built), old(pool.built) + 1, old(pool.closes) + [old(pool.current)])
                      else old(pool)
    {
      var previous := pool.current;
      if !factoryOk {
        return false;
      }
      var newClient := pool.built;
      pool := pool.(built := pool.built + 1);
      pool := pool.(current := newClient);
      pool := pool.(closes := pool.closes + [previous]);
      return true;
    }

    /** A request alone is a run of the machine with one thread. */
    method Request(first: Outcome, factoryOk: bool, second: Outcome) returns (result: Result, sends: nat)
      requires PoolInv(pool, Locking)
      modifies this
      ensures PoolInv(pool, Locking)
      ensures Run(reloadable, Lone(old(pool), Thread(Idle(false), 0, 0)), LoneEvents(first, factoryOk, second))
              == Lone(pool, Thread(Done(result), sends, if pool == old(pool) then 0 else 1))
      ensures first.Answered? ==> sends == 1 && Says(first.status, result)
      ensures first == TransportError(true) && reloadable ==>
                if !factoryOk then sends == 1 && result == ConfigError
                else sends == 2 && if second.Answered? then Says(second.status, result) else result == NetworkError
      ensures !first.Answered? && !(first == TransportError(true) && reloadable) ==> sends == 1 && result == NetworkError
    {
      LoneRun(reloadable, pool, first, factoryOk, second);
      sends := 1;
      match first
      case Answered(status) => result := Translate(status);
      case RequestError => result := NetworkError;
      case TransportError(tls) =>
        if reloadable && tls {
          var ok := RebuildHttpClient(factoryOk);
          if !ok {
            return ConfigError, sends;
          }
          sends := 2;
          match second
          case Answered(status) => result := Translate(status);
          case _ => result := NetworkError;
        } else {
          result := NetworkError;
        }
    }
  }

  /** Where the lone run ends. */
  function LoneEnd(reloadable: bool, pool: Pool, first: Outcome, factoryOk: bool, second: Outcome): State {
    if first != TransportError(true) || !reloadable then Lone(pool, Thread(After(false, true, first), 1, 0))
    else if !factoryOk then Lone(pool, Thread(Done(ConfigError), 1, 0))
    else
      Lone(Pool(pool.built, pool.built + 1, pool.closes + [pool.current]), Thread(After(reloadable, true, second), 2, 1))
  }

  lemma {:induction false} RunSplit(reloadable: bool, s: State, before: seq<Event>, after: seq<Event>)
    ensures Run(reloadable, s, before + after) == Run(reloadable, Run(reloadable, s, before), after)
    decreases |after|
  {
    if after == [] {
      assert before + after == before;
    } else {
      RunSplit(reloadable, s, before, after[..|after| - 1]);
      assert (before + after)[..|before + after| - 1] == before + after[..|after| - 1];
    }
  }

  lemma RunTwice(reloadable: bool, s: State, outcome: Outcome, factoryOk: bool)
    ensures var e := Event(0, outcome, false, factoryOk);
            Run(reloadable, s, Twice(outcome, factoryOk)) == Step(reloadable, Step(reloadable, s, e), e)
  {
    var e := Event(0, outcome, false, factoryOk);
    assert Twice(outcome, factoryOk)[..1] == [e] && [e][..0] == [];
    assert Run(reloadable, s, [e]) == Step(reloadable, Run(reloadable, s, []), e);
  }

  lemma LoneSend(reloadable: bool, pool: Pool, retry: bool, sends: nat, rebuilds: nat, outcome: Outcome, factoryOk: bool)
    requires pool.current !in pool.closes
    ensures Run(reloadable, Lone(pool, Thread(Idle(retry), sends, rebuilds)), Twice(outcome, factoryOk))
            == Lone(pool, Thread(After(reloadable, retry, outcome), sends + 1, rebuilds))
  {
    RunTwice(reloadable, Lone(pool, Thread(Idle(retry), sends, rebuilds)), outcome, factoryOk);
  }

  lemma LoneRebuild(reloadable: bool, pool: Pool, sends: nat, outcome: Outcome, factoryOk: bool)
    ensures Run(reloadable, Lone(pool, Thread(Locking, sends, 0)), Twice(outcome, factoryOk) + Twice(outcome, factoryOk))
            == if factoryOk then
                 Lone(Pool(pool.built, pool.built + 1, pool.closes + [pool.current]), Thread(Idle(true), sends, 1))
               else
                 Lone(pool, Thread(Done(ConfigError), sends, 0))
  {
    var s := Lone(pool, Thread(Locking, sends, 0));
    RunSplit(reloadable, s, Twice(outcome, factoryOk), Twice(outcome, factoryOk));
    RunTwice(reloadable, s, outcome, factoryOk);
    RunTwice(reloadable, Run(reloadable, s, Twice(outcome, factoryOk)), outcome, factoryOk);
  }

  lemma {:induction false} DoneStays(reloadable: bool, s: State, events: seq<Event>)
    requires |s.threads| == 1 && s.threads[0].pc.Done?
    ensures Run(reloadable, s, events) == s
    decreases |events|
  {
    if events != [] {
      DoneStays(reloadable, s, events[..|events| - 1]);
    }
  }

  lemma LoneUnrecovered(reloadable: bool, pool: Pool, first: Outcome, factoryOk: bool, second: Outcome)
    requires pool.current !in pool.closes && !(first == TransportError(true) && reloadable)
    ensures Run(reloadable, Lone(pool, Thread(Idle(false), 0, 0)), LoneEvents(first, factoryOk, second))
            == Lone(pool, Thread(After(false, true, first), 1, 0))
  {
    var s := Lone(pool, Thread(Idle(false), 0, 0));
    var send, rebuild, again := Twice(first, factoryOk), Twice(first, factoryOk) + Twice(first, factoryOk), Twice(second, factoryOk);
    RunSplit(reloadable, s, send + rebuild, again);
    RunSplit(reloadable, s, send, rebuild);
    LoneSend(reloadable, pool, false, 0, 0, first, factoryOk);
    DoneStays(reloadable, Run(reloadable, s, send), rebuild);
    DoneStays(reloadable, Run(reloadable, s, send), again);
  }

  /** The first send fails on TLS and the client is rebuilt, or cannot be. */
  lemma LoneFailure(pool: Pool, factoryOk: bool) returns (rebuilt: State)
    requires pool.current !in pool.closes
    ensures var first := TransportError(true);
            rebuilt == Run(true, Lone(pool, Thread(Idle(false), 0, 0)),
                           Twice(first, factoryOk) + (Twice(first, factoryOk) + Twice(first, factoryOk)))
    ensures rebuilt == if factoryOk then Lone(Pool(pool.built, pool.built + 1, pool.closes + [pool.current]), Thread(Idle(true), 1, 1))
                       else Lone(pool, Thread(Done(ConfigError), 1, 0))
  {
    var first := TransportError(true);
    var s := Lone(pool, Thread(Idle(false), 0, 0));
    RunSplit(true, s, Twice(first, factoryOk), Twice(first, factoryOk) + Twice(first, factoryOk));
    LoneSend(true, pool, false, 0, 0, first, factoryOk);
    LoneRebuild(true, pool, 1, first, factoryOk);
    rebuilt := Run(true, Run(true, s, Twice(first, factoryOk)), Twice(first, factoryOk) + Twice(first, factoryOk));
  }

  lemma LoneRecovery(pool: Pool, factoryOk: bool, second: Outcome)
    requires pool.current !in pool.closes && pool.built !in pool.closes + [pool.current]
    ensures Run(true, Lone(pool, Thread(Idle(false), 0, 0)), LoneEvents(TransportError(true), factoryOk, second))
            == LoneEnd(true, pool, TransportError(true), factoryOk, second)
  {
    var first := TransportError(true);
    var rebuilt := LoneFailure(pool, factoryOk);
    RunSplit(true, Lone(pool, Thread(Idle(false), 0, 0)),
             Twice(first, factoryOk) + (Twice(first, factoryOk) + Twice(first, factoryOk)), Twice(second, factoryOk));
    if factoryOk {
      LoneSend(true, rebuilt.pool, true, 1, 1, second, factoryOk);
    } else {
      DoneStays(true, rebuilt, Twice(second, factoryOk));
    }
  }

  lemma LoneRun(reloadable: bool, pool: Pool, first: Outcome, factoryOk: bool, second: Outcome)
    requires PoolInv(pool, Locking)
    ensures Run(reloadable, Lone(pool, Thread(Idle(false), 0, 0)), LoneEvents(first, factoryOk, second))
            == LoneEnd(reloadable, pool, first, factoryOk, second)
  {
    if first == TransportError(true) && reloadable {
      LoneRecovery(pool, factoryOk, second);
    } else {
      LoneUnrecovered(reloadable, pool, first, factoryOk, second);
    }
  }
}
