/** src/event_queue.c as a protocol: every stretch of code between taking the mutex and releasing it
    (by unlocking or by waiting) is one step, in any order and by any number of threads. A signal
    wakes at least one waiter, waiters may also wake spuriously, and newcomers may overtake woken
    threads. */
module QueueProtocol {

  type Thread = nat

  // ---- Condition variables ----

  /** The threads that wait and those already woken that have not yet retaken the mutex. */
  datatype CondVar = CondVar(waiting: set<Thread>, woken: set<Thread>) {

    /** pthread_cond_wait, up to the release of the mutex */
    function Wait(t: Thread): CondVar {
      CondVar(waiting + {t}, woken)
    }

    /** a woken thread retakes the mutex; nothing happens to a newcomer */
    function Resume(t: Thread): CondVar {
      CondVar(waiting, woken - {t})
    }

    function Wake(ts: set<Thread>): CondVar {
      CondVar(waiting - ts, woken + ts)
    }

    function Broadcast(): CondVar {
      Wake(waiting)
    }

    /** the threads one pthread_cond_signal may wake */
    predicate Signal(ts: set<Thread>) {
      ts <= waiting && (waiting != {} ==> ts != {})
    }

    /** Nobody waits unless `n` woken threads are on their way. */
    predicate Ready(n: int) {
      waiting != {} ==> |woken| >= n
    }

    predicate Valid() {
      waiting * woken == {}
    }

    function Threads(): set<Thread> {
      waiting + woken
    }

    lemma ResumeReady(t: Thread, n: int)
      requires Ready(n)
      ensures Resume(t).Ready(n - 1)
    {
      if t in woken { assert woken == (woken - {t}) + {t}; } else { assert woken - {t} == woken; }
    }

    lemma WakeReady(ts: set<Thread>, n: int)
      requires Valid() && Ready(n) && ts <= waiting
      ensures Wake(ts).Ready(n)
      ensures Signal(ts) ==> Wake(ts).Ready(n + 1)
    {
      assert woken * ts == {};
      if ts != {} {
        var t :| t in ts;
        assert ts == (ts - {t}) + {t};
      }
    }
  }

  // ---- The queue and its steps ----

  datatype Queue<E> = Queue(
    capacity: nat,
    stored: seq<E>,      // oldest first
    closed: bool,
    notFull: CondVar,
    notEmpty: CondVar,
    pushed: seq<E>,      // every event accepted so far
    popped: seq<E>,      // every event handed out so far
    pushes: nat,         // metrics
    pops: nat,
    highWater: nat)

  datatype Action<E> =
    | Push(t: Thread, e: E, wake: set<Thread>)
    | Pop(t: Thread, block: bool, wake: set<Thread>)
    | Close
    | Wakeup(full: set<Thread>, empty: set<Thread>)

  datatype Outcome<E> = Blocked | Refused | Accepted | Popped(e: E) | Done

  function Init<E>(capacity: nat): Queue<E> {
    Queue(capacity, [], false, CondVar({}, {}), CondVar({}, {}), [], [], 0, 0, 0)
  }

  /** A waiting thread cannot run, and a woken one goes on with the call it was in. */
  predicate Enabled<E>(q: Queue<E>, a: Action<E>) {
    match a
    case Push(t, _, wake) => t !in q.notFull.waiting && t !in q.notEmpty.Threads() && q.notEmpty.Signal(wake)
    case Pop(t, block, wake) =>
      && t !in q.notEmpty.waiting && t !in q.notFull.Threads() && q.notFull.Signal(wake)
      && (t in q.notEmpty.woken ==> block)
    case Close => true
    case Wakeup(full, empty) => full <= q.notFull.waiting && empty <= q.notEmpty.waiting
  }

  function Max(a: nat, b: nat): nat {
    if a < b then b else a
  }

  /** event_queue_push, lines 51-69: from taking the mutex to waiting or returning. */
  function PushStep<E>(q: Queue<E>, t: Thread, e: E, wake: set<Thread>): (Queue<E>, Outcome<E>) {
    var nf := q.notFull.Resume(t);
    if !q.closed && |q.stored| == q.capacity then (q.(notFull := nf.Wait(t)), Blocked)
    else if q.closed then (q.(notFull := nf), Refused)
    else
      (q.(notFull := nf, stored := q.stored + [e], pushed := q.pushed + [e], pushes := q.pushes + 1,
          highWater := Max(q.highWater, |q.stored| + 1), notEmpty := q.notEmpty.Wake(wake)),
       Accepted)
  }

  /** event_queue_pop, lines 73-95. */
  function PopStep<E>(q: Queue<E>, t: Thread, block: bool, wake: set<Thread>): (Queue<E>, Outcome<E>) {
    var ne := q.notEmpty.Resume(t);
    if q.stored != [] then
      (q.(notEmpty := ne, stored := q.stored[1..], popped := q.popped + [q.stored[0]], pops := q.pops + 1,
          notFull := q.notFull.Wake(wake)),
       Popped(q.stored[0]))
    else if !q.closed && block then (q.(notEmpty := ne.Wait(t)), Blocked)
    else (q.(notEmpty := ne), Refused)
  }

  /** event_queue_close, lines 98-102. */
  function CloseStep<E>(q: Queue<E>): Queue<E> {
    q.(closed := true, notEmpty := q.notEmpty.Broadcast(), notFull := q.notFull.Broadcast())
  }

  function Step<E>(q: Queue<E>, a: Action<E>): (Queue<E>, Outcome<E>) {
    match a
    case Push(t, e, wake) => PushStep(q, t, e, wake)
    case Pop(t, block, wake) => PopStep(q, t, block, wake)
    case Close => (CloseStep(q), Done)
    case Wakeup(full, empty) => (q.(notFull := q.notFull.Wake(full), notEmpty := q.notEmpty.Wake(empty)), Done)
  }

  /** An interleaving: every step is possible where it is taken. */
  predicate Legal<E>(q: Queue<E>, run: seq<Action<E>>)
    decreases |run|
  {
    run == [] || (Enabled(q, run[0]) && Legal(Step(q, run[0]).0, run[1..]))
  }

  function Run<E>(q: Queue<E>, run: seq<Action<E>>): Queue<E>
    decreases |run|
  {
    if run == [] then q else Run(Step(q, run[0]).0, run[1..])
  }

  // ---- What every step keeps ----

  /** The stored events are what was accepted and not yet handed out, and the metrics agree. */
  predicate Storage<E(==)>(q: Queue<E>) {
    && |q.stored| <= q.highWater <= q.capacity
    && q.pushed == q.popped + q.stored
    && q.pushes == |q.pushed| && q.pops == |q.popped|
  }

  predicate Apart<E>(q: Queue<E>) {
    q.notFull.Valid() && q.notEmpty.Valid() && q.notFull.Threads() * q.notEmpty.Threads() == {}
  }

  /** While the queue is open, a producer waits only when a woken one stands ready for every free
      cell, and a consumer only when a woken one stands ready for every stored event. Once it is
      closed nobody waits. */
  predicate NoLostWakeup<E>(q: Queue<E>) {
    if q.closed then q.notFull.waiting == {} && q.notEmpty.waiting == {}
    else q.notFull.Ready(q.capacity - |q.stored|) && q.notEmpty.Ready(|q.stored|)
  }

  predicate Inv<E(==)>(q: Queue<E>) {
    Storage(q) && Apart(q) && NoLostWakeup(q)
  }

  lemma StorageKept<E>(q: Queue<E>, a: Action<E>)
    requires Storage(q)
    ensures Storage(Step(q, a).0)
  {
    match a
    case Push(t, e, wake) => assert q.popped + q.stored + [e] == q.popped + (q.stored + [e]);
    case Pop(t, block, wake) =>
      if q.stored != [] {
        assert q.popped + q.stored == (q.popped + [q.stored[0]]) + q.stored[1..];
      }
    case Close =>
    case Wakeup(full, empty) =>
  }

  lemma ApartKept<E>(q: Queue<E>, a: Action<E>)
    requires Apart(q) && Enabled(q, a)
    ensures Apart(Step(q, a).0)
  {
  }

  lemma WakeupsKept<E>(q: Queue<E>, a: Action<E>)
    requires Inv(q) && Enabled(q, a)
    ensures NoLostWakeup(Step(q, a).0)
  {
    if !q.closed {
      var free, used := q.capacity - |q.stored|, |q.stored|;
      match a
      case Push(t, e, wake) =>
        q.notFull.ResumeReady(t, free);
        q.notEmpty.WakeReady(wake, used);
      case Pop(t, block, wake) =>
        q.notEmpty.ResumeReady(t, used);
        q.notFull.WakeReady(wake, free);
      case Close =>
      case Wakeup(full, empty) =>
        q.notFull.WakeReady(full, free);
        q.notEmpty.WakeReady(empty, used);
    }
  }

  /** The invariant holds in every state of every interleaving. */
  lemma {:induction false} RunKeeps<E>(q: Queue<E>, run: seq<Action<E>>)
    requires Inv(q) && Legal(q, run)
    ensures Inv(Run(q, run)) && Run(q, run).capacity == q.capacity
    decreases |run|
  {
    if run != [] {
      hide Inv, Step, Enabled;
      StepKept(q, run[0]);
      RunKeeps(Step(q, run[0]).0, run[1..]);
    }
  }

  /** In every reachable state the events handed out are the first ones accepted, in order, and the
      rest is stored; the counters differ by what is stored. */
  lemma Fifo<E>(capacity: nat, run: seq<Action<E>>)
    requires Legal(Init(capacity), run)
    ensures var q := Run(Init(capacity), run);
      && |q.popped| <= |q.pushed|
      && q.popped == q.pushed[..|q.popped|] && q.stored == q.pushed[|q.popped|..]
      && q.pushes - q.pops == |q.stored| <= q.highWater <= capacity
  {
    RunKeeps(Init<E>(capacity), run);
  }

  // ---- No lost wakeup, no deadlock ----

  /** Waiting producers and room never coexist without a woken producer whose push goes through. */
  lemma WaitingProducersProgress<E>(q: Queue<E>, e: E, wake: set<Thread>)
    requires Inv(q) && !q.closed && q.notFull.waiting != {} && |q.stored| < q.capacity
    requires q.notEmpty.Signal(wake)
    ensures exists t :: t in q.notFull.woken && Enabled(q, Push(t, e, wake)) && PushStep(q, t, e, wake).1 == Accepted
  {
    assert q.notFull.woken != {};
    var t :| t in q.notFull.woken;
    assert t in q.notFull.Threads();
  }

  /** Waiting consumers and stored events never coexist without a woken consumer that pops. */
  lemma WaitingConsumersProgress<E>(q: Queue<E>, wake: set<Thread>)
    requires Inv(q) && !q.closed && q.notEmpty.waiting != {} && q.stored != []
    requires q.notFull.Signal(wake)
    ensures exists t ::
      t in q.notEmpty.woken && Enabled(q, Pop(t, true, wake)) && PopStep(q, t, true, wake).1 == Popped(q.stored[0])
  {
    assert q.notEmpty.woken != {};
    var t :| t in q.notEmpty.woken;
    assert t in q.notEmpty.Threads();
  }

  /** With at least one cell, producers and consumers are never all stuck: in no reachable open
      state do both kinds wait with nobody woken. */
  lemma NeverAllBlocked<E>(capacity: nat, run: seq<Action<E>>)
    requires Legal(Init(capacity), run) && 1 <= capacity
    ensures var q := Run(Init(capacity), run);
      q.closed || q.notFull.waiting == {} || q.notEmpty.waiting == {} || q.notFull.woken != {} || q.notEmpty.woken != {}
  {
    RunKeeps(Init<E>(capacity), run);
  }

  // ---- What every call returns ----

  /** A push is refused exactly when the queue is closed. On an open queue it waits exactly when the
      queue is full, and is accepted otherwise. */
  lemma PushOutcome<E>(q: Queue<E>, t: Thread, e: E, wake: set<Thread>)
    requires Inv(q) && Enabled(q, Push(t, e, wake))
    ensures var (q', r) := Step(q, Push(t, e, wake));
      && (r == Refused <==> q.closed)
      && (r == Blocked <==> !q.closed && |q.stored| == q.capacity)
      && (r == Accepted <==> !q.closed && |q.stored| < q.capacity)
      && (r == Blocked <==> t in q'.notFull.waiting)
      && q'.stored == (if r == Accepted then q.stored + [e] else q.stored)
      && q'.pushed == (if r == Accepted then q.pushed + [e] else q.pushed)
  {
  }

  /** A pop gets the oldest event if there is one. On an empty open queue it waits exactly when it may
      block; it is refused otherwise. */
  lemma PopOutcome<E>(q: Queue<E>, t: Thread, block: bool, wake: set<Thread>)
    requires Inv(q) && Enabled(q, Action<E>.Pop(t, block, wake))
    ensures var (q', r) := Step(q, Pop(t, block, wake));
      && (q.stored != [] ==> r == Popped(q.stored[0]) && q'.stored == q.stored[1..])
      && (q.stored == [] ==> r == (if !q.closed && block then Blocked else Refused) && q'.stored == [])
      && (r == Blocked <==> t in q'.notEmpty.waiting)
  {
  }

  /** How many sections of pushes a run has, and how many of them end waiting. */
  function PushSections<E>(run: seq<Action<E>>): nat {
    if run == [] then 0 else (if run[0].Push? then 1 else 0) + PushSections(run[1..])
  }

  function WaitsNow<E>(q: Queue<E>, a: Action<E>): nat {
    if a.Push? && Step(q, a).1.Blocked? then 1 else 0
  }

  function PushWaits<E>(q: Queue<E>, run: seq<Action<E>>): nat
    decreases |run|
  {
    if run == [] then 0 else WaitsNow(q, run[0]) + PushWaits(Step(q, run[0]).0, run[1..])
  }

  /** The events of the pushes that were accepted, in order. */
  function OfferedNow<E>(q: Queue<E>, a: Action<E>): seq<E> {
    if a.Push? && Step(q, a).1.Accepted? then [a.e] else []
  }

  function Offered<E>(q: Queue<E>, run: seq<Action<E>>): seq<E>
    decreases |run|
  {
    if run == [] then [] else OfferedNow(q, run[0]) + Offered(Step(q, run[0]).0, run[1..])
  }

  /** What is accepted is what accepted pushes offered, in every run. */
  lemma {:induction false} AcceptedIsOffered<E>(q: Queue<E>, run: seq<Action<E>>)
    ensures Run(q, run).pushed == q.pushed + Offered(q, run)
    decreases |run|
  {
    if run != [] {
      AcceptedIsOffered(Step(q, run[0]).0, run[1..]);
      StepAccepts(q, run[0]);
      hide Step, OfferedNow;
    }
  }

  lemma StepAccepts<E>(q: Queue<E>, a: Action<E>)
    ensures Step(q, a).0.pushed == q.pushed + OfferedNow(q, a)
  {
  }

  /** While nobody closes the queue no offered event disappears: every section of a push has its event
      accepted or ends waiting to offer it again. */
  lemma {:induction false} NothingRefused<E>(q: Queue<E>, run: seq<Action<E>>)
    requires Inv(q) && !q.closed && Legal(q, run) && forall i :: 0 <= i < |run| ==> !run[i].Close?
    ensures !Run(q, run).closed && PushSections(run) == |Offered(q, run)| + PushWaits(q, run)
    decreases |run|
  {
    if run != [] {
      StepKept(q, run[0]);
      OpenStep(q, run[0]);
      hide Inv, Step, Enabled, OfferedNow, WaitsNow;
      NothingRefused(Step(q, run[0]).0, run[1..]);
    }
  }

  lemma StepKept<E>(q: Queue<E>, a: Action<E>)
    requires Inv(q) && Enabled(q, a)
    ensures Inv(Step(q, a).0) && Step(q, a).0.capacity == q.capacity
  {
    SameCapacity(q, a);
    hide Storage, Apart, NoLostWakeup, Enabled, Step;
    StorageKept(q, a);
    ApartKept(q, a);
    WakeupsKept(q, a);
  }

  lemma SameCapacity<E>(q: Queue<E>, a: Action<E>)
    ensures Step(q, a).0.capacity == q.capacity
  {
  }

  lemma OpenStep<E>(q: Queue<E>, a: Action<E>)
    requires Inv(q) && !q.closed && !a.Close?
    ensures !Step(q, a).0.closed
    ensures |OfferedNow(q, a)| + WaitsNow(q, a) == if a.Push? then 1 else 0
  {
  }

  // ---- The close protocol ----

  /** After close no push is accepted and nobody blocks; a pop hands out the oldest event, and is
      refused exactly when none is left. */
  lemma ClosedOutcomes<E>(q: Queue<E>, a: Action<E>)
    requires Inv(q) && q.closed
    ensures Step(q, a).1 != Blocked && Step(q, a).1 != Accepted
    ensures a.Pop? ==> Step(q, a).1 == if q.popped == q.pushed then Refused else Popped(q.pushed[|q.popped|])
  {
    if a.Pop? && q.stored != [] {
      assert q.pushed[|q.popped|] == q.stored[0];
    }
    assert q.stored == [] <==> |q.popped| == |q.pushed|;
  }

  lemma ClosedStep<E>(q: Queue<E>, a: Action<E>)
    requires Inv(q) && q.closed && Enabled(q, a)
    ensures var q' := Step(q, a).0;
      q'.closed && q'.pushed == q.pushed && q.popped <= q'.popped && Outstanding(q') <= Outstanding(q)
  {
    match a
    case Push(t, _, _) => SmallerBy(q.notFull.woken, t);
    case Pop(t, _, _) => SmallerBy(q.notEmpty.woken, t);
    case Close =>
      assert q.notFull.woken + {} == q.notFull.woken && q.notEmpty.woken + {} == q.notEmpty.woken;
    case Wakeup(_, _) =>
      assert q.notFull.woken + {} == q.notFull.woken && q.notEmpty.woken + {} == q.notEmpty.woken;
  }

  lemma SmallerBy(s: set<Thread>, t: Thread)
    ensures |s - {t}| == |s| - if t in s then 1 else 0
    ensures s + {} == s
  {
    if t in s { assert s == (s - {t}) + {t}; } else { assert s - {t} == s; }
  }

  /** The calls that close has released and that have not returned yet. */
  function Outstanding<E>(q: Queue<E>): nat {
    |q.notFull.woken| + |q.notEmpty.woken|
  }

  /** Whatever runs after close: what was accepted stays fixed, it is handed out in order, nobody
      waits again, and the calls in progress only become fewer. */
  lemma {:induction false} AfterClose<E>(q: Queue<E>, run: seq<Action<E>>)
    requires Inv(q) && q.closed && Legal(q, run)
    ensures var q' := Run(q, run);
      && q'.closed && q'.pushed == q.pushed && q.popped <= q'.popped <= q.pushed
      && q'.notFull.waiting == {} && q'.notEmpty.waiting == {}
      && Outstanding(q') <= Outstanding(q)
    decreases |run|
  {
    if run != [] {
      ClosedStep(q, run[0]);
      StepKept(q, run[0]);
      AfterClose(Step(q, run[0]).0, run[1..]);
    }
  }

  /** Close wakes every blocked thread. */
  lemma CloseWakes<E>(q: Queue<E>, t: Thread)
    ensures t in q.notFull.Threads() ==> t in CloseStep(q).notFull.woken
    ensures t in q.notEmpty.Threads() ==> t in CloseStep(q).notEmpty.woken
  {
  }

  /** In every later state a producer that close has released returns at its next step, and one call
      fewer is in progress. */
  lemma ReleasedProducerReturns<E>(q: Queue<E>, t: Thread, e: E, wake: set<Thread>)
    requires Inv(q) && q.closed && t in q.notFull.woken && Enabled(q, Push(t, e, wake))
    ensures PushStep(q, t, e, wake).1 == Refused
    ensures Outstanding(PushStep(q, t, e, wake).0) == Outstanding(q) - 1
  {
    SmallerBy(q.notFull.woken, t);
  }

  /** The same for a blocked consumer, which still gets the oldest event if one is left. */
  lemma ReleasedConsumerReturns<E>(q: Queue<E>, t: Thread, wake: set<Thread>)
    requires Inv(q) && q.closed && t in q.notEmpty.woken && Enabled(q, Action<E>.Pop(t, true, wake))
    ensures PopStep(q, t, true, wake).1 == if q.stored == [] then Refused else Popped(q.stored[0])
    ensures Outstanding(PopStep(q, t, true, wake).0) == Outstanding(q) - 1
  {
    SmallerBy(q.notEmpty.woken, t);
    SmallerBy(q.notFull.woken, t);
    assert wake == {};
  }

  /** This step is one of thread t's. */
  predicate By<E>(a: Action<E>, t: Thread) {
    (a.Push? || a.Pop?) && a.t == t
  }

  lemma OthersStayReleased<E>(q: Queue<E>, a: Action<E>, t: Thread)
    requires q.closed && !By(a, t)
    ensures var q' := Step(q, a).0;
      && q'.closed
      && (t in q.notFull.woken ==> t in q'.notFull.woken)
      && (t in q.notEmpty.woken ==> t in q'.notEmpty.woken)
  {
  }

  /** Until its own next step a released thread stays released, whatever the others do. */
  lemma {:induction false} StaysReleased<E>(q: Queue<E>, run: seq<Action<E>>, t: Thread)
    requires Inv(q) && q.closed && Legal(q, run) && forall i :: 0 <= i < |run| ==> !By(run[i], t)
    ensures Inv(Run(q, run)) && Run(q, run).closed
    ensures t in q.notFull.woken ==> t in Run(q, run).notFull.woken
    ensures t in q.notEmpty.woken ==> t in Run(q, run).notEmpty.woken
    decreases |run|
  {
    if run != [] {
      StepKept(q, run[0]);
      OthersStayReleased(q, run[0], t);
      hide Inv, Step, Enabled, By;
      StaysReleased(Step(q, run[0]).0, run[1..], t);
    }
  }

  /** A producer that is blocked, or on its way back, when the queue is closed returns false at its
      next step, whatever runs in between. */
  lemma BlockedProducerReturns<E>(q: Queue<E>, run: seq<Action<E>>, t: Thread, e: E, wake: set<Thread>)
    requires Inv(q) && t in q.notFull.Threads()
    requires Legal(CloseStep(q), run) && forall i :: 0 <= i < |run| ==> !By(run[i], t)
    requires Enabled(Run(CloseStep(q), run), Push(t, e, wake))
    ensures var q' := Run(CloseStep(q), run);
      PushStep(q', t, e, wake).1 == Refused && Outstanding(PushStep(q', t, e, wake).0) == Outstanding(q') - 1
  {
    CloseWakes(q, t);
    CloseKeeps(q);
    hide Inv, CloseStep, Enabled, Step;
    StaysReleased(CloseStep(q), run, t);
    ReleasedProducerReturns(Run(CloseStep(q), run), t, e, wake);
  }

  /** So does a consumer, with the oldest event if one is left by then. */
  lemma BlockedConsumerReturns<E>(q: Queue<E>, run: seq<Action<E>>, t: Thread, wake: set<Thread>)
    requires Inv(q) && t in q.notEmpty.Threads()
    requires Legal(CloseStep(q), run) && forall i :: 0 <= i < |run| ==> !By(run[i], t)
    requires Enabled(Run(CloseStep(q), run), Action<E>.Pop(t, true, wake))
    ensures var q' := Run(CloseStep(q), run);
      && PopStep(q', t, true, wake).1 == (if q'.stored == [] then Refused else Popped(q'.stored[0]))
      && Outstanding(PopStep(q', t, true, wake).0) == Outstanding(q') - 1
  {
    CloseWakes(q, t);
    CloseKeeps(q);
    hide Inv, CloseStep, Enabled, Step;
    StaysReleased(CloseStep(q), run, t);
    ReleasedConsumerReturns(Run(CloseStep(q), run), t, wake);
  }

  lemma CloseKeeps<E>(q: Queue<E>)
    requires Inv(q)
    ensures Inv(CloseStep(q)) && CloseStep(q).closed
  {
    StorageKept(q, Action<E>.Close);
    ApartKept(q, Action<E>.Close);
    WakeupsKept(q, Action<E>.Close);
  }

  // ---- The high-water mark ----

  /** The largest number of stored events in any state of the run. */
  function Peak<E>(q: Queue<E>, run: seq<Action<E>>): nat
    decreases |run|
  {
    Max(|q.stored|, if run == [] then 0 else Peak(Step(q, run[0]).0, run[1..]))
  }

  lemma HighWaterStep<E>(q: Queue<E>, a: Action<E>)
    requires Inv(q)
    ensures Step(q, a).0.highWater == Max(q.highWater, |Step(q, a).0.stored|)
  {
  }

  /** The mark is the peak of the run. */
  lemma {:induction false} HighWaterIsPeak<E>(q: Queue<E>, run: seq<Action<E>>)
    requires Inv(q) && Legal(q, run)
    ensures Run(q, run).highWater == Max(q.highWater, Peak(q, run))
    decreases |run|
  {
    if run != [] {
      var q' := Step(q, run[0]).0;
      StepKept(q, run[0]);
      HighWaterStep(q, run[0]);
      HighWaterIsPeak(q', run[1..]);
    }
  }
}
