/** The whole pipeline: producers push events on the bounded queue while the one writer pops them
    without blocking, batches them and inserts them. */
module Pipeline {
  import opened Common
  import opened Events
  import opened QueueProtocol
  import opened WriterRuns
  import Sql
  import SqlLossless
  import Pumpfun
  import GeyserClient

  datatype System = System(q: Queue<Event>, w: Writer, stopped: bool)

  /** What happens next: a section of any other thread's call, a turn of the writer's loop, or the
      writer's last flush, after which it has stopped. The environment chooses the threads that wake,
      the clock and how flushes end. */
  datatype Move =
    | Call(a: Action<Event>)
    | WriterTurn(t: Thread, wake: set<Thread>, full: WriterRuns.Outcome, now: Time, flush: FlushAll)
    | LastFlush(flush: FlushAll)

  function Start(capacity: nat, now: Time): System {
    System(QueueProtocol.Init(capacity), WriterRuns.Init(now), false)
  }

  predicate Possible(s: System, m: Move) {
    match m
    case Call(a) => !a.Pop? && Enabled(s.q, a)
    case WriterTurn(t, wake, _, _, _) => !s.stopped && Enabled(s.q, Action<Event>.Pop(t, false, wake))
    case LastFlush(_) => !s.stopped
  }

  /** The event that the writer's pop gets. */
  function PoppedNow(q: Queue<Event>, t: Thread, wake: set<Thread>): Option<Event> {
    match PopStep(q, t, false, wake).1
    case Popped(e) => Some(e)
    case _ => None
  }

  function TurnOf(s: System, m: Move): Turn
    requires m.WriterTurn?
  {
    Turn(PoppedNow(s.q, m.t, m.wake), m.full, m.now, m.flush)
  }

  function Moved(s: System, m: Move): System
    requires Typed(s.w)
  {
    match m
    case Call(a) => s.(q := QueueProtocol.Step(s.q, a).0)
    case WriterTurn(t, wake, _, _, _) =>
      System(PopStep(s.q, t, false, wake).0, WriterRuns.Step(s.w, TurnOf(s, m)), s.stopped)
    case LastFlush(flush) => s.(w := FlushBoth(s.w, flush), stopped := true)
  }

  /** An interleaving of the writer with everybody else. */
  ghost predicate Legal(s: System, moves: seq<Move>)
    decreases |moves|
  {
    moves == [] || (Typed(s.w) && Possible(s, moves[0]) && Legal(Moved(s, moves[0]), moves[1..]))
  }

  ghost function End(s: System, moves: seq<Move>): System
    requires Legal(s, moves)
    decreases |moves|
  {
    if moves == [] then s else End(Moved(s, moves[0]), moves[1..])
  }

  // ---- What every move keeps ----

  ghost predicate Sound(s: System) {
    QueueProtocol.Inv(s.q) && Conserves(s.w, s.q.popped)
  }

  lemma PopsOne(q: Queue<Event>, t: Thread, wake: set<Thread>)
    ensures PopStep(q, t, false, wake).0.popped ==
      q.popped + if PoppedNow(q, t, wake).Some? then [PoppedNow(q, t, wake).value] else []
  {
  }

  lemma OthersDoNotPop(q: Queue<Event>, a: Action<Event>)
    requires !a.Pop?
    ensures QueueProtocol.Step(q, a).0.popped == q.popped
  {
  }

  lemma MoveKeeps(s: System, m: Move)
    requires Sound(s) && Possible(s, m)
    ensures Sound(Moved(s, m)) && Moved(s, m).q.capacity == s.q.capacity
  {
    hide QueueProtocol.Inv, Conserves, WriterRuns.Step, Enabled, FlushBoth;
    assert Typed(s.w) by { SoundTyped(s); }
    match m
    case Call(a) =>
      StepKept(s.q, a);
      OthersDoNotPop(s.q, a);
    case WriterTurn(t, wake, full, now, flush) =>
      StepKept(s.q, Action<Event>.Pop(t, false, wake));
      PopsOne(s.q, t, wake);
      StepConserves(s.w, TurnOf(s, m), s.q.popped);
    case LastFlush(flush) =>
      FlushBothConserves(s.w, flush, s.q.popped);
  }

  lemma SoundTyped(s: System)
    requires Sound(s)
    ensures Typed(s.w)
  {
  }

  lemma {:induction false} EndSound(s: System, moves: seq<Move>)
    requires Sound(s) && Legal(s, moves)
    ensures Sound(End(s, moves)) && End(s, moves).q.capacity == s.q.capacity
    decreases |moves|
  {
    hide Sound, Moved, Possible;
    if moves != [] {
      MoveKeeps(s, moves[0]);
      EndSound(Moved(s, moves[0]), moves[1..]);
    }
  }

  lemma StartSound(capacity: nat, now: Time)
    ensures Sound(Start(capacity, now))
  {
  }

  // ---- Progress ----

  lemma WokenPushes(q: Queue<Event>, e: Event, wake: set<Thread>)
    requires QueueProtocol.Inv(q) && !q.closed && q.notFull.woken != {} && |q.stored| < q.capacity
    requires q.notEmpty.Signal(wake)
    ensures exists p ::
      p in q.notFull.woken && Enabled(q, Push(p, e, wake)) && PushStep(q, p, e, wake).1 == Accepted
  {
    var p :| p in q.notFull.woken;
    assert p in q.notFull.Threads();
  }

  /** The writer's pop makes room, or finds it, and wakes a waiting producer, or finds one woken. */
  lemma PopFrees(q: Queue<Event>, t: Thread, wake: set<Thread>)
    requires QueueProtocol.Inv(q) && 1 <= q.capacity && !q.closed && q.notFull.waiting != {}
    requires Enabled(q, Action<Event>.Pop(t, false, wake))
    ensures var q' := PopStep(q, t, false, wake).0;
      q'.capacity == q.capacity && !q'.closed && q'.notFull.woken != {} && |q'.stored| < q'.capacity
  {
    if q.stored != [] {
      var p :| p in wake;
      assert p in q.notFull.woken + wake;
    }
  }

  /** No producer waits for the writer in vain: in every reachable open state with a waiting producer
      the writer's next turn, whatever becomes of its flushes, leaves a woken producer whose push is
      accepted. */
  lemma WriterFreesProducer(capacity: nat, now: Time, moves: seq<Move>, m: Move, e: Event, wake: set<Thread>)
    requires 1 <= capacity && Legal(Start(capacity, now), moves)
    requires var s := End(Start(capacity, now), moves);
      m.WriterTurn? && Possible(s, m) && !s.q.closed && s.q.notFull.waiting != {}
    ensures var s := End(Start(capacity, now), moves);
      Typed(s.w) &&
      var q := Moved(s, m).q;
      q.notEmpty.Signal(wake) ==> exists p ::
        p in q.notFull.woken && Enabled(q, Push(p, e, wake)) && PushStep(q, p, e, wake).1 == Accepted
  {
    var s := End(Start(capacity, now), moves);
    StartSound(capacity, now);
    EndSound(Start(capacity, now), moves);
    SoundTyped(s);
    MoveKeeps(s, m);
    PopFrees(s.q, m.t, m.wake);
    hide Conserves, Storage, Apart, NoLostWakeup, Legal, End, PushStep, PopStep, WriterRuns.Step, Enabled;
    if Moved(s, m).q.notEmpty.Signal(wake) {
      WokenPushes(Moved(s, m).q, e, wake);
    }
  }

  // ---- Appends inside the arrays ----

  /** Every append of the writer is to a cell of its array. Only for such interleavings do the results
      below speak about the code; the batches of the machine have no bound. */
  ghost predicate Inside(s: System, moves: seq<Move>)
    requires Legal(s, moves)
    decreases |moves|
  {
    moves == []
    || ((moves[0].WriterTurn? ==> InBounds(s.w, TurnOf(s, moves[0]))) && Inside(Moved(s, moves[0]), moves[1..]))
  }

  /** The turns that the writer takes. */
  ghost function Turns(s: System, moves: seq<Move>): seq<Turn>
    requires Legal(s, moves)
    decreases |moves|
  {
    if moves == [] then [] else
      (if moves[0].WriterTurn? then [TurnOf(s, moves[0])] else []) + Turns(Moved(s, moves[0]), moves[1..])
  }

  lemma {:induction false} NoTurnsOnceStopped(s: System, moves: seq<Move>)
    requires Legal(s, moves) && s.stopped
    ensures Turns(s, moves) == [] && Inside(s, moves)
    decreases |moves|
  {
    hide FlushBoth, TurnOf;
    if moves != [] { NoTurnsOnceStopped(Moved(s, moves[0]), moves[1..]); }
  }

  lemma {:induction false} InsideIsSafe(s: System, moves: seq<Move>)
    requires Legal(s, moves) && Typed(s.w)
    ensures Inside(s, moves) <==> Safe(s.w, Turns(s, moves))
    decreases |moves|
  {
    hide Typed, WriterRuns.Run, WriterRuns.Step, FlushBoth, InBounds, TurnOf;
    if moves != [] {
      var m, s' := moves[0], Moved(s, moves[0]);
      match m
      case Call(a) =>
        InsideIsSafe(s', moves[1..]);
        assert Turns(s, moves) == Turns(s', moves[1..]) && s'.w == s.w;
      case WriterTurn(t, wake, full, now, flush) =>
        StepTyped(s.w, TurnOf(s, m));
        InsideIsSafe(s', moves[1..]);
        SafeFromFirst(s.w, TurnOf(s, m), Turns(s', moves[1..]));
      case LastFlush(flush) =>
        NoTurnsOnceStopped(s', moves[1..]);
        assert Turns(s, moves) == [];
    }
  }

  ghost predicate FullFlushesCommit(moves: seq<Move>) {
    forall i :: 0 <= i < |moves| && moves[i].WriterTurn? ==> moves[i].full.Committed?
  }

  lemma {:induction false} TurnsFlush(s: System, moves: seq<Move>)
    requires Legal(s, moves) && FullFlushesCommit(moves)
    ensures forall i :: 0 <= i < |Turns(s, moves)| ==> Turns(s, moves)[i].full.Committed?
    decreases |moves|
  {
    hide Moved, Possible, Typed;
    if moves != [] {
      TurnsFlush(Moved(s, moves[0]), moves[1..]);
    }
  }

  /** An interleaving stays inside exactly when each batch that a failed flush leaves full is committed
      by a timer flush before the writer pops the next event of its kind; so it does in particular
      while the flushes of full batches commit. */
  lemma InsideExactly(capacity: nat, now: Time, moves: seq<Move>)
    requires Legal(Start(capacity, now), moves)
    ensures Inside(Start(capacity, now), moves) <==> FullBatchesRescued(now, Turns(Start(capacity, now), moves))
    ensures FullFlushesCommit(moves) ==> Inside(Start(capacity, now), moves)
  {
    var s := Start(capacity, now);
    hide Legal, Inside, Turns, Safe, FullBatchesRescued, FullFlushesCommit;
    InsideIsSafe(s, moves);
    SafeExactly(now, Turns(s, moves));
    if FullFlushesCommit(moves) {
      TurnsFlush(s, moves);
      SafeWhenFullFlushesCommit(now, Turns(s, moves));
    }
  }

  // ---- Where every accepted event is ----

  lemma {:induction false} OfConcat(k: Kind, a: seq<Event>, b: seq<Event>)
    ensures Of(k, a + b) == Of(k, a) + Of(k, b)
  {
    hide Only;
    if b == [] {
      assert a + b == a;
    } else {
      var n := |b| - 1;
      OfConcat(k, a, b[..n]);
      assert a + b == a + b[..n] + [b[n]] && b == b[..n] + [b[n]];
      hide *;
      OfSnoc(k, a + b[..n], b[n]);
      OfSnoc(k, b[..n], b[n]);
      Regrouped(Of(k, a), Of(k, b[..n]), Only(k, b[n]));
    }
  }

  /** In every state that an interleaving reaches, the accepted events of each kind, in the order of
      acceptance, are those of the committed INSERTs, then those of the batch, then those still on the
      queue. While the flushes of full batches commit, every append on the way is inside its array;
      `InsideExactly` says when else it is, and so when this speaks about the code. */
  lemma Delivered(capacity: nat, now: Time, moves: seq<Move>, k: Kind)
    requires Legal(Start(capacity, now), moves)
    ensures FullFlushesCommit(moves) ==> Inside(Start(capacity, now), moves)
    ensures var s := End(Start(capacity, now), moves);
      && Of(k, s.q.pushed) == Written(k, s.w.commits) + s.w.Batch(k) + Of(k, s.q.stored)
      && Statements(s.w.commits)
      && |s.q.pushed| == s.w.metrics.success + |s.w.trades| + |s.w.swaps| + Ignored(s.q.popped) + |s.q.stored|
      && |s.q.stored| <= capacity
  {
    var s := End(Start(capacity, now), moves);
    InsideExactly(capacity, now, moves);
    StartSound(capacity, now);
    EndSound(Start(capacity, now), moves);
    OfConcat(k, s.q.popped, s.q.stored);
    hide *;
    SoundDelivers(s, k);
  }

  lemma SoundDelivers(s: System, k: Kind)
    requires Sound(s) && Of(k, s.q.popped + s.q.stored) == Of(k, s.q.popped) + Of(k, s.q.stored)
    ensures Of(k, s.q.pushed) == Written(k, s.w.commits) + s.w.Batch(k) + Of(k, s.q.stored)
    ensures Statements(s.w.commits) && |s.q.stored| <= s.q.capacity
    ensures |s.q.pushed| == s.w.metrics.success + |s.w.trades| + |s.w.swaps| + Ignored(s.q.popped) + |s.q.stored|
  {
    hide Of, Written, Ignored, Statements, Apart, NoLostWakeup;
  }

  lemma DrainedIsWritten(s: System, f: FlushAll, k: Kind)
    requires Sound(s) && !s.stopped && s.q.stored == [] && f.Of(k).Committed?
    ensures Possible(s, LastFlush(f)) && Typed(s.w)
    ensures Of(k, Moved(s, LastFlush(f)).q.pushed) == Written(k, Moved(s, LastFlush(f)).w.commits)
  {
    FlushBothConserves(s.w, f, s.q.popped);
    Emptied(s.w, f, k);
    hide Of, Written, Ignored, Statements, Apart, NoLostWakeup, FlushBoth;
    assert s.q.pushed == s.q.popped;
  }

  /** With an empty queue and a last flush that commits, every accepted event of the kind is in a
      committed INSERT. */
  lemma AllWritten(capacity: nat, now: Time, moves: seq<Move>, f: FlushAll, k: Kind)
    requires Legal(Start(capacity, now), moves)
    requires !End(Start(capacity, now), moves).stopped && End(Start(capacity, now), moves).q.stored == []
    requires f.Of(k).Committed?
    ensures FullFlushesCommit(moves) ==> Inside(Start(capacity, now), moves)
    ensures var s := End(Start(capacity, now), moves);
      && Possible(s, LastFlush(f)) && Typed(s.w)
      && Of(k, Moved(s, LastFlush(f)).q.pushed) == Written(k, Moved(s, LastFlush(f)).w.commits)
  {
    var s := End(Start(capacity, now), moves);
    InsideExactly(capacity, now, moves);
    StartSound(capacity, now);
    EndSound(Start(capacity, now), moves);
    hide *;
    DrainedIsWritten(s, f, k);
  }

  // ---- What the committed texts tell ----

  /** An event that some transaction update makes. */
  ghost predicate ClientEvent(e: Event) {
    exists u: GeyserClient.Update :: GeyserClient.PumpfunEvent(u) == Some(e)
  }

  /** Only the client pushes. */
  ghost predicate FromClient(moves: seq<Move>) {
    forall i :: 0 <= i < |moves| && moves[i].Call? && moves[i].a.Push? ==> ClientEvent(moves[i].a.e)
  }

  ghost predicate AllClient(es: seq<Event>) {
    forall i :: 0 <= i < |es| ==> ClientEvent(es[i])
  }

  lemma PushedByMove(s: System, m: Move)
    requires Typed(s.w)
    ensures Moved(s, m).q.pushed == s.q.pushed
      || (m.Call? && m.a.Push? && Moved(s, m).q.pushed == s.q.pushed + [m.a.e])
  {
    hide FlushBoth, WriterRuns.Step;
  }

  lemma {:induction false} PushedFromClient(s: System, moves: seq<Move>)
    requires Legal(s, moves) && FromClient(moves) && AllClient(s.q.pushed)
    ensures AllClient(End(s, moves).q.pushed)
    decreases |moves|
  {
    hide Moved, Possible, Typed, ClientEvent;
    if moves != [] {
      PushedByMove(s, moves[0]);
      PushedFromClient(Moved(s, moves[0]), moves[1..]);
    }
  }

  lemma ClientTrade(e: Event)
    requires ClientEvent(e)
    ensures e.TradeEvent? && SqlLossless.Signed(e)
  {
    var u :| GeyserClient.PumpfunEvent(u) == Some(e);
    GeyserClient.EventSigned(u);
  }

  /** All events of the client are trades. */
  lemma {:induction false} ClientTrades(es: seq<Event>)
    requires AllClient(es)
    ensures Of(PumpfunKind, es) == es && SqlLossless.AllSigned(es)
  {
    hide ClientEvent, SqlLossless.Signed;
    if es != [] {
      var n := |es| - 1;
      ClientTrades(es[..n]);
      ClientTrade(es[n]);
      assert es == es[..n] + [es[n]];
    }
  }

  function RecordedAll(es: seq<Event>): (rs: seq<Event>)
    ensures |rs| == |es| && forall i :: 0 <= i < |es| ==> rs[i] == SqlLossless.Recorded(es[i])
  {
    seq(|es|, i requires 0 <= i < |es| => SqlLossless.Recorded(es[i]))
  }

  function Texts(cs: seq<Commit>): (ts: seq<string>)
    ensures |ts| == |cs| && forall i :: 0 <= i < |cs| ==> ts[i] == cs[i].text
  {
    seq(|cs|, i requires 0 <= i < |cs| => cs[i].text)
  }

  /** Two committed statements with one text insert the same records into the same table. */
  lemma TextDetermines(c: Commit, d: Commit)
    requires IsStatement(c) && IsStatement(d) && c.text == d.text
    requires SqlLossless.AllSigned(c.events) && SqlLossless.AllSigned(d.events)
    ensures c.kind == d.kind && RecordedAll(c.events) == RecordedAll(d.events)
  {
    hide SqlLossless.Signed, SqlLossless.Recorded, Sql.Insert, Sql.AllOf;
    SqlLossless.TablesDiffer(c.kind, c.events, d.kind, d.events);
    SqlLossless.InsertLossless(c.kind, c.events, d.events);
  }

  ghost predicate CommitsSigned(cs: seq<Commit>) {
    forall i :: 0 <= i < |cs| ==> SqlLossless.AllSigned(cs[i].events)
  }

  /** The texts of the committed statements, in order, tell the records of each kind, in order. */
  lemma {:induction false} TextsDetermine(cs: seq<Commit>, ds: seq<Commit>, k: Kind)
    requires Statements(cs) && Statements(ds) && CommitsSigned(cs) && CommitsSigned(ds) && Texts(cs) == Texts(ds)
    ensures RecordedAll(Written(k, cs)) == RecordedAll(Written(k, ds))
  {
    hide IsStatement, SqlLossless.AllSigned, SqlLossless.Recorded;
    assert |cs| == |Texts(cs)| == |ds|;
    if cs != [] {
      var n := |cs| - 1;
      assert Texts(cs)[n] == Texts(ds)[n] && Texts(cs[..n]) == Texts(cs)[..n] == Texts(ds[..n]);
      TextsDetermine(cs[..n], ds[..n], k);
      TextDetermines(cs[n], ds[n]);
      RecordedConcat(Written(k, cs[..n]), if cs[n].kind == k then cs[n].events else []);
      RecordedConcat(Written(k, ds[..n]), if ds[n].kind == k then ds[n].events else []);
    }
  }

  lemma RecordedConcat(a: seq<Event>, b: seq<Event>)
    ensures RecordedAll(a + b) == RecordedAll(a) + RecordedAll(b)
  {
    hide SqlLossless.Recorded;
  }

  lemma {:induction false} CommittedSigned(cs: seq<Commit>)
    requires Statements(cs) && SqlLossless.AllSigned(Written(PumpfunKind, cs)) && Written(RaydiumKind, cs) == []
    ensures CommitsSigned(cs)
  {
    hide SqlLossless.Signed, Sql.Insert;
    if cs != [] {
      var n := |cs| - 1;
      var before := Written(PumpfunKind, cs[..n]);
      assert forall i :: 0 <= i < |before| ==> before[i] == Written(PumpfunKind, cs)[i];
      CommittedSigned(cs[..n]);
      assert cs[n].kind.PumpfunKind?;
      forall i | 0 <= i < |cs[n].events| ensures SqlLossless.Signed(cs[n].events[i]) {
        assert cs[n].events[i] == Written(PumpfunKind, cs)[|before| + i];
      }
    }
  }

  lemma NoSwaps(es: seq<Event>)
    requires Of(PumpfunKind, es) == es
    ensures Of(RaydiumKind, es) == []
  {
    Partition(es);
  }

  lemma {:induction false} Partition(es: seq<Event>)
    ensures |Of(PumpfunKind, es)| + |Of(RaydiumKind, es)| <= |es|
  {
    if es != [] { Partition(es[..|es| - 1]); }
  }

  lemma FirstAreSigned(es: seq<Event>, first: seq<Event>, rest: seq<Event>)
    requires AllClient(es) && es == first + rest
    ensures first <= es && SqlLossless.AllSigned(first)
  {
    ClientTrades(es);
    hide Of, ClientEvent, SqlLossless.Signed;
    assert forall i :: 0 <= i < |first| ==> first[i] == es[i];
  }

  /** When only the client pushes, what is committed is the first part of what was accepted, and the
      signatures in it are over the alphabet. */
  lemma CommittedFirst(capacity: nat, now: Time, moves: seq<Move>)
    requires Legal(Start(capacity, now), moves) && FromClient(moves)
    ensures var s := End(Start(capacity, now), moves);
      && Written(PumpfunKind, s.w.commits) <= s.q.pushed && AllClient(s.q.pushed)
      && Statements(s.w.commits) && CommitsSigned(s.w.commits)
  {
    var s := End(Start(capacity, now), moves);
    PushedFromClient(Start(capacity, now), moves);
    Delivered(capacity, now, moves, PumpfunKind);
    Delivered(capacity, now, moves, RaydiumKind);
    ClientTrades(s.q.pushed);
    NoSwaps(s.q.pushed);
    hide *;
    var written, rest := Written(PumpfunKind, s.w.commits), s.w.Batch(PumpfunKind) + Of(PumpfunKind, s.q.stored);
    Regrouped(written, s.w.Batch(PumpfunKind), Of(PumpfunKind, s.q.stored));
    FirstAreSigned(s.q.pushed, written, rest);
    Nothing(Written(RaydiumKind, s.w.commits), s.w.Batch(RaydiumKind), Of(RaydiumKind, s.q.stored));
    CommittedSigned(s.w.commits);
  }

  lemma Nothing(a: seq<Event>, b: seq<Event>, c: seq<Event>)
    ensures a + b + c == [] ==> a == []
  {
  }

  /** The database tells what the client sent: if two systems, whatever their interleavings, have
      committed the same texts, then as many accepted events stand behind these texts in both, the
      first ones, and they agree in everything that the tables hold. */
  lemma DatabaseTells(c1: nat, now1: Time, moves1: seq<Move>, c2: nat, now2: Time, moves2: seq<Move>)
    requires Legal(Start(c1, now1), moves1) && FromClient(moves1)
    requires Legal(Start(c2, now2), moves2) && FromClient(moves2)
    requires Texts(End(Start(c1, now1), moves1).w.commits) == Texts(End(Start(c2, now2), moves2).w.commits)
    ensures var s1, s2 := End(Start(c1, now1), moves1), End(Start(c2, now2), moves2);
      var n := |Written(PumpfunKind, s1.w.commits)|;
      && n == |Written(PumpfunKind, s2.w.commits)| && n <= |s1.q.pushed| && n <= |s2.q.pushed|
      && RecordedAll(s1.q.pushed[..n]) == RecordedAll(s2.q.pushed[..n])
  {
    var s1, s2 := End(Start(c1, now1), moves1), End(Start(c2, now2), moves2);
    CommittedFirst(c1, now1, moves1);
    CommittedFirst(c2, now2, moves2);
    hide *;
    TextsDetermine(s1.w.commits, s2.w.commits, PumpfunKind);
    SameFirst(Written(PumpfunKind, s1.w.commits), s1.q.pushed, Written(PumpfunKind, s2.w.commits), s2.q.pushed);
  }

  lemma SameFirst(w1: seq<Event>, p1: seq<Event>, w2: seq<Event>, p2: seq<Event>)
    requires w1 <= p1 && w2 <= p2 && RecordedAll(w1) == RecordedAll(w2)
    ensures |w1| == |w2| && RecordedAll(p1[..|w1|]) == RecordedAll(p2[..|w1|])
  {
    hide SqlLossless.Recorded;
    assert |w1| == |RecordedAll(w1)| == |RecordedAll(w2)| == |w2|;
    assert w1 == p1[..|w1|] && w2 == p2[..|w2|];
  }

  /** From bytes to row: two updates, each with a serialised trade in its first parsable log line,
      that make the same row carried the same trade, but for its timestamp, with the same slot and
      signature text. */
  lemma RowTellsTrade(u: GeyserClient.Update, i: nat, l: Pumpfun.Layout, x: seq<byte>,
                      v: GeyserClient.Update, j: nat, m: Pumpfun.Layout, y: seq<byte>)
    requires GeyserClient.CarriesTrade(u, i, l, x) && GeyserClient.CarriesTrade(v, j, m, y)
    ensures var d, e := GeyserClient.EventOf(u, Pumpfun.TradeOf(l)), GeyserClient.EventOf(v, Pumpfun.TradeOf(m));
      && GeyserClient.PumpfunEvent(u) == Some(d) && GeyserClient.PumpfunEvent(v) == Some(e)
      && (Sql.RowOf(d) == Sql.RowOf(e) ==> SqlLossless.Recorded(d) == SqlLossless.Recorded(e))
  {
    GeyserClient.TradeArrives(u, i, l, x);
    GeyserClient.TradeArrives(v, j, m, y);
    GeyserClient.EventSigned(u);
    GeyserClient.EventSigned(v);
    var d, e := GeyserClient.EventOf(u, Pumpfun.TradeOf(l)), GeyserClient.EventOf(v, Pumpfun.TradeOf(m));
    SqlLossless.RowDetermines(d, e);
    hide Sql.RowOf, SqlLossless.Signed;
    hide GeyserClient.PumpfunEvent, GeyserClient.CarriesTrade, GeyserClient.SignatureText;
  }
}
