/** The batching of src/db_writer.c over whole runs. A run is a sequence of turns of the main loop;
    the environment decides what each turn pops, what the clock reads and how each flush ends. */
module WriterRuns {
  import opened Common
  import opened Events
  import opened Sql

  const BATCH_SIZE: nat := 100
  const FLUSH_INTERVAL_MS: int := 50

  // ---- The clock ----

  /** struct timeval, with 0 <= usec < 1000000 */
  datatype Time = Time(sec: int, usec: int)

  predicate ValidTime(t: Time) {
    0 <= t.usec < 1000000
  }

  /** C division truncates towards zero. */
  function Truncated(x: int, d: int): int
    requires 0 < d
  {
    if x >= 0 then x / d else -(-x / d)
  }

  /** should_flush_timer: a negative difference wraps to a huge unsigned number. */
  predicate TimerFires(now: Time, last: Time) {
    var ms := (now.sec - last.sec) * 1000 + Truncated(now.usec - last.usec, 1000);
    ms >= FLUSH_INTERVAL_MS || ms < 0
  }

  function Microseconds(t: Time): int {
    t.sec * 1000000 + t.usec
  }

  /** The timer fires once 50 ms have passed, up to 1 ms early when the microseconds have wrapped,
      and also when the clock has been set back. */
  lemma TimerExactly(now: Time, last: Time)
    requires ValidTime(now) && ValidTime(last)
    ensures var d := Microseconds(now) - Microseconds(last);
      TimerFires(now, last) <==>
        if now.usec >= last.usec then d >= 50000 || d < 0 else d > 49000 || d <= -1000
  {
    var s, u := now.sec - last.sec, now.usec - last.usec;
    assert Microseconds(now) - Microseconds(last) == 1000000 * s + u;
    if u >= 0 {
      assert Truncated(u, 1000) == u / 1000;
    } else {
      assert Truncated(u, 1000) == -(-u / 1000);
    }
  }

  /** Early: 49.001 ms. */
  lemma TimerEarly()
    ensures var last, now := Time(0, 950999), Time(1, 0);
      ValidTime(last) && ValidTime(now) && Microseconds(now) - Microseconds(last) == 49001 && TimerFires(now, last)
  {
  }

  // ---- The writer ----

  /** How a flush of a non-empty batch ends. */
  datatype Outcome = NoConnection | InsertFailed | Committed

  /** An INSERT that the database has accepted. */
  datatype Commit = Commit(kind: Kind, events: seq<Event>, text: string)

  /** The counters of include/metrics.h that the writer advances. */
  datatype Metrics = Metrics(total: nat, trades: nat, swaps: nat, success: nat, failed: nat, batches: nat)

  datatype Writer = Writer(
    trades: seq<Event>,      // pumpfun_batch[..pumpfun_count]
    swaps: seq<Event>,       // raydium_batch[..raydium_count]
    lastFlush: Time,
    commits: seq<Commit>,
    metrics: Metrics)
  {
    function Batch(k: Kind): seq<Event> {
      if k.PumpfunKind? then trades else swaps
    }

    function WithBatch(k: Kind, b: seq<Event>): Writer {
      if k.PumpfunKind? then this.(trades := b) else this.(swaps := b)
    }
  }

  function Init(now: Time): Writer {
    Writer([], [], now, [], Metrics(0, 0, 0, 0, 0, 0))
  }

  predicate Typed(w: Writer) {
    AllOf(PumpfunKind, w.trades) && AllOf(RaydiumKind, w.swaps)
  }

  /** The metrics after an INSERT of n rows. */
  function Counted(m: Metrics, k: Kind, n: nat): Metrics {
    var m := m.(success := m.success + n, batches := m.batches + 1);
    if k.PumpfunKind? then m.(trades := m.trades + n) else m.(swaps := m.swaps + n)
  }

  /** The INSERT of a batch. */
  function CommitOf(k: Kind, b: seq<Event>): (c: Commit)
    requires AllOf(k, b)
    ensures c.kind == k && c.events == b
  {
    Commit(k, b, Insert(k, b))
  }

  /** flush_pumpfun_batch and flush_raydium_batch: a failed flush keeps the batch. */
  function Flush(w: Writer, k: Kind, o: Outcome): Writer
    requires Typed(w)
  {
    var b := w.Batch(k);
    if b == [] || o.NoConnection? then w
    else if o.InsertFailed? then w.(metrics := w.metrics.(failed := w.metrics.failed + 1))
    else
      w.WithBatch(k, []).(commits := w.commits + [CommitOf(k, b)], metrics := Counted(w.metrics, k, |b|))
  }

  lemma FlushTyped(w: Writer, k: Kind, o: Outcome)
    requires Typed(w)
    ensures Typed(Flush(w, k, o))
  {
    hide CommitOf, Counted;
  }

  /** How the two flushes of flush_all_batches end, and the clock afterwards. */
  datatype FlushAll = FlushAll(trades: Outcome, swaps: Outcome, after: Time)
  {
    function Of(k: Kind): Outcome {
      if k.PumpfunKind? then trades else swaps
    }
  }

  function FlushBoth(w: Writer, f: FlushAll): Writer
    requires Typed(w)
  {
    FlushTyped(w, PumpfunKind, f.trades);
    Flush(Flush(w, PumpfunKind, f.trades), RaydiumKind, f.swaps).(lastFlush := f.after)
  }

  function KindOf(e: Event): (k: Kind)
    requires !e.Unknown?
    ensures e.Is(k)
  {
    if e.TradeEvent? then PumpfunKind else RaydiumKind
  }

  /** Lines 238 and 244. */
  function Append(w: Writer, e: Event): Writer {
    var w := w.(metrics := w.metrics.(total := w.metrics.total + 1));
    if e.Unknown? then w else w.WithBatch(KindOf(e), w.Batch(KindOf(e)) + [e])
  }

  lemma AppendTyped(w: Writer, e: Event)
    requires Typed(w)
    ensures Typed(Append(w, e))
  {
  }

  /** Lines 234-251. */
  function Take(w: Writer, e: Event, full: Outcome): Writer
    requires Typed(w)
  {
    var w' := Append(w, e);
    AppendTyped(w, e);
    if e.Unknown? || |w'.Batch(KindOf(e))| < BATCH_SIZE then w' else Flush(w', KindOf(e), full)
  }

  lemma TakeTyped(w: Writer, e: Event, full: Outcome)
    requires Typed(w)
    ensures Typed(Take(w, e, full))
  {
    hide Flush, Append;
    AppendTyped(w, e);
    if !e.Unknown? { FlushTyped(Append(w, e), KindOf(e), full); }
  }

  /** One turn of the main loop: the event popped, if any; how a flush of a full batch ends; the
      clock at the timer check; how a timer flush ends. */
  datatype Turn = Turn(popped: Option<Event>, full: Outcome, now: Time, flush: FlushAll)
  {
    predicate Pops(k: Kind) {
      popped.Some? && popped.value.Is(k)
    }
  }

  /** The first part of a turn. */
  function Taken(w: Writer, t: Turn): Writer
    requires Typed(w)
  {
    if t.popped.Some? then Take(w, t.popped.value, t.full) else w
  }

  lemma TakenTyped(w: Writer, t: Turn)
    requires Typed(w)
    ensures Typed(Taken(w, t))
  {
    hide Take;
    if t.popped.Some? { TakeTyped(w, t.popped.value, t.full); }
  }

  /** Lines 222-256. */
  function Step(w: Writer, t: Turn): Writer
    requires Typed(w)
  {
    var w' := Taken(w, t);
    TakenTyped(w, t);
    if TimerFires(t.now, w'.lastFlush) then FlushBoth(w', t.flush) else w'
  }

  lemma FlushBothTyped(w: Writer, f: FlushAll)
    requires Typed(w)
    ensures Typed(FlushBoth(w, f))
  {
    hide Flush;
    FlushTyped(w, PumpfunKind, f.trades);
    FlushTyped(Flush(w, PumpfunKind, f.trades), RaydiumKind, f.swaps);
  }

  lemma StepTyped(w: Writer, t: Turn)
    requires Typed(w)
    ensures Typed(Step(w, t))
  {
    hide Taken, TimerFires, FlushBoth;
    TakenTyped(w, t);
    FlushBothTyped(Taken(w, t), t.flush);
  }

  function Run(w: Writer, turns: seq<Turn>): (w': Writer)
    requires Typed(w)
    ensures Typed(w')
  {
    if turns == [] then w else
      var before := Run(w, turns[..|turns| - 1]);
      StepTyped(before, turns[|turns| - 1]);
      Step(before, turns[|turns| - 1])
  }

  /** db_writer_main: the loop, then the flush at shutdown. */
  function WholeRun(now: Time, turns: seq<Turn>, last: FlushAll): Writer {
    FlushBoth(Run(Init(now), turns), last)
  }

  // ---- The events of a run ----

  function PoppedBy(t: Turn): seq<Event> {
    if t.popped.Some? then [t.popped.value] else []
  }

  function PoppedEvents(turns: seq<Turn>): seq<Event> {
    if turns == [] then [] else PoppedEvents(turns[..|turns| - 1]) + PoppedBy(turns[|turns| - 1])
  }

  function Only(k: Kind, e: Event): seq<Event> {
    if e.Is(k) then [e] else []
  }

  function Of(k: Kind, es: seq<Event>): seq<Event> {
    if es == [] then [] else Of(k, es[..|es| - 1]) + Only(k, es[|es| - 1])
  }

  function Ignored(es: seq<Event>): nat {
    if es == [] then 0 else Ignored(es[..|es| - 1]) + if es[|es| - 1].Unknown? then 1 else 0
  }

  /** The events of the committed INSERTs of one kind, in commit order. */
  function Written(k: Kind, cs: seq<Commit>): seq<Event> {
    if cs == [] then [] else
      Written(k, cs[..|cs| - 1]) + if cs[|cs| - 1].kind == k then cs[|cs| - 1].events else []
  }

  lemma WrittenSnoc(k: Kind, cs: seq<Commit>, c: Commit)
    ensures Written(k, cs + [c]) == Written(k, cs) + if c.kind == k then c.events else []
  {
    assert (cs + [c])[..|cs|] == cs;
  }

  lemma OfSnoc(k: Kind, es: seq<Event>, e: Event)
    ensures Of(k, es + [e]) == Of(k, es) + Only(k, e)
    ensures Ignored(es + [e]) == Ignored(es) + if e.Unknown? then 1 else 0
  {
    assert (es + [e])[..|es|] == es;
  }

  // ---- Conservation ----

  /** Nothing is lost, duplicated or reordered: the popped events of a kind are those of its
      committed INSERTs followed by those still in its batch. */
  ghost predicate Kept(k: Kind, w: Writer, popped: seq<Event>) {
    Of(k, popped) == Written(k, w.commits) + w.Batch(k)
  }

  /** A committed INSERT is the statement for its events, one row each, all of one kind. */
  ghost predicate IsStatement(c: Commit) {
    c.events != [] && AllOf(c.kind, c.events) && c.text == Insert(c.kind, c.events)
  }

  ghost predicate Statements(cs: seq<Commit>) {
    forall i :: 0 <= i < |cs| ==> IsStatement(cs[i])
  }

  /** The metrics agree with the contents. */
  ghost predicate Accounted(w: Writer, popped: seq<Event>) {
    var m := w.metrics;
    && m.total == |popped| == m.success + |w.trades| + |w.swaps| + Ignored(popped)
    && m.trades == |Written(PumpfunKind, w.commits)| && m.swaps == |Written(RaydiumKind, w.commits)|
    && m.success == m.trades + m.swaps
    && m.batches == |w.commits|
  }

  ghost predicate Conserves(w: Writer, popped: seq<Event>) {
    && Typed(w)
    && Kept(PumpfunKind, w, popped) && Kept(RaydiumKind, w, popped)
    && Statements(w.commits)
    && Accounted(w, popped)
  }

  lemma FlushedParts(w: Writer, k: Kind, j: Kind)
    requires Typed(w) && w.Batch(k) != []
    ensures Flush(w, k, Committed).commits == w.commits + [CommitOf(k, w.Batch(k))]
    ensures Flush(w, k, Committed).Batch(j) == if j == k then [] else w.Batch(j)
    ensures Flush(w, k, Committed).metrics == Counted(w.metrics, k, |w.Batch(k)|)
  {
    hide CommitOf, Counted, AllOf;
  }

  lemma CommitKeeps(w: Writer, k: Kind, j: Kind, popped: seq<Event>)
    requires Typed(w) && Kept(j, w, popped) && w.Batch(k) != []
    ensures Kept(j, Flush(w, k, Committed), popped)
  {
    hide Flush, Of, Typed, CommitOf, Written;
    BatchTyped(w, k);
    WrittenSnoc(j, w.commits, CommitOf(k, w.Batch(k)));
    FlushedParts(w, k, j);
  }

  lemma CommitStatement(w: Writer, k: Kind)
    requires Typed(w) && Statements(w.commits) && w.Batch(k) != []
    ensures Statements(Flush(w, k, Committed).commits)
  {
    BatchTyped(w, k);
    assert IsStatement(CommitOf(k, w.Batch(k))) by { hide Insert, AllOf; }
    FlushedParts(w, k, k);
    hide CommitOf, AllOf, Flush, Typed, IsStatement;
  }

  lemma CommitAccounted(w: Writer, k: Kind, popped: seq<Event>)
    requires Typed(w) && Accounted(w, popped) && w.Batch(k) != []
    ensures Accounted(Flush(w, k, Committed), popped)
  {
    CommitCounts(w, k, PumpfunKind);
    CommitCounts(w, k, RaydiumKind);
    hide Flush, Typed, Written, Ignored;
  }

  lemma CommitCounts(w: Writer, k: Kind, j: Kind)
    requires Typed(w) && w.Batch(k) != []
    ensures var w', n := Flush(w, k, Committed), |w.Batch(k)|;
      && |w'.commits| == |w.commits| + 1 && w'.metrics == Counted(w.metrics, k, n)
      && |Written(j, w'.commits)| == |Written(j, w.commits)| + (if j == k then n else 0)
      && |w'.Batch(j)| == if j == k then 0 else |w.Batch(j)|
  {
    BatchTyped(w, k);
    FlushedParts(w, k, j);
    hide *;
    WrittenSnoc(j, w.commits, CommitOf(k, w.Batch(k)));
  }

  lemma CommitConserves(w: Writer, k: Kind, popped: seq<Event>)
    requires Conserves(w, popped) && w.Batch(k) != []
    ensures Conserves(Flush(w, k, Committed), popped)
  {
    FlushTyped(w, k, Committed);
    CommitKeeps(w, k, PumpfunKind, popped);
    CommitKeeps(w, k, RaydiumKind, popped);
    CommitStatement(w, k);
    CommitAccounted(w, k, popped);
    hide Flush, Typed, Kept, Accounted, Statements;
  }

  lemma BatchTyped(w: Writer, k: Kind)
    requires Typed(w)
    ensures AllOf(k, w.Batch(k))
  {
  }

  lemma FlushConserves(w: Writer, k: Kind, o: Outcome, popped: seq<Event>)
    requires Conserves(w, popped)
    ensures Conserves(Flush(w, k, o), popped)
  {
    if w.Batch(k) != [] && o.Committed? {
      hide *;
      CommitConserves(w, k, popped);
    } else {
      hide CommitOf, Counted, Written, Of, Ignored, IsStatement, AllOf;
    }
  }

  lemma AppendBatch(w: Writer, e: Event, j: Kind)
    ensures Append(w, e).Batch(j) == w.Batch(j) + Only(j, e) && Append(w, e).commits == w.commits
  {
  }

  lemma Regrouped(a: seq<Event>, b: seq<Event>, c: seq<Event>)
    ensures a + b + c == a + (b + c)
  {
  }

  lemma AppendKeeps(w: Writer, e: Event, j: Kind, popped: seq<Event>)
    requires Kept(j, w, popped)
    ensures Kept(j, Append(w, e), popped + [e])
  {
    OfSnoc(j, popped, e);
    AppendBatch(w, e, j);
    hide Of, Written, Only, Append;
    Regrouped(Written(j, w.commits), w.Batch(j), Only(j, e));
  }

  lemma AppendAccounted(w: Writer, e: Event, popped: seq<Event>)
    requires Accounted(w, popped)
    ensures Accounted(Append(w, e), popped + [e])
  {
    OfSnoc(PumpfunKind, popped, e);
    hide Of, Ignored, Written;
  }

  lemma AppendConserves(w: Writer, e: Event, popped: seq<Event>)
    requires Conserves(w, popped)
    ensures Conserves(Append(w, e), popped + [e])
  {
    AppendTyped(w, e);
    AppendKeeps(w, e, PumpfunKind, popped);
    AppendKeeps(w, e, RaydiumKind, popped);
    AppendAccounted(w, e, popped);
    hide Typed, Kept, Accounted, Statements;
  }

  lemma TakeConserves(w: Writer, e: Event, full: Outcome, popped: seq<Event>)
    requires Conserves(w, popped)
    ensures Conserves(Take(w, e, full), popped + [e])
  {
    AppendConserves(w, e, popped);
    hide Append, Flush, Of, Written, Accounted, Statements, Kept, Typed;
    assert Typed(w) && Typed(Append(w, e));
    if !e.Unknown? { FlushConserves(Append(w, e), KindOf(e), full, popped + [e]); }
  }

  lemma FlushBothConserves(w: Writer, f: FlushAll, popped: seq<Event>)
    requires Conserves(w, popped)
    ensures Conserves(FlushBoth(w, f), popped)
  {
    FlushConserves(w, PumpfunKind, f.trades, popped);
    var w1 := Flush(w, PumpfunKind, f.trades);
    hide Flush;
    FlushConserves(w1, RaydiumKind, f.swaps, popped);
    hide Of, Written, Ignored, Statements, AllOf;
  }

  lemma StepConserves(w: Writer, t: Turn, popped: seq<Event>)
    requires Conserves(w, popped)
    ensures Conserves(Step(w, t), popped + PoppedBy(t))
  {
    hide Take, FlushBoth, TimerFires, Of, Written, Accounted, Statements, Kept, Typed;
    if t.popped.Some? {
      TakeConserves(w, t.popped.value, t.full, popped);
    } else {
      assert popped + [] == popped;
    }
    FlushBothConserves(Taken(w, t), t.flush, popped + PoppedBy(t));
  }

  /** Conservation over every run of the machine, however the flushes end. The batches of the machine
      have no bound: this speaks about the code for the runs that are `Safe`, see `SafeExactly`. */
  lemma {:induction false} RunConserves(now: Time, turns: seq<Turn>)
    ensures Conserves(Run(Init(now), turns), PoppedEvents(turns))
  {
    if turns != [] {
      RunConserves(now, turns[..|turns| - 1]);
      hide Conserves, Step;
      StepConserves(Run(Init(now), turns[..|turns| - 1]), turns[|turns| - 1], PoppedEvents(turns[..|turns| - 1]));
    }
  }

  lemma Emptied(w: Writer, f: FlushAll, k: Kind)
    requires Typed(w) && f.Of(k).Committed?
    ensures FlushBoth(w, f).Batch(k) == []
  {
    hide CommitOf, Counted;
  }

  /** The writer's whole life, and the events that a committing last flush leaves behind: none. Again
      about the code for `Safe` turns. */
  lemma MainConserves(now: Time, turns: seq<Turn>, last: FlushAll, k: Kind)
    ensures var w := WholeRun(now, turns, last);
      && Conserves(w, PoppedEvents(turns))
      && (last.Of(k).Committed? ==> Of(k, PoppedEvents(turns)) == Written(k, w.commits))
  {
    RunConserves(now, turns);
    var w := Run(Init(now), turns);
    hide Run, FlushBoth, Written, Of, Statements, Accounted;
    FlushBothConserves(w, last, PoppedEvents(turns));
    if last.Of(k).Committed? { Emptied(w, last, k); }
  }

  // ---- The batch arrays ----

  /** The append of this turn, if any, is to a cell of the array. */
  predicate InBounds(w: Writer, t: Turn) {
    t.popped.Some? && !t.popped.value.Unknown? ==> |w.Batch(KindOf(t.popped.value))| < BATCH_SIZE
  }

  /** Every append of the run is. */
  ghost predicate Safe(w: Writer, turns: seq<Turn>)
    requires Typed(w)
  {
    forall i {:trigger turns[i]} :: 0 <= i < |turns| ==> InBounds(Run(w, turns[..i]), turns[i])
  }

  predicate NotFull(w: Writer) {
    |w.trades| < BATCH_SIZE && |w.swaps| < BATCH_SIZE
  }

  lemma StepNotFull(w: Writer, t: Turn)
    requires Typed(w) && NotFull(w) && t.full.Committed?
    ensures NotFull(Step(w, t))
  {
    hide CommitOf, Counted, TimerFires, Typed, AllOf;
    assert NotFull(Taken(w, t));
    TakenTyped(w, t);
    hide Take;
    FlushTyped(Taken(w, t), PumpfunKind, t.flush.trades);
  }

  lemma {:induction false} RunNotFull(w: Writer, turns: seq<Turn>)
    requires Typed(w) && NotFull(w) && forall i :: 0 <= i < |turns| ==> turns[i].full.Committed?
    ensures NotFull(Run(w, turns))
  {
    if turns != [] {
      RunNotFull(w, turns[..|turns| - 1]);
      hide Step, NotFull;
      StepNotFull(Run(w, turns[..|turns| - 1]), turns[|turns| - 1]);
    }
  }

  /** While the flushes of full batches commit, no append leaves the arrays, however the timer
      flushes end. */
  lemma SafeWhenFullFlushesCommit(now: Time, turns: seq<Turn>)
    requires forall i :: 0 <= i < |turns| ==> turns[i].full.Committed?
    ensures Safe(Init(now), turns)
  {
    forall i | 0 <= i < |turns| ensures InBounds(Run(Init(now), turns[..i]), turns[i]) {
      RunNotFull(Init(now), turns[..i]);
    }
  }

  /** Turn t ends with a timer flush that commits the batch of kind k. */
  predicate TimerCommits(w: Writer, t: Turn, k: Kind)
    requires Typed(w)
  {
    TakenTyped(w, t);
    TimerFires(t.now, Taken(w, t).lastFlush) && t.flush.Of(k).Committed?
  }

  /** A turn that pops no event of kind k changes its batch in one way only. */
  lemma OtherTurn(w: Writer, t: Turn, k: Kind)
    requires Typed(w) && !t.Pops(k)
    ensures Step(w, t).Batch(k) == if TimerCommits(w, t, k) then [] else w.Batch(k)
  {
    hide CommitOf, Counted, TimerFires, Typed, AllOf;
    assert Taken(w, t).Batch(k) == w.Batch(k);
    TakenTyped(w, t);
    hide Take;
    FlushTyped(Taken(w, t), PumpfunKind, t.flush.trades);
  }

  /** One of the first n turns commits the batch of kind k when it ends. */
  ghost predicate RescuedWithin(w: Writer, turns: seq<Turn>, n: nat, k: Kind)
    requires Typed(w) && n <= |turns|
  {
    exists i {:trigger turns[i]} :: 0 <= i < n && TimerCommits(Run(w, turns[..i]), turns[i], k)
  }

  ghost predicate Rescued(w: Writer, turns: seq<Turn>, k: Kind)
    requires Typed(w)
  {
    RescuedWithin(w, turns, |turns|, k)
  }

  lemma RescuedSnoc(w: Writer, turns: seq<Turn>, n: nat, k: Kind)
    requires Typed(w) && n < |turns|
    ensures RescuedWithin(w, turns, n + 1, k) <==>
      RescuedWithin(w, turns, n, k) || TimerCommits(Run(w, turns[..n]), turns[n], k)
  {
    hide Run, TimerCommits, Typed;
  }

  lemma NotYetRescued(w: Writer, turns: seq<Turn>, k: Kind)
    requires Typed(w)
    ensures !RescuedWithin(w, turns, 0, k)
  {
  }

  lemma {:induction false} QuietTurns(w: Writer, turns: seq<Turn>, n: nat, k: Kind)
    requires Typed(w) && n <= |turns| && forall i :: 0 <= i < |turns| ==> !turns[i].Pops(k)
    ensures Run(w, turns[..n]).Batch(k) == if RescuedWithin(w, turns, n, k) then [] else w.Batch(k)
  {
    hide *;
    if n == 0 {
      NoTurns(w, turns);
      NotYetRescued(w, turns, k);
    } else {
      QuietTurns(w, turns, n - 1, k);
      StepOfRun(w, turns, n - 1);
      OtherTurn(Run(w, turns[..n - 1]), turns[n - 1], k);
      RescuedSnoc(w, turns, n - 1, k);
    }
  }

  /** Exactly when an append goes wrong: after a failed flush has left a full batch, the next event
      of its kind is written inside the array if and only if a timer flush has committed in between. */
  lemma FullBatchNextAppend(w: Writer, quiet: seq<Turn>, next: Turn, k: Kind)
    requires Typed(w) && |w.Batch(k)| == BATCH_SIZE
    requires (forall i :: 0 <= i < |quiet| ==> !quiet[i].Pops(k)) && next.Pops(k)
    ensures InBounds(Run(w, quiet), next) <==> Rescued(w, quiet, k)
  {
    QuietRun(w, quiet, k);
    hide Run, Rescued, Typed;
  }

  /** A failed flush at a full batch does leave one, unless the timer flush of the same turn commits. */
  lemma FailedFlushLeavesFullBatch(w: Writer, t: Turn, k: Kind)
    requires Typed(w) && t.Pops(k) && |w.Batch(k)| == BATCH_SIZE - 1 && !t.full.Committed?
    ensures |Step(w, t).Batch(k)| == if TimerCommits(w, t, k) then 0 else BATCH_SIZE
  {
    hide CommitOf, Counted, TimerFires, Typed, AllOf;
    TakenTyped(w, t);
    assert |Taken(w, t).Batch(k)| == BATCH_SIZE;
    hide Take;
    FlushTyped(Taken(w, t), PumpfunKind, t.flush.trades);
  }

  // ---- Exactly the safe runs ----

  lemma {:induction false} RunConcat(w: Writer, a: seq<Turn>, b: seq<Turn>)
    requires Typed(w)
    ensures Run(w, a + b) == Run(Run(w, a), b)
  {
    hide Step, Typed;
    if b == [] {
      assert a + b == a;
    } else {
      RunConcat(w, a, b[..|b| - 1]);
      assert (a + b)[..|a + b| - 1] == a + b[..|b| - 1];
    }
  }

  lemma AfterFirst(w: Writer, t: Turn, rest: seq<Turn>, i: nat)
    requires Typed(w) && Typed(Step(w, t)) && i <= |rest|
    ensures Run(w, ([t] + rest)[..i + 1]) == Run(Step(w, t), rest[..i])
  {
    hide *;
    var all := [t] + rest;
    NoTurns(w, all);
    StepOfRun(w, all, 0);
    assert all[..i + 1] == all[..1] + rest[..i];
    RunConcat(w, all[..1], rest[..i]);
  }

  /** A run is safe when its first turn is and the rest is safe from there. */
  lemma SafeFromFirst(w: Writer, t: Turn, rest: seq<Turn>)
    requires Typed(w) && Typed(Step(w, t))
    ensures Safe(w, [t] + rest) <==> InBounds(w, t) && Safe(Step(w, t), rest)
  {
    hide Run, Step, InBounds, Typed;
    var all := [t] + rest;
    NoTurns(w, all);
    forall i | 0 <= i < |rest| ensures Run(w, all[..i + 1]) == Run(Step(w, t), rest[..i]) && all[i + 1] == rest[i] {
      AfterFirst(w, t, rest, i);
    }
    if InBounds(w, t) && Safe(Step(w, t), rest) {
      forall i {:trigger all[i]} | 0 <= i < |all| ensures InBounds(Run(w, all[..i]), all[i]) {
        if i > 0 { assert InBounds(Run(Step(w, t), rest[..i - 1]), rest[i - 1]); }
      }
    }
    if Safe(w, all) {
      assert InBounds(Run(w, all[..0]), all[0]);
      forall i {:trigger rest[i]} | 0 <= i < |rest| ensures InBounds(Run(Step(w, t), rest[..i]), rest[i]) {
        assert InBounds(Run(w, all[..i + 1]), all[i + 1]);
      }
    }
  }

  lemma BatchGrows(w: Writer, t: Turn, k: Kind)
    requires Typed(w)
    ensures |Step(w, t).Batch(k)| <= |w.Batch(k)| + 1
  {
    hide CommitOf, Counted, TimerFires, Typed, AllOf;
    assert |Taken(w, t).Batch(k)| <= |w.Batch(k)| + 1;
    TakenTyped(w, t);
    hide Take;
    FlushTyped(Taken(w, t), PumpfunKind, t.flush.trades);
  }

  /** Turns i and j pop consecutive events of kind k. */
  predicate Consecutive(turns: seq<Turn>, i: int, j: int, k: Kind) {
    0 <= i < j < |turns| && turns[i].Pops(k) && turns[j].Pops(k) && forall m :: i < m < j ==> !turns[m].Pops(k)
  }

  /** Wherever turn i leaves a full batch, a timer flush commits it before the next event of its kind. */
  ghost predicate FullBatchesRescued(now: Time, turns: seq<Turn>) {
    forall i, j, k :: Consecutive(turns, i, j, k) && |Run(Init(now), turns[..i + 1]).Batch(k)| == BATCH_SIZE ==>
      Rescued(Run(Init(now), turns[..i + 1]), turns[i + 1..j], k)
  }

  /** The last event of kind k before turn j, j itself if there is none. */
  function LastPop(turns: seq<Turn>, j: nat, k: Kind): (i: nat)
    requires j < |turns|
    ensures i <= j && (i < j ==> turns[i].Pops(k)) && forall m :: 0 <= m < j && (i < m || i == j) ==> !turns[m].Pops(k)
  {
    LastPopBelow(turns, j, j, k)
  }

  function LastPopBelow(turns: seq<Turn>, n: nat, j: nat, k: Kind): (i: nat)
    requires n <= j < |turns| && forall m :: n <= m < j ==> !turns[m].Pops(k)
    ensures i <= j && (i < j ==> turns[i].Pops(k)) && forall m :: 0 <= m < j && (i < m || i == j) ==> !turns[m].Pops(k)
  {
    if n == 0 then j else if turns[n - 1].Pops(k) then n - 1 else LastPopBelow(turns, n - 1, j, k)
  }

  /** The batch just before turn j, from the state after an earlier turn that is followed by none of
      its kind. */
  lemma QuietUntil(w: Writer, turns: seq<Turn>, i: nat, j: nat, k: Kind)
    requires Typed(w) && i <= j < |turns| && forall m :: i <= m < j ==> !turns[m].Pops(k)
    ensures var from := Run(w, turns[..i]);
      Run(w, turns[..j]).Batch(k) == if Rescued(from, turns[i..j], k) then [] else from.Batch(k)
  {
    hide *;
    var between := turns[i..j];
    assert turns[..j] == turns[..i] + between;
    forall m | 0 <= m < |between| ensures !between[m].Pops(k) {
      assert between[m] == turns[i + m];
    }
    RunConcat(w, turns[..i], between);
    QuietRun(Run(w, turns[..i]), between, k);
  }

  lemma QuietRun(w: Writer, turns: seq<Turn>, k: Kind)
    requires Typed(w) && forall i :: 0 <= i < |turns| ==> !turns[i].Pops(k)
    ensures Run(w, turns).Batch(k) == if Rescued(w, turns, k) then [] else w.Batch(k)
  {
    hide RescuedWithin, Run, Typed;
    assert turns[..|turns|] == turns;
    QuietTurns(w, turns, |turns|, k);
  }

  lemma StepOfRun(w: Writer, turns: seq<Turn>, i: nat)
    requires Typed(w) && i < |turns|
    ensures Run(w, turns[..i + 1]) == Step(Run(w, turns[..i]), turns[i])
  {
    hide Step;
    assert turns[..i + 1][..i] == turns[..i];
  }

  lemma RescuedKeepsInside(now: Time, turns: seq<Turn>, j: nat, k: Kind)
    requires FullBatchesRescued(now, turns) && j < |turns| && turns[j].Pops(k)
    requires forall i {:trigger turns[i]} :: 0 <= i < j ==> InBounds(Run(Init(now), turns[..i]), turns[i])
    ensures |Run(Init(now), turns[..j]).Batch(k)| < BATCH_SIZE
  {
    hide Run, Step, Rescued;
    var w := Init(now);
    var i := LastPop(turns, j, k);
    if i == j {
      QuietUntil(w, turns, 0, j, k);
      NoTurns(w, turns);
    } else {
      QuietUntil(w, turns, i + 1, j, k);
      StepOfRun(w, turns, i);
      assert InBounds(Run(w, turns[..i]), turns[i]);
      BatchGrows(Run(w, turns[..i]), turns[i], k);
      assert Consecutive(turns, i, j, k);
    }
  }

  lemma NoTurns(w: Writer, turns: seq<Turn>)
    requires Typed(w)
    ensures Run(w, turns[..0]) == w
  {
    assert turns[..0] == [];
  }

  lemma {:induction false} RescuedInside(now: Time, turns: seq<Turn>, n: nat)
    requires FullBatchesRescued(now, turns) && n <= |turns|
    ensures forall i {:trigger turns[i]} :: 0 <= i < n ==> InBounds(Run(Init(now), turns[..i]), turns[i])
  {
    hide Run, FullBatchesRescued;
    if n > 0 {
      RescuedInside(now, turns, n - 1);
      var t := turns[n - 1];
      if t.popped.Some? && !t.popped.value.Unknown? {
        RescuedKeepsInside(now, turns, n - 1, KindOf(t.popped.value));
      }
    }
  }

  /** The runs in which every append stays inside the arrays are exactly those in which every batch
      that a failed flush leaves full is committed by a timer flush before the next event of its kind. */
  lemma SafeExactly(now: Time, turns: seq<Turn>)
    ensures Safe(Init(now), turns) <==> FullBatchesRescued(now, turns)
  {
    hide Run, Rescued;
    var w := Init(now);
    if Safe(w, turns) {
      forall i, j, k | Consecutive(turns, i, j, k) && |Run(w, turns[..i + 1]).Batch(k)| == BATCH_SIZE
        ensures Rescued(Run(w, turns[..i + 1]), turns[i + 1..j], k)
      {
        QuietUntil(w, turns, i + 1, j, k);
        assert InBounds(Run(w, turns[..j]), turns[j]);
      }
    }
    if FullBatchesRescued(now, turns) {
      RescuedInside(now, turns, |turns|);
    }
  }

  /** A turn that pops e while the database is down; the clock stands still. */
  function DownTurn(e: Event, now: Time): Turn {
    Turn(Some(e), NoConnection, now, FlushAll(NoConnection, NoConnection, now))
  }

  lemma DownStep(w: Writer, e: Event, now: Time)
    requires Typed(w) && e.TradeEvent? && w.lastFlush == now
    ensures |Step(w, DownTurn(e, now)).trades| == |w.trades| + 1 && Step(w, DownTurn(e, now)).lastFlush == now
  {
    hide CommitOf, Counted, AllOf, FlushBoth;
    assert !TimerFires(now, now);
  }

  lemma {:induction false} DownRun(e: Event, now: Time, n: nat)
    requires e.TradeEvent?
    ensures |Run(Init(now), seq(n, _ => DownTurn(e, now))).trades| == n
    ensures Run(Init(now), seq(n, _ => DownTurn(e, now))).lastFlush == now
  {
    if n > 0 {
      DownRun(e, now, n - 1);
      var turns := seq(n, _ => DownTurn(e, now));
      assert turns[..n - 1] == seq(n - 1, _ => DownTurn(e, now)) && turns[..n] == turns;
      hide *;
      StepOfRun(Init(now), turns, n - 1);
      DownStep(Run(Init(now), turns[..n - 1]), e, now);
    }
  }

  /** A run that leaves the arrays: 101 trades without a connection. */
  lemma DownRunUnsafe(e: Event, now: Time)
    requires e.TradeEvent?
    ensures !Safe(Init(now), seq(BATCH_SIZE + 1, _ => DownTurn(e, now)))
  {
    var turns := seq(BATCH_SIZE + 1, _ => DownTurn(e, now));
    DownRun(e, now, BATCH_SIZE);
    assert turns[..BATCH_SIZE] == seq(BATCH_SIZE, _ => DownTurn(e, now));
    hide Run;
    assert !InBounds(Run(Init(now), turns[..BATCH_SIZE]), turns[BATCH_SIZE]);
  }
}
