/** When the writer of src/db_writer.c flushes: the interval is measured from the last flush of both
    batches, and a statement has 100 rows unless the timer or the shutdown made it. */
module WriterTimes {
  import opened Common
  import opened Events
  import Sql
  import opened WriterRuns

  // ---- The interval ----

  /** The timer of turn i of a run fires. */
  predicate FiresAt(start: Time, turns: seq<Turn>, i: int)
    requires 0 <= i < |turns|
  {
    TimerFires(turns[i].now, Run(Init(start), turns[..i]).lastFlush)
  }

  lemma TakenKeepsTime(w: Writer, t: Turn)
    requires Typed(w)
    ensures Taken(w, t).lastFlush == w.lastFlush
  {
    hide CommitOf, Counted, Sql.AllOf;
  }

  /** A turn whose timer fires restarts the interval, and no other does. */
  lemma StepTime(w: Writer, t: Turn)
    requires Typed(w)
    ensures Step(w, t).lastFlush == if TimerFires(t.now, w.lastFlush) then t.flush.after else w.lastFlush
  {
    TakenKeepsTime(w, t);
    TakenTyped(w, t);
    hide Taken, TimerFires, Flush;
  }

  lemma TimeAfter(start: Time, turns: seq<Turn>, i: nat)
    requires i < |turns|
    ensures Run(Init(start), turns[..i + 1]).lastFlush ==
      if FiresAt(start, turns, i) then turns[i].flush.after else Run(Init(start), turns[..i]).lastFlush
  {
    hide Run, Step, TimerFires;
    StepOfRun(Init(start), turns, i);
    StepTime(Run(Init(start), turns[..i]), turns[i]);
  }

  /** The last of the first n turns whose timer fires, -1 if there is none. */
  ghost function LastFiring(start: Time, turns: seq<Turn>, n: nat): (j: int)
    requires n <= |turns|
    ensures -1 <= j < n && (j >= 0 ==> FiresAt(start, turns, j))
    ensures forall m :: j < m < n ==> !FiresAt(start, turns, m)
  {
    if n == 0 then -1 else if FiresAt(start, turns, n - 1) then n - 1 else LastFiring(start, turns, n - 1)
  }

  /** The time that the timer of turn n is measured from: the clock after the last earlier flush by
      timer, or the start if there was none. */
  lemma {:induction false} MeasuredFrom(start: Time, turns: seq<Turn>, n: nat)
    requires n <= |turns|
    ensures var j := LastFiring(start, turns, n);
      Run(Init(start), turns[..n]).lastFlush == if j < 0 then start else turns[j].flush.after
  {
    hide Run, FiresAt;
    if n == 0 {
      NoTurns(Init(start), turns);
    } else {
      MeasuredFrom(start, turns, n - 1);
      TimeAfter(start, turns, n - 1);
    }
  }

  /** The clock never goes back. */
  ghost predicate ClockAdvances(turns: seq<Turn>) {
    && (forall i :: 0 <= i < |turns| ==>
      ValidTime(turns[i].now) && ValidTime(turns[i].flush.after)
      && Microseconds(turns[i].now) <= Microseconds(turns[i].flush.after))
    && forall i, j :: 0 <= i < j < |turns| ==> Microseconds(turns[i].flush.after) <= Microseconds(turns[j].now)
  }

  /** Two flushes by timer are more than 49 ms apart while the clock does not go back. */
  lemma FiringsApart(start: Time, turns: seq<Turn>, i: nat, j: nat)
    requires ClockAdvances(turns) && i < j < |turns| && FiresAt(start, turns, i) && FiresAt(start, turns, j)
    ensures Microseconds(turns[j].now) - Microseconds(turns[i].flush.after) > 49000
  {
    MeasuredFrom(start, turns, j);
    var p := LastFiring(start, turns, j);
    assert i <= p;
    TimerExactly(turns[j].now, turns[p].flush.after);
    hide Run, TimerFires, LastFiring;
    assert TimerFires(turns[j].now, turns[p].flush.after);
    assert Microseconds(turns[p].flush.after) <= Microseconds(turns[j].now);
    if i < p {
      assert Microseconds(turns[i].flush.after) <= Microseconds(turns[p].now);
    }
  }

  // ---- What a flush by timer does ----

  /** The statement of a batch, if its flush makes one. */
  function Made(w: Writer, k: Kind, o: Outcome): seq<Commit>
    requires Typed(w)
  {
    if w.Batch(k) != [] && o.Committed? then [CommitOf(k, w.Batch(k))] else []
  }

  lemma OneFlushed(w: Writer, k: Kind, o: Outcome, j: Kind)
    requires Typed(w)
    ensures var w' := Flush(w, k, o);
      && Typed(w') && w'.commits == w.commits + Made(w, k, o) && w'.lastFlush == w.lastFlush
      && w'.Batch(j) == (if j == k && o.Committed? then [] else w.Batch(j))
      && w'.metrics.failed == w.metrics.failed + if w.Batch(k) != [] && o.InsertFailed? then 1 else 0
  {
    FlushTyped(w, k, o);
    hide CommitOf, Sql.AllOf;
  }

  /** PumpFun first, then Raydium; a batch is emptied exactly when it is committed, and every failed
      INSERT of a batch is counted. */
  lemma BothFlushed(w: Writer, f: FlushAll)
    requires Typed(w)
    ensures var w' := FlushBoth(w, f);
      && w'.commits == w.commits + Made(w, PumpfunKind, f.trades) + Made(w, RaydiumKind, f.swaps)
      && w'.trades == (if f.trades.Committed? then [] else w.trades)
      && w'.swaps == (if f.swaps.Committed? then [] else w.swaps)
      && w'.lastFlush == f.after
      && w'.metrics.failed == w.metrics.failed
        + (if w.trades != [] && f.trades.InsertFailed? then 1 else 0)
        + (if w.swaps != [] && f.swaps.InsertFailed? then 1 else 0)
  {
    OneFlushed(w, PumpfunKind, f.trades, PumpfunKind);
    OneFlushed(w, PumpfunKind, f.trades, RaydiumKind);
    var w1 := Flush(w, PumpfunKind, f.trades);
    OneFlushed(w1, RaydiumKind, f.swaps, PumpfunKind);
    OneFlushed(w1, RaydiumKind, f.swaps, RaydiumKind);
    assert Made(w1, RaydiumKind, f.swaps) == Made(w, RaydiumKind, f.swaps);
    hide Flush, CommitOf, Typed, Made;
  }

  /** When the timer of a turn fires, both batches are flushed. */
  lemma FiringFlushes(start: Time, turns: seq<Turn>, i: nat, k: Kind)
    requires i < |turns| && FiresAt(start, turns, i) && turns[i].flush.Of(k).Committed?
    ensures Run(Init(start), turns[..i + 1]).Batch(k) == []
  {
    var w := Run(Init(start), turns[..i]);
    StepOfRun(Init(start), turns, i);
    TakenKeepsTime(w, turns[i]);
    TakenTyped(w, turns[i]);
    BothFlushed(Taken(w, turns[i]), turns[i].flush);
    hide Run, TimerFires, Taken, FlushBoth;
  }

  // ---- Rows of a statement ----

  predicate AtMost100(w: Writer) {
    |w.trades| <= 100 && |w.swaps| <= 100
  }

  /** The event popped is the hundredth of its kind. */
  predicate Fills(w: Writer, t: Turn) {
    t.popped.Some? && !t.popped.value.Unknown? && |w.Batch(KindOf(t.popped.value))| == 99
  }

  /** Before its timer check a turn makes no statement, or one of exactly 100 rows that ends with the
      event just popped; it makes one exactly when that is the hundredth and its flush commits. */
  lemma FullStatement(w: Writer, t: Turn)
    requires Typed(w) && AtMost100(w) && InBounds(w, t)
    ensures var w' := Taken(w, t);
      && AtMost100(w')
      && (w'.commits == w.commits
        || (|w'.commits| == |w.commits| + 1 && w'.commits[..|w.commits|] == w.commits
          && |w'.commits[|w.commits|].events| == 100
          && t.popped == Some(w'.commits[|w.commits|].events[99])))
      && (w'.commits == w.commits <==> !Fills(w, t) || !t.full.Committed?)
  {
    hide CommitOf, Counted, Sql.AllOf;
  }

  ghost predicate Rows(cs: seq<Commit>, low: int) {
    forall i :: 0 <= i < |cs| ==> low <= |cs[i].events| <= 100
  }

  lemma TakenRows(w: Writer, t: Turn, low: int)
    requires Typed(w) && AtMost100(w) && InBounds(w, t) && Rows(w.commits, low) && low <= 100
    ensures AtMost100(Taken(w, t)) && Rows(Taken(w, t).commits, low)
  {
    FullStatement(w, t);
    hide *;
    if Taken(w, t).commits != w.commits {
      RowsExtended(w.commits, Taken(w, t).commits, low);
    }
  }

  lemma RowsExtended(cs: seq<Commit>, ds: seq<Commit>, low: int)
    requires Rows(cs, low) && |ds| == |cs| + 1 && ds[..|cs|] == cs && low <= |ds[|cs|].events| <= 100
    ensures Rows(ds, low)
  {
    forall i | 0 <= i < |ds| ensures low <= |ds[i].events| <= 100 {
      if i < |cs| { assert ds[i] == cs[i]; }
    }
  }

  lemma RowsConcat(cs: seq<Commit>, ds: seq<Commit>, low: int)
    requires Rows(cs, low) && Rows(ds, low)
    ensures Rows(cs + ds, low)
  {
  }

  lemma MadeRows(w: Writer, k: Kind, o: Outcome)
    requires Typed(w) && AtMost100(w)
    ensures Rows(Made(w, k, o), 1)
  {
    hide Typed;
    assert w.Batch(k) != [] ==> |w.Batch(k)| >= 1;
  }

  lemma FlushRows(w: Writer, f: FlushAll)
    requires Typed(w) && AtMost100(w) && Rows(w.commits, 1)
    ensures AtMost100(FlushBoth(w, f)) && Rows(FlushBoth(w, f).commits, 1)
  {
    BothFlushed(w, f);
    hide FlushBoth, Typed, Made, Rows;
    MadeRows(w, PumpfunKind, f.trades);
    MadeRows(w, RaydiumKind, f.swaps);
    RowsConcat(w.commits, Made(w, PumpfunKind, f.trades), 1);
    RowsConcat(w.commits + Made(w, PumpfunKind, f.trades), Made(w, RaydiumKind, f.swaps), 1);
  }

  lemma StepRows(w: Writer, t: Turn, low: int)
    requires Typed(w) && AtMost100(w) && InBounds(w, t) && Rows(w.commits, low) && low <= 100
    requires low == 1 || !TimerFires(t.now, w.lastFlush)
    ensures AtMost100(Step(w, t)) && Rows(Step(w, t).commits, low)
  {
    TakenRows(w, t, low);
    TakenKeepsTime(w, t);
    TakenTyped(w, t);
    hide Taken, TimerFires, FlushBoth, Rows, AtMost100, Typed;
    if TimerFires(t.now, w.lastFlush) {
      FlushRows(Taken(w, t), t.flush);
    }
  }

  lemma NoRows(start: Time, low: int)
    ensures AtMost100(Init(start)) && Rows(Init(start).commits, low)
  {
  }

  lemma SafeAt(w: Writer, turns: seq<Turn>, i: nat)
    requires Typed(w) && i < |turns| && Safe(w, turns)
    ensures InBounds(Run(w, turns[..i]), turns[i])
  {
    hide Run, InBounds;
  }

  lemma Fires(start: Time, turns: seq<Turn>, i: nat)
    requires i < |turns|
    ensures FiresAt(start, turns, i) <==> TimerFires(turns[i].now, Run(Init(start), turns[..i]).lastFlush)
  {
    hide Run, TimerFires;
  }

  lemma {:induction false} RowsOfRun(start: Time, turns: seq<Turn>, n: nat, low: int)
    requires n <= |turns| && Safe(Init(start), turns) && low <= 100
    requires low == 1 || forall i :: 0 <= i < n ==> !FiresAt(start, turns, i)
    ensures AtMost100(Run(Init(start), turns[..n])) && Rows(Run(Init(start), turns[..n]).commits, low)
  {
    assert Typed(Init(start));
    hide *;
    if n == 0 {
      NoTurns(Init(start), turns);
      NoRows(start, low);
    } else {
      RowsOfRun(start, turns, n - 1, low);
      StepOfRun(Init(start), turns, n - 1);
      SafeAt(Init(start), turns, n - 1);
      Fires(start, turns, n - 1);
      StepRows(Run(Init(start), turns[..n - 1]), turns[n - 1], low);
    }
  }

  /** Runs that stay inside the arrays make statements of 1 to 100 rows; while the timer does not fire
      they make statements of 100 rows only. */
  lemma StatementRows(start: Time, turns: seq<Turn>)
    requires Safe(Init(start), turns)
    ensures var w := Run(Init(start), turns);
      && |w.trades| <= 100 && |w.swaps| <= 100
      && (forall i :: 0 <= i < |w.commits| ==> 1 <= |w.commits[i].events| <= 100)
      && ((forall i :: 0 <= i < |turns| ==> !FiresAt(start, turns, i)) ==>
          forall i :: 0 <= i < |w.commits| ==> |w.commits[i].events| == 100)
  {
    hide Run, Safe, FiresAt;
    assert turns[..|turns|] == turns;
    RowsOfRun(start, turns, |turns|, 1);
    if forall i :: 0 <= i < |turns| ==> !FiresAt(start, turns, i) {
      RowsOfRun(start, turns, |turns|, 100);
    }
  }
}
