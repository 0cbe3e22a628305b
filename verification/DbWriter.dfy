/** src/db_writer.c: the writer thread over its two batch arrays. It refines the machine of
    WriterRuns, and the text it commits is what the builder left in the query buffer. */
module DbWriter {
  import opened Common
  import opened Events
  import opened Sql
  import opened WriterRuns
  import SqlBuilder

  /** The parts of a turn that follow the pop. */
  lemma TurnParts(w: Writer, t: Turn)
    requires Typed(w)
    ensures var w' := Taken(w, t);
      Typed(w') && Step(w, t) == if TimerFires(t.now, w'.lastFlush) then FlushBoth(w', t.flush) else w'
  {
    hide TimerFires, FlushBoth, Taken;
    TakenTyped(w, t);
  }

  class DbWriter {
    const pumpfunBatch: array<Event>
    const raydiumBatch: array<Event>
    var pumpfunCount: nat
    var raydiumCount: nat
    var lastFlush: Time
    var metrics: Metrics
    /** What the database has accepted. */
    var commits: seq<Commit>

    ghost predicate Valid()
      reads this, pumpfunBatch, raydiumBatch
    {
      && pumpfunBatch != raydiumBatch
      && pumpfunBatch.Length == BATCH_SIZE && raydiumBatch.Length == BATCH_SIZE
      && pumpfunCount <= BATCH_SIZE && raydiumCount <= BATCH_SIZE
      && Typed(View())
    }

    ghost function View(): Writer
      requires pumpfunCount <= pumpfunBatch.Length && raydiumCount <= raydiumBatch.Length
      reads this, pumpfunBatch, raydiumBatch
    {
      Writer(pumpfunBatch[..pumpfunCount], raydiumBatch[..raydiumCount], lastFlush, commits, metrics)
    }

    constructor (now: Time)
      ensures Valid() && fresh(pumpfunBatch) && fresh(raydiumBatch)
      ensures View() == Init(now)
    {
      pumpfunBatch := new Event[BATCH_SIZE](_ => Unknown);
      raydiumBatch := new Event[BATCH_SIZE](_ => Unknown);
      pumpfunCount, raydiumCount := 0, 0;
      lastFlush := now;
      metrics := Metrics(0, 0, 0, 0, 0, 0);
      commits := [];
    }

    /** Lines 129-133 and 192-196. */
    method CountRows(k: Kind, n: nat)
      modifies this`metrics
      ensures metrics == Counted(old(metrics), k, n)
    {
      var i := 0;
      while i < n
        invariant 0 <= i <= n
        invariant metrics == Counted(old(metrics), k, i).(batches := old(metrics.batches))
      {
        metrics := metrics.(success := metrics.success + 1);
        if k.PumpfunKind? {
          metrics := metrics.(trades := metrics.trades + 1);
        } else {
          metrics := metrics.(swaps := metrics.swaps + 1);
        }
        i := i + 1;
      }
      metrics := metrics.(batches := metrics.batches + 1);
    }

    /** Lines 64-138 and 141-201. The environment decides how the connection and the INSERT end. */
    method Flush(k: Kind, o: Outcome) returns (ok: bool)
      requires Valid()
      modifies this
      ensures Valid() && View() == WriterRuns.Flush(old(View()), k, o)
      ensures ok <==> old(View()).Batch(k) == [] || o.Committed?
    {
      hide Insert, Counted, AllOf;
      ghost var w := View();
      FlushTyped(w, k, o);
      var batch := if k.PumpfunKind? then pumpfunBatch[..pumpfunCount] else raydiumBatch[..raydiumCount];
      if |batch| == 0 { return true; }
      if o.NoConnection? { return false; }
      var query, offset := SqlBuilder.Build(k, batch);
      if o.InsertFailed? {
        metrics := metrics.(failed := metrics.failed + 1);
        return false;
      }
      commits := commits + [Commit(k, batch, query[..offset])];
      CountRows(k, |batch|);
      if k.PumpfunKind? {
        pumpfunCount := 0;
      } else {
        raydiumCount := 0;
      }
      return true;
    }

    /** Lines 203-207. */
    method FlushBoth(f: FlushAll)
      requires Valid()
      modifies this
      ensures Valid() && View() == WriterRuns.FlushBoth(old(View()), f)
    {
      hide WriterRuns.Flush, AllOf;
      var _ := Flush(PumpfunKind, f.trades);
      var _ := Flush(RaydiumKind, f.swaps);
      lastFlush := f.after;
    }

    /** Lines 234-251. Not `inside` when the batch is full already, so that the append would be to a
        cell behind the array. */
    method Take(e: Event, full: Outcome) returns (inside: bool)
      requires Valid()
      modifies this, pumpfunBatch, raydiumBatch
      ensures Valid()
      ensures inside <==> e.Unknown? || |old(View()).Batch(KindOf(e))| < BATCH_SIZE
      ensures inside ==> View() == WriterRuns.Take(old(View()), e, full)
    {
      hide WriterRuns.Flush, AllOf;
      ghost var w := View();
      AppendTyped(w, e);
      metrics := metrics.(total := metrics.total + 1);
      match e {
        case TradeEvent(_, _) =>
          if pumpfunCount == BATCH_SIZE { return false; }
          pumpfunBatch[pumpfunCount] := e;
          pumpfunCount := pumpfunCount + 1;
          assert View() == Append(w, e);
          if pumpfunCount >= BATCH_SIZE {
            var _ := Flush(PumpfunKind, full);
          }
        case SwapEvent(_, _) =>
          if raydiumCount == BATCH_SIZE { return false; }
          raydiumBatch[raydiumCount] := e;
          raydiumCount := raydiumCount + 1;
          assert View() == Append(w, e);
          if raydiumCount >= BATCH_SIZE {
            var _ := Flush(RaydiumKind, full);
          }
        case Unknown =>
      }
      return true;
    }

    /** Lines 222-256. */
    method TakeTurn(t: Turn) returns (inside: bool)
      requires Valid()
      modifies this, pumpfunBatch, raydiumBatch
      ensures Valid()
      ensures inside <==> InBounds(old(View()), t)
      ensures inside ==> View() == Step(old(View()), t)
    {
      TurnParts(View(), t);
      hide TimerFires, WriterRuns.FlushBoth, WriterRuns.Take, Step;
      inside := true;
      match t.popped {
        case None =>
          if TimerFires(t.now, lastFlush) {
            FlushBoth(t.flush);
          }
        case Some(e) =>
          inside := Take(e, t.full);
          if inside && TimerFires(t.now, lastFlush) {
            FlushBoth(t.flush);
          }
      }
    }

    /** Lines 217-260. Each turn holds what the queue, the clock and the database do during it. The
        run stops being `inside` at the first append behind an array, from where the source has no
        defined behaviour; otherwise the writer ends in the state of the machine. */
    method Loop(turns: seq<Turn>, last: FlushAll) returns (inside: bool)
      requires Valid()
      modifies this, pumpfunBatch, raydiumBatch
      ensures Valid()
      ensures inside <==> Safe(old(View()), turns)
      ensures inside ==> View() == WriterRuns.FlushBoth(Run(old(View()), turns), last)
    {
      hide Typed, Run, Step, TimerFires, InBounds, WriterRuns.FlushBoth;
      ghost var w := View();
      NoTurns(w, turns);
      var i := 0;
      while i < |turns|
        invariant 0 <= i <= |turns|
        invariant Valid() && View() == Run(w, turns[..i])
        invariant forall j {:trigger turns[j]} :: 0 <= j < i ==> InBounds(Run(w, turns[..j]), turns[j])
      {
        StepOfRun(w, turns, i);
        inside := TakeTurn(turns[i]);
        if !inside { return false; }
        i := i + 1;
      }
      assert turns[..|turns|] == turns;
      FlushBoth(last);
      return true;
    }
  }
}
