/** metrics_update_queue_high_water of include/metrics.h: a load and a weak compare-and-swap loop,
    run by any number of concurrent callers. Each atomic access is one step. */
module HighWater {

  /** Where a caller is: before the load, in the loop with its last view of the mark, or returned. */
  datatype Phase = Start | Loop(current: nat) | Returned

  datatype Caller = Caller(size: nat, phase: Phase)

  datatype State = State(mark: nat, callers: seq<Caller>)

  datatype Action =
    | Load(i: nat)
    | Cas(i: nat, spurious: bool)   // a weak exchange may fail although the values agree

  predicate Enabled(s: State, a: Action) {
    a.i < |s.callers| && if a.Load? then s.callers[a.i].phase.Start? else s.callers[a.i].phase.Loop?
  }

  /** The test `size > current` at the head of the loop. */
  function Test(size: nat, current: nat): Phase {
    if size > current then Loop(current) else Returned
  }

  function Step(s: State, a: Action): State
    requires Enabled(s, a)
  {
    var c := s.callers[a.i];
    match a
    case Load(i) => s.(callers := s.callers[i := c.(phase := Test(c.size, s.mark))])
    case Cas(i, spurious) =>
      if c.phase.current == s.mark && !spurious then State(c.size, s.callers[i := c.(phase := Returned)])
      else s.(callers := s.callers[i := c.(phase := Test(c.size, s.mark))])
  }

  predicate Legal(s: State, run: seq<Action>)
    decreases |run|
  {
    run == [] || (Enabled(s, run[0]) && Legal(Step(s, run[0]), run[1..]))
  }

  function Run(s: State, run: seq<Action>): State
    requires Legal(s, run)
    decreases |run|
  {
    if run == [] then s else Run(Step(s, run[0]), run[1..])
  }

  /** The mark is an upper bound of the completed reports and is itself one of them (or where it
      started); a caller in the loop has seen a smaller mark than it reports. */
  ghost predicate Inv(s: State, start: nat) {
    && start <= s.mark
    && (s.mark == start || exists i :: 0 <= i < |s.callers| && s.callers[i] == Caller(s.mark, Returned))
    && forall i :: 0 <= i < |s.callers| ==>
      match s.callers[i].phase
      case Start => true
      case Loop(current) => current <= s.mark && current < s.callers[i].size
      case Returned => s.callers[i].size <= s.mark
  }

  lemma StepKeeps(s: State, a: Action, start: nat)
    requires Inv(s, start) && Enabled(s, a)
    ensures Inv(Step(s, a), start) && s.mark <= Step(s, a).mark
  {
    var s' := Step(s, a);
    if s'.mark != s.mark {
      assert s'.callers[a.i] == Caller(s'.mark, Returned);
    } else if s.mark != start {
      var i :| 0 <= i < |s.callers| && s.callers[i] == Caller(s.mark, Returned);
      assert s'.callers[i] == Caller(s'.mark, Returned);
    }
  }

  /** In every interleaving the mark never falls, and it is the maximum of its starting value and
      of all completed reports. */
  lemma {:induction false} MarkIsMaximum(s: State, run: seq<Action>, start: nat)
    requires Inv(s, start) && Legal(s, run)
    ensures Inv(Run(s, run), start) && s.mark <= Run(s, run).mark
    ensures |Run(s, run).callers| == |s.callers|
    decreases |run|
  {
    if run != [] {
      StepKeeps(s, run[0], start);
      MarkIsMaximum(Step(s, run[0]), run[1..], start);
    }
  }

  function Fresh(start: nat, sizes: seq<nat>): State {
    State(start, seq(|sizes|, i requires 0 <= i < |sizes| => Caller(sizes[i], Start)))
  }

  /** Once all callers have returned, the mark is the largest of the starting value and the sizes. */
  lemma AllReported(start: nat, sizes: seq<nat>, run: seq<Action>)
    requires Legal(Fresh(start, sizes), run)
    ensures var s := Run(Fresh(start, sizes), run);
      (forall i :: 0 <= i < |s.callers| ==> s.callers[i].phase == Returned) ==>
        start <= s.mark && (s.mark == start || s.mark in sizes) && forall i :: 0 <= i < |sizes| ==> sizes[i] <= s.mark
  {
    var s := Run(Fresh(start, sizes), run);
    MarkIsMaximum(Fresh(start, sizes), run, start);
    SizesStay(Fresh(start, sizes), run);
    assert forall i :: 0 <= i < |sizes| ==> s.callers[i].size == sizes[i];
    if s.mark != start {
      var i :| 0 <= i < |s.callers| && s.callers[i] == Caller(s.mark, Returned);
      assert sizes[i] == s.mark;
    }
  }

  lemma {:induction false} SizesStay(s: State, run: seq<Action>)
    requires Legal(s, run)
    ensures |Run(s, run).callers| == |s.callers|
    ensures forall i :: 0 <= i < |s.callers| ==> Run(s, run).callers[i].size == s.callers[i].size
    decreases |run|
  {
    if run != [] {
      SizesStay(Step(s, run[0]), run[1..]);
    }
  }

  /** This step is an exchange of caller i that fails because the mark has changed, and after which
      the caller goes round its loop again. */
  predicate IsRetry(s: State, a: Action, i: nat)
    requires Enabled(s, a)
  {
    a.i == i && a.Cas? && !a.spurious && Step(s, a).callers[i].phase.Loop?
  }

  function Retries(s: State, run: seq<Action>, i: nat): nat
    requires Legal(s, run)
    decreases |run|
  {
    if run == [] then 0 else (if IsRetry(s, run[0], i) then 1 else 0) + Retries(Step(s, run[0]), run[1..], i)
  }

  /** How far the mark can still rise before caller i leaves its loop. */
  function Budget(c: Caller): int {
    match c.phase
    case Start => c.size
    case Loop(current) => c.size - 1 - current
    case Returned => 0
  }

  lemma RetryMeansProgress(s: State, a: Action, start: nat, i: nat)
    requires Inv(s, start) && Enabled(s, a) && i < |s.callers|
    ensures Budget(Step(s, a).callers[i]) + (if IsRetry(s, a, i) then 1 else 0) <= Budget(s.callers[i])
  {
  }

  /** In every interleaving a caller retries at most as often as the size it reports, spurious failures apart:
      every other retry is caused by a rise of the mark. */
  lemma {:induction false} RetriesBounded(s: State, run: seq<Action>, start: nat, i: nat)
    requires Inv(s, start) && Legal(s, run) && i < |s.callers|
    ensures Retries(s, run, i) <= Budget(s.callers[i]) <= s.callers[i].size
    decreases |run|
  {
    if run != [] {
      StepKeeps(s, run[0], start);
      RetryMeansProgress(s, run[0], start, i);
      RetriesBounded(Step(s, run[0]), run[1..], start, i);
    }
  }
}
