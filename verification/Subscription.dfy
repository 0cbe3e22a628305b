/** src/geyser_client.c: the cache as it is updated in place, the wait, and the batches of one
    subscription. */
module Subscription {
  import opened Common
  import opened CompletionCache

  class Cache {
    const used: array<bool>
    const events: array<Completion>

    ghost predicate Valid()
      reads this
    {
      used.Length == CACHE_ENTRIES && events.Length == CACHE_ENTRIES
    }

    ghost function View(): (es: Entries)
      requires Valid()
      reads this, used, events
      ensures |es| == CACHE_ENTRIES
      ensures forall i :: 0 <= i < CACHE_ENTRIES ==> es[i] == if used[i] then Some(events[i]) else None
    {
      seq(CACHE_ENTRIES, i requires 0 <= i < CACHE_ENTRIES reads this, used, events =>
        if used[i] then Some(events[i]) else None)
    }

    constructor ()
      ensures Valid() && fresh(used) && fresh(events)
      ensures View() == [None, None, None, None]
    {
      used := new bool[CACHE_ENTRIES](_ => false);
      events := new Completion[CACHE_ENTRIES](_ => Completion(0, false));
    }

    /** cq_cache_take */
    method Take(tag: nat) returns (found: Option<Completion>)
      requires Valid()
      modifies used
      ensures var es, i := old(View()), FirstTagged(old(View()), tag);
        if i < |es| then found == es[i] && View() == es[i := None] else found == None && View() == es
    {
      ghost var es := View();
      for i := 0 to CACHE_ENTRIES
        invariant View() == es && i <= FirstTagged(es, tag)
      {
        if used[i] && events[i].tag == tag {
          found := Some(events[i]);
          used[i] := false;
          assert View() == es[i := None];
          return;
        }
      }
      found := None;
    }

    /** cq_cache_store */
    method Store(ev: Completion)
      requires Valid()
      modifies used, events
      ensures View() == Stored(old(View()), ev)
    {
      ghost var es := View();
      for i := 0 to CACHE_ENTRIES
        invariant View() == es && i <= FirstFree(es)
      {
        if !used[i] {
          used[i] := true;
          events[i] := ev;
          assert View() == es[i := Some(ev)];
          return;
        }
      }
    }
  }

  /** A gRPC completion queue. What it will return is fixed in advance by the environment. */
  class CompletionQueue {
    var arrivals: seq<Arrival>

    constructor (timeouts: nat)
      ensures arrivals == seq(timeouts, _ => Timeout)
    {
      arrivals := seq(timeouts, _ => Timeout);
    }

    method Next() returns (a: Arrival)
      requires arrivals != []
      modifies this
      ensures [a] + arrivals == old(arrivals)
    {
      a := arrivals[0];
      arrivals := arrivals[1..];
    }

    /** Start a batch: its completion takes some place among those still to come, after some
        timeouts. */
    method StartBatch(c: Completion, place: Place)
      modifies this
      ensures arrivals == Started(old(arrivals), c, place)
    {
      arrivals := Started(arrivals, c, place);
    }
  }

  datatype Place = Place(at: nat, timeouts: nat)

  function Started(arrivals: seq<Arrival>, c: Completion, p: Place): seq<Arrival> {
    var at := if p.at <= |arrivals| then p.at else |arrivals|;
    arrivals[..at] + seq(p.timeouts, _ => Timeout) + [Done(c)] + arrivals[at..]
  }

  /** cq_wait_for_tag. It blocks for good when nothing more arrives. */
  method WaitForTag(cq: CompletionQueue, tag: nat, cache: Cache) returns (answer: Answer)
    requires cache.Valid()
    modifies cq, cache.used, cache.events
    ensures Waited(answer, cache.View(), cq.arrivals) == old(Wait(cache.View(), cq.arrivals, tag))
  {
    ghost var w := Wait(cache.View(), cq.arrivals, tag);
    var found := cache.Take(tag);
    if found.Some? { return Got(found.value); }
    while cq.arrivals != []
      invariant WaitNext(cache.View(), cq.arrivals, tag) == w
      decreases |cq.arrivals|
    {
      var a := cq.Next();
      match a {
        case Shutdown => return ShutDown;
        case Timeout =>
        case Done(c) =>
          if c.tag == tag { return Got(c); }
          cache.Store(c);
      }
    }
    return Blocks;
  }

  // ---- One subscription ----

  const LAUNCH: nat := 1
  const STATUS: nat := 2
  const MESSAGE: nat := 3

  /** How a batch fares: whether it starts, when it completes and how. */
  datatype Batch = Batch(starts: bool, place: Place, success: bool)

  /** A turn of the read loop: its batch, and whether a message came with it. */
  datatype Round = Round(batch: Batch, message: bool)

  /** The read loop's completions: it goes on while messages come. */
  function Messages(rounds: seq<Round>): (cs: seq<Completion>)
    ensures forall c <- cs :: c.tag == MESSAGE
  {
    if rounds == [] || !rounds[0].batch.starts then []
    else
      [Completion(MESSAGE, rounds[0].batch.success)]
      + if rounds[0].batch.success && rounds[0].message then Messages(rounds[1..]) else []
  }

  function LaunchOf(launch: Batch): Completion {
    Completion(LAUNCH, launch.success)
  }

  /** The status batch's completion, which never comes when the batch has not started. */
  function StatusOf(status: Batch): Option<Completion> {
    if status.starts then Some(Completion(STATUS, status.success)) else None
  }

  function Opt<T>(x: Option<T>): seq<T> {
    if x.Some? then [x.value] else []
  }

  /** The completions that the waits of a subscription return, in order: each that of the batch it
      was for. */
  function Session(launch: Batch, status: Batch, rounds: seq<Round>): seq<Completion> {
    if !launch.starts then []
    else if !launch.success then [LaunchOf(launch)]
    else [LaunchOf(launch)] + Messages(rounds) + Opt(StatusOf(status))
  }

  lemma Grouped(a: multiset<Completion>, b: multiset<Completion>, c: multiset<Completion>)
    ensures a + (b + c) == a + b + c
  {
  }

  lemma {:induction false} PendingConcat(a: seq<Arrival>, b: seq<Arrival>)
    ensures Pending(a + b) == Pending(a) + Pending(b)
  {
    hide Carried;
    if a == [] {
      assert a + b == b;
    } else {
      PendingConcat(a[1..], b);
      assert (a + b)[1..] == a[1..] + b;
      Grouped(Carried(a[0]), Pending(a[1..]), Pending(b));
    }
  }

  lemma {:induction false} PendingTimeouts(n: nat)
    ensures Pending(seq(n, _ => Timeout)) == multiset{}
  {
    if n > 0 {
      PendingTimeouts(n - 1);
      assert seq(n, _ => Timeout)[1..] == seq(n - 1, _ => Timeout);
    }
  }

  lemma PendingInserted(a: seq<Arrival>, wait: seq<Arrival>, c: Completion, b: seq<Arrival>)
    requires Pending(wait) == multiset{}
    ensures Pending(a + wait + [Done(c)] + b) == Pending(a + b) + multiset{c}
  {
    assert Pending([Done(c)]) == multiset{c};
    PendingConcat(a + wait + [Done(c)], b);
    PendingConcat(a + wait, [Done(c)]);
    PendingConcat(a, wait);
    PendingConcat(a, b);
    hide Pending;
  }

  lemma PendingStarted(arrivals: seq<Arrival>, c: Completion, p: Place)
    ensures Pending(Started(arrivals, c, p)) == Pending(arrivals) + multiset{c}
  {
    var at := if p.at <= |arrivals| then p.at else |arrivals|;
    PendingTimeouts(p.timeouts);
    hide Pending;
    PendingInserted(arrivals[..at], seq(p.timeouts, _ => Timeout), c, arrivals[at..]);
    assert arrivals[..at] + arrivals[at..] == arrivals;
  }

  lemma StartedOutstanding(es: Entries, arrivals: seq<Arrival>, all: multiset<Completion>, c: Completion, p: Place)
    requires Outstanding(es, arrivals, all)
    ensures Outstanding(es, Started(arrivals, c, p), all + multiset{c})
  {
    PendingStarted(arrivals, c, p);
    hide Held, Pending;
  }

  /** With nothing outstanding the wait never ends. */
  lemma WaitInVain(es: Entries, arrivals: seq<Arrival>, tag: nat)
    requires Outstanding(es, arrivals, multiset{})
    ensures var w := Wait(es, arrivals, tag);
      w.answer == Blocks && Outstanding(w.entries, w.arrivals, multiset{})
  {
    NothingThere(es, arrivals, tag);
    WaitNextAnswer(es, arrivals, tag);
    WaitNextSuffix(es, arrivals, tag);
    WaitNextKeeps(es, arrivals, tag);
    hide Held, Pending, FirstTagged, Foreign, WaitNext, Free;
    var w := WaitNext(es, arrivals, tag);
    assert Held(w.entries) + Pending(w.arrivals) <= All(w);
  }

  lemma NothingThere(es: Entries, arrivals: seq<Arrival>, tag: nat)
    requires Outstanding(es, arrivals, multiset{})
    ensures FirstTagged(es, tag) == |es| && forall i :: 0 <= i < |arrivals| ==> !Ends(arrivals[i], tag)
  {
    assert Held(es) <= Held(es) + Pending(arrivals) && Pending(arrivals) <= Held(es) + Pending(arrivals);
    forall c ensures Some(c) !in es && Done(c) !in arrivals {
      HeldExactly(es, c);
      PendingExactly(arrivals, c);
    }
    hide Held, Pending, FirstTagged;
    EntriesWithin(es);
    ArrivalsWithin(arrivals);
  }

  lemma EntriesWithin(es: Entries)
    ensures forall i :: 0 <= i < |es| && es[i].Some? ==> Some(es[i].value) in es
  {
  }

  lemma ArrivalsWithin(arrivals: seq<Arrival>)
    ensures forall i :: 0 <= i < |arrivals| && arrivals[i].Done? ==> Done(arrivals[i].c) in arrivals
  {
  }

  /** A wait in a subscription: its own completion, with at most one other outstanding. */
  lemma WaitInSession(es: Entries, arrivals: seq<Arrival>, own: Option<Completion>,
      rest: multiset<Completion>, tag: nat)
    requires Outstanding(es, arrivals, One(own) + rest)
    requires |rest| <= 1 && forall d <- rest :: d.tag != tag
    requires if own.Some? then own.value.tag == tag else rest == multiset{}
    ensures var w := Wait(es, arrivals, tag);
      w.answer == AnswerOf(own) && Outstanding(w.entries, w.arrivals, rest)
  {
    hide Outstanding, Wait;
    if own.Some? {
      WaitGetsOwn(es, arrivals, own.value, rest);
    } else {
      assert One(own) + rest == multiset{};
      WaitInVain(es, arrivals, tag);
    }
  }

  function AnswerOf(own: Option<Completion>): Answer {
    if own.Some? then Got(own.value) else Blocks
  }

  /** All that is outstanding, cached or still to arrive. */
  ghost predicate Open(cq: CompletionQueue, cache: Cache, all: multiset<Completion>)
    reads cq, cache, cache.used, cache.events
  {
    cache.Valid() && Outstanding(cache.View(), cq.arrivals, all)
  }

  method Start(cq: CompletionQueue, cache: Cache, c: Completion, place: Place, ghost all: multiset<Completion>)
    requires Open(cq, cache, all)
    modifies cq
    ensures Open(cq, cache, all + multiset{c})
  {
    StartedOutstanding(cache.View(), cq.arrivals, all, c, place);
    hide Outstanding, Started;
    cq.StartBatch(c, place);
  }

  method Await(cq: CompletionQueue, cache: Cache, ghost own: Option<Completion>,
      ghost rest: multiset<Completion>, tag: nat)
      returns (answer: Answer)
    requires Open(cq, cache, One(own) + rest)
    requires |rest| <= 1 && forall d <- rest :: d.tag != tag
    requires if own.Some? then own.value.tag == tag else rest == multiset{}
    modifies cq, cache.used, cache.events
    ensures answer == AnswerOf(own) && Open(cq, cache, rest)
  {
    WaitInSession(cache.View(), cq.arrivals, own, rest, tag);
    hide Outstanding, Wait;
    answer := WaitForTag(cq, tag, cache);
  }

  /** A round after which the read loop goes on. */
  predicate GoesOn(r: Round) {
    r.batch.starts && r.batch.success && r.message
  }

  /** How far the loop reads: round i is read exactly when every earlier round started, succeeded and
      carried a message, and it starts itself; its completion is the one returned. */
  lemma {:induction false} ReadExactly(rounds: seq<Round>, i: nat)
    requires i < |rounds|
    ensures i < |Messages(rounds)| <==>
      rounds[i].batch.starts && forall j :: 0 <= j < i ==> GoesOn(rounds[j])
    ensures i < |Messages(rounds)| ==> Messages(rounds)[i] == Completion(3, rounds[i].batch.success)
    ensures |Messages(rounds)| <= |rounds|
    decreases |rounds|
  {
    if |rounds| > 1 {
      ReadExactly(rounds[1..], if i > 0 then i - 1 else 0);
      if i > 0 {
        assert (forall j :: 0 <= j < i ==> GoesOn(rounds[j])) <==>
          GoesOn(rounds[0]) && forall j :: 0 <= j < i - 1 ==> GoesOn(rounds[1..][j]) by {
          FirstAndRest(rounds, i);
        }
      }
    }
  }

  lemma FirstAndRest(rounds: seq<Round>, i: nat)
    requires 0 < i < |rounds|
    ensures (forall j :: 0 <= j < i ==> GoesOn(rounds[j])) <==>
      GoesOn(rounds[0]) && forall j :: 0 <= j < i - 1 ==> GoesOn(rounds[1..][j])
  {
    hide GoesOn;
    if GoesOn(rounds[0]) && forall j :: 0 <= j < i - 1 ==> GoesOn(rounds[1..][j]) {
      forall j | 0 <= j < i ensures GoesOn(rounds[j]) {
        if j > 0 { assert rounds[j] == rounds[1..][j - 1]; }
      }
    }
    if forall j :: 0 <= j < i ==> GoesOn(rounds[j]) {
      forall j | 0 <= j < i - 1 ensures GoesOn(rounds[1..][j]) {
        assert rounds[1..][j] == rounds[j + 1];
      }
    }
  }

  /** The launch comes first and the status last; nothing follows a launch that fails. */
  lemma SessionShape(launch: Batch, status: Batch, rounds: seq<Round>)
    ensures var s := Session(launch, status, rounds);
      && (s != [] <==> launch.starts)
      && (launch.starts ==> s[0] == Completion(1, launch.success))
      && (launch.starts && !launch.success ==> |s| == 1)
      && (launch.starts && launch.success ==>
          && s[1..1 + |Messages(rounds)|] == Messages(rounds)
          && s[1 + |Messages(rounds)|..] == if status.starts then [Completion(2, status.success)] else [])
  {
    hide Messages;
  }

  lemma MessagesNext(rounds: seq<Round>, i: nat)
    requires i < |rounds|
    ensures var r := rounds[i];
      Messages(rounds[i..]) == if !r.batch.starts then [] else
        [Completion(MESSAGE, r.batch.success)] + if r.batch.success && r.message then Messages(rounds[i + 1..]) else []
  {
    assert rounds[i..][1..] == rounds[i + 1..];
  }

  lemma OwnFirst(c: Completion, rest: multiset<Completion>)
    ensures rest + multiset{c} == One(Some(c)) + rest
  {
  }

  /** Where the loop stands after round i: at the rounds behind it, if it goes on. */
  lemma Continued(consumed: seq<Completion>, c: Completion,
      now: seq<Completion>, next: seq<Completion>, all: seq<Completion>)
    requires consumed + now == all
    ensures now == [c] + next ==> consumed + [c] + next == all
    ensures now == [c] ==> consumed + [c] == all
  {
  }

  /** The read loop, lines 392-418. */
  method Read(cq: CompletionQueue, cache: Cache, rounds: seq<Round>, ghost rest: multiset<Completion>)
      returns (consumed: seq<Completion>)
    requires Open(cq, cache, rest) && |rest| <= 1 && forall d <- rest :: d.tag == STATUS
    modifies cq, cache.used, cache.events
    ensures Open(cq, cache, rest) && consumed == Messages(rounds)
  {
    hide Open, Messages, One;
    consumed := [];
    var i := 0;
    while i < |rounds|
      invariant 0 <= i <= |rounds|
      invariant consumed + Messages(rounds[i..]) == Messages(rounds)
      invariant Open(cq, cache, rest)
    {
      var r := rounds[i];
      MessagesNext(rounds, i);
      if !r.batch.starts { return; }
      var c := Completion(MESSAGE, r.batch.success);
      Start(cq, cache, c, r.batch.place, rest);
      OwnFirst(c, rest);
      var answer := Await(cq, cache, Some(c), rest, MESSAGE);
      Continued(consumed, c, Messages(rounds[i..]), Messages(rounds[i + 1..]), Messages(rounds));
      if answer.Got? { consumed := consumed + [answer.c]; }
      if !answer.Got? || !answer.c.success || !r.message { return; }
      i := i + 1;
    }
    MessagesNone(rounds);
  }

  lemma MessagesNone(rounds: seq<Round>)
    ensures Messages(rounds[|rounds|..]) == []
  {
  }

  /** Lines 299-300 and 361-380: a new queue and cache and the first two batches. Whether the second
      one starts is not looked at. */
  method Launch(timeouts: nat, launch: Batch, status: Batch) returns (cq: CompletionQueue, cache: Cache)
    ensures fresh(cq) && fresh(cache) && fresh(cache.used) && fresh(cache.events)
    ensures Open(cq, cache, if launch.starts then One(Some(LaunchOf(launch))) + One(StatusOf(status)) else multiset{})
  {
    cq := new CompletionQueue(timeouts);
    cache := new Cache();
    OpenAtFirst(cq, cache, timeouts);
    hide Open;
    if launch.starts {
      ghost var first := LaunchOf(launch);
      Start(cq, cache, LaunchOf(launch), launch.place, multiset{});
      assert multiset{} + multiset{first} == multiset{first} && multiset{first} + multiset{} == multiset{first};
      if status.starts {
        Start(cq, cache, Completion(STATUS, status.success), status.place, multiset{first});
      }
    }
  }

  /** What a subscription leaves in the cache or the queue. */
  ghost function Left(launch: Batch, status: Batch): multiset<Completion> {
    if launch.starts && !launch.success then One(StatusOf(status)) else multiset{}
  }

  /** Lines 299-442 without the calls that set up and tear down. Every completion of a started batch
      is returned by the wait for that batch, once; if the launch fails, the status is left for the
      queue's destruction. The call does not return exactly when the handshake succeeds and the
      status batch has not started: the last wait then waits for nothing. */
  method Run(timeouts: nat, launch: Batch, status: Batch, rounds: seq<Round>, rejected: bool)
      returns (finished: bool, handshakeOk: bool, consumed: seq<Completion>, cq: CompletionQueue, cache: Cache)
    ensures finished <==> (launch.starts && launch.success ==> status.starts)
    ensures finished ==> (handshakeOk <==> launch.starts && launch.success && !(status.success && rejected))
    ensures consumed == Session(launch, status, rounds)
    ensures Open(cq, cache, Left(launch, status))
  {
    hide Open, Messages;
    cq, cache := Launch(timeouts, launch, status);
    consumed := [];
    handshakeOk := false;
    if !launch.starts { return true, handshakeOk, consumed, cq, cache; }
    ghost var rest := One(StatusOf(status));
    var answer := Await(cq, cache, Some(LaunchOf(launch)), rest, LAUNCH);
    if answer.Got? { consumed := consumed + [answer.c]; }
    if !answer.Got? || !answer.c.success { return true, handshakeOk, consumed, cq, cache; }
    handshakeOk := true;
    var messages := Read(cq, cache, rounds, rest);
    consumed := consumed + messages;
    assert rest + multiset{} == rest;
    answer := Await(cq, cache, StatusOf(status), multiset{}, STATUS);
    if answer.Blocks? { return false, handshakeOk, consumed, cq, cache; }
    if answer.Got? { consumed := consumed + [answer.c]; }
    if answer.Got? && answer.c.success && rejected { handshakeOk := false; }
    return true, handshakeOk, consumed, cq, cache;
  }

  lemma NothingHeld(es: Entries)
    requires forall i :: 0 <= i < |es| ==> es[i].None?
    ensures Held(es) == multiset{}
  {
    if es != [] { NothingHeld(es[..|es| - 1]); }
  }

  lemma OpenAtFirst(cq: CompletionQueue, cache: Cache, timeouts: nat)
    requires cache.Valid() && cq.arrivals == seq(timeouts, _ => Timeout) && cache.View() == [None, None, None, None]
    ensures Open(cq, cache, multiset{})
  {
    PendingTimeouts(timeouts);
    NothingHeld(cache.View());
    hide Held, Pending;
  }
}
