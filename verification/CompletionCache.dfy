/** src/geyser_client.c: completions of outstanding batches arrive in any order; those that are not
    the one waited for are kept in a cache of four entries. */
module CompletionCache {
  import opened Common

  const CACHE_ENTRIES: nat := 4

  datatype Completion = Completion(tag: nat, success: bool)

  /** What grpc_completion_queue_next returns. */
  datatype Arrival = Timeout | Shutdown | Done(c: Completion)

  /** The cache: the entries in use and what they hold. */
  type Entries = seq<Option<Completion>>

  function One(e: Option<Completion>): multiset<Completion> {
    if e.Some? then multiset{e.value} else multiset{}
  }

  function Held(es: Entries): multiset<Completion> {
    if es == [] then multiset{} else Held(es[..|es| - 1]) + One(es[|es| - 1])
  }

  function Free(es: Entries): nat {
    if es == [] then 0 else Free(es[..|es| - 1]) + if es[|es| - 1].None? then 1 else 0
  }

  /** The completions still to arrive. */
  function Pending(arrivals: seq<Arrival>): multiset<Completion> {
    if arrivals == [] then multiset{}
    else Carried(arrivals[0]) + Pending(arrivals[1..])
  }

  function Carried(a: Arrival): multiset<Completion> {
    if a.Done? then multiset{a.c} else multiset{}
  }

  // ---- The cache as a value ----

  predicate Tagged(e: Option<Completion>, tag: nat) {
    e.Some? && e.value.tag == tag
  }

  /** The first entry with this tag, |es| if there is none. */
  function FirstTagged(es: Entries, tag: nat): (i: nat)
    ensures i <= |es| && (i < |es| ==> Tagged(es[i], tag))
    ensures forall j :: 0 <= j < i ==> !Tagged(es[j], tag)
  {
    if es == [] then 0
    else if Tagged(es[0], tag) then 0
    else 1 + FirstTagged(es[1..], tag)
  }

  function FirstFree(es: Entries): (i: nat)
    ensures i <= |es| && (i < |es| ==> es[i].None?)
    ensures forall j :: 0 <= j < i ==> es[j].Some?
  {
    if es == [] then 0
    else if es[0].None? then 0
    else 1 + FirstFree(es[1..])
  }

  /** cq_cache_store: a full cache drops the completion. */
  function Stored(es: Entries, c: Completion): (es': Entries)
    ensures |es'| == |es|
  {
    var i := FirstFree(es);
    if i == |es| then es else es[i := Some(c)]
  }

  lemma {:induction false} HeldChanged(es: Entries, i: nat, e: Option<Completion>)
    requires i < |es|
    ensures Held(es[i := e]) + One(es[i]) == Held(es) + One(e)
  {
    hide One;
    var n := |es| - 1;
    if i == n {
      assert es[i := e][..n] == es[..n];
      Exchanged(Held(es[..n]), One(e), One(es[n]));
    } else {
      HeldChanged(es[..n], i, e);
      assert es[i := e][..n] == es[..n][i := e];
      Exchanged(Held(es[..n][i := e]), One(es[n]), One(es[i]));
      Exchanged(Held(es[..n]), One(es[n]), One(e));
    }
  }

  lemma Exchanged(a: multiset<Completion>, b: multiset<Completion>, c: multiset<Completion>)
    ensures a + b + c == a + c + b
  {
  }

  lemma {:induction false} FreeChanged(es: Entries, i: nat, e: Option<Completion>)
    requires i < |es|
    ensures Free(es[i := e]) + (if es[i].None? then 1 else 0) == Free(es) + if e.None? then 1 else 0
  {
    var n := |es| - 1;
    if i == n {
      assert es[i := e][..n] == es[..n];
    } else {
      FreeChanged(es[..n], i, e);
      assert es[i := e][..n] == es[..n][i := e];
    }
  }

  lemma {:induction false} HeldExactly(es: Entries, c: Completion)
    ensures c in Held(es) <==> Some(c) in es
  {
    if es != [] {
      HeldExactly(es[..|es| - 1], c);
      assert es == es[..|es| - 1] + [es[|es| - 1]];
    }
  }

  lemma {:induction false} FreeExactly(es: Entries)
    ensures Free(es) == 0 <==> FirstFree(es) == |es|
    ensures |Held(es)| + Free(es) == |es|
  {
    if es != [] {
      FreeExactly(es[..|es| - 1]);
    }
  }

  /** The cache keeps the completion exactly when an entry is free. */
  lemma StoredExactly(es: Entries, c: Completion)
    ensures if Free(es) > 0 then Held(Stored(es, c)) == Held(es) + multiset{c} && Free(Stored(es, c)) == Free(es) - 1
      else Stored(es, c) == es
  {
    FreeExactly(es);
    hide Held, Free;
    if FirstFree(es) < |es| {
      HeldChanged(es, FirstFree(es), Some(c));
      FreeChanged(es, FirstFree(es), Some(c));
    }
  }

  // ---- Waiting ----

  datatype Answer = Got(c: Completion) | ShutDown | Blocks

  datatype Waited = Waited(answer: Answer, entries: Entries, arrivals: seq<Arrival>)

  /** The loop of cq_wait_for_tag, lines 111-126. */
  function WaitNext(es: Entries, arrivals: seq<Arrival>, tag: nat): (w: Waited)
    ensures |w.entries| == |es|
    decreases |arrivals|
  {
    if arrivals == [] then Waited(Blocks, es, [])
    else
      match arrivals[0]
      case Shutdown => Waited(ShutDown, es, arrivals[1..])
      case Timeout => WaitNext(es, arrivals[1..], tag)
      case Done(c) =>
        if c.tag == tag then Waited(Got(c), es, arrivals[1..])
        else WaitNext(Stored(es, c), arrivals[1..], tag)
  }

  function Wait(es: Entries, arrivals: seq<Arrival>, tag: nat): Waited {
    var i := FirstTagged(es, tag);
    if i < |es| then Waited(Got(es[i].value), es[i := None], arrivals) else WaitNext(es, arrivals, tag)
  }

  predicate Ends(a: Arrival, tag: nat) {
    a.Shutdown? || (a.Done? && a.c.tag == tag)
  }

  /** Completions of other tags that arrive before the wait ends. */
  function Foreign(arrivals: seq<Arrival>, tag: nat): nat {
    if arrivals == [] || Ends(arrivals[0], tag) then 0
    else (if arrivals[0].Done? then 1 else 0) + Foreign(arrivals[1..], tag)
  }

  function Consumed(a: Answer): multiset<Completion> {
    if a.Got? then multiset{a.c} else multiset{}
  }

  lemma {:induction false} WaitNextAnswer(es: Entries, arrivals: seq<Arrival>, tag: nat)
    ensures var w := WaitNext(es, arrivals, tag);
      && (w.answer.Got? ==> w.answer.c.tag == tag)
      && (w.answer.ShutDown? ==> Shutdown in arrivals)
      && (w.answer.Blocks? <==> forall i :: 0 <= i < |arrivals| ==> !Ends(arrivals[i], tag))
    decreases |arrivals|
  {
    hide Stored;
    if arrivals != [] && !Ends(arrivals[0], tag) {
      WaitNextAnswer(if arrivals[0].Done? then Stored(es, arrivals[0].c) else es, arrivals[1..], tag);
      var w := WaitNext(es, arrivals, tag);
      if w.answer.Blocks? {
        forall i | 0 <= i < |arrivals| ensures !Ends(arrivals[i], tag) {
          assert i > 0 ==> arrivals[i] == arrivals[1..][i - 1];
        }
      }
    }
  }

  lemma {:induction false} WaitNextSuffix(es: Entries, arrivals: seq<Arrival>, tag: nat)
    ensures var w := WaitNext(es, arrivals, tag);
      |w.arrivals| <= |arrivals| && w.arrivals == arrivals[|arrivals| - |w.arrivals|..]
    decreases |arrivals|
  {
    hide Stored;
    if arrivals != [] && !Ends(arrivals[0], tag) {
      WaitNextSuffix(if arrivals[0].Done? then Stored(es, arrivals[0].c) else es, arrivals[1..], tag);
    }
  }

  /** All completions known: held, still to arrive, or handed to the caller. */
  function All(w: Waited): multiset<Completion> {
    Held(w.entries) + Pending(w.arrivals) + Consumed(w.answer)
  }

  /** No completion is invented, and none is lost exactly when the cache has room for the foreign
      ones that come first. */
  lemma {:induction false} WaitNextKeeps(es: Entries, arrivals: seq<Arrival>, tag: nat)
    ensures All(WaitNext(es, arrivals, tag)) <= Held(es) + Pending(arrivals)
    ensures All(WaitNext(es, arrivals, tag)) == Held(es) + Pending(arrivals) <==> Foreign(arrivals, tag) <= Free(es)
    decreases |arrivals|
  {
    hide Held, Free, Stored;
    if arrivals != [] && !Ends(arrivals[0], tag) {
      var a := arrivals[0];
      if a.Done? {
        StoredExactly(es, a.c);
        WaitNextKeeps(Stored(es, a.c), arrivals[1..], tag);
        hide Foreign, All;
        assert Pending(arrivals) == multiset{a.c} + Pending(arrivals[1..]);
        Rearranged(All(WaitNext(es, arrivals, tag)), Held(es), Pending(arrivals[1..]), a.c);
      } else {
        WaitNextKeeps(es, arrivals[1..], tag);
      }
    }
  }

  lemma Rearranged(all: multiset<Completion>, held: multiset<Completion>, rest: multiset<Completion>, c: Completion)
    ensures held + (multiset{c} + rest) == (held + multiset{c}) + rest
    ensures all <= held + rest ==> all <= held + (multiset{c} + rest) && all != held + (multiset{c} + rest)
  {
    assert all <= held + rest ==> all[c] < (held + (multiset{c} + rest))[c];
  }

  // ---- A wait among outstanding batches ----

  lemma {:induction false} PendingExactly(arrivals: seq<Arrival>, c: Completion)
    ensures c in Pending(arrivals) <==> Done(c) in arrivals
  {
    if arrivals != [] {
      PendingExactly(arrivals[1..], c);
      assert arrivals == [arrivals[0]] + arrivals[1..];
    }
  }

  /** The completion waited for is not foreign. */
  lemma {:induction false} ForeignFew(arrivals: seq<Arrival>, c: Completion)
    requires Done(c) in arrivals
    ensures Foreign(arrivals, c.tag) + 1 <= |Pending(arrivals)|
  {
    if !Ends(arrivals[0], c.tag) {
      assert Done(c) in arrivals[1..];
      ForeignFew(arrivals[1..], c);
    } else {
      PendingExactly(arrivals, c);
      assert Pending(arrivals) == Pending(arrivals) - multiset{c} + multiset{c};
    }
  }

  lemma Cancelled(a: multiset<Completion>, c: Completion, rest: multiset<Completion>)
    requires a + multiset{c} == multiset{c} + rest
    ensures a == rest
  {
    forall d ensures a[d] == rest[d] {
      assert (a + multiset{c})[d] == (multiset{c} + rest)[d];
    }
  }

  ghost predicate Outstanding(es: Entries, arrivals: seq<Arrival>, all: multiset<Completion>) {
    |es| == CACHE_ENTRIES && Shutdown !in arrivals && Held(es) + Pending(arrivals) == all
  }

  lemma WaitCached(es: Entries, arrivals: seq<Arrival>, c: Completion, rest: multiset<Completion>)
    requires Outstanding(es, arrivals, multiset{c} + rest) && forall d <- rest :: d.tag != c.tag
    requires FirstTagged(es, c.tag) < |es|
    ensures var w := Wait(es, arrivals, c.tag);
      w.answer == Got(c) && Outstanding(w.entries, w.arrivals, rest)
  {
    var i := FirstTagged(es, c.tag);
    var found := es[i].value;
    HeldExactly(es, found);
    hide Held, Pending, FirstTagged;
    assert found in Held(es) + Pending(arrivals);
    assert found == c;
    HeldChanged(es, i, None);
    var held := Held(es[i := None]);
    assert held + multiset{c} == Held(es);
    assert held + Pending(arrivals) + multiset{c} == multiset{c} + rest;
    Cancelled(held + Pending(arrivals), c, rest);
  }

  lemma WaitArriving(es: Entries, arrivals: seq<Arrival>, c: Completion, rest: multiset<Completion>)
    requires Outstanding(es, arrivals, multiset{c} + rest)
    requires (forall d <- rest :: d.tag != c.tag) && |rest| <= CACHE_ENTRIES
    requires FirstTagged(es, c.tag) == |es|
    ensures var w := Wait(es, arrivals, c.tag);
      w.answer == Got(c) && Outstanding(w.entries, w.arrivals, rest)
  {
    HeldExactly(es, c);
    PendingExactly(arrivals, c);
    FreeExactly(es);
    WaitNextAnswer(es, arrivals, c.tag);
    WaitNextKeeps(es, arrivals, c.tag);
    WaitNextSuffix(es, arrivals, c.tag);
    hide Held, Pending, FirstTagged, Foreign, WaitNext, Free;
    assert c in Held(es) + Pending(arrivals);
    assert Done(c) in arrivals;
    ForeignFew(arrivals, c);
    assert |Held(es) + Pending(arrivals)| == 1 + |rest|;
    assert Foreign(arrivals, c.tag) <= Free(es);
    var w := WaitNext(es, arrivals, c.tag);
    var got := w.answer.c;
    assert All(w) == multiset{c} + rest;
    assert got in All(w);
    assert got == c;
    Cancelled(Held(w.entries) + Pending(w.arrivals), c, rest);
  }

  /** While the batch waited for and at most four others are outstanding, the wait returns the
      completion of its own batch, whatever the order of arrival, and keeps all the others. */
  lemma WaitGetsOwn(es: Entries, arrivals: seq<Arrival>, c: Completion, rest: multiset<Completion>)
    requires Outstanding(es, arrivals, multiset{c} + rest)
    requires (forall d <- rest :: d.tag != c.tag) && |rest| <= 4
    ensures var w := Wait(es, arrivals, c.tag);
      w.answer == Got(c) && Outstanding(w.entries, w.arrivals, rest)
  {
    hide Outstanding, Wait;
    if FirstTagged(es, c.tag) < |es| {
      WaitCached(es, arrivals, c, rest);
    } else {
      WaitArriving(es, arrivals, c, rest);
    }
  }
}
