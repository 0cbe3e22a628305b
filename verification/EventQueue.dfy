/** src/event_queue.c, the data structure: a ring of cells. Each method is one lock-held section, with
    the loop test of the caller's retry as its first branch, and is proved to take the abstract step
    of QueueProtocol on the events that the ring holds. */
module EventQueue {
  import opened QueueProtocol

  /** `n` cells from `head` on, wrapping around at the end of the array. */
  ghost function Ring<E>(cells: seq<E>, head: nat, n: nat): (s: seq<E>)
    requires n <= |cells| && (n > 0 ==> head < |cells|)
    ensures |s| == n && forall i :: 0 <= i < n ==> s[i] == cells[(head + i) % |cells|]
  {
    seq(n, i requires 0 <= i < n => cells[(head + i) % |cells|])
  }

  lemma WrapIsMod(capacity: nat, x: nat)
    requires 0 < capacity && x < 2 * capacity
    ensures x % capacity == if x < capacity then x else x - capacity
  {
    if x >= capacity {
      assert x == capacity * 1 + (x - capacity);
    }
  }

  lemma RingPush<E>(cells: seq<E>, head: nat, n: nat, e: E)
    requires n < |cells| && head < |cells|
    ensures var tail := (head + n) % |cells|;
      tail < |cells| && Ring(cells[tail := e], head, n + 1) == Ring(cells, head, n) + [e]
  {
    var tail := (head + n) % |cells|;
    WrapIsMod(|cells|, head + n);
    var s, t := Ring(cells[tail := e], head, n + 1), Ring(cells, head, n) + [e];
    forall i | 0 <= i <= n ensures s[i] == t[i] {
      WrapIsMod(|cells|, head + i);
    }
  }

  lemma TailAdvances(capacity: nat, head: nat, n: nat)
    requires n < capacity && head < capacity
    ensures ((head + n) % capacity + 1) % capacity == (head + (n + 1)) % capacity
  {
    WrapIsMod(capacity, head + n);
    WrapIsMod(capacity, head + n + 1);
    WrapIsMod(capacity, (head + n) % capacity + 1);
  }

  lemma RingPop<E>(cells: seq<E>, head: nat, head': nat, n: nat)
    requires 0 < n <= |cells| && head < |cells| && head' == (head + 1) % |cells|
    ensures head' < |cells| && Ring(cells, head', n - 1) == Ring(cells, head, n)[1..]
    ensures Ring(cells, head, n)[0] == cells[head]
  {
    WrapIsMod(|cells|, head);
    WrapIsMod(|cells|, head + 1);
    var s, t := Ring(cells, head', n - 1), Ring(cells, head, n)[1..];
    forall i | 0 <= i < n - 1 ensures s[i] == t[i] {
      WrapIsMod(|cells|, head' + i);
      WrapIsMod(|cells|, head + (i + 1));
    }
  }

  lemma HeadAdvances(capacity: nat, head: nat, head': nat, n: nat, n': nat)
    requires 0 < n <= capacity && head < capacity && head' == (head + 1) % capacity && n' == n - 1
    ensures (head' + n') % capacity == (head + n) % capacity
  {
    WrapIsMod(capacity, head + 1);
    WrapIsMod(capacity, head + n);
    WrapIsMod(capacity, head' + n');
  }

  class EventQueue<E(0,==)> {
    const capacity: nat
    const buffer: array<E>
    var head: nat
    var tail: nat
    var size: nat
    var closed: bool
    var pushes: nat
    var pops: nat
    var highWater: nat
    ghost var notFull: CondVar
    ghost var notEmpty: CondVar
    ghost var pushed: seq<E>
    ghost var popped: seq<E>

    ghost predicate Valid()
      reads this
    {
      && buffer.Length == capacity && size <= capacity
      && (capacity == 0 ==> head == 0 && tail == 0)
      && (capacity > 0 ==> head < capacity && tail == (head + size) % capacity)
    }

    /** Oldest first. */
    ghost function Stored(): (s: seq<E>)
      reads this, buffer
      requires Valid()
      ensures |s| == size
    {
      Ring(buffer[..], head, size)
    }

    ghost function View(): Queue<E>
      reads this, buffer
      requires Valid()
    {
      Queue(capacity, Stored(), closed, notFull, notEmpty, pushed, popped, pushes, pops, highWater)
    }

    /** event_queue_create */
    constructor (capacity: nat)
      ensures Valid() && View() == Init(capacity) && fresh(buffer)
    {
      this.capacity := capacity;
      buffer := new E[capacity];
      head, tail, size, closed := 0, 0, 0, false;
      pushes, pops, highWater := 0, 0, 0;
      notFull, notEmpty := CondVar({}, {}), CondVar({}, {});
      pushed, popped := [], [];
      new;
      if capacity > 0 { WrapIsMod(capacity, 0); }
      assert Stored() == [];
    }

    /** Lines 59-61. */
    method Enqueue(e: E)
      requires Valid() && size < capacity
      modifies buffer, `tail, `size
      ensures Valid() && size == old(size) + 1 && Stored() == old(Stored()) + [e]
    {
      RingPush(buffer[..], head, size, e);
      TailAdvances(capacity, head, size);
      hide Ring;
      buffer[tail] := e;
      assert buffer[..] == old(buffer[..])[tail := e];
      tail := (tail + 1) % capacity;
      size := size + 1;
    }

    /** Lines 85-87. */
    method Dequeue() returns (e: E)
      requires Valid() && 0 < size
      modifies `head, `size
      ensures Valid() && size == old(size) - 1 && e == old(Stored())[0] && Stored() == old(Stored())[1..]
    {
      var next := (head + 1) % capacity;
      RingPop(buffer[..], head, next, size);
      HeadAdvances(capacity, head, next, size, size - 1);
      hide Ring;
      e := buffer[head];
      head := next;
      size := size - 1;
    }

    /** event_queue_push, one section of thread `t`; the signal wakes `wake`. */
    method PushSection(t: Thread, e: E, ghost wake: set<Thread>) returns (r: Outcome<E>)
      requires Valid()
      modifies this, buffer
      ensures Valid() && (View(), r) == PushStep(old(View()), t, e, wake)
    {
      hide Ring;
      notFull := notFull.Resume(t);
      if !closed && size == capacity {
        notFull := notFull.Wait(t);
        return Blocked;
      }
      if closed {
        return Refused;
      }
      Enqueue(e);
      pushes := pushes + 1;
      if size > highWater { highWater := size; }
      notEmpty := notEmpty.Wake(wake);
      pushed := pushed + [e];
      return Accepted;
    }

    /** event_queue_pop, one section of thread `t`. */
    method PopSection(t: Thread, block: bool, ghost wake: set<Thread>) returns (r: Outcome<E>)
      requires Valid()
      modifies this
      ensures Valid() && (View(), r) == PopStep(old(View()), t, block, wake)
    {
      hide Ring;
      notEmpty := notEmpty.Resume(t);
      if !closed && size == 0 {
        if !block {
          return Refused;
        }
        notEmpty := notEmpty.Wait(t);
        return Blocked;
      }
      if size == 0 {
        return Refused;
      }
      var e := Dequeue();
      pops := pops + 1;
      notFull := notFull.Wake(wake);
      popped := popped + [e];
      return Popped(e);
    }

    /** event_queue_close */
    method CloseSection()
      requires Valid()
      modifies this
      ensures Valid() && View() == CloseStep(old(View()))
    {
      closed := true;
      notEmpty := notEmpty.Broadcast();
      notFull := notFull.Broadcast();
    }

    /** The scheduler wakes threads; the ring does not change. */
    ghost method WakeupSection(full: set<Thread>, empty: set<Thread>)
      requires Valid()
      modifies `notFull, `notEmpty
      ensures Valid() && (View(), Done) == QueueProtocol.Step(old(View()), Wakeup(full, empty))
    {
      hide Ring;
      notFull := notFull.Wake(full);
      notEmpty := notEmpty.Wake(empty);
    }

    /** What cell i behind the head holds. */
    ghost function Cell(i: nat): E
      reads this, buffer
      requires Valid() && i < size
    {
      buffer[(head + i) % capacity]
    }

    /** The cells from the head on hold the accepted events that have not been handed out, in order. */
    ghost predicate InOrder()
      reads this, buffer
      requires Valid()
    {
      |pushed| == |popped| + size && forall i: nat {:trigger Cell(i)} :: i < size ==> Cell(i) == pushed[|popped| + i]
    }

    /** Any one section. */
    method Section(a: Action<E>)
      requires Valid()
      modifies this, buffer
      ensures Valid() && View() == QueueProtocol.Step(old(View()), a).0
    {
      hide Ring, PushStep, PopStep, CloseStep;
      match a {
        case Push(t, e, wake) =>
          var _ := PushSection(t, e, wake);
        case Pop(t, block, wake) =>
          var _ := PopSection(t, block, wake);
        case Close =>
          CloseSection();
        case Wakeup(full, empty) =>
          WakeupSection(full, empty);
      }
    }

    /** An interleaving of sections on one ring is a run of the protocol, and leaves the events in order
        in their cells. */
    method Drive(actions: seq<Action<E>>)
      requires Valid() && Inv(View()) && Legal(View(), actions)
      modifies this, buffer
      ensures Valid() && View() == Run(old(View()), actions) && Inv(View())
      ensures InOrder()
    {
      ghost var q := View();
      RunKeeps(q, actions);
      hide *;
      var k := 0;
      RunAll(q, actions);
      while k < |actions|
        invariant 0 <= k <= |actions|
        invariant Valid() && Run(View(), actions[k..]) == Run(q, actions)
      {
        RunRest(View(), actions, k);
        Section(actions[k]);
        k := k + 1;
      }
      RunNone(View(), actions);
      CellsOf();
    }

    lemma CellsOf()
      requires Valid() && Inv(View())
      ensures InOrder()
    {
      StoredLength(View());
      hide Inv, Ring;
      forall i: nat {:trigger Cell(i)} | i < size ensures Cell(i) == pushed[|popped| + i] {
        CellHolds(View(), buffer[..], head, i);
      }
    }
  }

  lemma RunAll<E>(q: Queue<E>, actions: seq<Action<E>>)
    ensures Run(q, actions[0..]) == Run(q, actions)
  {
    assert actions[0..] == actions;
  }

  lemma RunRest<E>(q: Queue<E>, actions: seq<Action<E>>, k: nat)
    requires k < |actions|
    ensures Run(q, actions[k..]) == Run(QueueProtocol.Step(q, actions[k]).0, actions[k + 1..])
  {
    hide QueueProtocol.Step;
    assert actions[k..][1..] == actions[k + 1..];
  }

  lemma RunNone<E>(q: Queue<E>, actions: seq<Action<E>>)
    ensures Run(q, actions[|actions|..]) == q
  {
  }

  lemma StoredLength<E>(q: Queue<E>)
    requires Inv(q)
    ensures |q.pushed| == |q.popped| + |q.stored|
  {
  }

  lemma CellHolds<E>(q: Queue<E>, cells: seq<E>, head: nat, i: nat)
    requires Inv(q) && i < |q.stored| <= |cells| && head < |cells| && q.stored == Ring(cells, head, |q.stored|)
    ensures |q.popped| + i < |q.pushed| && cells[(head + i) % |cells|] == q.pushed[|q.popped| + i]
  {
    hide Apart, NoLostWakeup;
    assert q.pushed == q.popped + q.stored;
    var ring := Ring(cells, head, |q.stored|);
    assert q.stored[i] == ring[i];
    assert (q.popped + q.stored)[|q.popped| + i] == q.stored[i];
  }
}
