/** The in-process read-write lock (src/daemon/file-lock.ts). The event loop makes every operation atomic,
    so a run is a sequence of events. */
module RWLock {
  datatype Mode = Shared | Exclusive

  /** One call to acquire. */
  datatype Waiter = Waiter(id: nat, mode: Mode)

  /** The lock's fields, and who holds it. */
  datatype State = State(readers: nat, writer: bool, queue: seq<Waiter>, holders: set<Waiter>)

  /** A release is paired: it is the holder who calls it. */
  datatype Event = Acquire(w: Waiter) | Release(w: Waiter) | Timeout(w: Waiter)

  function Idle(): State { State(0, false, [], {}) }

  predicate HasExclusive(queue: seq<Waiter>)
  {
    exists i :: 0 <= i < |queue| && queue[i].mode == Exclusive
  }

  function Drain(s: State): State
    decreases |s.queue|
  {
    if s.queue == [] then s
    else
      var next, rest := s.queue[0], s.queue[1..];
      if next.mode == Exclusive then
        if s.readers == 0 && !s.writer then State(s.readers, true, rest, s.holders + {next}) else s
      else if s.writer then s
      else Drain(State(s.readers + 1, s.writer, rest, s.holders + {next}))
  }

  function Remove(queue: seq<Waiter>, w: Waiter): (r: seq<Waiter>)
    ensures |r| <= |queue|
  {
    if queue == [] then [] else if queue[0] == w then queue[1..] else [queue[0]] + Remove(queue[1..], w)
  }

  function Step(s: State, e: Event): State
  {
    match e
    case Acquire(w) =>
      if w.mode == Shared && !s.writer && !HasExclusive(s.queue) then
        s.(readers := s.readers + 1, holders := s.holders + {w})
      else if w.mode == Exclusive && !s.writer && s.readers == 0 then
        s.(writer := true, holders := s.holders + {w})
      else s.(queue := s.queue + [w])
    case Release(w) =>
      Drain(if s.writer then s.(writer := false, holders := s.holders - {w})
            else if s.readers > 0 then s.(readers := s.readers - 1, holders := s.holders - {w})
            else s)
    case Timeout(w) => s.(queue := Remove(s.queue, w))
  }

  predicate Enabled(s: State, e: Event)
  {
    match e
    case Acquire(w) => w !in s.holders && w !in s.queue
    case Release(w) => w in s.holders
    case Timeout(_) => true
  }

  function Run(s: State, es: seq<Event>): State
    decreases |es|
  {
    if es == [] then s else Run(Step(s, es[0]), es[1..])
  }

  predicate Paired(s: State, es: seq<Event>)
    decreases |es|
  {
    es == [] || (Enabled(s, es[0]) && Paired(Step(s, es[0]), es[1..]))
  }

  // ---- the invariant ------------------------------------------------------

  ghost predicate Distinct(queue: seq<Waiter>)
  {
    forall i, j :: 0 <= i < j < |queue| ==> queue[i] != queue[j]
  }

  /** The counters describe the holders, and nobody is both waiting and holding. */
  ghost predicate Counted(s: State)
  {
    && (if s.writer then s.readers == 0 && |s.holders| == 1 else s.readers == |s.holders|)
    && (forall w :: w in s.holders ==> w.mode == if s.writer then Exclusive else Shared)
    && Distinct(s.queue) && (forall i :: 0 <= i < |s.queue| ==> s.queue[i] !in s.holders)
  }

  ghost predicate Inv(s: State)
  {
    Counted(s) && (s.queue != [] ==> s.holders != {})
  }

  /** Draining leaves nobody waiting for a lock nobody holds. */
  lemma {:induction false} DrainInv(s: State)
    requires Counted(s)
    ensures Inv(Drain(s))
    decreases |s.queue|
  {
    if s.queue != [] {
      var next, rest := s.queue[0], s.queue[1..];
      assert forall i :: 0 <= i < |rest| ==> rest[i] == s.queue[i + 1];
      if next.mode == Shared && !s.writer {
        DrainInv(State(s.readers + 1, s.writer, rest, s.holders + {next}));
      } else if next.mode == Exclusive && s.readers == 0 && !s.writer {
        assert s.holders == {};
        assert s.holders + {next} == {next};
      }
    }
  }

  lemma {:induction false} RemoveKeeps(queue: seq<Waiter>, w: Waiter)
    requires Distinct(queue)
    ensures Distinct(Remove(queue, w)) && w !in Remove(queue, w)
    ensures forall x :: x in Remove(queue, w) <==> x in queue && x != w
  {
    if queue != [] {
      var rest := queue[1..];
      assert forall i :: 0 <= i < |rest| ==> rest[i] == queue[i + 1];
      assert queue == [queue[0]] + rest;
      RemoveKeeps(rest, w);
      assert queue[0] !in rest;
    }
  }

  lemma StepInv(s: State, e: Event)
    requires Inv(s) && Enabled(s, e)
    ensures Inv(Step(s, e))
  {
    match e
    case Acquire(w) =>
      if w.mode == Shared && !s.writer && !HasExclusive(s.queue) {
      } else if w.mode == Exclusive && !s.writer && s.readers == 0 {
        assert s.holders == {};
        assert s.holders + {w} == {w};
      } else {
        HeldWhenEnqueued(s, w);
      }
    case Release(w) =>
      var left := if s.writer then s.(writer := false, holders := s.holders - {w})
                  else s.(readers := s.readers - 1, holders := s.holders - {w});
      SetMinus(s.holders, w);
      assert s.writer ==> s.holders - {w} == {};
      DrainInv(left);
    case Timeout(w) =>
      RemoveKeeps(s.queue, w);
      var q := Remove(s.queue, w);
      forall i | 0 <= i < |q|
        ensures q[i] !in s.holders && s.queue != []
      {
        assert q[i] in q;
      }
  }

  lemma SetMinus(s: set<Waiter>, w: Waiter)
    requires w in s
    ensures |s - {w}| == |s| - 1
  {
  }

  /** An arrival only queues up behind a held lock. */
  lemma HeldWhenEnqueued(s: State, w: Waiter)
    requires Inv(s)
    requires !(w.mode == Shared && !s.writer && !HasExclusive(s.queue))
    requires !(w.mode == Exclusive && !s.writer && s.readers == 0)
    ensures s.holders != {}
  {
    assert HasExclusive(s.queue) ==> s.queue != [];
  }

  /** Safety and no lost wakeup, over every run of paired releases: an exclusive holder is alone, and
      somebody waits only while somebody holds. */
  lemma {:induction false} RunSafe(s: State, es: seq<Event>)
    requires Inv(s) && Paired(s, es)
    ensures Inv(Run(s, es))
    ensures forall w :: w in Run(s, es).holders && w.mode == Exclusive ==> Run(s, es).holders == {w}
    ensures Run(s, es).queue != [] ==> Run(s, es).holders != {}
    decreases |es|
  {
    if es == [] {
      forall w | w in s.holders && w.mode == Exclusive
        ensures s.holders == {w}
      {
        SetMinus(s.holders, w);
        assert s.holders - {w} == {};
      }
    } else {
      StepInv(s, es[0]);
      RunSafe(Step(s, es[0]), es[1..]);
    }
  }

  // ---- progress of an exclusive waiter ------------------------------------

  /** The place of a waiter in the queue. */
  function Place(queue: seq<Waiter>, x: Waiter): (i: nat)
    requires x in queue
    ensures i < |queue| && queue[i] == x && x !in queue[..i]
  {
    if queue[0] == x then 0 else 1 + Place(queue[1..], x)
  }

  function Ahead(s: State, x: Waiter): seq<Waiter>
    requires x in s.queue
  {
    s.queue[..Place(s.queue, x)]
  }

  /** Holders and waiters in front. */
  function Potential(s: State, x: Waiter): nat
    requires x in s.queue
  {
    |s.holders| + Place(s.queue, x)
  }

  /** Everybody who may run before x does. */
  function Before(s: State, x: Waiter): set<Waiter>
    requires x in s.queue
  {
    s.holders + set w | w in Ahead(s, x)
  }

  lemma PlaceInTail(queue: seq<Waiter>, x: Waiter)
    requires x in queue && queue[0] != x
    ensures x in queue[1..] && Place(queue, x) == 1 + Place(queue[1..], x)
    ensures queue[..Place(queue, x)] == [queue[0]] + queue[1..][..Place(queue[1..], x)]
  {
    assert queue == [queue[0]] + queue[1..];
    var i := Place(queue[1..], x);
    assert queue[..1 + i] == [queue[0]] + queue[1..][..i];
  }

  lemma DistinctTail(queue: seq<Waiter>)
    requires Distinct(queue) && queue != []
    ensures Distinct(queue[1..]) && queue[0] !in queue[1..]
  {
    assert forall i :: 0 <= i < |queue| - 1 ==> queue[1..][i] == queue[i + 1];
  }

  /** Moving the head of the queue to the holders does not change what is before x. */
  lemma Promoted(s: State, t: State, x: Waiter)
    requires x in s.queue && s.queue[0] != x && s.queue[0] !in s.holders
    requires t.queue == s.queue[1..] && t.holders == s.holders + {s.queue[0]}
    ensures x in t.queue && Potential(t, x) == Potential(s, x) && Before(t, x) == Before(s, x)
  {
    PlaceInTail(s.queue, x);
    assert Ahead(s, x) == [s.queue[0]] + Ahead(t, x);
    hide Place, Ahead;
    assert |t.holders| == |s.holders| + 1;
  }

  lemma {:induction false} DrainProgress(s: State, x: Waiter)
    requires Counted(s) && x in s.queue && x.mode == Exclusive && x in Drain(s).queue
    ensures Potential(Drain(s), x) == Potential(s, x) && Before(Drain(s), x) == Before(s, x)
    decreases |s.queue|
  {
    var next, rest := s.queue[0], s.queue[1..];
    DistinctTail(s.queue);
    assert s.queue == [next] + rest;
    assert next !in s.holders;
    if next.mode == Shared && !s.writer {
      var t := State(s.readers + 1, s.writer, rest, s.holders + {next});
      CountedTail(s);
      hide Potential, Before, Counted;
      Promoted(s, t, x);
      DrainProgress(t, x);
    } else if next.mode == Exclusive && s.readers == 0 && !s.writer {
      hide Potential, Before, Counted;
      Promoted(s, State(s.readers, true, rest, s.holders + {next}), x);
    }
  }

  lemma CountedTail(s: State)
    requires Counted(s) && s.queue != [] && s.queue[0].mode == Shared && !s.writer
    ensures Counted(State(s.readers + 1, s.writer, s.queue[1..], s.holders + {s.queue[0]}))
  {
    DistinctTail(s.queue);
    var rest := s.queue[1..];
    assert forall i :: 0 <= i < |rest| ==> rest[i] in rest && rest[i] == s.queue[i + 1];
  }

  lemma {:induction false} RemoveProgress(queue: seq<Waiter>, w: Waiter, x: Waiter)
    requires x in queue && x in Remove(queue, w) && Distinct(queue)
    ensures Place(Remove(queue, w), x) <= Place(queue, x)
    ensures forall y :: y in Remove(queue, w)[..Place(Remove(queue, w), x)] ==> y in queue[..Place(queue, x)]
  {
    var rest := queue[1..];
    DistinctTail(queue);
    if queue[0] == w {
      PlaceInTail(queue, x);
    } else if queue[0] != x {
      var r := Remove(queue, w);
      assert r[0] == queue[0] && r[1..] == Remove(rest, w);
      PlaceInTail(queue, x);
      PlaceInTail(r, x);
      RemoveProgress(rest, w, x);
    }
  }

  lemma PlaceAppend(queue: seq<Waiter>, x: Waiter, w: Waiter)
    requires x in queue
    ensures Place(queue + [w], x) == Place(queue, x)
    ensures (queue + [w])[..Place(queue, x)] == queue[..Place(queue, x)]
    decreases |queue|
  {
    if queue[0] != x {
      PlaceAppend(queue[1..], x, w);
      assert (queue + [w])[1..] == queue[1..] + [w];
    }
  }

  function Count(e: Event): nat { if e.Release? then 1 else 0 }

  /** While x waits, a release brings it closer and no event pushes it back or lets anybody new in front. */
  lemma StepProgress(s: State, e: Event, x: Waiter)
    requires Inv(s) && Enabled(s, e)
    requires x in s.queue && x.mode == Exclusive && x in Step(s, e).queue
    ensures Potential(Step(s, e), x) + Count(e) <= Potential(s, x)
    ensures Before(Step(s, e), x) <= Before(s, x)
  {
    var i := Place(s.queue, x);
    assert s.queue[i].mode == Exclusive && HasExclusive(s.queue);
    match e
    case Acquire(w) =>
      assert s.holders != {};
      assert !s.writer ==> s.readers == |s.holders| > 0;
      PlaceAppend(s.queue, x, w);
    case Release(w) =>
      var left := if s.writer then s.(writer := false, holders := s.holders - {w})
                  else s.(readers := s.readers - 1, holders := s.holders - {w});
      SetMinus(s.holders, w);
      assert s.writer ==> s.holders - {w} == {};
      DrainProgress(left, x);
    case Timeout(w) =>
      RemoveProgress(s.queue, w, x);
  }

  predicate Waits(s: State, es: seq<Event>, x: Waiter)
    decreases |es|
  {
    x in s.queue && (es == [] || Waits(Step(s, es[0]), es[1..], x))
  }

  function Releases(es: seq<Event>): nat
  {
    if es == [] then 0 else Count(es[0]) + Releases(es[1..])
  }

  /** Over any run through which an exclusive waiter still waits there have been fewer releases than it had
      holders and waiters before it, so that many releases grant it; and whoever holds the lock meanwhile
      was already before it when the run began: no later arrival overtakes it. */
  lemma {:induction false} ExclusiveGranted(s: State, es: seq<Event>, x: Waiter)
    requires Inv(s) && Paired(s, es) && x.mode == Exclusive && Waits(s, es, x)
    ensures Releases(es) < |s.holders| + Place(s.queue, x)
    ensures Run(s, es).holders <= s.holders + set w | w in s.queue[..Place(s.queue, x)]
    decreases |es|
  {
    if es == [] {
      assert s.holders != {};
    } else {
      StepInv(s, es[0]);
      StepProgress(s, es[0], x);
      ExclusiveGranted(Step(s, es[0]), es[1..], x);
    }
  }

  // ---- who is overtaken ---------------------------------------------------

  /** An arrival walks past a waiting queue exactly when it is shared, nobody writes, and no exclusive waiter is
      queued: the waiters it overtakes are all shared. */
  lemma GrantedAtOnce(s: State, w: Waiter)
    requires Inv(s) && Enabled(s, Acquire(w)) && s.queue != []
    ensures w in Step(s, Acquire(w)).holders <==> w.mode == Shared && !s.writer && !HasExclusive(s.queue)
    ensures w !in Step(s, Acquire(w)).holders ==> Step(s, Acquire(w)).queue == s.queue + [w]
  {
    assert !s.writer ==> s.readers == |s.holders| > 0;
  }

  /** Under readers the queue is headed by an exclusive waiter. */
  predicate HeadBlocks(s: State)
  {
    s.queue != [] && !s.writer ==> s.queue[0].mode == Exclusive
  }

  /** The exclusive head of a queue under readers times out, and a shared waiter is behind it. */
  predicate Strands(s: State, e: Event)
  {
    e.Timeout? && !s.writer && |s.queue| > 1 && e.w == s.queue[0] && s.queue[1].mode == Shared
  }

  lemma {:induction false} DrainBlocks(s: State)
    ensures HeadBlocks(Drain(s))
    decreases |s.queue|
  {
    if s.queue != [] && s.queue[0].mode == Shared && !s.writer {
      DrainBlocks(State(s.readers + 1, s.writer, s.queue[1..], s.holders + {s.queue[0]}));
    }
  }

  /** Only one thing leaves a shared waiter at the head of a queue under readers: a timeout of the exclusive
      waiter in front of it, which wakes nobody. */
  lemma HeadExact(s: State, e: Event)
    requires Inv(s) && Enabled(s, e) && HeadBlocks(s)
    ensures HeadBlocks(Step(s, e)) <==> !Strands(s, e)
  {
    match e
    case Acquire(w) =>
      assert s.queue != [] && !s.writer ==> s.queue[0].mode == Exclusive && HasExclusive(s.queue);
    case Release(w) =>
      DrainBlocks(if s.writer then s.(writer := false, holders := s.holders - {w})
                  else if s.readers > 0 then s.(readers := s.readers - 1, holders := s.holders - {w})
                  else s);
    case Timeout(w) =>
      assert s.queue != [] && s.queue[0] != w ==> Remove(s.queue, w)[0] == s.queue[0];
  }

  /** Whom a drain wakes, in order. */
  function Drained(s: State): seq<Waiter>
    decreases |s.queue|
  {
    if s.queue == [] then []
    else
      var next, rest := s.queue[0], s.queue[1..];
      if next.mode == Exclusive then if s.readers == 0 && !s.writer then [next] else []
      else if s.writer then []
      else [next] + Drained(State(s.readers + 1, s.writer, rest, s.holders + {next}))
  }

  /** Whom an event grants the lock to, in order. */
  function Granted(s: State, e: Event): seq<Waiter>
  {
    match e
    case Acquire(w) => if w in Step(s, e).holders then [w] else []
    case Release(w) =>
      Drained(if s.writer then s.(writer := false, holders := s.holders - {w})
              else if s.readers > 0 then s.(readers := s.readers - 1, holders := s.holders - {w})
              else s)
    case Timeout(_) => []
  }

  function Grants(s: State, es: seq<Event>): seq<Waiter>
    decreases |es|
  {
    if es == [] then [] else Granted(s, es[0]) + Grants(Step(s, es[0]), es[1..])
  }

  function Arrivals(es: seq<Event>): seq<Waiter>
  {
    if es == [] then [] else (if es[0].Acquire? then [es[0].w] else []) + Arrivals(es[1..])
  }

  lemma {:induction false} DrainedFront(s: State)
    ensures Drained(s) + Drain(s).queue == s.queue
    ensures Drain(s).holders == s.holders + set w | w in Drained(s)
    decreases |s.queue|
  {
    if s.queue != [] && s.queue[0].mode == Shared && !s.writer {
      var next, rest := s.queue[0], s.queue[1..];
      var t := State(s.readers + 1, s.writer, rest, s.holders + {next});
      DrainedFront(t);
      assert [next] + rest == s.queue;
      assert [next] + Drained(t) + Drain(t).queue == [next] + (Drained(t) + Drain(t).queue);
    }
  }

  /** One event without a timeout grants from the front of the line. */
  lemma FrontGranted(s: State, e: Event)
    requires Inv(s) && Enabled(s, e) && HeadBlocks(s) && !e.Timeout?
    ensures Granted(s, e) + Step(s, e).queue == s.queue + if e.Acquire? then [e.w] else []
  {
    if e.Acquire? {
      assert s.queue != [] && !s.writer ==> s.queue[0].mode == Exclusive && HasExclusive(s.queue);
      if s.queue != [] {
        GrantedAtOnce(s, e.w);
      }
    } else {
      var left := if s.writer then s.(writer := false, holders := s.holders - {e.w})
                  else if s.readers > 0 then s.(readers := s.readers - 1, holders := s.holders - {e.w})
                  else s;
      DrainedFront(left);
    }
  }

  /** First come, first served: over every run in which nobody times out, the lock is granted in the order of
      arrival, shared and exclusive alike, and whoever is left is queued in that order. */
  lemma {:induction false} FirstComeFirstServed(s: State, es: seq<Event>)
    requires Inv(s) && HeadBlocks(s) && Paired(s, es) && forall i :: 0 <= i < |es| ==> !es[i].Timeout?
    ensures Grants(s, es) + Run(s, es).queue == s.queue + Arrivals(es)
    ensures HeadBlocks(Run(s, es))
    decreases |es|
  {
    hide Inv, HeadBlocks, Step, Granted, Enabled;
    if es == [] {
      assert [] + s.queue == s.queue + [];
    } else {
      var e, t := es[0], Step(s, es[0]);
      StepInv(s, e);
      HeadExact(s, e);
      FrontGranted(s, e);
      assert !Strands(s, e);
      FirstComeFirstServed(t, es[1..]);
      var arrived := if e.Acquire? then [e.w] else [];
      var now, later, rest := Granted(s, e), Grants(t, es[1..]), Arrivals(es[1..]);
      assert now + later + Run(s, es).queue == now + (later + Run(t, es[1..]).queue);
      assert now + (t.queue + rest) == (now + t.queue) + rest;
      assert s.queue + arrived + rest == s.queue + (arrived + rest);
    }
  }

  /** With a timeout it happens: once the exclusive waiter ahead of it has gone, a shared waiter sits queued
      behind a shared holder while newcomers walk past. */
  lemma SharedIsOvertaken()
    ensures var a, x, b, c := Waiter(0, Shared), Waiter(1, Exclusive), Waiter(2, Shared), Waiter(3, Shared);
            var es := [Acquire(a), Acquire(x), Acquire(b), Timeout(x), Acquire(c)];
            && Paired(Idle(), es)
            && Run(Idle(), es) == State(2, false, [b], {a, c})
  {
    var a, x, b, c := Waiter(0, Shared), Waiter(1, Exclusive), Waiter(2, Shared), Waiter(3, Shared);
    var s1 := State(1, false, [], {a});
    var s2 := State(1, false, [x], {a});
    var s3 := State(1, false, [x, b], {a});
    var s4 := State(1, false, [b], {a});
    assert {} + {a} == {a} && [] + [x] == [x] && [x] + [b] == [x, b] && [x, b][1..] == [b] && {a} + {c} == {a, c};
    assert Step(Idle(), Acquire(a)) == s1;
    assert Step(s1, Acquire(x)) == s2;
    assert s2.queue[0].mode == Exclusive;
    assert Step(s2, Acquire(b)) == s3;
    assert Step(s3, Timeout(x)) == s4;
    assert Step(s4, Acquire(c)) == State(2, false, [b], {a, c});
    var es := [Acquire(a), Acquire(x), Acquire(b), Timeout(x), Acquire(c)];
    assert es[1..] == [Acquire(x), Acquire(b), Timeout(x), Acquire(c)];
    assert es[1..][1..] == [Acquire(b), Timeout(x), Acquire(c)];
    assert es[1..][1..][1..] == [Timeout(x), Acquire(c)];
    assert es[1..][1..][1..][1..] == [Acquire(c)];
    assert es[1..][1..][1..][1..][1..] == [];
    hide Step;
    assert Run(Idle(), es) == Run(s2, es[1..][1..]);
    assert Run(s2, es[1..][1..]) == Run(s4, es[1..][1..][1..][1..]);
    assert Paired(s4, es[1..][1..][1..][1..]);
    assert Paired(s2, es[1..][1..]);
  }

  // ---- the class ----------------------------------------------------------

  class AsyncRWLock {
    var readers: nat
    var writer: bool
    var queue: seq<Waiter>
    ghost var holders: set<Waiter>

    ghost function Now(): State
      reads this
    {
      State(readers, writer, queue, holders)
    }

    constructor ()
      ensures Now() == Idle() && Inv(Now())
    {
      readers, writer, queue, holders := 0, false, [], {};
    }

    method HasExclusiveWaiter() returns (b: bool)
      ensures b == HasExclusive(queue)
    {
      for i := 0 to |queue|
        invariant forall j :: 0 <= j < i ==> queue[j].mode != Exclusive
      {
        if queue[i].mode == Exclusive {
          return true;
        }
      }
      return false;
    }

    /** acquire up to the point where it waits. */
    method TryAcquire(w: Waiter) returns (granted: bool)
      requires Inv(Now()) && Enabled(Now(), Acquire(w))
      modifies this
      ensures Now() == Step(old(Now()), Acquire(w)) && Inv(Now())
      ensures granted == (w in holders)
    {
      StepInv(Now(), Acquire(w));
      var exclusiveWaiter := HasExclusiveWaiter();
      if w.mode == Shared && !writer && !exclusiveWaiter {
        readers := readers + 1;
        holders := holders + {w};
        return true;
      }
      if w.mode == Exclusive && !writer && readers == 0 {
        writer := true;
        holders := holders + {w};
        return true;
      }
      queue := queue + [w];
      return false;
    }

    /** The timer of a waiter goes off: it leaves the queue, and nobody else is woken. */
    method Expire(w: Waiter)
      requires Inv(Now())
      modifies this`queue
      ensures Now() == Step(old(Now()), Timeout(w)) && Inv(Now())
    {
      StepInv(Now(), Timeout(w));
      var idx := 0;
      while idx < |queue| && queue[idx] != w
        invariant idx <= |queue|
        invariant Remove(queue, w) == queue[..idx] + Remove(queue[idx..], w)
      {
        assert queue[idx..][1..] == queue[idx + 1..];
        assert queue[..idx + 1] == queue[..idx] + [queue[idx]];
        idx := idx + 1;
      }
      if idx < |queue| {
        assert queue[idx..][1..] == queue[idx + 1..];
        queue := queue[..idx] + queue[idx + 1..];
      } else {
        assert queue[..idx] + [] == queue;
      }
    }

    /** release, by anybody; it keeps the invariant when it is a holder who calls. */
    method Release(ghost w: Waiter)
      modifies this
      ensures Now() == Step(old(Now()), Event.Release(w))
      ensures old(Inv(Now())) && w in old(holders) ==> Inv(Now())
    {
      if Inv(Now()) && w in holders {
        StepInv(Now(), Event.Release(w));
      }
      if writer {
        writer := false;
        holders := holders - {w};
      } else if readers > 0 {
        readers := readers - 1;
        holders := holders - {w};
      }
      DrainQueue();
    }

    method DrainQueue()
      modifies this
      ensures Now() == Drain(old(Now()))
    {
      while |queue| > 0
        invariant Drain(Now()) == Drain(old(Now()))
        decreases |queue|
      {
        var next := queue[0];
        if next.mode == Exclusive {
          if readers == 0 && !writer {
            queue := queue[1..];
            writer := true;
            holders := holders + {next};
          }
          return;
        } else if writer {
          return;
        } else {
          queue := queue[1..];
          readers := readers + 1;
          holders := holders + {next};
        }
      }
    }
  }
}
