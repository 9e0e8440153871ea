/** The cross-process lock over marker files (src/daemon/file-lock.ts). Every file-system call is one atomic
    step; any number of live lock instances interleave their steps. */
module MarkerLock {
  import opened Bytes

  /** Between which two file-system calls an instance stands. */
  datatype Pc =
    | Idle
    | SharedChecked       // no exclusive marker was seen
    | SharedCreated       // its own marker exists, the re-check is still to come
    | SharedBackout       // the re-check saw an exclusive marker
    | SharedHeld
    | ExclusiveCreated    // the exclusive marker is its own, the scan is still to come
    | ExclusiveBackout    // the scan saw a shared marker
    | ExclusiveHeld

  /** The lock directory: who wrote the exclusive marker, whose shared markers are there. */
  datatype Dir = Dir(exclusive: Option<nat>, shared: set<nat>)

  datatype System = System(dir: Dir, pcs: map<nat, Pc>)

  /** `raced`: the file looked at is deleted between two calls of one check, which counts as present.
      `taken`: the random marker name exists. */
  datatype Action =
    | CheckExclusive(raced: bool)
    | CreateShared(taken: bool)
    | RecheckExclusive(raced: bool)
    | CreateExclusive
    | ScanShared(raced: bool)
    | UnlinkCandidate
    | Release

  function At(s: System, p: nat): Pc { if p in s.pcs then s.pcs[p] else Idle }

  function Go(s: System, p: nat, dir: Dir, pc: Pc): System { System(dir, s.pcs[p := pc]) }

  /** One step of instance p; a step that is not its next one does nothing. */
  function Step(s: System, p: nat, a: Action): System
  {
    match (At(s, p), a)
    // tryAcquireShared
    case (Idle, CheckExclusive(raced)) =>
      if s.dir.exclusive.Some? || raced then s else Go(s, p, s.dir, SharedChecked)
    case (SharedChecked, CreateShared(taken)) =>
      if taken then Go(s, p, s.dir, Idle)
      else Go(s, p, s.dir.(shared := s.dir.shared + {p}), SharedCreated)
    case (SharedCreated, RecheckExclusive(raced)) =>
      Go(s, p, s.dir, if s.dir.exclusive.Some? || raced then SharedBackout else SharedHeld)
    case (SharedBackout, UnlinkCandidate) => Go(s, p, s.dir.(shared := s.dir.shared - {p}), Idle)
    // tryAcquireExclusive
    case (Idle, CreateExclusive) =>
      if s.dir.exclusive.Some? then s else Go(s, p, s.dir.(exclusive := Some(p)), ExclusiveCreated)
    case (ExclusiveCreated, ScanShared(raced)) =>
      Go(s, p, s.dir, if s.dir.shared != {} || raced then ExclusiveBackout else ExclusiveHeld)
    case (ExclusiveBackout, UnlinkCandidate) => Go(s, p, s.dir.(exclusive := None), Idle)
    // release
    case (SharedHeld, Release) => Go(s, p, s.dir.(shared := s.dir.shared - {p}), Idle)
    case (ExclusiveHeld, Release) => Go(s, p, s.dir.(exclusive := None), Idle)
    case _ => s
  }

  function Start(): System { System(Dir(None, {}), map[]) }

  function Run(s: System, schedule: seq<(nat, Action)>): System
    decreases |schedule|
  {
    if schedule == [] then s else Run(Step(s, schedule[0].0, schedule[0].1), schedule[1..])
  }

  predicate OwnsExclusive(pc: Pc) { pc.ExclusiveCreated? || pc.ExclusiveBackout? || pc.ExclusiveHeld? }

  predicate OwnsShared(pc: Pc) { pc.SharedCreated? || pc.SharedBackout? || pc.SharedHeld? }

  /** Markers say who is where, and an exclusive holder has no shared holder beside it. */
  ghost predicate Inv(s: System)
  {
    && (forall p: nat :: OwnsExclusive(At(s, p)) <==> s.dir.exclusive == Some(p))
    && (forall p: nat :: OwnsShared(At(s, p)) <==> p in s.dir.shared)
    && (forall e: nat, p: nat :: At(s, e).ExclusiveHeld? ==> !At(s, p).SharedHeld?)
  }

  ghost predicate Mutex(s: System)
  {
    forall e: nat, p: nat :: At(s, e).ExclusiveHeld? && e != p ==> !At(s, p).ExclusiveHeld? && !At(s, p).SharedHeld?
  }

  lemma StepInv(s: System, p: nat, a: Action)
    requires Inv(s)
    ensures Inv(Step(s, p, a))
  {
    var t := Step(s, p, a);
    assert forall q: nat :: q != p ==> At(t, q) == At(s, q);
  }

  /** Mutual exclusion, for any number of instances and any interleaving of their steps. */
  lemma {:induction false} RunExcludes(s: System, schedule: seq<(nat, Action)>)
    requires Inv(s)
    ensures Inv(Run(s, schedule)) && Mutex(Run(s, schedule))
    decreases |schedule|
  {
    hide Step;
    if schedule != [] {
      StepInv(s, schedule[0].0, schedule[0].1);
      RunExcludes(Step(s, schedule[0].0, schedule[0].1), schedule[1..]);
    }
  }

  lemma StartExcludes(schedule: seq<(nat, Action)>)
    ensures Mutex(Run(Start(), schedule))
  {
    RunExcludes(Start(), schedule);
  }

  function Owner(exclusive: Option<nat>): nat { match exclusive case None => 0 case Some(p) => p }

  /** No marker is left behind: with every instance idle the directory is empty. */
  lemma IdleIsClean(schedule: seq<(nat, Action)>)
    requires forall p: nat :: At(Run(Start(), schedule), p) == Idle
    ensures Run(Start(), schedule).dir == Dir(None, {})
  {
    RunExcludes(Start(), schedule);
    var s := Run(Start(), schedule);
    forall p: nat
      ensures p !in s.dir.shared && s.dir.exclusive != Some(p)
    {
      assert At(s, p) == Idle;
    }
    assert s.dir.exclusive != Some(Owner(s.dir.exclusive));
    assert s.dir.shared == {};
  }

  /** An attempt that runs alone succeeds exactly when no conflicting marker is in the directory. */
  lemma AloneExclusive(s: System, p: nat)
    requires Inv(s) && At(s, p) == Idle
    ensures At(Run(s, [(p, CreateExclusive), (p, ScanShared(false))]), p).ExclusiveHeld?
       <==> s.dir == Dir(None, {})
  {
    assert s.dir.exclusive != Some(p);
    TwoSteps(s, (p, CreateExclusive), (p, ScanShared(false)));
    hide Run, Inv;
  }

  lemma AloneShared(s: System, p: nat)
    requires Inv(s) && At(s, p) == Idle
    ensures At(Run(s, [(p, CheckExclusive(false)), (p, CreateShared(false)), (p, RecheckExclusive(false))]), p).SharedHeld?
       <==> s.dir.exclusive == None
  {
    ThreeSteps(s, (p, CheckExclusive(false)), (p, CreateShared(false)), (p, RecheckExclusive(false)));
    hide Run, Inv;
  }

  lemma TwoSteps(s: System, a: (nat, Action), b: (nat, Action))
    ensures Run(s, [a, b]) == Step(Step(s, a.0, a.1), b.0, b.1)
  {
    hide Step;
    var s1 := Step(s, a.0, a.1);
    assert [a, b][1..] == [b] && [b][1..] == [];
    assert Run(s1, [b]) == Run(Step(s1, b.0, b.1), []);
  }

  lemma ThreeSteps(s: System, a: (nat, Action), b: (nat, Action), c: (nat, Action))
    ensures Run(s, [a, b, c]) == Step(Step(Step(s, a.0, a.1), b.0, b.1), c.0, c.1)
  {
    hide Step;
    assert [a, b, c][1..] == [b, c];
    TwoSteps(Step(s, a.0, a.1), b, c);
  }

  /** Two attempts that cross can both fail although nobody holds the lock; both clean up and may retry. */
  lemma BothBackOut(p: nat, q: nat)
    requires p != q
    ensures var s := Run(Start(), [(p, CheckExclusive(false)), (p, CreateShared(false)), (q, CreateExclusive)]);
            var t := Run(s, [(p, RecheckExclusive(false)), (q, ScanShared(false))]);
            && At(t, p) == SharedBackout && At(t, q) == ExclusiveBackout
            && Run(t, [(p, UnlinkCandidate), (q, UnlinkCandidate)]).dir == Dir(None, {})
  {
    ThreeSteps(Start(), (p, CheckExclusive(false)), (p, CreateShared(false)), (q, CreateExclusive));
    var s := Run(Start(), [(p, CheckExclusive(false)), (p, CreateShared(false)), (q, CreateExclusive)]);
    assert s.dir == Dir(Some(q), {p}) && At(s, p) == SharedCreated && At(s, q) == ExclusiveCreated;
    TwoSteps(s, (p, RecheckExclusive(false)), (q, ScanShared(false)));
    var t := Run(s, [(p, RecheckExclusive(false)), (q, ScanShared(false))]);
    assert p in s.dir.shared;
    assert t.dir == s.dir && At(t, p) == SharedBackout && At(t, q) == ExclusiveBackout;
    TwoSteps(t, (p, UnlinkCandidate), (q, UnlinkCandidate));
    var u := Step(t, p, UnlinkCandidate);
    assert {p} - {p} == {} && u.dir == Dir(Some(q), {}) && At(u, q) == ExclusiveBackout;
  }
}
