/** Threads that set, wait for and drop locks on one inode, as a system of steps. Each step is
    one section of fs/lock.c that runs under the inode's lock. */
module FileLockRuns {
  import opened FileLock
  import opened FileLockProofs
  import opened FileLockEmpty
  import opened FileLockLoose

  /** The lock list, and the requests of the threads asleep in fcntl_setlk. */
  datatype State = State(locks: seq<Lock>, sleepers: set<Lock>)

  datatype Step =
    | SetLock(request: Lock, blocking: bool)  // one round of the retry loop of fcntl_setlk
    | Interrupt(request: Lock)                // a signal ends a wait
    | Close(owner: int)                       // file_lock_remove_owned_by

  predicate Grantable(locks: seq<Lock>, request: Lock) { request.kind == Unlock || Free(locks, request) }

  /** A granted request that notified wakes every sleeper; each then tries again with the
      request it slept on. A refused one leaves the list alone and may go to sleep. */
  function Next(s: State, step: Step): State {
    match step
    case SetLock(r, blocking) =>
      if Grantable(s.locks, r) then
        State(Granted(s.locks, r),
              if Process(Group(s.locks, r.owner), r).notified then {} else s.sleepers)
      else State(s.locks, if blocking then s.sleepers + {r} else s.sleepers)
    case Interrupt(r) => s.(sleepers := s.sleepers - {r})
    case Close(owner) => s.(locks := Without(s.locks, owner))
  }

  function Run(s: State, steps: seq<Step>): State
    decreases |steps|
  {
    if steps == [] then s else Run(Next(s, steps[0]), steps[1..])
  }

  predicate RangesOrdered(steps: seq<Step>) {
    forall i :: 0 <= i < |steps| && steps[i].SetLock? ==> steps[i].request.start <= steps[i].request.end
  }

  const EMPTY := State([], {})

  // What each owner holds on each byte, over whole runs

  /** The per-byte reference: a step sets the requested bytes if no other owner holds one of
      them in a conflicting kind, and closing drops everything. */
  type Bytes = (int, int) -> Kind

  ghost predicate Refused(held: Bytes, r: Lock) {
    && r.kind != Unlock
    && exists o, b :: o != r.owner && Covers(r, b) && held(o, b) != Unlock && (held(o, b) == Write || r.kind == Write)
  }

  ghost function NextBytes(held: Bytes, step: Step): Bytes {
    match step
    case SetLock(r, _) =>
      if Refused(held, r) then held
      else (o, b) => if o == r.owner && Covers(r, b) then r.kind else held(o, b)
    case Interrupt(_) => held
    case Close(owner) => (o, b) => if o == owner then Unlock else held(o, b)
  }

  ghost function RunBytes(held: Bytes, steps: seq<Step>): Bytes
    decreases |steps|
  {
    if steps == [] then held else RunBytes(NextBytes(held, steps[0]), steps[1..])
  }

  ghost predicate Means(locks: seq<Lock>, held: Bytes) { forall o, b :: Held(locks, o, b) == held(o, b) }

  /** Conflicts between list entries are conflicts between bytes. */
  lemma RefusedByBytes(locks: seq<Lock>, held: Bytes, r: Lock)
    requires Valid(locks) && r.start <= r.end && Means(locks, held)
    ensures Grantable(locks, r) <==> !Refused(held, r)
  {
    if r.kind != Unlock {
      if j :| 0 <= j < |locks| && Conflict(locks[j], r) {
        var b := if locks[j].start < r.start then r.start else locks[j].start;
        HeldUnique(locks, j, b);
        assert held(locks[j].owner, b) == locks[j].kind;
      }
      if o, b :| o != r.owner && Covers(r, b) && held(o, b) != Unlock && (held(o, b) == Write || r.kind == Write) {
        assert Held(locks, o, b) == held(o, b);
        var j := HeldWitness(locks, o, b);
        assert Conflict(locks[j], r);
      }
    }
  }

  lemma StepRefines(s: State, step: Step, held: Bytes)
    requires Valid(s.locks) && Means(s.locks, held)
    requires step.SetLock? ==> step.request.start <= step.request.end
    ensures Valid(Next(s, step).locks) && Means(Next(s, step).locks, NextBytes(held, step))
  {
    hide Valid, Grouped, Faithful, Granted, Without;
    ValidLoose(s.locks);
    match step
    case SetLock(r, _) =>
      RefusedByBytes(s.locks, held, r);
      if Grantable(s.locks, r) {
        GrantedValid(s.locks, r);
        forall o, b ensures Held(Granted(s.locks, r), o, b) == NextBytes(held, step)(o, b) {
          GrantedHeld(s.locks, r, o, b);
        }
      }
    case Interrupt(_) =>
    case Close(owner) =>
      WithoutValid(s.locks, owner);
      forall o, b ensures Held(Without(s.locks, owner), o, b) == NextBytes(held, step)(o, b) {
        WithoutHeld(s.locks, owner, o, b);
      }
  }

  /** Every reachable list is valid and means exactly what the per-byte reference computes. */
  lemma {:induction false} RunRefines(s: State, steps: seq<Step>, held: Bytes)
    requires Valid(s.locks) && Means(s.locks, held) && RangesOrdered(steps)
    ensures Valid(Run(s, steps).locks) && Means(Run(s, steps).locks, RunBytes(held, steps))
    decreases |steps|
  {
    if steps != [] {
      StepRefines(s, steps[0], held);
      RunRefines(Next(s, steps[0]), steps[1..], NextBytes(held, steps[0]));
    }
  }

  // The same with requests that end before they start

  /** The per-byte reference told which requests the list grants. */
  ghost function NextHeld(locks: seq<Lock>, held: Bytes, step: Step): Bytes {
    match step
    case SetLock(r, _) =>
      if Grantable(locks, r) then (o, b) => if o == r.owner && Covers(r, b) then r.kind else held(o, b) else held
    case Interrupt(_) => held
    case Close(owner) => (o, b) => if o == owner then Unlock else held(o, b)
  }

  ghost function RunHeld(s: State, held: Bytes, steps: seq<Step>): Bytes
    decreases |steps|
  {
    if steps == [] then held else RunHeld(Next(s, steps[0]), NextHeld(s.locks, held, steps[0]), steps[1..])
  }

  /** No byte is write-locked by one owner and locked by another. */
  ghost predicate Exclusive(held: Bytes) {
    forall o, o', b :: o != o' && held(o, b) == Write ==> held(o', b) == Unlock
  }

  /** A conflict with a lock that has no bytes, or of a request that has none. */
  predicate EmptyBlock(locks: seq<Lock>, r: Lock) {
    exists i :: 0 <= i < |locks| && Conflict(locks[i], r) && (Empty(locks[i]) || Empty(r))
  }

  /** A request is granted if and only if no byte refuses it and no conflict without bytes is in the
      way. */
  lemma GrantableExactly(locks: seq<Lock>, held: Bytes, r: Lock)
    requires Loose(locks) && Means(locks, held)
    ensures Grantable(locks, r) <==> !Refused(held, r) && (r.kind == Unlock || !EmptyBlock(locks, r))
  {
    hide Grouped;
    if r.kind != Unlock {
      if j :| 0 <= j < |locks| && Conflict(locks[j], r) && !Empty(locks[j]) && !Empty(r) {
        var b := if locks[j].start < r.start then r.start else locks[j].start;
        FaithfulAt(locks, locks[j], b);
        assert held(locks[j].owner, b) == locks[j].kind;
      }
      if o, b :| o != r.owner && Covers(r, b) && held(o, b) != Unlock && (held(o, b) == Write || r.kind == Write) {
        assert Held(locks, o, b) == held(o, b);
        var j := HeldWitness(locks, o, b);
        assert Conflict(locks[j], r);
      }
    }
  }

  lemma StepMeans(s: State, step: Step, held: Bytes)
    requires Loose(s.locks) && Means(s.locks, held) && Exclusive(held)
    ensures Loose(Next(s, step).locks) && Means(Next(s, step).locks, NextHeld(s.locks, held, step)) && Exclusive(NextHeld(s.locks, held, step))
  {
    hide Grouped, Faithful, Granted, Without, Held, EmptyBlock;
    match step
    case SetLock(r, _) =>
      GrantableExactly(s.locks, held, r);
      if Grantable(s.locks, r) {
        GrantedLoose(s.locks, r);
        forall o, b ensures Held(Granted(s.locks, r), o, b) == NextHeld(s.locks, held, step)(o, b) {
          GrantedHeld(s.locks, r, o, b);
        }
      }
    case Interrupt(_) =>
    case Close(owner) =>
      WithoutLoose(s.locks, owner);
      forall o, b ensures Held(Without(s.locks, owner), o, b) == NextHeld(s.locks, held, step)(o, b) {
        WithoutHeld(s.locks, owner, o, b);
      }
  }

  lemma {:induction false} RunHolds(s: State, steps: seq<Step>, held: Bytes)
    requires Loose(s.locks) && Means(s.locks, held) && Exclusive(held)
    ensures Loose(Run(s, steps).locks) && Means(Run(s, steps).locks, RunHeld(s, held, steps)) && Exclusive(RunHeld(s, held, steps))
    decreases |steps|
  {
    hide Loose, Next, NextHeld, Means, Exclusive;
    if steps != [] {
      StepMeans(s, steps[0], held);
      RunHolds(Next(s, steps[0]), steps[1..], NextHeld(s.locks, held, steps[0]));
    }
  }

  /** In every run, whatever the ranges of its requests, the list means what the granted requests
      asked for on each byte, and owners exclude each other on each byte. If no request ends before
      it starts, the list also stays valid, and what is granted is decided by bytes alone. */
  lemma RunMeans(steps: seq<Step>)
    ensures var s, none: Bytes := Run(EMPTY, steps), (o, b) => Unlock;
      && Loose(s.locks) && Means(s.locks, RunHeld(EMPTY, none, steps)) && Exclusive(RunHeld(EMPTY, none, steps))
      && (RangesOrdered(steps) ==> Valid(s.locks) && Means(s.locks, RunBytes(none, steps)))
  {
    var none: Bytes := (o, b) => Unlock;
    RunHolds(EMPTY, steps, none);
    if RangesOrdered(steps) { RunRefines(EMPTY, steps, none); }
  }

  /** A run in which a lock without bytes is in the way: no byte is held, and a request waits. */
  lemma EmptyBlockExample()
    ensures exists steps, r :: r in Run(EMPTY, steps).sleepers && forall o, b :: Held(Run(EMPTY, steps).locks, o, b) == Unlock
  {
    var none, all := Lock(5, 3, Write, 1, 1), Lock(0, 9, Write, 2, 2);
    var s1 := Next(EMPTY, SetLock(none, true));
    assert Process([], none) == Pass([], none, false);
    assert s1 == State([none], {});
    var s2 := Next(s1, SetLock(all, true));
    assert Conflict(s1.locks[0], all);
    assert s2 == State([none], {all});
    var steps := [SetLock(none, true), SetLock(all, true)];
    assert steps[1..] == [SetLock(all, true)] && steps[1..][1..] == [];
    assert Run(EMPTY, steps) == Run(s1, steps[1..]) == Run(s2, []) == s2;
    forall o, b ensures Held([none], o, b) == Unlock { HeldOne(none, o, b); }
  }

  // Sleepers

  /** No one sleeps on a request that could be granted. */
  ghost predicate NoneStranded(s: State) { forall r :: r in s.sleepers ==> !Grantable(s.locks, r) }

  /** A granted request that notifies no one takes away no reason to sleep. */
  lemma StillBlocked(locks: seq<Lock>, request: Lock, r: Lock)
    requires NoUnlocks(locks) && Grouped(locks) && !Process(Group(locks, request.owner), request).notified && !Grantable(locks, r)
    ensures !Grantable(Granted(locks, request), r)
  {
    hide Process, Granted, Grouped, Group;
    var j :| 0 <= j < |locks| && Conflict(locks[j], r);
    StillInTheWay(locks, request, locks[j], r);
  }

  lemma {:induction false} RunStrandsNone(s: State, steps: seq<Step>)
    requires NoUnlocks(s.locks) && Grouped(s.locks) && NoneStranded(s)
    requires forall i :: 0 <= i < |steps| ==> !steps[i].Close?
    ensures NoneStranded(Run(s, steps))
    decreases |steps|
  {
    hide Grouped, NoUnlocks, Granted, Grantable, Process, Group;
    if steps != [] {
      var step := steps[0];
      GrantedGrouped(s.locks, step.request);
      forall r | r in Next(s, step).sleepers ensures !Grantable(Next(s, step).locks, r) {
        if step.SetLock? && Grantable(s.locks, step.request) { StillBlocked(s.locks, step.request, r); }
      }
      RunStrandsNone(Next(s, step), steps[1..]);
    }
  }

  /** In every run in which no file is closed, whoever sleeps is blocked by a lock that is
      still there: a wakeup is never missed. */
  lemma WakeupsReachSleepers(steps: seq<Step>)
    requires forall i :: 0 <= i < |steps| ==> !steps[i].Close?
    ensures NoneStranded(Run(EMPTY, steps))
  {
    RunStrandsNone(EMPTY, steps);
  }

  /** Closing does not notify, so a sleeper is stranded by it exactly when all the locks that
      were in its way belong to the owner that closed. */
  lemma CloseStrands(s: State, owner: int, r: Lock)
    requires r in s.sleepers && !Grantable(s.locks, r)
    ensures r in Next(s, Close(owner)).sleepers
    ensures Grantable(Next(s, Close(owner)).locks, r)
       <==> forall l :: l in s.locks && Conflict(l, r) ==> l.owner == owner
  {
    var rest := Without(s.locks, owner);
    if l :| l in s.locks && Conflict(l, r) && l.owner != owner {
      WithoutMembers(s.locks, owner, l);
      var j :| 0 <= j < |rest| && rest[j] == l;
      assert Conflict(rest[j], r);
    }
    forall j | 0 <= j < |rest| ensures rest[j] in s.locks && rest[j].owner != owner {
      WithoutMembers(s.locks, owner, rest[j]);
    }
  }

  /** One run that strands a sleeper: 1 locks a byte, 2 waits for it, 1 closes the file. */
  lemma CloseExample()
    ensures exists steps, r :: RangesOrdered(steps) && r in Run(EMPTY, steps).sleepers && Grantable(Run(EMPTY, steps).locks, r)
  {
    var mine, theirs := Lock(0, 0, Write, 1, 1), Lock(0, 0, Write, 2, 2);
    var s1 := Next(EMPTY, SetLock(mine, true));
    assert Process([], mine) == Pass([], mine, false);
    assert s1 == State([mine], {});
    var s2 := Next(s1, SetLock(theirs, true));
    assert Conflict(s1.locks[0], theirs);
    assert s2 == State([mine], {theirs});
    var s3 := Next(s2, Close(1));
    assert s3 == State([], {theirs}) by { assert [mine][1..] == []; }
    var steps := [SetLock(mine, true), SetLock(theirs, true), Close(1)];
    assert steps[1..] == [SetLock(theirs, true), Close(1)] && steps[1..][1..] == [Close(1)] && [Close(1)][1..] == [];
    assert Run(EMPTY, steps) == Run(s1, steps[1..]) == Run(s2, [Close(1)]) == Run(s3, []) == s3;
  }
}
