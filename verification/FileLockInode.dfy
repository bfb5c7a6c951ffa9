/** The operations of fs/lock.c on an inode's lock list, which they edit in place. */
module FileLockInode {
  import opened FileLock
  import opened FileLockProofs
  import opened FileLockEmpty
  import opened FileLockLoose

  /** The part of an inode that file locking uses. notifications counts the notify calls on
      posix_unlock, each of which wakes every thread waiting for a lock. */
  class Inode {
    var posixLocks: seq<Lock>
    var notifications: nat

    constructor ()
      ensures posixLocks == [] && notifications == 0
    {
      posixLocks, notifications := [], 0;
    }

    /** file_lock_acquire. The request grows while it is merged; the caller sees it grown when
        it was granted and untouched when it was refused. */
    method Acquire(request: Lock) returns (granted: bool, grown: Lock)
      requires Loose(posixLocks)
      modifies this
      ensures Loose(posixLocks) && (old(Valid(posixLocks)) && (!granted || !Empty(request)) ==> Valid(posixLocks))
      ensures granted <==> request.kind == Unlock || Free(old(posixLocks), request)
      ensures !granted ==> posixLocks == old(posixLocks) && notifications == old(notifications) && grown == request
      ensures granted ==> posixLocks == Granted(old(posixLocks), request)
      ensures granted ==> forall owner, b ::
        (Held(posixLocks, owner, b)
         == if owner == request.owner && Covers(request, b) then request.kind else Held(old(posixLocks), owner, b))
      ensures granted && !Empty(request) && old(Valid(posixLocks)) ==> (notifications > old(notifications)
        <==> exists b :: Overrides(old(posixLocks), request, b))
    {
      hide Valid, Loose, Granted, Held, Process, Group;
      if request.kind != Unlock {
        var conflict := Test(posixLocks, request);
        if conflict < |posixLocks| {
          return false, request;
        }
      }
      GrantedMeans(posixLocks, request);
      grown := Place(request);
      granted := true;
    }

    /** The part of file_lock_acquire that edits the list, once nothing is in the way. */
    method Place(request: Lock) returns (grown: Lock)
      requires Loose(posixLocks)
      modifies this
      ensures posixLocks == Granted(old(posixLocks), request) && notifications >= old(notifications)
      ensures notifications > old(notifications) <==> Process(Group(old(posixLocks), request.owner), request).notified
    {
      hide Grouped, Faithful, Process, GroupStart, GroupEnd, Held;
      ghost var was, p, g := posixLocks, GroupStart(posixLocks, request.owner), GroupEnd(posixLocks, request.owner);
      LooseParts(was, request.owner);
      GroupBounds(was, request.owner);
      var i := 0;
      while i < |posixLocks| && posixLocks[i].owner != request.owner
        invariant i <= p && posixLocks == was && notifications == old(notifications)
      {
        i := i + 1;
      }
      assert i == p;
      i, grown := MergeGroup(request, i, g);
      if request.kind != Unlock {
        posixLocks := posixLocks[..i] + [grown] + posixLocks[i..];
      }
      ghost var pass := Process(was[p..g], request);
      assert pass.request.kind == request.kind by { ProcessHeld(was[p..g], request, 0); }
      assert posixLocks == was[..p] + After(pass) + was[g..];
    }

    /** The loop of file_lock_acquire over the owner's locks, which start at index start and
        end before index end. It returns the index of the first lock after them. */
    method MergeGroup(request: Lock, start: nat, ghost end: nat) returns (i: nat, grown: Lock)
      requires start <= end <= |posixLocks|
      requires forall k :: start <= k < end ==> posixLocks[k].owner == request.owner
      requires end < |posixLocks| ==> posixLocks[end].owner != request.owner
      modifies this
      ensures var pass := Process(old(posixLocks[start..end]), request);
        && posixLocks == old(posixLocks[..start]) + pass.kept + old(posixLocks[end..])
        && i == start + |pass.kept| && grown == pass.request
        && notifications >= old(notifications)
        && (notifications > old(notifications) <==> pass.notified)
    {
      hide Meet, Process, Held, After, AllCompatible, WellFormed, Empty, Covers, Merged, Edited;
      ghost var was, k, done := posixLocks, start, [];
      MergedStart(was, start, end, request);
      i, grown := start, request;
      EditedAt(posixLocks, was, start, k, done);
      while i < |posixLocks| && posixLocks[i].owner == request.owner
        invariant start <= k <= end && i == start + |done| && grown.owner == request.owner
        invariant Edited(posixLocks, was, start, k, done) && |posixLocks| == i + |was| - k
        invariant k < |was| ==> posixLocks[i] == was[k]
        invariant notifications >= old(notifications)
        invariant Merged(was, start, end, request, k, grown, done, notifications > old(notifications))
        decreases |was| - k
      {
        assert k < end;
        MergedStep(was, start, end, request, k, grown, done, notifications > old(notifications));
        var pieces, notify;
        pieces, grown, notify := MeetLock(posixLocks[i], grown);
        if notify { notifications := notifications + 1; }
        EditedStep(posixLocks, was, start, k, done, pieces);
        posixLocks := posixLocks[..i] + pieces + posixLocks[i + 1..];
        i := i + |pieces|;
        done := done + pieces;
        k := k + 1;
        EditedAt(posixLocks, was, start, k, done);
      }
      assert k == end;
      MergedEnd(was, start, end, request, grown, done, notifications > old(notifications));
      EditedAt(posixLocks, was, start, k, done);
    }

    /** The body of that loop: what becomes of the lock and of the request. Together they hold the
        requested kind on the requested bytes and what the lock held on all others, without
        overlap, and waiters hear of it if a byte changes its kind. */
    method MeetLock(l: Lock, request: Lock) returns (pieces: seq<Lock>, grown: Lock, notify: bool)
      ensures Pass(pieces, grown, notify) == Meet(l, request) && grown.owner == request.owner
      ensures WellFormed(l) && l.owner == request.owner ==> forall b ::
        (Held(After(Pass(pieces, grown, notify)), l.owner, b) == if Covers(request, b) then request.kind else Held([l], l.owner, b))
      ensures WellFormed(l) && l.owner == request.owner && !Empty(request) ==> AllCompatible(After(Pass(pieces, grown, notify)))
      ensures WellFormed(l) && !Empty(request) ==>
        (notify <==> l.kind != request.kind && exists b :: Covers(l, b) && Covers(request, b))
    {
      MeetMeans(l, request);
      pieces, grown, notify := [l], request, false;
      if l.kind == request.kind {
        if Overlap(l, request) || Adjacent(request, l) {
          // the request takes over the whole lock
          if l.start < grown.start { grown := grown.(start := l.start); }
          if l.end > grown.end { grown := grown.(end := l.end); }
          pieces := [];
        }
      } else if Overlap(l, request) {
        notify := true;
        pieces := Subtract(l, request);
      }
    }

    /** file_lock_remove_owned_by, called when a file description is closed. Unlike Acquire it
        notifies no one. */
    method RemoveOwnedBy(owner: int)
      requires Loose(posixLocks)
      modifies this
      ensures Loose(posixLocks) && (old(Valid(posixLocks)) ==> Valid(posixLocks)) && posixLocks == Without(old(posixLocks), owner)
      ensures forall o, b :: Held(posixLocks, o, b) == if o == owner then Unlock else Held(old(posixLocks), o, b)
      ensures notifications == old(notifications)
    {
      hide Valid, Loose, Without, Held;
      ghost var was, done, k := posixLocks, [], 0;
      var i := 0;
      assert was[0..] == was;
      while i < |posixLocks|
        invariant i == |done| && k <= |was| && posixLocks == done + was[k..]
        invariant Without(was, owner) == done + Without(was[k..], owner)
        invariant notifications == old(notifications)
        decreases |posixLocks| - i
      {
        assert posixLocks[i] == was[k];
        WithoutStep(was, k, owner);
        if posixLocks[i].owner == owner {
          posixLocks := posixLocks[..i] + posixLocks[i + 1..];
        } else {
          done := done + [posixLocks[i]];
          i := i + 1;
        }
        k := k + 1;
      }
      WithoutNone(was[k..], owner);
      WithoutMeans(was, owner);
    }

    /** What a request of another kind leaves of a lock: its bytes outside the request, in at most
        two parts that do not touch. */
    method Subtract(l: Lock, request: Lock) returns (pieces: seq<Lock>)
      requires Overlap(l, request)
      ensures pieces == Carve(l, request)
      ensures WellFormed(l) ==> forall b ::
        (Held(pieces, l.owner, b) == if Covers(l, b) && !Covers(request, b) then l.kind else Unlock)
      ensures WellFormed(l) ==> AllOf(pieces, l.owner)
      ensures WellFormed(l) && !Empty(request) ==> AllCompatible(pieces)
    {
      SubtractMeans(l, request);
      if request.start > l.start && request.end < l.end {
        pieces := [l.(end := request.start - 1), l.(start := request.end + 1)];
      } else if request.start <= l.start && request.end >= l.end {
        pieces := [];
      } else if l.start < request.start {
        pieces := [l.(end := request.start - 1)];
      } else {
        pieces := [l.(start := request.end + 1)];
      }
    }
  }

  /** All that dropping an owner's locks means. */
  lemma WithoutMeans(locks: seq<Lock>, owner: int)
    requires Loose(locks)
    ensures Loose(Without(locks, owner)) && (Valid(locks) ==> Valid(Without(locks, owner)))
    ensures forall o, b :: Held(Without(locks, owner), o, b) == if o == owner then Unlock else Held(locks, o, b)
  {
    hide Valid, Loose, Without, Held;
    WithoutLoose(locks, owner);
    if Valid(locks) { WithoutValid(locks, owner); }
    forall o, b ensures Held(Without(locks, owner), o, b) == if o == owner then Unlock else Held(locks, o, b) {
      WithoutHeld(locks, owner, o, b);
    }
  }

  /** All that a granted request means. */
  lemma GrantedMeans(locks: seq<Lock>, request: Lock)
    requires Loose(locks) && (request.kind == Unlock || Free(locks, request))
    ensures Loose(Granted(locks, request)) && (Valid(locks) && !Empty(request) ==> Valid(Granted(locks, request)))
    ensures forall owner, b :: (Held(Granted(locks, request), owner, b)
      == if owner == request.owner && Covers(request, b) then request.kind else Held(locks, owner, b))
    ensures Valid(locks) && !Empty(request) ==>
      (Process(Group(locks, request.owner), request).notified <==> exists b :: Overrides(locks, request, b))
  {
    hide Valid, Grouped, Faithful, Granted, Held, Process, Group;
    GrantedLoose(locks, request);
    forall owner, b ensures Held(Granted(locks, request), owner, b)
      == if owner == request.owner && Covers(request, b) then request.kind else Held(locks, owner, b)
    {
      GrantedHeld(locks, request, owner, b);
    }
    if Valid(locks) && !Empty(request) {
      GrantedValid(locks, request);
      GrantedNotifies(locks, request);
    }
  }

  lemma SubtractMeans(l: Lock, request: Lock)
    ensures WellFormed(l) ==> forall b ::
      (Held(Carve(l, request), l.owner, b) == if Covers(l, b) && !Covers(request, b) then l.kind else Unlock)
    ensures WellFormed(l) ==> AllOf(Carve(l, request), l.owner)
    ensures !Empty(request) ==> AllCompatible(Carve(l, request))
  {
    hide Carve, Held;
    if WellFormed(l) {
      forall b ensures Held(Carve(l, request), l.owner, b) == if Covers(l, b) && !Covers(request, b) then l.kind else Unlock {
        CarveHeld(l, request, b);
      }
      CarveHeld(l, request, 0);
    }
    if !Empty(request) { CarveApart(l, request); }
  }

  lemma CarveApart(l: Lock, request: Lock)
    requires !Empty(request)
    ensures AllCompatible(Carve(l, request))
  {
  }

  /** A pass over a single lock. */
  lemma MeetIsPass(l: Lock, request: Lock)
    ensures Process([l], request) == Meet(l, request)
  {
    var m := Meet(l, request);
    assert [l][1..] == [] && m.kept + [] == m.kept;
  }

  lemma MeetMeans(l: Lock, request: Lock)
    ensures WellFormed(l) && l.owner == request.owner ==> forall b ::
      (Held(After(Meet(l, request)), l.owner, b) == if Covers(request, b) then request.kind else Held([l], l.owner, b))
    ensures WellFormed(l) && l.owner == request.owner && !Empty(request) ==> AllCompatible(After(Meet(l, request)))
    ensures WellFormed(l) && !Empty(request) ==>
      (Meet(l, request).notified <==> l.kind != request.kind && exists b :: Covers(l, b) && Covers(request, b))
  {
    hide Held, After, Process;
    MeetIsPass(l, request);
    if WellFormed(l) && l.owner == request.owner {
      assert AllOf([l], l.owner);
      forall b ensures Held(After(Meet(l, request)), l.owner, b) == if Covers(request, b) then request.kind else Held([l], l.owner, b) {
        ProcessHeld([l], request, b);
      }
      if !Empty(request) { ProcessCompatible([l], request); }
    }
    if WellFormed(l) && !Empty(request) { CommonByte(l, request); }
  }

  /** Ranges overlap where they have a byte in common. */
  lemma CommonByte(a: Lock, b: Lock)
    requires a.start <= a.end && b.start <= b.end
    ensures Overlap(a, b) <==> exists x :: Covers(a, x) && Covers(b, x)
  {
    if Overlap(a, b) {
      var x := if a.start < b.start then b.start else a.start;
      assert Covers(a, x) && Covers(b, x);
    }
  }

  /** How far the pass over the owner's locks is: done has come of those before k. */
  ghost predicate Merged(was: seq<Lock>, start: nat, end: nat, request: Lock, k: nat, grown: Lock, done: seq<Lock>, notified: bool)
    requires start <= k <= end <= |was|
  {
    var pass, rest := Process(was[start..end], request), Process(was[k..end], grown);
    pass.kept == done + rest.kept && pass.request == rest.request && (pass.notified <==> notified || rest.notified)
  }

  lemma MergedStart(was: seq<Lock>, start: nat, end: nat, request: Lock)
    requires start <= end <= |was|
    ensures Merged(was, start, end, request, start, request, [], false)
  {
  }

  lemma MergedStep(was: seq<Lock>, start: nat, end: nat, request: Lock, k: nat, grown: Lock, done: seq<Lock>, notified: bool)
    requires start <= k < end <= |was| && Merged(was, start, end, request, k, grown, done, notified)
    ensures var m := Meet(was[k], grown); Merged(was, start, end, request, k + 1, m.request, done + m.kept, notified || m.notified)
  {
    assert was[k..end][0] == was[k] && was[k..end][1..] == was[k + 1..end];
  }

  lemma MergedEnd(was: seq<Lock>, start: nat, end: nat, request: Lock, grown: Lock, done: seq<Lock>, notified: bool)
    requires start <= end <= |was| && Merged(was, start, end, request, end, grown, done, notified)
    ensures Process(was[start..end], request) == Pass(done, grown, notified)
  {
    assert was[end..end] == [];
  }

  lemma WithoutStep(was: seq<Lock>, k: nat, owner: int)
    requires k < |was|
    ensures Without(was[k..], owner)
         == (if was[k].owner == owner then [] else [was[k]]) + Without(was[k + 1..], owner)
  {
    assert was[k..][0] == was[k] && was[k..][1..] == was[k + 1..];
  }

  lemma WithoutNone(locks: seq<Lock>, owner: int)
    requires locks == []
    ensures Without(locks, owner) == []
  {
  }

  /** The list while the pass goes on: what stands from start to k has become done. */
  predicate Edited(now: seq<Lock>, was: seq<Lock>, start: nat, k: nat, done: seq<Lock>)
    requires start <= k <= |was|
  {
    now == was[..start] + done + was[k..]
  }

  lemma EditedAt(now: seq<Lock>, was: seq<Lock>, start: nat, k: nat, done: seq<Lock>)
    requires start <= k <= |was|
    ensures k == start && now == was && done == [] ==> Edited(now, was, start, k, done)
    ensures Edited(now, was, start, k, done) ==>
      && now == was[..start] + done + was[k..]
      && |now| == start + |done| + |was| - k
      && (k < |was| ==> now[start + |done|] == was[k])
  {
  }

  lemma EditedStep(now: seq<Lock>, was: seq<Lock>, start: nat, k: nat, done: seq<Lock>, pieces: seq<Lock>)
    requires start <= k < |was| && Edited(now, was, start, k, done)
    ensures var i := start + |done|; i < |now| && Edited(now[..i] + pieces + now[i + 1..], was, start, k + 1, done + pieces)
  {
    var i := start + |done|;
    assert now[..i] == was[..start] + done && now[i + 1..] == was[k + 1..];
  }
}
