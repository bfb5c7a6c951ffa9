/** Requests that end before they start, which an overflowing length can produce: they change no
    byte of anybody, and here is exactly when they leave the list in order. */
module FileLockEmpty {
  import opened FileLock
  import opened FileLockProofs

  predicate Empty(r: Lock) { r.end < r.start }

  /** What an empty request swallows is a lock that it becomes. */
  lemma AbsorbEmpty(r: Lock, l: Lock)
    requires Empty(r) && WellFormed(l) && Touches(r, l)
    ensures Absorb(r, l).start == l.start && Absorb(r, l).end == l.end
    ensures Absorb(Absorb(r, l), l) == Absorb(r, l) && Touches(Absorb(r, l), l)
  {
  }

  /** A lock apart from one that an empty request touches is not overlapped by it. */
  lemma NotBoth(r: Lock, l: Lock, m: Lock)
    requires Empty(r) && WellFormed(l) && WellFormed(m) && Touches(r, l) && !Overlap(m, l)
    ensures !Overlap(m, r)
  {
  }

  /** The first lock of its own kind that an empty request touches. */
  ghost predicate FirstTouched(group: seq<Lock>, r: Lock, i: nat) {
    && i < |group| && group[i].kind == r.kind && Touches(r, group[i])
    && forall j :: 0 <= j < i && group[j].kind == r.kind ==> !Touches(r, group[j])
  }

  /** The pass for an empty request is the pass for that lock. */
  lemma {:induction false} ProcessAsLock(group: seq<Lock>, r: Lock, i: nat)
    requires Empty(r) && AllOf(group, r.owner) && AllCompatible(group) && FirstTouched(group, r, i)
    ensures Process(group, r) == Process(group, Absorb(r, group[i]))
    decreases |group|
  {
    var l, h, rest := group[i], group[0], group[1..];
    AbsorbEmpty(r, l);
    if i > 0 {
      assert Compatible(group[0], group[i]) && rest[i - 1] == l;
      if h.kind != r.kind { NotBoth(r, l, h); }
      assert Meet(h, r) == Pass([h], r, false);
      assert Meet(h, Absorb(r, l)) == Pass([h], Absorb(r, l), false);
      assert forall j :: 0 <= j < |rest| ==> rest[j] == group[j + 1];
      ProcessAsLock(rest, r, i - 1);
    }
  }

  /** A pass that touches nothing of its own kind keeps the request as it is, and splits what
      encloses it. */
  lemma {:induction false} ProcessAlone(group: seq<Lock>, r: Lock)
    requires forall j :: 0 <= j < |group| && group[j].kind == r.kind ==> !Touches(r, group[j])
    ensures Process(group, r).request == r
    ensures forall j :: 0 <= j < |group| && !Overlap(group[j], r) ==> group[j] in Process(group, r).kept
    ensures (forall j :: 0 <= j < |group| ==> !Overlap(group[j], r)) ==> Process(group, r).kept == group
    decreases |group|
  {
    if group != [] {
      var rest := group[1..];
      assert forall j :: 0 <= j < |rest| ==> rest[j] == group[j + 1];
      ProcessAlone(rest, r);
      assert group == [group[0]] + rest;
    }
  }

  /** The halves that an empty request makes of a lock around it overlap or touch. */
  lemma {:induction false} ProcessSplits(group: seq<Lock>, r: Lock, i: nat)
    requires Empty(r) && i < |group| && group[i].kind != r.kind && Overlap(group[i], r)
    requires forall j :: 0 <= j < |group| && group[j].kind == r.kind ==> !Touches(r, group[j])
    ensures !AllCompatible(Process(group, r).kept)
    decreases |group|
  {
    var rest, m := group[1..], Meet(group[0], r);
    var kept, tail := Process(group, r).kept, Process(rest, m.request).kept;
    assert kept == m.kept + tail;
    if i == 0 {
      assert kept[0] == m.kept[0] && kept[1] == m.kept[1];
      assert !Compatible(kept[0], kept[1]);
    } else {
      assert forall j :: 0 <= j < |rest| ==> rest[j] == group[j + 1];
      ProcessSplits(rest, r, i - 1);
      var a, b :| 0 <= a < b < |tail| && !Compatible(tail[a], tail[b]);
      assert kept[|m.kept| + a] == tail[a] && kept[|m.kept| + b] == tail[b];
    }
  }

  /** Some lock of the owner, of the requested kind, overlaps or borders the request. */
  predicate TouchesOwn(locks: seq<Lock>, r: Lock) {
    exists i :: 0 <= i < |locks| && locks[i].owner == r.owner && locks[i].kind == r.kind && Touches(r, locks[i])
  }

  predicate OverlapsOwn(locks: seq<Lock>, r: Lock) {
    exists i :: 0 <= i < |locks| && locks[i].owner == r.owner && Overlap(locks[i], r)
  }

  lemma InGroupOf(locks: seq<Lock>, r: Lock, i: nat)
    requires Valid(locks) && i < |locks| && locks[i].owner == r.owner
    ensures locks[i] in Group(locks, r.owner)
  {
    hide GroupStart, GroupEnd, Valid;
    var s, e := GroupStart(locks, r.owner), GroupEnd(locks, r.owner);
    Parts(locks, r.owner);
    InGroup(locks, r.owner, s, e, i);
    assert locks[s..e][i - s] == locks[i];
  }

  lemma FirstOf(group: seq<Lock>, r: Lock, l: Lock) returns (i: nat)
    requires l in group && l.kind == r.kind && Touches(r, l)
    ensures FirstTouched(group, r, i)
  {
    i := 0;
    while !(group[i].kind == r.kind && Touches(r, group[i]))
      invariant i < |group| && l in group[i..]
      invariant forall j :: 0 <= j < i && group[j].kind == r.kind ==> !Touches(r, group[j])
      decreases |group| - i
    {
      assert group[i..] == [group[i]] + group[i + 1..];
      i := i + 1;
    }
  }

  /** Touching a lock of its own: the list is what asking for that lock again leaves. */
  lemma TouchedValid(locks: seq<Lock>, r: Lock)
    requires Valid(locks) && Empty(r) && r.kind != Unlock && TouchesOwn(locks, r)
    ensures Valid(Granted(locks, r))
  {
    hide Process, GroupStart, GroupEnd, Valid, Touches, Absorb;
    var k :| 0 <= k < |locks| && locks[k].owner == r.owner && locks[k].kind == r.kind && Touches(r, locks[k]);
    var group := Group(locks, r.owner);
    Parts(locks, r.owner);
    InGroupOf(locks, r, k);
    var i := FirstOf(group, r, locks[k]);
    ProcessAsLock(group, r, i);
    var l := group[i];
    AbsorbEmpty(r, l);
    AbsorbKeeps(r, l);
    SameRangeFree(locks, Absorb(r, l), GroupStart(locks, r.owner) + i);
    GrantedValid(locks, Absorb(r, l));
  }

  lemma AbsorbKeeps(r: Lock, l: Lock)
    ensures Absorb(r, l).owner == r.owner && Absorb(r, l).kind == r.kind
  {
  }

  lemma SameRangeFree(locks: seq<Lock>, r: Lock, k: nat)
    requires Valid(locks) && k < |locks|
    requires locks[k].owner == r.owner && locks[k].kind == r.kind && locks[k].start == r.start && locks[k].end == r.end
    ensures Free(locks, r)
  {
    forall j | 0 <= j < |locks| ensures !Conflict(locks[j], r) {
      if j < k { assert Compatible(locks[j], locks[k]); }
      if k < j { assert Compatible(locks[k], locks[j]); }
    }
  }

  lemma UntouchedInvalid(locks: seq<Lock>, r: Lock)
    requires Valid(locks) && Empty(r) && r.kind != Unlock && !TouchesOwn(locks, r)
    ensures !Valid(Granted(locks, r))
  {
    hide Process, GroupStart, GroupEnd, Touches, Grouped, AllCompatible;
    var group := Group(locks, r.owner);
    var s := GroupStart(locks, r.owner);
    OwnGroup(locks, r);
    ProcessAlone(group, r);
    var p := Process(group, r);
    assert Granted(locks, r)[s + |p.kept|] == r;
  }

  /** The owner's group holds only the owner's locks. */
  lemma OwnGroup(locks: seq<Lock>, r: Lock)
    requires Valid(locks)
    ensures AllOf(Group(locks, r.owner), r.owner) && AllCompatible(Group(locks, r.owner))
    ensures !TouchesOwn(locks, r) ==>
      forall j :: 0 <= j < |Group(locks, r.owner)| && Group(locks, r.owner)[j].kind == r.kind ==> !Touches(r, Group(locks, r.owner)[j])
    ensures !OverlapsOwn(locks, r) ==>
      forall j :: 0 <= j < |Group(locks, r.owner)| ==> !Overlap(Group(locks, r.owner)[j], r)
  {
    hide GroupStart, GroupEnd, Valid, Touches, Overlap;
    var s := GroupStart(locks, r.owner);
    Parts(locks, r.owner);
    var group := Group(locks, r.owner);
    forall j | 0 <= j < |group| ensures group[j] == locks[s + j] && group[j].owner == r.owner {}
  }

  lemma UnlockValid(locks: seq<Lock>, r: Lock)
    requires Valid(locks) && Empty(r) && r.kind == Unlock
    ensures Valid(Granted(locks, r)) <==> !OverlapsOwn(locks, r)
  {
    hide Process, GroupStart, GroupEnd, Touches, Grouped, AllCompatible, Overlap;
    var s, e := GroupStart(locks, r.owner), GroupEnd(locks, r.owner);
    var group := Group(locks, r.owner);
    OwnGroup(locks, r);
    ProcessAlone(group, r);
    var kept := Process(group, r).kept;
    if OverlapsOwn(locks, r) {
      var k :| 0 <= k < |locks| && locks[k].owner == r.owner && Overlap(locks[k], r);
      InGroupOf(locks, r, k);
      var i :| 0 <= i < |group| && group[i] == locks[k];
      ProcessSplits(group, r, i);
      PartIncompatible(locks[..s], kept, locks[e..]);
    } else {
      assert Granted(locks, r) == locks;
    }
  }

  lemma PartIncompatible(pre: seq<Lock>, mid: seq<Lock>, post: seq<Lock>)
    requires !AllCompatible(mid)
    ensures !AllCompatible(pre + mid + post)
  {
    var a, b :| 0 <= a < b < |mid| && !Compatible(mid[a], mid[b]);
    var all := pre + mid + post;
    assert all[|pre| + a] == mid[a] && all[|pre| + b] == mid[b];
  }

  /** An empty request that is granted changes no byte, but it leaves the list in order exactly if
      it touches a lock that the owner has already, or, for an unlock, if it overlaps none. */
  lemma EmptyRequest(locks: seq<Lock>, r: Lock)
    requires Valid(locks) && Empty(r)
    ensures forall owner, b :: Held(Granted(locks, r), owner, b) == Held(locks, owner, b)
    ensures Valid(Granted(locks, r)) <==> if r.kind == Unlock then !OverlapsOwn(locks, r) else TouchesOwn(locks, r)
  {
    hide Valid, Grouped, Faithful, Granted, TouchesOwn, OverlapsOwn, Held;
    ValidLoose(locks);
    forall owner, b ensures Held(Granted(locks, r), owner, b) == Held(locks, owner, b) { GrantedHeld(locks, r, owner, b); }
    if r.kind == Unlock {
      UnlockValid(locks, r);
    } else if TouchesOwn(locks, r) {
      TouchedValid(locks, r);
    } else {
      UntouchedInvalid(locks, r);
    }
  }
}
