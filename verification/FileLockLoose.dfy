/** Lists that also hold locks without bytes, which a request that ends before it starts leaves
    behind. They mean what the granted requests asked for, byte by byte, all the same. */
module FileLockLoose {
  import opened FileLock
  import opened FileLockProofs

  /** What is kept is a part of some lock, outside the request. */
  lemma {:induction false} KeptFrom(group: seq<Lock>, request: Lock, x: Lock) returns (l: Lock)
    requires x in Process(group, request).kept
    ensures l in group && l.kind == x.kind && forall b :: Covers(x, b) ==> Covers(l, b) && !Covers(request, b)
    decreases |group|
  {
    var m, rest := Meet(group[0], request), group[1..];
    if x in m.kept {
      l := group[0];
    } else {
      l := KeptFrom(rest, m.request, x);
      assert m.request.start <= request.start && request.end <= m.request.end;
    }
  }

  /** The request grows over bytes that its owner holds in the same kind. */
  lemma {:induction false} GrownFrom(group: seq<Lock>, request: Lock, b: int) returns (l: Lock)
    requires Covers(Process(group, request).request, b) && !Covers(request, b)
    ensures l in group && l.kind == request.kind && Covers(l, b)
    decreases |group|
  {
    var m, rest := Meet(group[0], request), group[1..];
    if Covers(m.request, b) {
      l := group[0];
    } else {
      l := GrownFrom(rest, m.request, b);
    }
  }

  lemma FaithfulAt(locks: seq<Lock>, l: Lock, b: int)
    requires Faithful(locks) && l in locks && Covers(l, b)
    ensures Held(locks, l.owner, b) == l.kind
  {
    var i :| 0 <= i < |locks| && locks[i] == l;
  }

  /** A lock of the list after a granted request, and what its owner holds on its bytes. */
  lemma GrantedAt(locks: seq<Lock>, request: Lock, x: Lock, b: int)
    requires Loose(locks) && x in Granted(locks, request) && Covers(x, b)
    ensures Held(Granted(locks, request), x.owner, b) == x.kind
  {
    hide Process, Held, Grouped, Faithful, GroupStart, GroupEnd;
    var s, e := GroupStart(locks, request.owner), GroupEnd(locks, request.owner);
    LooseParts(locks, request.owner);
    ProcessHeld(locks[s..e], request, b);
    GrantedHeld(locks, request, x.owner, b);
    var p := Process(locks[s..e], request);
    if x in p.kept {
      var l := KeptFrom(locks[s..e], request, x);
      FaithfulAt(locks, l, b);
    } else if x == p.request {
      if !Covers(request, b) {
        var l := GrownFrom(locks[s..e], request, b);
        FaithfulAt(locks, l, b);
      }
    } else {
      assert x in locks[..s] || x in locks[e..];
      FaithfulAt(locks, x, b);
    }
  }

  lemma GrantedLoose(locks: seq<Lock>, request: Lock)
    requires Loose(locks)
    ensures Loose(Granted(locks, request))
  {
    hide Process, Held, Grouped, GroupStart, GroupEnd, Granted;
    forall i, b | 0 <= i < |Granted(locks, request)| && Covers(Granted(locks, request)[i], b)
      ensures Held(Granted(locks, request), Granted(locks, request)[i].owner, b) == Granted(locks, request)[i].kind
    {
      GrantedAt(locks, request, Granted(locks, request)[i], b);
    }
    GrantedGrouped(locks, request);
  }

  lemma GrantedGrouped(locks: seq<Lock>, request: Lock)
    requires NoUnlocks(locks) && Grouped(locks)
    ensures NoUnlocks(Granted(locks, request)) && Grouped(Granted(locks, request))
  {
    hide Process, Grouped, GroupStart, GroupEnd;
    var o := request.owner;
    var s, e := GroupStart(locks, o), GroupEnd(locks, o);
    var pre, group, post := locks[..s], locks[s..e], locks[e..];
    LooseParts(locks, o);
    ProcessHeld(group, request, 0);
    var after := After(Process(group, request));
    assert OwnedBy(after, o);
    forall k | s <= k < e ensures locks[k].owner == o { assert locks[k] == group[k - s]; }
    GroupedAround(pre, after, post, o, locks);
    assert Granted(locks, request) == pre + after + post;
  }

  lemma WithoutLoose(locks: seq<Lock>, owner: int)
    requires Loose(locks)
    ensures Loose(Without(locks, owner))
  {
    hide Held, Grouped, Without;
    var rest := Without(locks, owner);
    WithoutIsGrouped(locks, owner);
    forall i | 0 <= i < |rest| ensures rest[i] in locks && rest[i].owner != owner { WithoutMembers(locks, owner, rest[i]); }
    forall i, b | 0 <= i < |rest| && Covers(rest[i], b) ensures Held(rest, rest[i].owner, b) == rest[i].kind {
      WithoutHeld(locks, owner, rest[i].owner, b);
      FaithfulAt(locks, rest[i], b);
    }
  }

  // Who is still in the way

  /** A pass that notifies nobody keeps every lock, or swallows it whole. */
  lemma {:induction false} Survives(group: seq<Lock>, request: Lock, l: Lock)
    requires l in group && !Process(group, request).notified
    ensures var p := Process(group, request);
            || l in p.kept
            || (l.kind == request.kind && p.request.kind == l.kind && p.request.start <= l.start && l.end <= p.request.end)
    decreases |group|
  {
    var m, rest := Meet(group[0], request), group[1..];
    Grows(rest, m.request);
    if l != group[0] { Survives(rest, m.request, l); }
  }

  lemma {:induction false} Grows(group: seq<Lock>, request: Lock)
    ensures var p := Process(group, request); p.request.kind == request.kind && p.request.owner == request.owner && p.request.start <= request.start && request.end <= p.request.end
    decreases |group|
  {
    if group != [] { Grows(group[1..], Meet(group[0], request).request); }
  }

  lemma SurvivesConflict(group: seq<Lock>, request: Lock, l: Lock, r: Lock) returns (x: Lock)
    requires l in group && OwnedBy(group, request.owner) && !Process(group, request).notified && Conflict(l, r)
    ensures x in After(Process(group, request)) && Conflict(x, r)
  {
    hide Process;
    var p := Process(group, request);
    Survives(group, request, l);
    Grows(group, request);
    x := if l in p.kept then l else p.request;
    assert l in p.kept ==> l in After(p);
  }

  lemma OthersKept(locks: seq<Lock>, request: Lock, x: Lock)
    requires NoUnlocks(locks) && Grouped(locks) && x in locks && x.owner != request.owner
    ensures x in Granted(locks, request)
  {
    hide Process, After, Grouped, GroupStart, GroupEnd, NoUnlocks;
    var s, e := GroupStart(locks, request.owner), GroupEnd(locks, request.owner);
    LooseParts(locks, request.owner);
    assert locks == locks[..s] + locks[s..e] + locks[e..];
    assert x in locks[..s] || x in locks[e..];
  }

  lemma AfterIn(locks: seq<Lock>, request: Lock, x: Lock)
    requires x in After(Process(Group(locks, request.owner), request))
    ensures x in Granted(locks, request)
  {
    hide Process, After, GroupStart, GroupEnd;
  }

  lemma OwnInGroup(locks: seq<Lock>, owner: int, l: Lock)
    requires NoUnlocks(locks) && Grouped(locks) && l in locks && l.owner == owner
    ensures l in Group(locks, owner) && OwnedBy(Group(locks, owner), owner)
  {
    hide Grouped, GroupStart, GroupEnd, NoUnlocks;
    var s, e := GroupStart(locks, owner), GroupEnd(locks, owner);
    LooseParts(locks, owner);
    assert locks == locks[..s] + locks[s..e] + locks[e..];
  }

  /** Whoever a lock is in the way of, a granted request that notifies nobody leaves a lock in the
      way of. */
  lemma StillInTheWay(locks: seq<Lock>, request: Lock, l: Lock, r: Lock)
    requires NoUnlocks(locks) && Grouped(locks) && l in locks && Conflict(l, r)
    requires !Process(Group(locks, request.owner), request).notified
    ensures exists x :: x in Granted(locks, request) && Conflict(x, r)
  {
    hide Process, Grouped, Group, After, Granted, Conflict, OwnedBy, NoUnlocks;
    if l.owner == request.owner {
      OwnInGroup(locks, request.owner, l);
      var x := SurvivesConflict(Group(locks, request.owner), request, l, r);
      AfterIn(locks, request, x);
    } else {
      OthersKept(locks, request, l);
    }
  }
}
