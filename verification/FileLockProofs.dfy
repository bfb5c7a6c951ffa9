/** What a granted request does to the meaning of the lock list, and why the list stays
    valid although the request grows while the list is being edited. */
module FileLockProofs {
  import opened FileLock

  predicate AllOf(locks: seq<Lock>, owner: int) {
    forall i :: 0 <= i < |locks| ==> locks[i].owner == owner && WellFormed(locks[i])
  }

  predicate OwnedBy(locks: seq<Lock>, owner: int) { forall i :: 0 <= i < |locks| ==> locks[i].owner == owner && locks[i].kind != Unlock }

  predicate NoneOf(locks: seq<Lock>, owner: int) {
    forall i :: 0 <= i < |locks| ==> locks[i].owner != owner
  }

  predicate AllWellFormed(locks: seq<Lock>) {
    forall i :: 0 <= i < |locks| ==> WellFormed(locks[i])
  }

  // Meaning

  lemma {:induction false} HeldConcat(xs: seq<Lock>, ys: seq<Lock>, owner: int, b: int)
    requires NoUnlocks(xs)
    ensures Held(xs + ys, owner, b) == if Held(xs, owner, b) != Unlock then Held(xs, owner, b) else Held(ys, owner, b)
  {
    if xs == [] {
      assert xs + ys == ys;
    } else {
      HeldConcat(xs[1..], ys, owner, b);
      assert (xs + ys)[1..] == xs[1..] + ys;
    }
  }

  lemma {:induction false} HeldNone(locks: seq<Lock>, owner: int, b: int)
    requires NoneOf(locks, owner)
    ensures Held(locks, owner, b) == Unlock
  {
    if locks != [] { HeldNone(locks[1..], owner, b); }
  }

  lemma HeldOne(l: Lock, owner: int, b: int)
    ensures Held([l], owner, b) == if l.owner == owner && Covers(l, b) then l.kind else Unlock
  {
    assert [l][1..] == [];
  }

  /** Carving keeps exactly the bytes outside the request. */
  lemma CarveHeld(l: Lock, request: Lock, b: int)
    requires l.kind != Unlock
    ensures OwnedBy(Carve(l, request), l.owner) && (WellFormed(l) ==> AllOf(Carve(l, request), l.owner))
    ensures Held(Carve(l, request), l.owner, b) == if Covers(l, b) && !Covers(request, b) then l.kind else Unlock
  {
    var c := Carve(l, request);
    if |c| == 2 {
      assert c == [c[0]] + [c[1]];
      HeldConcat([c[0]], [c[1]], l.owner, b);
      HeldOne(c[0], l.owner, b);
      HeldOne(c[1], l.owner, b);
    } else if |c| == 1 {
      assert c == [c[0]];
      HeldOne(c[0], l.owner, b);
    }
  }

  /** The owner's locks after the pass hold the requested kind on exactly the bytes that were
      asked for, and what they held before on all others. None of the ranges need have bytes. */
  lemma {:induction false} ProcessHeld(group: seq<Lock>, request: Lock, b: int)
    requires OwnedBy(group, request.owner)
    ensures var p := Process(group, request);
      && OwnedBy(p.kept, request.owner)
      && p.request.owner == request.owner && p.request.kind == request.kind && p.request.pid == request.pid
      && p.request.start <= request.start && request.end <= p.request.end
      && Held(After(p), request.owner, b) == if Covers(request, b) then request.kind else Held(group, request.owner, b)
    decreases |group|
  {
    var o := request.owner;
    if group == [] {
      HeldOne(request, o, b);
      assert [] + [request] == [request];
    } else {
      var l, rest := group[0], group[1..];
      if l.kind == request.kind && Touches(request, l) {
        ProcessHeld(rest, Absorb(request, l), b);
        assert Process(group, request).kept == Process(rest, Absorb(request, l)).kept;
      } else {
        ProcessHeld(rest, request, b);
        var head := if l.kind == request.kind then [l] else Carve(l, request);
        var p, p' := Process(group, request), Process(rest, request);
        assert p.kept == head + p'.kept;
        CarveHeld(l, request, b);
        assert NoUnlocks(head);
        assert After(p) == head + After(p');
        HeldConcat(head, After(p'), o, b);
        HeldOne(l, o, b);
      }
    }
  }

  lemma AllOfOwned(locks: seq<Lock>, owner: int)
    requires AllOf(locks, owner)
    ensures OwnedBy(locks, owner)
  {
  }

  lemma {:induction false} ProcessAllOf(group: seq<Lock>, request: Lock)
    requires AllOf(group, request.owner)
    ensures AllOf(Process(group, request).kept, request.owner)
    decreases |group|
  {
    if group != [] {
      ProcessAllOf(group[1..], Meet(group[0], request).request);
      CarveHeld(group[0], request, 0);
    }
  }

  /** Waiters are notified exactly when some requested byte was held in another kind. */
  lemma {:induction false} ProcessNotifies(group: seq<Lock>, request: Lock)
    requires AllOf(group, request.owner) && request.start <= request.end && AllCompatible(group)
    ensures Process(group, request).notified
       <==> exists i :: 0 <= i < |group| && group[i].kind != request.kind && Overlap(group[i], request)
    decreases |group|
  {
    if group != [] {
      var l, rest := group[0], group[1..];
      assert AllCompatible(rest);
      if l.kind == request.kind && Touches(request, l) {
        ProcessNotifies(rest, Absorb(request, l));
        forall i | 0 <= i < |rest| ensures Overlap(rest[i], Absorb(request, l)) <==> Overlap(rest[i], request) {
          assert rest[i] == group[i + 1] && Compatible(group[0], group[i + 1]);
        }
      } else {
        ProcessNotifies(rest, request);
      }
      assert forall i :: 0 <= i < |rest| ==> rest[i] == group[i + 1];
    }
  }

  // Validity

  /** What is left of a lock is compatible with whatever the lock was compatible with. */
  lemma CarveCompatible(m: Lock, l: Lock, request: Lock)
    requires m.start <= m.end && WellFormed(l) && Compatible(m, l) && request.start <= request.end
    ensures forall i :: 0 <= i < |Carve(l, request)| ==> Compatible(m, Carve(l, request)[i])
  {
  }

  lemma {:induction false} KeptCompatible(m: Lock, group: seq<Lock>, request: Lock)
    requires m.start <= m.end && AllOf(group, request.owner) && request.start <= request.end
    requires forall i :: 0 <= i < |group| ==> Compatible(m, group[i])
    ensures forall i :: 0 <= i < |Process(group, request).kept| ==> Compatible(m, Process(group, request).kept[i])
    decreases |group|
  {
    if group != [] {
      var l, rest := group[0], group[1..];
      if l.kind == request.kind && Touches(request, l) {
        KeptCompatible(m, rest, Absorb(request, l));
      } else {
        KeptCompatible(m, rest, request);
        CarveCompatible(m, l, request);
      }
    }
  }

  /** The request only grows over locks of its own, so it runs into nothing new. */
  lemma {:induction false} GrownCompatible(m: Lock, group: seq<Lock>, request: Lock)
    requires m.start <= m.end && AllOf(group, request.owner) && request.start <= request.end
    requires Compatible(m, request) && forall i :: 0 <= i < |group| ==> Compatible(m, group[i])
    ensures Compatible(m, Process(group, request).request)
    decreases |group|
  {
    if group != [] {
      var l, rest := group[0], group[1..];
      if l.kind == request.kind && Touches(request, l) {
        GrownCompatible(m, rest, Absorb(request, l));
      } else {
        GrownCompatible(m, rest, request);
      }
    }
  }

  lemma ConcatCompatible(xs: seq<Lock>, ys: seq<Lock>)
    requires AllCompatible(xs) && AllCompatible(ys)
    requires forall i, j :: 0 <= i < |xs| && 0 <= j < |ys| ==> Compatible(xs[i], ys[j])
    ensures AllCompatible(xs + ys)
  {
  }

  /** The owner's locks stay disjoint and coalesced, the new lock included. */
  lemma {:induction false} ProcessCompatible(group: seq<Lock>, request: Lock)
    requires AllOf(group, request.owner) && request.start <= request.end && AllCompatible(group)
    ensures AllCompatible(After(Process(group, request)))
    decreases |group|
  {
    hide Compatible, After;
    if group == [] {
      SingleCompatible(request);
    } else {
      var l, rest := group[0], group[1..];
      assert AllCompatible(rest);
      if l.kind == request.kind && Touches(request, l) {
        ProcessCompatible(rest, Absorb(request, l));
        assert Process(group, request).kept == Process(rest, Absorb(request, l)).kept;
      } else {
        ProcessCompatible(rest, request);
        var head, tail := Pieces(l, request), After(Process(rest, request));
        assert group == [l] + rest;
        forall i, j | 0 <= i < |head| && 0 <= j < |tail| ensures Compatible(head[i], tail[j]) {
          PieceCompatible(l, head[i], rest, request);
        }
        PiecesCompatible(l, request);
        ConcatCompatible(head, tail);
        ProcessAfter(group, request);
      }
    }
  }

  lemma SingleCompatible(request: Lock)
    ensures AllCompatible(After(Process([], request)))
  {
  }

  lemma PiecesCompatible(l: Lock, request: Lock)
    requires request.start <= request.end
    ensures AllCompatible(Pieces(l, request))
  {
  }

  /** What a request that does not swallow l leaves of it. */
  function Pieces(l: Lock, request: Lock): seq<Lock> { if l.kind == request.kind then [l] else Carve(l, request) }

  lemma ProcessAfter(group: seq<Lock>, request: Lock)
    requires group != [] && !(group[0].kind == request.kind && Touches(request, group[0]))
    ensures After(Process(group, request)) == Pieces(group[0], request) + After(Process(group[1..], request))
  {
  }

  lemma PieceCompatible(l: Lock, piece: Lock, rest: seq<Lock>, request: Lock)
    requires AllOf([l] + rest, request.owner) && request.start <= request.end && AllCompatible([l] + rest)
    requires l.kind == request.kind ==> piece == l && !Touches(request, l)
    requires l.kind != request.kind ==> piece in Carve(l, request)
    ensures forall j :: 0 <= j < |After(Process(rest, request))| ==> Compatible(piece, After(Process(rest, request))[j])
  {
    forall i | 0 <= i < |rest| ensures Compatible(piece, rest[i]) {
      assert ([l] + rest)[0] == l && ([l] + rest)[i + 1] == rest[i];
      assert Compatible(l, rest[i]) && WellFormed(rest[i]);
    }
    assert AllOf(rest, request.owner) by {
      assert forall i :: 0 <= i < |rest| ==> rest[i] == ([l] + rest)[i + 1];
    }
    assert WellFormed(l) && l.owner == request.owner by { assert ([l] + rest)[0] == l; }
    KeptCompatible(piece, rest, request);
    GrownCompatible(piece, rest, request);
  }

  // The whole list

  /** The list falls into locks of others, the owner's group, and locks of others again. */
  ghost predicate Splits(locks: seq<Lock>, owner: int, s: nat, e: nat) {
    && s <= e <= |locks|
    && NoneOf(locks[..s], owner) && AllOf(locks[s..e], owner) && NoneOf(locks[e..], owner)
    && (s == e ==> e == |locks|)
    && AllCompatible(locks[s..e])
  }

  /** The same for a list that need not be valid. */
  ghost predicate Falls(locks: seq<Lock>, owner: int, s: nat, e: nat) {
    && s <= e <= |locks|
    && NoneOf(locks[..s], owner) && OwnedBy(locks[s..e], owner) && NoneOf(locks[e..], owner)
    && (s == e ==> e == |locks|)
  }

  lemma LooseParts(locks: seq<Lock>, owner: int)
    requires NoUnlocks(locks) && Grouped(locks)
    ensures Falls(locks, owner, GroupStart(locks, owner), GroupEnd(locks, owner))
  {
    hide GroupStart, GroupSize;
    var s, e := GroupStart(locks, owner), GroupEnd(locks, owner);
    GroupBounds(locks, owner);
    assert NoneOf(locks[e..], owner) by { NoneAfter(locks, owner, s, e); }
  }

  lemma Parts(locks: seq<Lock>, owner: int)
    requires Valid(locks)
    ensures Splits(locks, owner, GroupStart(locks, owner), GroupEnd(locks, owner))
  {
    hide GroupStart, GroupSize;
    var s, e := GroupStart(locks, owner), GroupEnd(locks, owner);
    GroupBounds(locks, owner);
    assert NoneOf(locks[e..], owner) by { NoneAfter(locks, owner, s, e); }
    assert AllCompatible(locks[s..e]) by {
      forall i, j | 0 <= i < j < e - s ensures Compatible(locks[s..e][i], locks[s..e][j]) {
        assert locks[s..e][i] == locks[s + i] && locks[s..e][j] == locks[s + j];
      }
    }
  }

  lemma GroupBounds(locks: seq<Lock>, owner: int)
    ensures var s, e := GroupStart(locks, owner), GroupEnd(locks, owner);
      && (forall k :: s <= k < e ==> locks[k].owner == owner)
      && (e < |locks| ==> s < e && locks[s].owner == owner && locks[e].owner != owner)
  {
    hide GroupStart, GroupSize;
    var s := GroupStart(locks, owner);
    var rest := locks[s..];
    var n := GroupSize(rest, owner);
    forall k | s <= k < s + n ensures locks[k].owner == owner { assert locks[k] == rest[k - s]; }
    if s + n < |locks| {
      assert rest[n] == locks[s + n] && rest[0] == locks[s];
    }
  }

  lemma NoneAfter(locks: seq<Lock>, owner: int, s: nat, e: nat)
    requires Grouped(locks) && s <= e <= |locks|
    requires e < |locks| ==> s < e && locks[s].owner == owner && locks[e].owner != owner
    ensures NoneOf(locks[e..], owner)
  {
    forall k | 0 <= k < |locks[e..]| ensures locks[e..][k].owner != owner {
      assert locks[e..][k] == locks[e + k];
      if k > 0 { assert locks[e].owner == locks[s].owner || locks[s].owner != locks[e + k].owner; }
    }
  }

  /** A granted request changes exactly the requested bytes of its owner to the requested
      kind, and no other byte of any owner. */
  lemma GrantedHeld(locks: seq<Lock>, request: Lock, owner: int, b: int)
    requires NoUnlocks(locks) && Grouped(locks)
    ensures Held(Granted(locks, request), owner, b)
         == if owner == request.owner && Covers(request, b) then request.kind else Held(locks, owner, b)
  {
    hide Process, Held, Grouped, GroupStart, GroupEnd;
    var s, e := GroupStart(locks, request.owner), GroupEnd(locks, request.owner);
    var pre, group, post := locks[..s], locks[s..e], locks[e..];
    LooseParts(locks, request.owner);
    ProcessHeld(group, request, b);
    var after := After(Process(group, request));
    assert NoUnlocks(pre) && NoUnlocks(group) && NoUnlocks(after);
    assert Granted(locks, request) == pre + (after + post);
    assert locks == pre + (group + post);
    HeldConcat(pre, after + post, owner, b);
    HeldConcat(pre, group + post, owner, b);
    GroupHeld(after, post, owner, b, request.owner);
    GroupHeld(group, post, owner, b, request.owner);
    if owner == request.owner {
      HeldNone(pre, owner, b);
      HeldNone(post, owner, b);
    }
  }

  lemma ValidWellFormed(locks: seq<Lock>)
    requires Valid(locks)
    ensures AllWellFormed(locks)
  {
  }

  lemma GroupHeld(group: seq<Lock>, post: seq<Lock>, owner: int, b: int, o: int)
    requires NoUnlocks(group) && forall i :: 0 <= i < |group| ==> group[i].owner == o
    ensures owner == o && Held(group, o, b) != Unlock ==> Held(group + post, owner, b) == Held(group, o, b)
    ensures owner != o || Held(group, o, b) == Unlock ==> Held(group + post, owner, b) == Held(post, owner, b)
  {
    HeldConcat(group, post, owner, b);
    if owner != o { HeldNone(group, owner, b); }
  }

  /** A granted request leaves the list valid: grouped, disjoint, coalesced and free of
      conflicts. */
  lemma GrantedValid(locks: seq<Lock>, request: Lock)
    requires Valid(locks) && request.start <= request.end
    requires request.kind != Unlock ==> Free(locks, request)
    ensures Valid(Granted(locks, request))
  {
    hide Process, GroupStart, GroupEnd, Compatible, Grouped, AllCompatible, WellFormed, Free;
    var o := request.owner;
    var s, e := GroupStart(locks, o), GroupEnd(locks, o);
    var pre, group, post := locks[..s], locks[s..e], locks[e..];
    var after := After(Process(group, request));
    Parts(locks, o);
    assert OwnedBy(group, o) by { AllOfOwned(group, o); }
    ProcessHeld(group, request, 0);
    ProcessAllOf(group, request);
    assert AllOf(after, o) by { NewWellFormed(request, Process(group, request)); }
    ProcessCompatible(group, request);
    forall m: Lock | m in pre + post ensures forall j :: 0 <= j < |after| ==> Compatible(m, after[j]) {
      assert m in locks && m.owner != o;
      OthersCompatible(m, locks, request);
    }
    assert locks == pre + group + post;
    AroundCompatible(pre, after, post, locks, group);
    GroupedAround(pre, after, post, o, locks);
    ValidWellFormed(locks);
  }

  lemma NewWellFormed(request: Lock, p: Pass)
    requires AllOf(p.kept, request.owner) && p.request.owner == request.owner && p.request.kind == request.kind
    requires request.start <= request.end && p.request.start <= request.start && request.end <= p.request.end
    ensures AllOf(After(p), request.owner)
  {
  }

  lemma OthersCompatible(m: Lock, locks: seq<Lock>, request: Lock)
    requires Valid(locks) && request.start <= request.end && m in locks && m.owner != request.owner
    requires request.kind != Unlock ==> Free(locks, request)
    ensures m.start <= m.end
    ensures var after := After(Process(Group(locks, request.owner), request));
      forall j :: 0 <= j < |after| ==> Compatible(m, after[j])
  {
    hide Process, GroupStart, GroupEnd, Grouped;
    var group := Group(locks, request.owner);
    Parts(locks, request.owner);
    forall i | 0 <= i < |group| ensures Compatible(m, group[i]) {
      var k := GroupStart(locks, request.owner) + i;
      assert locks[k] == group[i];
      MembersCompatible(m, locks, k);
    }
    ProcessHeld(group, request, 0);
    KeptCompatible(m, group, request);
    if request.kind != Unlock { GrownCompatible(m, group, request); }
  }

  lemma MembersCompatible(m: Lock, locks: seq<Lock>, k: nat)
    requires AllCompatible(locks) && m in locks && k < |locks| && m.owner != locks[k].owner
    ensures Compatible(m, locks[k])
  {
    var n :| 0 <= n < |locks| && locks[n] == m;
    if n < k { assert Compatible(locks[n], locks[k]); } else { assert Compatible(locks[k], locks[n]); }
  }

  lemma AroundCompatible(pre: seq<Lock>, after: seq<Lock>, post: seq<Lock>, locks: seq<Lock>, group: seq<Lock>)
    requires locks == pre + group + post && AllCompatible(locks) && AllCompatible(after)
    requires forall m | m in pre + post :: forall j :: 0 <= j < |after| ==> Compatible(m, after[j])
    ensures AllCompatible(pre + after + post)
  {
    var all := pre + after + post;
    var d := |pre| + |group|;
    forall i, j | 0 <= i < j < |all| ensures Compatible(all[i], all[j]) {
      var n := |pre| + |after|;
      if i < |pre| && n <= j { assert all[i] == locks[i] && all[j] == locks[j - n + d]; }
      else if i < |pre| && j < |pre| { assert all[i] == locks[i] && all[j] == locks[j]; }
      else if i >= n { assert all[i] == locks[i - n + d] && all[j] == locks[j - n + d]; }
      else if i < |pre| { assert all[i] in pre + post && all[j] == after[j - |pre|]; }
      else if j >= n { assert all[j] == post[j - n] && post[j - n] in pre + post && all[i] == after[i - |pre|]; }
      else { assert all[i] == after[i - |pre|] && all[j] == after[j - |pre|]; }
    }
  }

  lemma GroupedAround(pre: seq<Lock>, after: seq<Lock>, post: seq<Lock>, o: int, locks: seq<Lock>)
    requires Grouped(locks) && NoneOf(pre, o) && NoneOf(post, o) && OwnedBy(after, o)
    requires |pre| + |post| <= |locks| && pre == locks[..|pre|] && post == locks[|locks| - |post|..]
    requires |pre| + |post| == |locks| ==> post == []
    requires forall k :: |pre| <= k < |locks| - |post| ==> locks[k].owner == o
    ensures Grouped(pre + after + post)
  {
    var all := pre + after + post;
    var n, d := |pre| + |after|, |locks| - |post|;
    assert post != [] ==> locks[|pre|].owner == o;
    forall i, k | 0 <= i < |pre| && d <= k < |locks| ensures locks[i].owner != locks[k].owner {
      assert locks[|pre|].owner == locks[i].owner || locks[i].owner != locks[k].owner;
      assert pre[i] == locks[i];
    }
    forall i, j, k | 0 <= i < j < k < |all| && all[i].owner == all[k].owner ensures all[j].owner == all[i].owner {
      if all[i].owner != o {
        var i', j', k' := Source(i, |pre|, n, d), Source(j, |pre|, n, d), Source(k, |pre|, n, d);
        assert all[i] == locks[i'] && all[k] == locks[k'];
        assert all[j] == locks[j'];
      }
    }
  }

  /** Where a lock outside the group stood in the list before. */
  function Source(i: int, pre: int, n: int, d: int): int { if i < pre then i else i - n + d }

  // Reading a valid list byte by byte

  lemma {:induction false} HeldWitness(locks: seq<Lock>, owner: int, b: int) returns (i: nat)
    requires Held(locks, owner, b) != Unlock
    ensures i < |locks| && locks[i].owner == owner && Covers(locks[i], b) && locks[i].kind == Held(locks, owner, b)
  {
    if locks[0].owner == owner && Covers(locks[0], b) {
      i := 0;
    } else {
      i := HeldWitness(locks[1..], owner, b);
      i := i + 1;
    }
  }

  lemma {:induction false} HeldUnique(locks: seq<Lock>, i: nat, b: int)
    requires AllCompatible(locks) && i < |locks| && Covers(locks[i], b)
    ensures Held(locks, locks[i].owner, b) == locks[i].kind
  {
    if i > 0 {
      assert Compatible(locks[0], locks[i]);
      assert AllCompatible(locks[1..]);
      HeldUnique(locks[1..], i - 1, b);
    }
  }

  lemma ValidLoose(locks: seq<Lock>)
    requires Valid(locks)
    ensures Loose(locks)
  {
    forall i, b | 0 <= i < |locks| && Covers(locks[i], b) ensures Held(locks, locks[i].owner, b) == locks[i].kind { HeldUnique(locks, i, b); }
  }

  /** Byte b of the request is held by its owner in a kind other than the requested one. */
  predicate Overrides(locks: seq<Lock>, request: Lock, b: int) {
    Covers(request, b) && Held(locks, request.owner, b) != Unlock && Held(locks, request.owner, b) != request.kind
  }

  lemma InGroup(locks: seq<Lock>, owner: int, s: nat, e: nat, n: nat)
    requires Splits(locks, owner, s, e) && n < |locks| && locks[n].owner == owner
    ensures s <= n < e
  {
  }

  /** A granted request notifies waiters exactly when it overrides some byte; in particular
      whenever it weakens the owner's hold on one. */
  lemma GrantedNotifies(locks: seq<Lock>, request: Lock)
    requires Valid(locks) && request.start <= request.end
    ensures Process(Group(locks, request.owner), request).notified <==> exists b :: Overrides(locks, request, b)
  {
    hide Process, GroupStart, GroupEnd, Grouped;
    var s, e := GroupStart(locks, request.owner), GroupEnd(locks, request.owner);
    var group := Group(locks, request.owner);
    Parts(locks, request.owner);
    ProcessNotifies(group, request);
    if i :| 0 <= i < |group| && group[i].kind != request.kind && Overlap(group[i], request) {
      assert group[i] == locks[s + i];
      var b := if group[i].start < request.start then request.start else group[i].start;
      HeldUnique(locks, s + i, b);
      assert Overrides(locks, request, b);
    }
    if b :| Overrides(locks, request, b) {
      var n := HeldWitness(locks, request.owner, b);
      InGroup(locks, request.owner, s, e, n);
      assert group[n - s] == locks[n];
    }
  }

  // Dropping all locks of an owner

  function Without(locks: seq<Lock>, owner: int): seq<Lock> {
    if locks == [] then []
    else if locks[0].owner == owner then Without(locks[1..], owner)
    else [locks[0]] + Without(locks[1..], owner)
  }

  lemma {:induction false} WithoutHeld(locks: seq<Lock>, owner: int, o: int, b: int)
    ensures Held(Without(locks, owner), o, b) == if o == owner then Unlock else Held(locks, o, b)
  {
    if locks != [] {
      WithoutHeld(locks[1..], owner, o, b);
      var rest := Without(locks[1..], owner);
      if locks[0].owner != owner { assert ([locks[0]] + rest)[1..] == rest; }
    }
  }

  lemma {:induction false} WithoutMembers(locks: seq<Lock>, owner: int, l: Lock)
    ensures l in Without(locks, owner) <==> l in locks && l.owner != owner
  {
    if locks != [] { WithoutMembers(locks[1..], owner, l); }
  }

  lemma {:induction false} WithoutValid(locks: seq<Lock>, owner: int)
    requires Valid(locks)
    ensures Valid(Without(locks, owner))
  {
    WithoutIsGrouped(locks, owner);
    if locks != [] {
      var l, tail := locks[0], locks[1..];
      TailValid(locks);
      WithoutValid(tail, owner);
      if l.owner != owner {
        var rest := Without(tail, owner);
        forall k | 0 <= k < |rest| ensures Compatible(l, rest[k]) {
          WithoutMembers(tail, owner, rest[k]);
          var n :| 0 <= n < |tail| && tail[n] == rest[k];
          assert locks[n + 1] == tail[n];
        }
        ConcatCompatible([l], rest);
      }
    }
  }

  /** Where a lock that is kept stood before. */
  lemma {:induction false} WithoutAt(locks: seq<Lock>, owner: int, k: nat) returns (n: nat)
    requires k < |Without(locks, owner)|
    ensures n < |locks| && locks[n] == Without(locks, owner)[k]
  {
    if locks[0].owner != owner && k == 0 {
      n := 0;
    } else {
      n := WithoutAt(locks[1..], owner, if locks[0].owner == owner then k else k - 1);
      n := n + 1;
    }
  }

  /** Locks that are kept stay in order. */
  lemma {:induction false} WithoutTwo(locks: seq<Lock>, owner: int, j: nat, k: nat) returns (m: nat, n: nat)
    requires j < k < |Without(locks, owner)|
    ensures m < n < |locks| && locks[m] == Without(locks, owner)[j] && locks[n] == Without(locks, owner)[k]
  {
    if locks[0].owner != owner && j == 0 {
      m := 0;
      n := WithoutAt(locks[1..], owner, k - 1);
      n := n + 1;
    } else {
      var d := if locks[0].owner == owner then 0 else 1;
      m, n := WithoutTwo(locks[1..], owner, j - d, k - d);
      m, n := m + 1, n + 1;
    }
  }

  lemma {:induction false} WithoutThree(locks: seq<Lock>, owner: int, i: nat, j: nat, k: nat) returns (l: nat, m: nat, n: nat)
    requires i < j < k < |Without(locks, owner)|
    ensures l < m < n < |locks|
    ensures var rest := Without(locks, owner); locks[l] == rest[i] && locks[m] == rest[j] && locks[n] == rest[k]
  {
    if locks[0].owner != owner && i == 0 {
      l := 0;
      m, n := WithoutTwo(locks[1..], owner, j - 1, k - 1);
      m, n := m + 1, n + 1;
    } else {
      var d := if locks[0].owner == owner then 0 else 1;
      l, m, n := WithoutThree(locks[1..], owner, i - d, j - d, k - d);
      l, m, n := l + 1, m + 1, n + 1;
    }
  }

  lemma WithoutIsGrouped(locks: seq<Lock>, owner: int)
    requires Grouped(locks)
    ensures Grouped(Without(locks, owner))
  {
    var rest := Without(locks, owner);
    forall i, j, k | 0 <= i < j < k < |rest| && rest[i].owner == rest[k].owner ensures rest[j].owner == rest[i].owner {
      var l, m, n := WithoutThree(locks, owner, i, j, k);
    }
  }

  lemma TailGrouped(locks: seq<Lock>)
    requires Grouped(locks) && locks != []
    ensures Grouped(locks[1..])
  {
    var tail := locks[1..];
    forall i, j, k | 0 <= i < j < k < |tail| && tail[i].owner == tail[k].owner ensures tail[j].owner == tail[i].owner {
      assert locks[i + 1].owner == locks[k + 1].owner;
    }
  }

  lemma TailValid(locks: seq<Lock>)
    requires Valid(locks) && locks != []
    ensures Valid(locks[1..])
  {
    TailGrouped(locks);
    var tail := locks[1..];
    assert forall i :: 0 <= i < |tail| ==> tail[i] == locks[i + 1];
  }
}
