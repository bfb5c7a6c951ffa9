/** What futexes are for (kernel/futex.c): waiters queue up at an address of an address space, and
    are woken or moved to another address in the order in which they came. */
module FutexQueues {

  type WaitId = nat

  /** The address space and the address that waiters have in common. */
  datatype Key = Key(mem: nat, addr: nat)

  /** The queue at every address, where each waiter that has not returned belongs, and which of
      them have been told to wake up. */
  datatype State = State(queues: imap<Key, seq<WaitId>>, waits: map<WaitId, Key>, notified: set<WaitId>)

  ghost predicate Total(a: State) { forall k: Key :: k in a.queues }

  const UINT: nat := 0x1_0000_0000

  function Min(a: nat, b: nat): nat { if a < b then a else b }

  function Rotate(q: seq<WaitId>, n: nat): (r: seq<WaitId>)
    requires n > 0 ==> q != []
    ensures multiset(r) == multiset(q) && |r| == |q|
    decreases n
  {
    if n == 0 then q
    else
      assert q == [q[0]] + q[1..];
      Rotate(q[1..] + [q[0]], n - 1)
  }

  // The operations

  /** futex_wait, up to the point where it sleeps. */
  ghost function Enqueue(a: State, k: Key, w: WaitId): State
    requires Total(a)
  {
    State(a.queues[k := a.queues[k] + [w]], a.waits[w := k], a.notified - {w})
  }

  function Without(q: seq<WaitId>, w: WaitId): (r: seq<WaitId>)
    ensures forall x :: x in r <==> x in q && x != w
  {
    if q == [] then [] else if q[0] == w then Without(q[1..], w) else [q[0]] + Without(q[1..], w)
  }

  /** futex_wait once it wakes up, for whatever reason: it leaves the queue it is in by now. */
  ghost function Leave(a: State, w: WaitId): State
    requires Total(a) && w in a.waits
  {
    var k := a.waits[w];
    State(a.queues[k := Without(a.queues[k], w)], a.waits - {w}, a.notified - {w})
  }

  /** The first n waiters are told to wake up. */
  ghost function Wake(a: State, k: Key, n: nat): State
    requires Total(a)
  {
    var m := Min(n, |a.queues[k]|);
    a.(queues := a.queues[k := a.queues[k][m..]], notified := a.notified + Elements(a.queues[k][..m]))
  }

  function Elements(q: seq<WaitId>): set<WaitId> { set w | w in q }

  function Moved(waits: map<WaitId, Key>, q: seq<WaitId>, k: Key): map<WaitId, Key> {
    map w | w in waits :: if w in q then k else waits[w]
  }

  /** The number of waiters that a requeue moves. Going around the queue of the same address, it
      only stops at its limit. */
  function MoveCount(rest: nat, n: nat, same: bool): nat {
    if !same then Min(n, rest) else if rest == 0 then 0 else if rest == 1 then Min(n, 1) else n
  }

  /** The first n waiters are moved to the end of another queue. */
  ghost function Move(a: State, k: Key, n: nat, k': Key): State
    requires Total(a)
  {
    var q := a.queues[k];
    if k == k' then
      if |q| < 2 then a else a.(queues := a.queues[k := Rotate(q, n)])
    else
      var m := Min(n, |q|);
      State(a.queues[k := q[m..]][k' := a.queues[k'] + q[..m]], Moved(a.waits, q[..m], k'), a.notified)
  }

  // What holds at all times

  predicate NoDup(q: seq<WaitId>) { forall i, j :: 0 <= i < j < |q| ==> q[i] != q[j] }

  ghost predicate QueueOk(a: State, k: Key)
    requires Total(a)
  {
    NoDup(a.queues[k]) && forall w :: w in a.queues[k] ==> w in a.waits && a.waits[w] == k && w !in a.notified
  }

  /** A waiter is in exactly one queue, once, where it belongs; or it has been told to wake up. */
  ghost predicate Sound(a: State) {
    && Total(a)
    && (forall k: Key :: QueueOk(a, k))
    && (forall w :: w in a.waits && w !in a.notified ==> w in a.queues[a.waits[w]])
  }

  lemma EnqueueSound(a: State, k: Key, w: WaitId)
    requires Sound(a) && w !in a.waits
    ensures Sound(Enqueue(a, k, w))
  {
    var b := Enqueue(a, k, w);
    assert QueueOk(a, k);
    forall k': Key ensures QueueOk(b, k') { assert QueueOk(a, k'); }
  }

  lemma {:induction false} WithoutNoDup(q: seq<WaitId>, w: WaitId)
    requires NoDup(q)
    ensures NoDup(Without(q, w))
  {
    if q != [] {
      assert forall i, j :: 0 <= i < j < |q[1..]| ==> q[1..][i] == q[i + 1] && q[1..][j] == q[j + 1];
      WithoutNoDup(q[1..], w);
      assert forall i :: 0 <= i < |q[1..]| ==> q[1..][i] != q[0];
      if q[0] != w { Joined([q[0]], Without(q[1..], w)); }
    }
  }

  lemma LeaveSound(a: State, w: WaitId)
    requires Sound(a) && w in a.waits
    ensures Sound(Leave(a, w))
  {
    var b := Leave(a, w);
    forall k: Key ensures QueueOk(b, k) {
      assert QueueOk(a, k);
      WithoutNoDup(a.queues[k], w);
    }
  }

  lemma SliceNoDup(q: seq<WaitId>, m: nat)
    requires NoDup(q) && m <= |q|
    ensures NoDup(q[m..]) && NoDup(q[..m]) && (forall w :: w in q[..m] ==> w !in q[m..])
    ensures forall w :: w in q <==> w in q[..m] || w in q[m..]
  {
    assert q == q[..m] + q[m..];
  }

  lemma WakeSound(a: State, k: Key, n: nat)
    requires Sound(a)
    ensures Sound(Wake(a, k, n))
  {
    var b, m := Wake(a, k, n), Min(n, |a.queues[k]|);
    assert QueueOk(a, k);
    SliceNoDup(a.queues[k], m);
    forall k': Key ensures QueueOk(b, k') {
      assert QueueOk(a, k');
    }
  }

  lemma {:induction false} RotateNoDup(q: seq<WaitId>, n: nat)
    requires NoDup(q) && (n > 0 ==> q != [])
    ensures NoDup(Rotate(q, n)) && forall w :: w in Rotate(q, n) <==> w in q
    decreases n
  {
    if n > 0 { RotateNoDup(q[1..] + [q[0]], n - 1); }
  }

  lemma MoveSound(a: State, k: Key, n: nat, k': Key)
    requires Sound(a)
    ensures Sound(Move(a, k, n, k'))
  {
    var b, q := Move(a, k, n, k'), a.queues[k];
    assert QueueOk(a, k);
    if k == k' {
      if |q| >= 2 {
        RotateNoDup(q, n);
        forall x: Key ensures QueueOk(b, x) { assert QueueOk(a, x); }
      }
    } else {
      MoveElsewhere(a, k, n, k');
    }
  }

  lemma MoveElsewhere(a: State, k: Key, n: nat, k': Key)
    requires Sound(a) && k != k'
    ensures Sound(Move(a, k, n, k'))
  {
    var b, q := Move(a, k, n, k'), a.queues[k];
    var m := Min(n, |q|);
    assert QueueOk(a, k) && QueueOk(a, k');
    SliceNoDup(q, m);
    Joined(a.queues[k'], q[..m]);
    forall x: Key ensures QueueOk(b, x) {
      assert QueueOk(a, x);
      if x == k' {
        assert b.queues[x] == a.queues[k'] + q[..m];
      } else if x == k {
        assert b.queues[x] == q[m..];
      } else {
        assert b.queues[x] == a.queues[x];
      }
    }
    forall w | w in b.waits && w !in b.notified ensures w in b.queues[b.waits[w]] {
      assert w in a.queues[a.waits[w]];
    }
  }

  lemma Joined(p: seq<WaitId>, q: seq<WaitId>)
    requires NoDup(p) && NoDup(q) && forall w :: w in q ==> w !in p
    ensures NoDup(p + q)
  {
    forall i, j | 0 <= i < j < |p + q| ensures (p + q)[i] != (p + q)[j] {
      if i < |p| <= j { assert q[j - |p|] in q; }
    }
  }
}
