/** What callers get from futexes over whole runs: no waiter is lost, the order of arrival decides
    who is woken, and a requeue splits a queue in three. */
module FutexRuns {

  import opened FutexQueues
  import opened FutexSystem

  datatype Op =
    | Enter(k: Key, w: WaitId)
    | Exit(w: WaitId)
    | Wakelike(requeue: bool, k: Key, wakeMax: nat, requeueMax: nat, k': Key)

  predicate Enabled(a: State, op: Op) {
    match op
    case Enter(k, w) => w !in a.waits
    case Exit(w) => w in a.waits
    case Wakelike(requeue, k, wakeMax, requeueMax, k') => true
  }

  ghost function Apply(a: State, op: Op): (b: State)
    requires Total(a) && Enabled(a, op)
    ensures Total(b)
  {
    match op
    case Enter(k, w) => Enqueue(a, k, w)
    case Exit(w) => Leave(a, w)
    case Wakelike(requeue, k, wakeMax, requeueMax, k') => AfterWakelike(a, requeue, k, wakeMax, requeueMax, k')
  }

  ghost predicate Runs(a: State, ops: seq<Op>, b: State)
    requires Total(a)
    decreases |ops|
  {
    if ops == [] then b == a else Enabled(a, ops[0]) && Runs(Apply(a, ops[0]), ops[1..], b)
  }

  lemma StepSound(a: State, op: Op)
    requires Sound(a) && Enabled(a, op)
    ensures Sound(Apply(a, op))
  {
    hide Sound, Move, Wake, Enqueue, Leave;
    SoundTotal(a);
    match op
    case Enter(k, w) => EnqueueSound(a, k, w);
    case Exit(w) => LeaveSound(a, w);
    case Wakelike(requeue, k, wakeMax, requeueMax, k') =>
      WakeSound(a, k, wakeMax);
      if requeue { MoveSound(Wake(a, k, wakeMax), k, requeueMax, k'); }
  }

  lemma SoundTotal(a: State)
    requires Sound(a)
    ensures Total(a)
  {
  }

  /** At all times a waiter that nobody has woken stands in the queue it belongs to, exactly once,
      and in no other. */
  lemma {:induction false} RunSound(a: State, ops: seq<Op>, b: State)
    requires Sound(a) && Runs(a, ops, b)
    ensures Sound(b)
    decreases |ops|
  {
    hide Sound, Apply;
    SoundTotal(a);
    if ops != [] {
      StepSound(a, ops[0]);
      RunSound(Apply(a, ops[0]), ops[1..], b);
    }
  }

  /** A wake cannot miss a waiter that went to sleep before it: whatever happened since, it is
      reached at the address it belongs to by now, and exactly if it is among the first. */
  lemma WakeReaches(a: State, ops: seq<Op>, b: State, w: WaitId, n: nat)
    requires Sound(a) && Runs(a, ops, b) && w in b.waits && w !in b.notified
    ensures Total(b)
    ensures exists i :: 0 <= i < |b.queues[b.waits[w]]| && b.queues[b.waits[w]][i] == w
                     && (w in Wake(b, b.waits[w], n).notified <==> i < n)
  {
    RunSound(a, ops, b);
    var k := b.waits[w];
    var q := b.queues[k];
    assert w in q && QueueOk(b, k);
    var i :| 0 <= i < |q| && q[i] == w;
    var m := Min(n, |q|);
    if i < n { assert q[..m][i] == w; }
    if w in q[..m] { var j :| 0 <= j < m && q[..m][j] == w; assert q[j] == w; }
  }

  // Order of arrival

  predicate Before(q: seq<WaitId>, w: WaitId, v: WaitId) { exists i, j :: 0 <= i < j < |q| && q[i] == w && q[j] == v }

  predicate WakesOnly(op: Op, w: WaitId, v: WaitId) {
    match op
    case Enter(k, x) => true
    case Exit(x) => x != w && x != v
    case Wakelike(requeue, k, wakeMax, requeueMax, k') => !requeue
  }

  /** The earlier waiter has been woken, or still stands before the later one. */
  ghost predicate InOrder(a: State, k: Key, w: WaitId, v: WaitId)
    requires Total(a)
  {
    w in a.waits && v in a.waits && w != v && (w in a.notified || (v !in a.notified && Before(a.queues[k], w, v)))
  }

  lemma {:induction false} BeforeWithout(q: seq<WaitId>, w: WaitId, v: WaitId, x: WaitId)
    requires Before(q, w, v) && x != w && x != v
    ensures Before(Without(q, x), w, v)
  {
    var i, j :| 0 <= i < j < |q| && q[i] == w && q[j] == v;
    var t := Without(q[1..], x);
    if i == 0 {
      assert v == q[1..][j - 1];
      assert v in t;
      var n :| 0 <= n < |t| && t[n] == v;
      var r := Without(q, x);
      assert r[0] == w && r[n + 1] == v;
    } else {
      assert q[1..][i - 1] == w && q[1..][j - 1] == v;
      BeforeWithout(q[1..], w, v, x);
      var m, n :| 0 <= m < n < |t| && t[m] == w && t[n] == v;
      var r := Without(q, x);
      if q[0] != x { assert r[m + 1] == w && r[n + 1] == v; }
    }
  }

  lemma WakeOrder(a: State, k: Key, w: WaitId, v: WaitId, n: nat)
    requires Total(a) && Before(a.queues[k], w, v)
    ensures w in Wake(a, k, n).notified || Before(Wake(a, k, n).queues[k], w, v)
  {
    var q := a.queues[k];
    var m := Min(n, |q|);
    var i, j :| 0 <= i < j < |q| && q[i] == w && q[j] == v;
    if i < m {
      assert q[..m][i] == w;
    } else {
      assert q[m..][i - m] == w && q[m..][j - m] == v;
    }
  }

  lemma WakeLater(a: State, k: Key, w: WaitId, v: WaitId, n: nat)
    requires Sound(a) && Before(a.queues[k], w, v) && w !in Wake(a, k, n).notified
    ensures v !in a.queues[k][..Min(n, |a.queues[k]|)]
  {
    var q := a.queues[k];
    var m := Min(n, |q|);
    var i, j :| 0 <= i < j < |q| && q[i] == w && q[j] == v;
    assert QueueOk(a, k);
    forall l | 0 <= l < m ensures q[l] in q[..m] { assert q[..m][l] == q[l]; }
    forall l | 0 <= l < m ensures q[..m][l] != v { assert q[l] != q[j]; }
  }

  lemma StepInOrder(a: State, op: Op, k: Key, w: WaitId, v: WaitId)
    requires Sound(a) && Enabled(a, op) && InOrder(a, k, w, v) && WakesOnly(op, w, v)
    ensures InOrder(Apply(a, op), k, w, v)
  {
    var b := Apply(a, op);
    match op
    case Enter(k1, x) =>
      if w !in a.notified {
        var q := a.queues[k];
        var i, j :| 0 <= i < j < |q| && q[i] == w && q[j] == v;
        assert b.queues[k][i] == w && b.queues[k][j] == v;
      }
    case Exit(x) =>
      if w !in a.notified { BeforeWithout(a.queues[k], w, v, x); }
    case Wakelike(requeue, k1, wakeMax, requeueMax, k') =>
      if w !in a.notified && k1 == k {
        WakeOrder(a, k, w, v, wakeMax);
        if w !in b.notified { WakeLater(a, k, w, v, wakeMax); }
      } else if w !in a.notified {
        OtherAddress(a, k1, k, v, wakeMax);
      }
  }

  /** Waking at one address does not reach who waits at another. */
  lemma OtherAddress(a: State, k1: Key, k: Key, v: WaitId, n: nat)
    requires Sound(a) && k1 != k && v in a.queues[k]
    ensures v !in a.queues[k1][..Min(n, |a.queues[k1]|)]
  {
    assert QueueOk(a, k) && QueueOk(a, k1);
    assert v !in a.queues[k1];
  }

  /** First come, first woken: among waiters at one address, as long as neither gives up and no
      requeue intervenes, the later one is never woken before the earlier one. */
  lemma {:induction false} RunInOrder(a: State, ops: seq<Op>, b: State, k: Key, w: WaitId, v: WaitId)
    requires Sound(a) && Runs(a, ops, b) && InOrder(a, k, w, v)
    requires forall i :: 0 <= i < |ops| ==> WakesOnly(ops[i], w, v)
    ensures Total(b) && InOrder(b, k, w, v) && (v in b.notified ==> w in b.notified)
    decreases |ops|
  {
    hide Sound, Apply, WakesOnly;
    SoundTotal(a);
    if ops != [] {
      StepSound(a, ops[0]);
      StepInOrder(a, ops[0], k, w, v);
      RunInOrder(Apply(a, ops[0]), ops[1..], b, k, w, v);
    }
  }

  // Requeue

  /** FUTEX_REQUEUE to another address splits the queue: the first part is woken, the second is
      appended to the other queue in the same order and now belongs there, the rest stays; nobody
      is lost or counted twice, and the result is the number of waiters in the first two parts. */
  lemma RequeueSplits(a: State, k: Key, wakeMax: nat, requeueMax: nat, k': Key)
    returns (woken: seq<WaitId>, moved: seq<WaitId>, rest: seq<WaitId>)
    requires Total(a) && k != k'
    ensures a.queues[k] == woken + moved + rest
    ensures |woken| == Min(wakeMax, |a.queues[k]|) && |moved| == Min(requeueMax, |a.queues[k]| - |woken|)
    ensures Affected(|a.queues[k]|, true, wakeMax, requeueMax, false) == |woken| + |moved|
    ensures var b := AfterWakelike(a, true, k, wakeMax, requeueMax, k');
            && b.queues == a.queues[k := rest][k' := a.queues[k'] + moved]
            && b.notified == a.notified + Elements(woken)
            && b.waits == Moved(a.waits, moved, k')
  {
    var q := a.queues[k];
    var m := Min(wakeMax, |q|);
    var r := Min(requeueMax, |q| - m);
    woken, moved, rest := q[..m], q[m..m + r], q[m + r..];
    assert q[m..][..r] == moved && q[m..][r..] == rest;
    var c := Wake(a, k, wakeMax);
    assert c.queues[k] == q[m..] && c.queues[k'] == a.queues[k'];
    assert Min(requeueMax, |c.queues[k]|) == r;
    assert c.queues[k := rest] == a.queues[k := rest];
  }

  // Requeueing onto the same address

  /** The waiters that n rounds of the loop move when each goes to the end of the same queue. */
  ghost function Circled(q: seq<WaitId>, n: nat): set<WaitId>
    requires n > 0 ==> q != []
    decreases n
  {
    if n == 0 then {} else {q[0]} + Circled(q[1..] + [q[0]], n - 1)
  }

  /** Whoever a futex call wakes or moves within the queue of one address. */
  ghost function Reached(q: seq<WaitId>, wakeMax: nat, requeueMax: nat): set<WaitId> {
    var m := Min(wakeMax, |q|);
    Elements(q[..m]) + Circled(q[m..], MoveCount(|q| - m, requeueMax, true))
  }

  /** Going around moves nobody that the first round did not. */
  lemma {:induction false} CircledFirst(q: seq<WaitId>, n: nat)
    requires n > 0 ==> q != []
    ensures Circled(q, n) <= Elements(q)
    ensures n <= |q| ==> Circled(q, n) == Elements(q[..n])
    ensures n >= |q| ==> Circled(q, n) == Elements(q)
    decreases n
  {
    if n > 0 {
      var r := q[1..] + [q[0]];
      CircledFirst(r, n - 1);
      assert forall w :: w in r <==> w in q;
      assert Elements(r) == Elements(q);
      if n <= |q| {
        assert r[..n - 1] == q[1..n];
        assert q[..n] == [q[0]] + q[1..n];
        if n == |q| { assert q[..n] == q; }
      }
    }
  }

  lemma {:induction false} ElementsSize(q: seq<WaitId>)
    requires NoDup(q)
    ensures |Elements(q)| == |q|
  {
    if q != [] {
      var n := |q| - 1;
      ElementsSize(q[..n]);
      assert q == q[..n] + [q[n]];
      assert Elements(q) == Elements(q[..n]) + {q[n]};
    }
  }

  /** The waiters reached are the first of the queue, as many as the limits allow. */
  lemma ReachedFirst(q: seq<WaitId>, wakeMax: nat, requeueMax: nat)
    ensures var m := Min(wakeMax, |q|);
            Reached(q, wakeMax, requeueMax) == Elements(q[..m + Min(requeueMax, |q| - m)])
  {
    hide Circled, Elements;
    var m := Min(wakeMax, |q|);
    var rest := q[m..];
    var n := MoveCount(|rest|, requeueMax, true);
    CircledFirst(rest, n);
    var r := Min(requeueMax, |rest|);
    if n > |rest| { assert rest[..r] == rest; }
    ElementsJoin(q, m, r);
  }

  lemma ElementsJoin(q: seq<WaitId>, m: nat, r: nat)
    requires m + r <= |q|
    ensures Elements(q[..m]) + Elements(q[m..][..r]) == Elements(q[..m + r])
  {
    assert q[..m + r] == q[..m] + q[m..][..r];
  }

  lemma ReachedSize(q: seq<WaitId>, wakeMax: nat, requeueMax: nat)
    requires NoDup(q)
    ensures var m := Min(wakeMax, |q|); |Reached(q, wakeMax, requeueMax)| == m + Min(requeueMax, |q| - m)
  {
    hide Reached, Elements, NoDup;
    var m := Min(wakeMax, |q|);
    var r := m + Min(requeueMax, |q| - m);
    ReachedFirst(q, wakeMax, requeueMax);
    SliceNoDup(q, r);
    ElementsSize(q[..r]);
  }

  /** Requeueing onto the same address counts waiters more than once: what the call returns is the
      number of waiters it reached if and only if fewer than two were left after waking or the
      limit was not above the number left, and that number fits in 32 bits. */
  lemma SameAddressCount(a: State, k: Key, wakeMax: nat, requeueMax: nat)
    requires Sound(a) && requeueMax < UINT
    ensures var q := a.queues[k];
            var left := |q| - Min(wakeMax, |q|);
            var reached := |Reached(q, wakeMax, requeueMax)|;
            Affected(|q|, true, wakeMax, requeueMax, true) % UINT == reached <==>
              (left < 2 || requeueMax <= left) && reached < UINT
  {
    assert QueueOk(a, k);
    ReachedSize(a.queues[k], wakeMax, requeueMax);
    CountWraps(|a.queues[k]|, wakeMax, requeueMax);
  }

  lemma CountWraps(len: nat, wakeMax: nat, requeueMax: nat)
    requires requeueMax < UINT
    ensures var m := Min(wakeMax, len);
            var left := len - m;
            var reached := m + Min(requeueMax, left);
            Affected(len, true, wakeMax, requeueMax, true) % UINT == reached <==>
              (left < 2 || requeueMax <= left) && reached < UINT
  {
    var m := Min(wakeMax, len);
    var left := len - m;
    var n := Affected(len, true, wakeMax, requeueMax, true);
    if !(left < 2 || requeueMax <= left) {
      assert n == m + requeueMax && n - (m + left) == requeueMax - left;
      assert 0 < requeueMax - left < UINT;
    }
  }

  function NoWaiters(k: Key): seq<WaitId> { [] }

  /** Two threads asleep at one address. */
  lemma TwoSleepers(k: Key) returns (a: State)
    ensures Sound(a) && a.queues[k] == [0, 1]
  {
    hide Sound, Enqueue;
    var none := State(imap x: Key | true :: NoWaiters(x), map[], {});
    NobodySound(none);
    EnqueueSound(none, k, 0);
    Enqueued(none, k, 0);
    EnqueueSound(Enqueue(none, k, 0), k, 1);
    Enqueued(Enqueue(none, k, 0), k, 1);
    a := Enqueue(Enqueue(none, k, 0), k, 1);
  }

  lemma NobodySound(a: State)
    requires Total(a) && a.waits == map[] && forall k: Key :: a.queues[k] == []
    ensures Sound(a)
  {
  }

  lemma Enqueued(a: State, k: Key, w: WaitId)
    requires Total(a)
    ensures Total(Enqueue(a, k, w)) && Enqueue(a, k, w).queues[k] == a.queues[k] + [w] && Enqueue(a, k, w).waits == a.waits[w := k]
  {
  }

  /** Requeued onto their own address with a limit of three, two sleepers make the call return
      three. */
  lemma SameAddressExample()
    ensures exists a: State, k: Key ::
      Sound(a) && |Reached(a.queues[k], 0, 3)| == 2 && Affected(|a.queues[k]|, true, 0, 3, true) % UINT == 3
  {
    hide Sound, Reached;
    var k := Key(0, 0);
    var a := TwoSleepers(k);
    SoundTotal(a);
    assert a.queues[k] == [0, 1];
    ReachedSize(a.queues[k], 0, 3);
  }
}
