/** Waiters entering, leaving and changing futexes, with the references that go with them. */
module FutexMoves {

  import opened FutexQueues
  import opened FutexTable

  /** The queue of one futex and the place of one waiter change; everything else stays. */
  lemma AbsQueue(fs: Futexes, ws: Waits, nt: set<WaitId>, f: FutexId, g: Futex)
    requires Unique(fs) && Placed(fs, ws) && f in fs && g.key == fs[f].key
    ensures var fs' := fs[f := g];
            Unique(fs') && Placed(fs', ws) && Abs(fs', ws, nt) == Abs(fs, ws, nt).(queues := Abs(fs, ws, nt).queues[g.key := g.queue])
  {
    hide QueueOf;
    SetQueue(fs, f, g);
    var a, b := Abs(fs, ws, nt), Abs(fs[f := g], ws, nt);
    assert b.queues == a.queues[g.key := g.queue];
    assert b.waits == a.waits;
  }

  lemma AbsWait(fs: Futexes, ws: Waits, nt: set<WaitId>, w: WaitId, f: FutexId)
    requires Placed(fs, ws) && f in fs
    ensures Placed(fs, ws[w := f]) && Abs(fs, ws[w := f], nt) == Abs(fs, ws, nt).(waits := Abs(fs, ws, nt).waits[w := fs[f].key])
  {
    hide QueueOf;
    assert Abs(fs, ws[w := f], nt).queues == Abs(fs, ws, nt).queues;
  }

  lemma AbsNoWait(fs: Futexes, ws: Waits, nt: set<WaitId>, w: WaitId)
    requires Placed(fs, ws)
    ensures Placed(fs, ws - {w}) && Abs(fs, ws - {w}, nt) == Abs(fs, ws, nt).(waits := Abs(fs, ws, nt).waits - {w})
  {
    hide QueueOf;
    assert Abs(fs, ws - {w}, nt).queues == Abs(fs, ws, nt).queues;
  }

  lemma QueueHere(fs: Futexes, ws: Waits, nt: set<WaitId>, f: FutexId)
    requires Unique(fs) && Placed(fs, ws) && f in fs
    ensures Abs(fs, ws, nt).queues[fs[f].key] == fs[f].queue
  {
    QueueIs(fs, f);
  }

  // Entering and leaving

  /** futex_wait hands its reference to the entry in the queue. */
  lemma EnqueueGood(fs: Futexes, ws: Waits, nt: set<WaitId>, h: multiset<FutexId>, f: FutexId, w: WaitId)
    requires Good(fs, ws, nt, h) && f in h && f in fs && w !in ws
    ensures var fs' := fs[f := fs[f].(queue := fs[f].queue + [w])];
            && Good(fs', ws[w := f], nt - {w}, h - multiset{f})
            && Abs(fs', ws[w := f], nt - {w}) == Enqueue(Abs(fs, ws, nt), fs[f].key, w)
  {
    hide Sound, QueueOf;
    var fs' := fs[f := fs[f].(queue := fs[f].queue + [w])];
    var nt', ws', h' := nt - {w}, ws[w := f], h - multiset{f};
    QueueHere(fs, ws, nt, f);
    EnqueueSound(Abs(fs, ws, nt), fs[f].key, w);
    AbsQueue(fs, ws, nt', f, fs'[f]);
    AbsWait(fs', ws, nt', w, f);
    assert Abs(fs, ws, nt').queues == Abs(fs, ws, nt).queues && Abs(fs, ws, nt').waits == Abs(fs, ws, nt).waits;
    forall g ensures CountedAt(fs', ws', h', g) {
      assert CountedAt(fs, ws, h, g);
      WaiterAdded(ws, w, f, g);
    }
  }

  lemma WaiterAdded(ws: Waits, w: WaitId, f: FutexId, g: FutexId)
    requires w !in ws
    ensures |WaitersOf(ws[w := f], g)| == |WaitersOf(ws, g)| + if g == f then 1 else 0
  {
    assert WaitersOf(ws[w := f], g) == WaitersOf(ws, g) + if g == f then {w} else {};
  }

  lemma WaiterRemoved(ws: Waits, w: WaitId, g: FutexId)
    requires w in ws
    ensures |WaitersOf(ws, g)| == |WaitersOf(ws - {w}, g)| + if g == ws[w] then 1 else 0
  {
    assert WaitersOf(ws, g) == WaitersOf(ws - {w}, g) + if g == ws[w] then {w} else {};
  }

  /** A waiter that wakes up takes its reference back. */
  lemma LeaveGood(fs: Futexes, ws: Waits, nt: set<WaitId>, h: multiset<FutexId>, w: WaitId)
    requires Good(fs, ws, nt, h) && w in ws
    ensures var f := ws[w];
            var fs' := fs[f := fs[f].(queue := Without(fs[f].queue, w))];
            && Good(fs', ws - {w}, nt - {w}, h + multiset{f})
            && Abs(fs', ws - {w}, nt - {w}) == Leave(Abs(fs, ws, nt), w)
  {
    hide Sound, QueueOf, Without, Counted;
    var f := ws[w];
    var fs', nt' := fs[f := fs[f].(queue := Without(fs[f].queue, w))], nt - {w};
    QueueHere(fs, ws, nt, f);
    LeaveSound(Abs(fs, ws, nt), w);
    AbsQueue(fs, ws, nt', f, fs'[f]);
    AbsNoWait(fs', ws, nt', w);
    assert Abs(fs, ws, nt').queues == Abs(fs, ws, nt).queues && Abs(fs, ws, nt').waits == Abs(fs, ws, nt).waits;
    LeaveCounted(fs, ws, h, w);
  }

  lemma LeaveCounted(fs: Futexes, ws: Waits, h: multiset<FutexId>, w: WaitId)
    requires Counted(fs, ws, h) && w in ws && ws[w] in fs
    ensures var f := ws[w]; Counted(fs[f := fs[f].(queue := Without(fs[f].queue, w))], ws - {w}, h + multiset{f})
  {
    hide Without;
    var f := ws[w];
    var fs' := fs[f := fs[f].(queue := Without(fs[f].queue, w))];
    forall g ensures CountedAt(fs', ws - {w}, h + multiset{f}, g) {
      assert CountedAt(fs, ws, h, g);
      WaiterRemoved(ws, w, g);
    }
  }

  // Waking

  lemma WakeOneGood(fs: Futexes, ws: Waits, nt: set<WaitId>, h: multiset<FutexId>, f: FutexId)
    requires Good(fs, ws, nt, h) && f in fs && fs[f].queue != []
    ensures var fs' := fs[f := fs[f].(queue := fs[f].queue[1..])];
            && Good(fs', ws, nt + {fs[f].queue[0]}, h)
            && Abs(fs', ws, nt + {fs[f].queue[0]}) == Wake(Abs(fs, ws, nt), fs[f].key, 1)
  {
    hide Sound, QueueOf;
    var fs', nt' := fs[f := fs[f].(queue := fs[f].queue[1..])], nt + {fs[f].queue[0]};
    QueueHere(fs, ws, nt, f);
    WakeSound(Abs(fs, ws, nt), fs[f].key, 1);
    AbsQueue(fs, ws, nt', f, fs'[f]);
    assert Elements(fs[f].queue[..1]) == {fs[f].queue[0]};
    assert Abs(fs, ws, nt').queues == Abs(fs, ws, nt).queues && Abs(fs, ws, nt').waits == Abs(fs, ws, nt).waits;
    forall g ensures CountedAt(fs', ws, h, g) { assert CountedAt(fs, ws, h, g); }
  }

  lemma WakeStep(a: State, k: Key, n: nat)
    requires Total(a) && n < |a.queues[k]|
    ensures Wake(Wake(a, k, n), k, 1) == Wake(a, k, n + 1)
  {
    var q := a.queues[k];
    assert q[n..][1..] == q[n + 1..];
    assert Elements(q[..n + 1]) == Elements(q[..n]) + Elements(q[n..][..1]) by { assert q[..n + 1] == q[..n] + q[n..][..1]; }
  }

  // Moving

  /** One round of the loop that requeues, with its two reference counts. */
  function MovedOne(fs: Futexes, f: FutexId, f': FutexId): Futexes
    requires f in fs && f' in fs && fs[f].queue != []
  {
    var w := fs[f].queue[0];
    var fs1 := fs[f := fs[f].(queue := fs[f].queue[1..])];
    var fs2 := fs1[f' := fs1[f'].(queue := fs1[f'].queue + [w])];
    var fs3 := fs2[f := fs2[f].(refcount := fs2[f].refcount - 1)];
    fs3[f' := fs3[f'].(refcount := fs3[f'].refcount + 1)]
  }

  lemma MoveSameGood(fs: Futexes, ws: Waits, nt: set<WaitId>, h: multiset<FutexId>, f: FutexId)
    requires Good(fs, ws, nt, h) && f in fs && fs[f].queue != []
    ensures var fs' := MovedOne(fs, f, f);
            && Good(fs', ws[fs[f].queue[0] := f], nt, h)
            && Abs(fs', ws[fs[f].queue[0] := f], nt) == Move(Abs(fs, ws, nt), fs[f].key, 1, fs[f].key)
  {
    hide Sound, QueueOf;
    var w, q := fs[f].queue[0], fs[f].queue;
    var fs', a := MovedOne(fs, f, f), Abs(fs, ws, nt);
    QueueHere(fs, ws, nt, f);
    Queued(fs, ws, nt, h, f, w);
    assert ws[w := f] == ws;
    MoveSound(a, fs[f].key, 1, fs[f].key);
    assert fs' == fs[f := fs[f].(queue := q[1..] + [w])];
    AbsQueue(fs, ws, nt, f, fs'[f]);
    assert Rotate(q, 1) == q[1..] + [w];
    if |q| < 2 { assert q[1..] + [w] == q; assert a.queues[fs[f].key := q] == a.queues; }
    forall g ensures CountedAt(fs', ws, h, g) { assert CountedAt(fs, ws, h, g); }
  }

  lemma MoveOtherGood(fs: Futexes, ws: Waits, nt: set<WaitId>, h: multiset<FutexId>, f: FutexId, f': FutexId)
    requires Good(fs, ws, nt, h) && f in h && f in fs && f' in fs && f != f' && fs[f].queue != []
    ensures var fs' := MovedOne(fs, f, f');
            && Good(fs', ws[fs[f].queue[0] := f'], nt, h)
            && Abs(fs', ws[fs[f].queue[0] := f'], nt) == Move(Abs(fs, ws, nt), fs[f].key, 1, fs[f'].key)
  {
    hide Sound, QueueOf, Counted, Unique, Placed, MovedOne, Move, Abs;
    MoveSound(Abs(fs, ws, nt), fs[f].key, 1, fs[f'].key);
    MoveOtherAbs(fs, ws, nt, f, f', h);
    MoveOtherCounted(fs, ws, nt, h, f, f');
  }

  lemma MoveOtherCounted(fs: Futexes, ws: Waits, nt: set<WaitId>, h: multiset<FutexId>, f: FutexId, f': FutexId)
    requires Good(fs, ws, nt, h) && f in h && f in fs && f' in fs && f != f' && fs[f].queue != []
    ensures Counted(MovedOne(fs, f, f'), ws[fs[f].queue[0] := f'], h)
  {
    hide Sound, QueueOf, Unique, Placed, Abs;
    var w, fs' := fs[f].queue[0], MovedOne(fs, f, f');
    var ws' := ws[w := f'];
    Queued(fs, ws, nt, h, f, w);
    assert (ws - {w})[w := f'] == ws';
    forall g ensures CountedAt(fs', ws', h, g) {
      assert CountedAt(fs, ws, h, g);
      WaiterRemoved(ws, w, g);
      WaiterAdded(ws - {w}, w, f', g);
    }
  }

  lemma MoveOtherAbs(fs: Futexes, ws: Waits, nt: set<WaitId>, f: FutexId, f': FutexId, h: multiset<FutexId>)
    requires Good(fs, ws, nt, h) && f in fs && f' in fs && f != f' && fs[f].queue != []
    ensures var fs' := MovedOne(fs, f, f');
            && Unique(fs') && Placed(fs', ws[fs[f].queue[0] := f'])
            && Abs(fs', ws[fs[f].queue[0] := f'], nt) == Move(Abs(fs, ws, nt), fs[f].key, 1, fs[f'].key)
  {
    hide Sound, QueueOf, Counted;
    var w, q, q' := fs[f].queue[0], fs[f].queue, fs[f'].queue;
    var fs', a := MovedOne(fs, f, f'), Abs(fs, ws, nt);
    QueueHere(fs, ws, nt, f);
    QueueHere(fs, ws, nt, f');
    Queued(fs, ws, nt, h, f, w);
    var fs1 := fs[f := fs'[f]];
    AbsQueue(fs, ws, nt, f, fs'[f]);
    AbsQueue(fs1, ws, nt, f', fs'[f']);
    assert fs' == fs1[f' := fs'[f']];
    AbsWait(fs', ws, nt, w, f');
    assert q[..1] == [w];
    assert Moved(a.waits, [w], fs[f'].key) == a.waits[w := fs[f'].key];
  }

  lemma {:induction false} RotateStep(q: seq<WaitId>, n: nat)
    requires q != []
    ensures Rotate(Rotate(q, n), 1) == Rotate(q, n + 1)
    decreases n
  {
    if n > 0 { RotateStep(q[1..] + [q[0]], n - 1); }
  }

  lemma MoveStepSame(a: State, k: Key, n: nat)
    requires Total(a) && |a.queues[k]| >= 2
    ensures Move(Move(a, k, n, k), k, 1, k) == Move(a, k, n + 1, k)
  {
    var q := a.queues[k];
    RotateStep(q, n);
    assert Move(a, k, n, k).queues[k] == Rotate(q, n);
  }

  lemma MoveStepOther(a: State, k: Key, n: nat, k': Key)
    requires Total(a) && k != k' && n < |a.queues[k]|
    ensures Move(Move(a, k, n, k'), k, 1, k') == Move(a, k, n + 1, k')
  {
    var q, b := a.queues[k], Move(a, k, n, k');
    assert b.queues[k] == q[n..] && b.queues[k'] == a.queues[k'] + q[..n];
    var c, d := Move(b, k, 1, k'), Move(a, k, n + 1, k');
    assert q[n..][1..] == q[n + 1..] && q[n..][..1] == [q[n]];
    assert q[..n + 1] == q[..n] + [q[n]];
    assert a.queues[k'] + q[..n] + [q[n]] == a.queues[k'] + q[..n + 1];
    assert c.queues == d.queues;
    assert c.waits == d.waits;
  }
}
