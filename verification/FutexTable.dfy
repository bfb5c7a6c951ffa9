/** The futex objects (kernel/futex.c): found through a hash table, counted by the waiters that
    point at them, freed with the last reference. */
module FutexTable {

  import opened FutexQueues

  type FutexId = nat

  datatype Futex = Futex(refcount: int, key: Key, queue: seq<WaitId>)

  type Futexes = map<FutexId, Futex>
  type Waits = map<WaitId, FutexId>

  // The queues that the objects stand for

  /** There is at most one futex for an address. */
  ghost predicate Unique(fs: Futexes) { forall f, g :: f in fs && g in fs && fs[f].key == fs[g].key ==> f == g }

  ghost predicate Has(fs: Futexes, k: Key) { exists f :: f in fs && fs[f].key == k }

  ghost function QueueOf(fs: Futexes, k: Key): seq<WaitId> {
    if Has(fs, k) then var f :| f in fs && fs[f].key == k; fs[f].queue else []
  }

  lemma QueueIs(fs: Futexes, f: FutexId)
    requires Unique(fs) && f in fs
    ensures QueueOf(fs, fs[f].key) == fs[f].queue
  {
  }

  ghost function Abs(fs: Futexes, ws: Waits, nt: set<WaitId>): (a: State)
    requires Placed(fs, ws)
    ensures Total(a)
  {
    State(imap k: Key | true :: QueueOf(fs, k), map w | w in ws :: fs[ws[w]].key, nt)
  }

  // References

  /** Every waiter that has not returned points at a futex that is there. */
  ghost predicate Placed(fs: Futexes, ws: Waits) { forall w :: w in ws ==> ws[w] in fs }

  ghost function WaitersOf(ws: Waits, f: FutexId): set<WaitId> { set w | w in ws && ws[w] == f }

  ghost predicate CountedAt(fs: Futexes, ws: Waits, h: multiset<FutexId>, f: FutexId) {
    f in fs ==> fs[f].refcount == |WaitersOf(ws, f)| + h[f] && fs[f].refcount > 0
  }

  /** A futex counts its waiters and the operations h that hold it just now, and goes with them. */
  ghost predicate Counted(fs: Futexes, ws: Waits, h: multiset<FutexId>) {
    (forall f :: CountedAt(fs, ws, h, f)) && forall f :: f in h ==> f in fs
  }

  ghost predicate Good(fs: Futexes, ws: Waits, nt: set<WaitId>, h: multiset<FutexId>) {
    Unique(fs) && Placed(fs, ws) && Counted(fs, ws, h) && Sound(Abs(fs, ws, nt))
  }

  // Changes to one futex

  lemma {:induction false} SetQueue(fs: Futexes, f: FutexId, g: Futex)
    requires Unique(fs) && f in fs && g.key == fs[f].key
    ensures Unique(fs[f := g])
    ensures forall k: Key :: QueueOf(fs[f := g], k) == if k == g.key then g.queue else QueueOf(fs, k)
  {
    var fs' := fs[f := g];
    forall k: Key ensures QueueOf(fs', k) == if k == g.key then g.queue else QueueOf(fs, k) {
      if k == g.key {
        QueueIs(fs', f);
      } else {
        OtherQueue(fs, fs', f, k);
      }
    }
  }

  /** Queues of other addresses are not concerned. */
  lemma OtherQueue(fs: Futexes, fs': Futexes, f: FutexId, k: Key)
    requires Unique(fs) && Unique(fs') && fs - {f} == fs' - {f}
    requires (f in fs ==> fs[f].key != k) && (f in fs' ==> fs'[f].key != k)
    ensures QueueOf(fs, k) == QueueOf(fs', k)
  {
    if Has(fs, k) {
      var g :| g in fs && fs[g].key == k;
      assert g in fs - {f} && (fs - {f})[g] == fs[g];
      assert g in fs' && fs'[g] == fs[g];
      QueueIs(fs, g);
      QueueIs(fs', g);
    }
    forall g | g in fs' && g != f ensures g in fs && fs[g] == fs'[g] {
      assert g in fs' - {f} && (fs' - {f})[g] == fs'[g];
    }
  }

  /** A new futex has no waiters. */
  lemma AddFutex(fs: Futexes, f: FutexId, k: Key, n: int)
    requires Unique(fs) && f !in fs && !Has(fs, k)
    ensures Unique(fs[f := Futex(n, k, [])])
    ensures forall x: Key :: QueueOf(fs[f := Futex(n, k, [])], x) == QueueOf(fs, x)
  {
    var fs' := fs[f := Futex(n, k, [])];
    assert fs - {f} == fs' - {f};
    forall x: Key ensures QueueOf(fs', x) == QueueOf(fs, x) {
      if x == k { QueueIs(fs', f); } else { OtherQueue(fs, fs', f, x); }
    }
  }

  lemma DropFutex(fs: Futexes, f: FutexId)
    requires Unique(fs) && f in fs && fs[f].queue == []
    ensures Unique(fs - {f})
    ensures forall x: Key :: QueueOf(fs - {f}, x) == QueueOf(fs, x)
  {
    var fs' := fs - {f};
    forall x: Key ensures QueueOf(fs', x) == QueueOf(fs, x) {
      if x == fs[f].key {
        QueueIs(fs, f);
        assert !Has(fs', x);
      } else {
        OtherQueue(fs, fs', f, x);
      }
    }
  }

  // Taking and giving back a reference

  function Retained(fs: Futexes, f: FutexId): Futexes
    requires f in fs
  {
    fs[f := fs[f].(refcount := fs[f].refcount + 1)]
  }

  lemma SameAbs(fs: Futexes, fs': Futexes, ws: Waits, nt: set<WaitId>)
    requires Placed(fs, ws) && Placed(fs', ws)
    requires forall k: Key :: QueueOf(fs', k) == QueueOf(fs, k)
    requires forall w :: w in ws ==> fs'[ws[w]].key == fs[ws[w]].key
    ensures Abs(fs', ws, nt) == Abs(fs, ws, nt)
  {
    hide QueueOf;
    assert Abs(fs', ws, nt).queues == Abs(fs, ws, nt).queues;
    assert Abs(fs', ws, nt).waits == Abs(fs, ws, nt).waits;
  }

  lemma RetainGood(fs: Futexes, ws: Waits, nt: set<WaitId>, h: multiset<FutexId>, f: FutexId)
    requires Good(fs, ws, nt, h) && f in fs
    ensures var fs' := Retained(fs, f); Good(fs', ws, nt, h + multiset{f}) && Abs(fs', ws, nt) == Abs(fs, ws, nt)
  {
    hide Sound, QueueOf;
    var fs' := Retained(fs, f);
    SetQueue(fs, f, fs'[f]);
    QueueIs(fs, f);
    SameAbs(fs, fs', ws, nt);
    forall g ensures CountedAt(fs', ws, h + multiset{f}, g) { assert CountedAt(fs, ws, h, g); }
  }

  lemma CreateGood(fs: Futexes, ws: Waits, nt: set<WaitId>, h: multiset<FutexId>, f: FutexId, k: Key)
    requires Good(fs, ws, nt, h) && f !in fs && !Has(fs, k)
    ensures var fs' := fs[f := Futex(1, k, [])]; Good(fs', ws, nt, h + multiset{f}) && Abs(fs', ws, nt) == Abs(fs, ws, nt)
  {
    hide Sound, QueueOf, Has;
    var fs' := fs[f := Futex(1, k, [])];
    AddFutex(fs, f, k, 1);
    assert Placed(fs', ws);
    SameAbs(fs, fs', ws, nt);
    forall g ensures CountedAt(fs', ws, h + multiset{f}, g) {
      assert CountedAt(fs, ws, h, g);
      if g == f { assert WaitersOf(ws, f) == {}; assert h[f] == 0; }
    }
  }

  /** The assertion in futex_put_unlocked: the last reference goes when nobody waits any more. */
  lemma LastEmpty(fs: Futexes, ws: Waits, nt: set<WaitId>, h: multiset<FutexId>, f: FutexId)
    requires Good(fs, ws, nt, h) && f in h && f in fs && fs[f].refcount == 1
    ensures fs[f].queue == [] && WaitersOf(ws, f) == {}
  {
    assert CountedAt(fs, ws, h, f);
    assert WaitersOf(ws, f) == {};
    if fs[f].queue != [] { Queued(fs, ws, nt, h, f, fs[f].queue[0]); }
  }

  /** Who is in the queue of a futex points at it. */
  lemma Queued(fs: Futexes, ws: Waits, nt: set<WaitId>, h: multiset<FutexId>, f: FutexId, w: WaitId)
    requires Good(fs, ws, nt, h) && f in fs && w in fs[f].queue
    ensures w in WaitersOf(ws, f)
  {
    var a := Abs(fs, ws, nt);
    QueueIs(fs, f);
    assert QueueOk(a, fs[f].key);
    assert w in a.queues[fs[f].key] && w in ws && fs[ws[w]].key == fs[f].key;
  }

  function Released(fs: Futexes, f: FutexId): Futexes
    requires f in fs
  {
    if fs[f].refcount - 1 == 0 then fs - {f} else fs[f := fs[f].(refcount := fs[f].refcount - 1)]
  }

  lemma ReleaseGood(fs: Futexes, ws: Waits, nt: set<WaitId>, h: multiset<FutexId>, f: FutexId)
    requires Good(fs, ws, nt, h) && f in h && f in fs
    ensures var fs' := Released(fs, f); Good(fs', ws, nt, h - multiset{f}) && Abs(fs', ws, nt) == Abs(fs, ws, nt)
  {
    hide Sound, QueueOf;
    var fs', h' := Released(fs, f), h - multiset{f};
    assert CountedAt(fs, ws, h, f);
    if fs[f].refcount == 1 {
      LastEmpty(fs, ws, nt, h, f);
      DropFutex(fs, f);
      forall w | w in ws ensures ws[w] in fs' { assert ws[w] == f ==> w in WaitersOf(ws, f); }
    } else {
      SetQueue(fs, f, fs'[f]);
      QueueIs(fs, f);
    }
    SameAbs(fs, fs', ws, nt);
    forall g ensures CountedAt(fs', ws, h', g) { assert CountedAt(fs, ws, h, g); }
  }
}
