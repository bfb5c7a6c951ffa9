/** The futex system calls (kernel/futex.c) on hash chains and linked queues, each under the futex
    lock, proved to do what the plain queues say. */
module FutexSystem {

  import opened Options
  import opened FutexQueues
  import opened FutexTable
  import opened FutexMoves

  const HASH_SIZE: nat := 4096

  /** The low bits of the address and of the address space, combined. */
  function Hash(k: Key): (i: nat)
    ensures i < HASH_SIZE
  {
    (((k.addr % HASH_SIZE) as bv12) ^ ((k.mem % HASH_SIZE) as bv12)) as nat
  }

  type Chains = seq<seq<FutexId>>

  /** Every futex is in the chain of its address, and chains hold nothing else. */
  ghost predicate Chained(chains: Chains, fs: Futexes) {
    && |chains| == HASH_SIZE
    && (forall f :: f in fs ==> f in chains[Hash(fs[f].key)])
    && (forall i, f :: 0 <= i < HASH_SIZE && f in chains[i] ==> f in fs && Hash(fs[f].key) == i)
  }

  lemma ChainAdd(chains: Chains, fs: Futexes, f: FutexId, g: Futex)
    requires Chained(chains, fs) && f !in fs
    ensures Chained(chains[Hash(g.key) := [f] + chains[Hash(g.key)]], fs[f := g])
  {
    hide Hash;
  }

  lemma ChainDropAt(chains: Chains, fs: Futexes, f: FutexId, i: nat, g: FutexId)
    requires Chained(chains, fs) && f in fs && i < HASH_SIZE
    ensures Hash(fs[f].key) < |chains|
    ensures g in chains[Hash(fs[f].key) := Without(chains[Hash(fs[f].key)], f)][i] <==> g in fs && g != f && Hash(fs[g].key) == i
  {
    hide Hash, Without;
    var h := Hash(fs[f].key);
    assert f in chains[h];
    assert g in chains[i] <==> g in fs && Hash(fs[g].key) == i;
  }

  lemma ChainDrop(chains: Chains, fs: Futexes, f: FutexId)
    requires Chained(chains, fs) && f in fs
    ensures Chained(chains[Hash(fs[f].key) := Without(chains[Hash(fs[f].key)], f)], fs - {f})
  {
    hide Hash, Without;
    assert f in chains[Hash(fs[f].key)];
    var chains' := chains[Hash(fs[f].key) := Without(chains[Hash(fs[f].key)], f)];
    forall i: nat, g | i < HASH_SIZE ensures g in chains'[i] <==> g in fs && g != f && Hash(fs[g].key) == i {
      ChainDropAt(chains, fs, f, i, g);
    }
  }

  lemma ChainKeep(chains: Chains, fs: Futexes, fs': Futexes)
    requires Chained(chains, fs) && fs.Keys == fs'.Keys && forall f :: f in fs ==> fs[f].key == fs'[f].key
    ensures Chained(chains, fs')
  {
    hide Hash;
  }

  /** What futex_put_unlocked leaves of the chains. */
  lemma ChainRelease(chains: Chains, fs: Futexes, f: FutexId)
    requires Chained(chains, fs) && f in fs
    ensures Hash(fs[f].key) < |chains|
    ensures Chained(if fs[f].refcount - 1 == 0 then chains[Hash(fs[f].key) := Without(chains[Hash(fs[f].key)], f)] else chains, Released(fs, f))
  {
    hide Hash;
    if fs[f].refcount - 1 == 0 { ChainDrop(chains, fs, f); } else { ChainKeep(chains, fs, Released(fs, f)); }
  }

  datatype WaitResult = Sleeping | EFAULT | EAGAIN

  function First(q: seq<WaitId>): Option<WaitId> { if q == [] then None else Some(q[0]) }

  /** The neighbour in a list, or nothing when that is the head. */
  function NextOf(q: seq<WaitId>, w: WaitId): Option<WaitId> {
    if q == [] then None else if q[0] == w then First(q[1..]) else NextOf(q[1..], w)
  }

  class Table {
    var futexes: Futexes
    var chains: Chains
    var waits: Waits
    var notified: set<WaitId>
    var nextId: FutexId

    ghost predicate Valid(h: multiset<FutexId>)
      reads this
    {
      && Placed(futexes, waits)
      && Good(futexes, waits, notified, h)
      && Chained(chains, futexes)
      && (forall f :: f in futexes ==> f < nextId)
    }

    ghost function Queues(): State
      reads this
      requires Placed(futexes, waits)
    {
      Abs(futexes, waits, notified)
    }

    constructor ()
      ensures Valid(multiset{}) && futexes == map[] && waits == map[] && notified == {}
    {
      futexes, waits, notified, nextId := map[], map[], {}, 0;
      chains := seq(HASH_SIZE, _ => []);
    }

    /** futex_get_unlocked: the futex of an address, made when there is none, with one more
        reference. */
    method Get(ghost h: multiset<FutexId>, k: Key) returns (f: FutexId)
      requires Valid(h)
      modifies this
      ensures Valid(h + multiset{f}) && f in futexes && futexes[f].key == k
      ensures waits == old(waits) && Queues() == old(Queues()) && old(futexes.Keys) <= futexes.Keys
      ensures forall g :: g in old(futexes) ==> futexes[g].key == old(futexes)[g].key
    {
      hide Good, Chained, Hash;
      ChainsFormed(chains, futexes);
      var bucket, i := chains[Hash(k)], 0;
      while i < |bucket|
        invariant 0 <= i <= |bucket| && unchanged(this)
        invariant forall j :: 0 <= j < i ==> bucket[j] in futexes && futexes[bucket[j]].key != k
      {
        ChainMember(chains, futexes, Hash(k), i);
        f := bucket[i];
        if futexes[f].key == k {
          RetainGood(futexes, waits, notified, h, f);
          ChainKeep(chains, futexes, Retained(futexes, f));
          futexes := futexes[f := futexes[f].(refcount := futexes[f].refcount + 1)];
          return;
        }
        i := i + 1;
      }
      NotThere(chains, futexes, k);
      f := nextId;
      CreateGood(futexes, waits, notified, h, f, k);
      ChainAdd(chains, futexes, f, Futex(1, k, []));
      futexes := futexes[f := Futex(1, k, [])];
      chains := chains[Hash(k) := [f] + chains[Hash(k)]];
      nextId := nextId + 1;
    }

    /** futex_put_unlocked. When the last reference goes nobody is in the queue. */
    method Put(ghost h: multiset<FutexId>, f: FutexId)
      requires Valid(h) && f in h && f in futexes
      modifies this
      ensures Valid(h - multiset{f})
      ensures waits == old(waits) && Queues() == old(Queues())
      ensures forall g :: g in old(futexes) && g != f ==> g in futexes && futexes[g] == old(futexes)[g]
    {
      hide Good, Chained, Hash;
      ReleaseGood(futexes, waits, notified, h, f);
      GoodParts(Released(futexes, f), waits, notified, h - multiset{f});
      if futexes[f].refcount == 1 { LastEmpty(futexes, waits, notified, h, f); }
      ChainRelease(chains, futexes, f);
      var n, k := futexes[f].refcount - 1, futexes[f].key;
      if n == 0 {
        assert futexes[f].queue == [];
        chains := chains[Hash(k) := Without(chains[Hash(k)], f)];
        futexes := futexes - {f};
      } else {
        futexes := futexes[f := futexes[f].(refcount := n)];
      }
    }

    /** futex_wait until it sleeps; loaded is what the address holds, if it can be read. */
    method Wait(k: Key, loaded: Option<int>, val: int, w: WaitId) returns (r: WaitResult)
      requires Valid(multiset{}) && w !in waits
      modifies this
      ensures Valid(multiset{})
      ensures r == if loaded.None? then EFAULT else if loaded.value != val then EAGAIN else Sleeping
      ensures Queues() == if r.Sleeping? then Enqueue(old(Queues()), k, w) else old(Queues())
    {
      hide Good, Chained;
      var f := Get(multiset{}, k);
      assert multiset{} + multiset{f} == multiset{f} && multiset{f} - multiset{f} == multiset{};
      GoodParts(futexes, waits, notified, multiset{f});
      if loaded.None? {
        Put(multiset{f}, f);
        return EFAULT;
      }
      if loaded.value != val {
        Put(multiset{f}, f);
        return EAGAIN;
      }
      EnqueueGood(futexes, waits, notified, multiset{f}, f, w);
      ghost var fs := futexes;
      futexes := futexes[f := futexes[f].(queue := futexes[f].queue + [w])];
      ChainKeep(chains, fs, futexes);
      waits, notified := waits[w := f], notified - {w};
      r := Sleeping;
    }

    /** The rest of futex_wait: woken, timed out or interrupted, wherever it was moved to. */
    method Return(w: WaitId)
      requires Valid(multiset{}) && w in waits
      modifies this
      ensures Valid(multiset{}) && Queues() == Leave(old(Queues()), w)
    {
      hide Good, Chained;
      LeaveGood(futexes, waits, notified, multiset{}, w);
      GoodParts(futexes, waits, notified, multiset{});
      var f := waits[w];
      assert multiset{} + multiset{f} == multiset{f} && multiset{f} - multiset{f} == multiset{};
      ghost var fs := futexes;
      futexes := futexes[f := futexes[f].(queue := Without(futexes[f].queue, w))];
      ChainKeep(chains, fs, futexes);
      waits, notified := waits - {w}, notified - {w};
      Put(multiset{f}, f);
    }

    /** The first loop of futex_wakelike. */
    method WakeWaiters(ghost h: multiset<FutexId>, f: FutexId, wakeMax: nat) returns (woken: nat)
      requires Valid(h) && f in futexes
      modifies this
      ensures Valid(h) && waits == old(waits) && SameKeys(old(futexes), futexes)
      ensures Queues() == Wake(old(Queues()), old(futexes)[f].key, wakeMax)
      ensures woken == Min(wakeMax, |old(futexes)[f].queue|)
    {
      hide Good, Chained, Wake;
      ghost var k, a := futexes[f].key, Queues();
      ghost var q := futexes[f].queue;
      QueueNow(futexes, waits, notified, h, f);
      WakeNone(a, k);
      woken := 0;
      while futexes[f].queue != []
        invariant Valid(h) && waits == old(waits) && SameKeys(old(futexes), futexes) && f in futexes
        invariant woken <= wakeMax && woken <= |q| && futexes[f].queue == q[woken..]
        invariant Queues() == Wake(a, k, woken)
        decreases |q| - woken
      {
        if woken >= wakeMax { break; }
        WakeStep(a, k, woken);
        WakeOneGood(futexes, waits, notified, h, f);
        ghost var fs := futexes;
        notified := notified + {futexes[f].queue[0]};
        futexes := futexes[f := futexes[f].(queue := futexes[f].queue[1..])];
        ChainKeep(chains, fs, futexes);
        woken := woken + 1;
      }
      WakeAll(a, k, woken, wakeMax);
    }

    /** One round of the second loop, with its assertion about the reference count. */
    method MoveWaiter(ghost h: multiset<FutexId>, f: FutexId, f': FutexId)
      requires Valid(h) && f in h && f in futexes && f' in futexes && futexes[f].queue != []
      modifies this
      ensures Valid(h) && SameKeys(old(futexes), futexes)
      ensures Queues() == Move(old(Queues()), old(futexes)[f].key, 1, old(futexes)[f'].key)
      ensures futexes[f].queue == old(futexes)[f].queue[1..] + if f == f' then [old(futexes)[f].queue[0]] else []
    {
      hide Good, Chained, Move, MovedOne;
      if f == f' { MoveSameGood(futexes, waits, notified, h, f); } else { MoveOtherGood(futexes, waits, notified, h, f, f'); }
      HeldTwice(futexes, waits, notified, h, f);
      MovedKeys(futexes, f, f');
      ChainKeep(chains, futexes, MovedOne(futexes, f, f'));
      var w := futexes[f].queue[0];
      assert futexes[f].refcount > 1;
      futexes := MovedOne(futexes, f, f');
      waits := waits[w := f'];
    }

    /** The second loop of futex_wakelike. It looks up the next waiter before it moves the current
        one, which matters when both queues are the same. */
    method MoveWaiters(ghost h: multiset<FutexId>, f: FutexId, f': FutexId, requeueMax: nat) returns (requeued: nat)
      requires Valid(h) && f in h && f in futexes && f' in futexes
      modifies this
      ensures Valid(h) && SameKeys(old(futexes), futexes)
      ensures Queues() == Move(old(Queues()), old(futexes)[f].key, requeueMax, old(futexes)[f'].key)
      ensures requeued == MoveCount(|old(futexes)[f].queue|, requeueMax, f == f')
    {
      hide Good, Chained, Move;
      ghost var a, k, k' := Queues(), futexes[f].key, futexes[f'].key;
      ghost var q := futexes[f].queue;
      QueueNow(futexes, waits, notified, h, f);
      KeysApart(futexes, waits, notified, h, f, f');
      MoveNone(a, k, k');
      requeued := 0;
      var item := First(futexes[f].queue);
      var tmp := if item.None? then None else NextOf(futexes[f].queue, item.value);
      while item.Some?
        invariant Valid(h) && SameKeys(old(futexes), futexes) && f in futexes && f' in futexes
        invariant requeued <= requeueMax && Queues() == Move(a, k, requeued, k')
        invariant Following(futexes[f].queue, item, tmp) || (f == f' && |q| == 1 && requeued == 1 && item.None?)
        invariant if f == f' then |futexes[f].queue| == |q| && (|q| < 2 ==> requeued <= |q|) && (|q| == 1 && requeued == 1 ==> item.None?)
                  else requeued <= |q| && futexes[f].queue == q[requeued..]
        decreases requeueMax - requeued
      {
        if requeued >= requeueMax { break; }
        MoveNext(a, k, k', requeued, |q|);
        MoveWaiter(h, f, f');
        requeued := requeued + 1;
        item := tmp;
        tmp := if item.None? then None else NextOf(futexes[f].queue, item.value);
      }
      MoveAll(a, k, k', requeued, requeueMax);
    }

    /** The part of futex_wakelike for FUTEX_REQUEUE. */
    method Requeue(f: FutexId, requeueMax: nat, k': Key) returns (requeued: nat)
      requires Valid(multiset{f}) && f in futexes
      modifies this
      ensures Valid(multiset{f}) && f in futexes
      ensures Queues() == Move(old(Queues()), old(futexes)[f].key, requeueMax, k')
      ensures requeued == MoveCount(|old(Queues()).queues[old(futexes)[f].key]|, requeueMax, old(futexes)[f].key == k')
    {
      hide Good, Chained, Move;
      var f' := Get(multiset{f}, k');
      ghost var h := multiset{f} + multiset{f'};
      assert h - multiset{f'} == multiset{f};
      QueueNow(futexes, waits, notified, h, f);
      KeysApart(futexes, waits, notified, h, f, f');
      requeued := MoveWaiters(h, f, f', requeueMax);
      HeldStays(futexes, waits, notified, h, f, f');
      Put(h, f');
      GoodParts(futexes, waits, notified, multiset{f});
    }

    /** futex_wakelike: FUTEX_WAKE, and FUTEX_REQUEUE with a second address. The result is a 32-bit
        number. */
    method Wakelike(requeue: bool, k: Key, wakeMax: nat, requeueMax: nat, k': Key) returns (n: nat)
      requires Valid(multiset{})
      modifies this
      ensures Valid(multiset{})
      ensures var a := old(Queues());
              && Queues() == AfterWakelike(a, requeue, k, wakeMax, requeueMax, k')
              && n == Affected(|a.queues[k]|, requeue, wakeMax, requeueMax, k == k') % UINT
    {
      hide Good, Chained, Affected, AfterWakelike;
      var f := Get(multiset{}, k);
      assert multiset{} + multiset{f} == multiset{f} && multiset{f} - multiset{f} == multiset{};
      n := WakeAndMove(f, requeue, wakeMax, requeueMax, k');
      Put(multiset{f}, f);
    }

    /** The loops of futex_wakelike, while it holds the futex. */
    method WakeAndMove(f: FutexId, requeue: bool, wakeMax: nat, requeueMax: nat, k': Key) returns (n: nat)
      requires Valid(multiset{f}) && f in futexes
      modifies this
      ensures Valid(multiset{f}) && f in futexes
      ensures var a, k := old(Queues()), old(futexes)[f].key;
              && Queues() == AfterWakelike(a, requeue, k, wakeMax, requeueMax, k')
              && n == Affected(|a.queues[k]|, requeue, wakeMax, requeueMax, k == k') % UINT
    {
      hide Good, Chained, Move, Wake, Min, MoveCount;
      QueueNow(futexes, waits, notified, multiset{f}, f);
      WakeLeaves(Queues(), futexes[f].key, wakeMax);
      n := WakeWaiters(multiset{f}, f, wakeMax);
      if requeue {
        var requeued := Requeue(f, requeueMax, k');
        n := n + requeued;
      }
      n := n % UINT;
    }
  }

  lemma GoodParts(fs: Futexes, ws: Waits, nt: set<WaitId>, h: multiset<FutexId>)
    requires Good(fs, ws, nt, h)
    ensures Unique(fs) && Placed(fs, ws) && forall f :: f in h ==> f in fs
  {
  }

  lemma ChainsFormed(chains: Chains, fs: Futexes)
    requires Chained(chains, fs)
    ensures |chains| == HASH_SIZE
  {
  }

  lemma ChainMember(chains: Chains, fs: Futexes, i: nat, j: nat)
    requires Chained(chains, fs) && i < HASH_SIZE && j < |chains[i]|
    ensures chains[i][j] in fs
  {
    assert chains[i][j] in chains[i];
  }

  lemma NotThere(chains: Chains, fs: Futexes, k: Key)
    requires Chained(chains, fs)
    requires forall j :: 0 <= j < |chains[Hash(k)]| ==> chains[Hash(k)][j] in fs && fs[chains[Hash(k)][j]].key != k
    ensures !Has(fs, k)
  {
    hide Hash;
  }

  ghost predicate SameKeys(fs: Futexes, fs': Futexes) { fs'.Keys == fs.Keys && forall f :: f in fs ==> fs'[f].key == fs[f].key }

  lemma MovedKeys(fs: Futexes, f: FutexId, f': FutexId)
    requires f in fs && f' in fs && fs[f].queue != []
    ensures SameKeys(fs, MovedOne(fs, f, f'))
    ensures MovedOne(fs, f, f')[f].queue == fs[f].queue[1..] + if f == f' then [fs[f].queue[0]] else []
  {
  }

  lemma QueueNow(fs: Futexes, ws: Waits, nt: set<WaitId>, h: multiset<FutexId>, f: FutexId)
    requires Good(fs, ws, nt, h) && f in fs
    ensures Placed(fs, ws) && Abs(fs, ws, nt).queues[fs[f].key] == fs[f].queue
  {
    QueueIs(fs, f);
  }

  lemma KeysApart(fs: Futexes, ws: Waits, nt: set<WaitId>, h: multiset<FutexId>, f: FutexId, f': FutexId)
    requires Good(fs, ws, nt, h) && f in fs && f' in fs
    ensures f == f' <==> fs[f].key == fs[f'].key
  {
  }

  /** The assertion of the second loop: the operation itself holds a reference, besides the one of
      the waiter. */
  lemma HeldTwice(fs: Futexes, ws: Waits, nt: set<WaitId>, h: multiset<FutexId>, f: FutexId)
    requires Good(fs, ws, nt, h) && f in h && f in fs && fs[f].queue != []
    ensures fs[f].refcount > 1
  {
    Queued(fs, ws, nt, h, f, fs[f].queue[0]);
    assert CountedAt(fs, ws, h, f);
  }

  /** Giving one reference back leaves what is held otherwise. */
  lemma HeldStays(fs: Futexes, ws: Waits, nt: set<WaitId>, h: multiset<FutexId>, f: FutexId, f': FutexId)
    requires Good(fs, ws, nt, h) && h == multiset{f} + multiset{f'}
    ensures f in fs && f' in fs && f' in h && f in Released(fs, f')
  {
    assert CountedAt(fs, ws, h, f');
    assert f' in h && f in h;
    assert f == f' ==> h[f'] == 2;
  }

  /** The first waiters are woken, and of the others the first are moved. */
  ghost function AfterWakelike(a: State, requeue: bool, k: Key, wakeMax: nat, requeueMax: nat, k': Key): State
    requires Total(a)
  {
    if requeue then Move(Wake(a, k, wakeMax), k, requeueMax, k') else Wake(a, k, wakeMax)
  }

  // Counting

  /** How many waiters an operation on a queue of this length wakes and moves. */
  function Affected(len: nat, requeue: bool, wakeMax: nat, requeueMax: nat, same: bool): nat {
    var woken := Min(wakeMax, len);
    if requeue then woken + MoveCount(len - woken, requeueMax, same) else woken
  }

  lemma WakeNone(a: State, k: Key)
    requires Total(a)
    ensures Wake(a, k, 0) == a
  {
    assert a.queues[k := a.queues[k]] == a.queues;
  }

  lemma WakeAll(a: State, k: Key, woken: nat, wakeMax: nat)
    requires Total(a) && woken == Min(wakeMax, |a.queues[k]|)
    ensures Wake(a, k, woken) == Wake(a, k, wakeMax)
  {
  }

  lemma WakeLeaves(a: State, k: Key, wakeMax: nat)
    requires Total(a)
    ensures |Wake(a, k, wakeMax).queues[k]| == |a.queues[k]| - Min(wakeMax, |a.queues[k]|)
  {
  }

  lemma MoveNone(a: State, k: Key, k': Key)
    requires Total(a)
    ensures Move(a, k, 0, k') == a
  {
    var q := a.queues[k];
    assert a.queues[k := q] == a.queues && q[..0] == [] && a.queues[k'] + [] == a.queues[k'];
    assert a.queues[k := q][k' := a.queues[k']] == a.queues;
    assert Moved(a.waits, [], k') == a.waits;
  }

  lemma MoveNext(a: State, k: Key, k': Key, n: nat, len: nat)
    requires Total(a) && len == |a.queues[k]| && if k == k' then n == 0 || len != 1 else n < len
    ensures Move(Move(a, k, n, k'), k, 1, k') == Move(a, k, n + 1, k')
  {
    if k != k' { MoveStepOther(a, k, n, k'); } else if len >= 2 { MoveStepSame(a, k, n); }
  }

  lemma MoveAll(a: State, k: Key, k': Key, n: nat, max: nat)
    requires Total(a) && n == MoveCount(|a.queues[k]|, max, k == k')
    ensures Move(a, k, n, k') == Move(a, k, max, k')
  {
  }

  /** The waiter to move is the first of the queue, and the one after it is known. */
  predicate Following(q: seq<WaitId>, item: Option<WaitId>, tmp: Option<WaitId>) {
    item == First(q) && tmp == if |q| < 2 then None else Some(q[1])
  }
}
