/** Whole runs of memory operations on any number of address spaces: reference counts stay exact,
    memory is released exactly with its last entry, and a private page only changes for an
    operation that names it, whatever the relatives of the process do. */
module MemoryRuns {

  import opened MemoryWorld
  import opened MemorySteps
  import opened MemoryMap
  import opened MemoryFork
  import opened MemoryAccess
  import opened MemoryIsolation
  import opened MemoryCounts
  import opened MemoryDestroy

  /** A name that NewOp or ForkOp gives to an address space may have been another one's before. */
  datatype Op =
    | NewOp(m: MemId)
    | DestroyOp(m: MemId)
    | MapOp(m: MemId, start: nat, d: DataId, pages: seq<Bytes>, f: Flags)
    | UnmapOp(m: MemId, start: nat, n: nat)
    | ForkOp(src: MemId, dst: MemId)
    | TouchOp(m: MemId, p: nat, a: Access, d: DataId, d': DataId)
    | WriteOp(m: MemId, p: nat, off: nat, b: int, d: DataId, d': DataId)
    | ProtectOp(m: MemId, start: nat, n: nat, write: bool)

  predicate Enabled(w: World, op: Op) {
    match op
    case NewOp(m) => m !in w.spaces
    case DestroyOp(m) => m in w.spaces
    case MapOp(m, start, d, pages, f) => m in w.spaces && d !in w.datas && pages != [] && start + |pages| <= MEM_PAGES
    case UnmapOp(m, start, n) => m in w.spaces
    case ForkOp(src, dst) => src in w.spaces && dst !in w.spaces
    case TouchOp(m, p, a, d, d') => Fresh(w, d, d') && p < MEM_PAGES
    case WriteOp(m, p, off, b, d, d') => Fresh(w, d, d') && p < MEM_PAGES
    case ProtectOp(m, start, n, write) => m in w.spaces
  }

  ghost function Apply(w: World, op: Op): World
    requires Enabled(w, op)
  {
    match op
    case NewOp(m) => w.(spaces := w.spaces[m := Space(map[], 0)])
    case DestroyOp(m) => Destroy(w, m)
    case MapOp(m, start, d, pages, f) => Map(w, m, start, d, pages, f)
    case UnmapOp(m, start, n) => UnmapAlways(w, m, start, n)
    case ForkOp(src, dst) => Fork(w, src, dst)
    case TouchOp(m, p, a, d, d') => Resolve(w, m, p, a, d, d')
    case WriteOp(m, p, off, b, d, d') => WriteByte(w, m, p, off, b, d, d')
    case ProtectOp(m, start, n, write) => SetFlags(w, m, start, n, write)
  }

  ghost predicate Runs(w: World, ops: seq<Op>, w': World)
    decreases |ops|
  {
    if ops == [] then w' == w else Enabled(w, ops[0]) && Runs(Apply(w, ops[0]), ops[1..], w')
  }

  // Pages that a step does not name

  lemma PutOther(w: World, m: MemId, p: nat, e: Pte, k: MemId, q: nat)
    requires m in w.spaces && (k, q) != (m, p)
    ensures var w' := PutPage(w, m, p, e);
            (Mapped(w', k, q) <==> Mapped(w, k, q)) && (Mapped(w, k, q) ==> Entry(w', k, q) == Entry(w, k, q))
  {
    hide UnmapAlways, MapPage;
    UnmapEntries(w, m, p, 1, k, q);
    UnfoldPut(w, m, p, e);
    MapPageEntries(Cleared(w, m, p), m, p, e, k, q);
  }

  lemma {:induction false} MapRangeOther(w: World, m: MemId, start: nat, n: nat, d: DataId, f: Flags, k: MemId, q: nat)
    requires m in w.spaces && !Within(m, start, n, k, q)
    ensures var w' := MapRange(w, m, start, n, d, f);
            (Mapped(w', k, q) <==> Mapped(w, k, q)) && (Mapped(w, k, q) ==> Entry(w', k, q) == Entry(w, k, q))
  {
    hide PutPage;
    if n > 0 {
      MapRangeOther(w, m, start, n - 1, d, f, k, q);
      PutOther(MapRange(w, m, start, n - 1, d, f), m, start + n - 1, At(d, n - 1, f), k, q);
    }
  }

  lemma MapOther(w: World, m: MemId, start: nat, d: DataId, pages: seq<Bytes>, f: Flags, k: MemId, q: nat)
    requires m in w.spaces && !Within(m, start, |pages|, k, q)
    ensures var w' := Map(w, m, start, d, pages, f);
            (Mapped(w', k, q) <==> Mapped(w, k, q)) && (Mapped(w, k, q) ==> Entry(w', k, q) == Entry(w, k, q))
  {
    hide MapRange;
    MapRangeOther(Allocate(w, d, pages), m, start, |pages|, d, f, k, q);
  }

  lemma ResolveOther(w: World, m: MemId, p: nat, a: Access, d: DataId, d': DataId, k: MemId, q: nat)
    requires (k, q) != (m, p)
    ensures var w' := Resolve(w, m, p, a, d, d');
            (Mapped(w', k, q) <==> Mapped(w, k, q)) && (Mapped(w, k, q) ==> Entry(w', k, q) == Entry(w, k, q))
  {
    hide Map, Zeros, View;
    if Grows(w, m, p) { MapOther(w, m, p, d, [Zeros()], Flags(true, false, false, true), k, q); }
    var v := Grown(w, m, p, d);
    if Modifies(v, m, p, a) {
      var e := Prepared(Entry(v, m, p), a);
      if e.cow && View(v, m, p).Some? {
        MapOther(SetEntry(v, m, p, e), m, p, d', [View(v, m, p).value], Flags(e.write, false, e.shared, e.grows), k, q);
      }
    }
  }

  lemma ProtectOther(w: World, m: MemId, start: nat, n: nat, write: bool, k: MemId, q: nat)
    requires m in w.spaces && !Within(m, start, n, k, q)
    ensures var w' := SetFlags(w, m, start, n, write);
            && (Mapped(w', k, q) <==> Mapped(w, k, q)) && (Mapped(w, k, q) ==> Entry(w', k, q) == Entry(w, k, q))
            && View(w', k, q) == View(w, k, q)
  {
    hide SetFlags;
    if forall p: nat :: start <= p < start + n ==> Mapped(w, m, p) {
      SetFlagsEntries(w, m, start, n, write, k, q);
    } else {
      NotSet(w, m, start, n, write);
    }
  }

  // Page numbers stay in bounds

  lemma MapBounded(w: World, m: MemId, start: nat, d: DataId, pages: seq<Bytes>, f: Flags)
    requires Bounded(w) && m in w.spaces && start + |pages| <= MEM_PAGES
    ensures Bounded(Map(w, m, start, d, pages, f))
  {
    hide Map;
    forall k: MemId, q: nat | Mapped(Map(w, m, start, d, pages, f), k, q) ensures q < MEM_PAGES {
      if !Within(m, start, |pages|, k, q) { MapOther(w, m, start, d, pages, f, k, q); }
    }
  }

  lemma ResolveBounded(w: World, m: MemId, p: nat, a: Access, d: DataId, d': DataId)
    requires Bounded(w) && p < MEM_PAGES
    ensures Bounded(Resolve(w, m, p, a, d, d'))
  {
    hide Resolve;
    forall k: MemId, q: nat | Mapped(Resolve(w, m, p, a, d, d'), k, q) ensures q < MEM_PAGES {
      if (k, q) != (m, p) { ResolveOther(w, m, p, a, d, d', k, q); }
    }
  }

  lemma ProtectBounded(w: World, m: MemId, start: nat, n: nat, write: bool)
    requires Bounded(w) && m in w.spaces
    ensures Bounded(SetFlags(w, m, start, n, write))
  {
    hide SetFlags;
    var w' := SetFlags(w, m, start, n, write);
    if forall p: nat :: start <= p < start + n ==> Mapped(w, m, p) {
      forall k: MemId, q: nat | Mapped(w', k, q) ensures q < MEM_PAGES { SetFlagsEntries(w, m, start, n, write, k, q); }
    } else {
      NotSet(w, m, start, n, write);
    }
  }

  lemma StepBounded(w: World, op: Op)
    requires Bounded(w) && Enabled(w, op)
    ensures Bounded(Apply(w, op))
  {
    hide Bounded, Map, UnmapAlways, Fork, Resolve, Store, Translate, SetFlags, Destroy;
    match op
    case NewOp(m) => SameBounded(w, Apply(w, op));
    case DestroyOp(m) => DestroyBounded(w, m);
    case MapOp(m, start, d, pages, f) => MapBounded(w, m, start, d, pages, f);
    case UnmapOp(m, start, n) => UnmapBounded(w, m, start, n);
    case ForkOp(src, dst) => ForkBounded(w, src, dst);
    case TouchOp(m, p, a, d, d') => ResolveBounded(w, m, p, a, d, d');
    case WriteOp(m, p, off, b, d, d') =>
      ResolveBounded(w, m, p, Write, d, d');
      var v := Resolve(w, m, p, Write, d, d');
      if Translate(v, m, p, Write).Some? {
        StoreEntries(v, Translate(v, m, p, Write).value, off, b);
        SameBounded(v, Apply(w, op));
      }
    case ProtectOp(m, start, n, write) => ProtectBounded(w, m, start, n, write);
  }

  // Every step, every run

  /** Counts are exact, entries lead to memory, nothing is kept that no entry leads to, and page
      numbers are in bounds. */
  ghost predicate Kept(w: World) { Conserved(w) && Live(w) && Bounded(w) }

  lemma StepKept(w: World, op: Op)
    requires Kept(w) && Enabled(w, op)
    ensures Kept(Apply(w, op))
  {
    hide Conserved, Live, Bounded, Map, UnmapAlways, Fork, Resolve, Store, Translate, SetFlags, Destroy;
    StepBounded(w, op);
    match op
    case NewOp(m) => NewSpaceConserves(w, m); SameLive(w, Apply(w, op));
    case DestroyOp(m) => DestroyConserves(w, m); DestroyLive(w, m);
    case MapOp(m, start, d, pages, f) => MapKeepsCounts(w, m, start, d, pages, f); MapLive(w, m, start, d, pages, f);
    case UnmapOp(m, start, n) => UnmapAlwaysConserves(w, m, start, n); UnmapLive(w, m, start, n);
    case ForkOp(src, dst) => ForkConserves(w, src, dst); ForkLive(w, src, dst);
    case TouchOp(m, p, a, d, d') => ResolveConserves(w, m, p, a, d, d'); ResolveLive(w, m, p, a, d, d');
    case WriteOp(m, p, off, b, d, d') =>
      ResolveConserves(w, m, p, Write, d, d');
      ResolveLive(w, m, p, Write, d, d');
      var v := Resolve(w, m, p, Write, d, d');
      if Translate(v, m, p, Write).Some? {
        StoreConserves(v, Translate(v, m, p, Write).value, off, b);
        StoreLive(v, Translate(v, m, p, Write).value, off, b);
      }
    case ProtectOp(m, start, n, write) => SetFlagsConserves(w, m, start, n, write); SameLive(w, Apply(w, op));
  }

  lemma SameLive(w: World, w': World)
    requires Live(w) && w'.datas == w.datas
    ensures Live(w')
  {
  }

  /** In every reachable state, changes of protection included, counts are exact and entries lead to
      memory that is still there. */
  lemma {:induction false} RunKept(w: World, ops: seq<Op>, w': World)
    requires Kept(w) && Runs(w, ops, w')
    ensures Kept(w')
    decreases |ops|
  {
    hide Kept, Apply, Enabled;
    if ops != [] {
      StepKept(w, ops[0]);
      RunKept(Apply(w, ops[0]), ops[1..], w');
    }
  }

  /** Memory is kept exactly as long as some entry leads to it. */
  lemma KeptWhileReferenced(w: World, ops: seq<Op>, w': World, d: DataId)
    requires Kept(w) && Runs(w, ops, w')
    ensures d in w'.datas <==> exists m: MemId, p: nat :: Mapped(w', m, p) && Entry(w', m, p).data == d
    ensures d in w'.datas ==> w'.datas[d].refcount == |Refs(w', d)|
  {
    RunKept(w, ops, w');
    assert CountedAt(w', d);
    if d in w'.datas {
      assert |Refs(w', d)| > 0;
      var r :| r in Refs(w', d);
      assert Mapped(w', r.0, r.1);
    }
    if m: MemId, p: nat :| Mapped(w', m, p) && Entry(w', m, p).data == d { assert BackedBy(w'.datas, Entry(w', m, p)); }
  }

  // Isolation

  ghost predicate Good(w: World) { Inv(w) && Live(w) && Bounded(w) }

  /** A change of protection that SetFlagsIsolates allows: its pages have memory of their own, or it
      fails because some page is not mapped. */
  ghost predicate Careful(w: World, op: Op)
    requires Enabled(w, op)
  {
    op.ProtectOp? ==>
      || !(forall p: nat :: op.start <= p < op.start + op.n ==> Mapped(w, op.m, p))
      || (forall p: nat :: op.start <= p < op.start + op.n ==> Mapped(w, op.m, p) && Sole(w, op.m, p))
  }

  ghost predicate CarefulRun(w: World, ops: seq<Op>)
    decreases |ops|
  {
    ops != [] && Enabled(w, ops[0]) ==> Careful(w, ops[0]) && CarefulRun(Apply(w, ops[0]), ops[1..])
  }

  lemma StepIsolates(w: World, op: Op)
    requires Inv(w) && Bounded(w) && Enabled(w, op) && Careful(w, op)
    ensures Inv(Apply(w, op))
  {
    hide Inv, Bounded, Map, UnmapAlways, Fork, Resolve, Store, Translate, SameBacking, Placed, SetFlags, Destroy;
    match op
    case NewOp(m) => NewSpaceInv(w, m);
    case DestroyOp(m) => DestroyInv(w, m);
    case MapOp(m, start, d, pages, f) => MapInv(w, m, start, d, pages, f);
    case UnmapOp(m, start, n) => UnmapAlwaysInv(w, m, start, n);
    case ForkOp(src, dst) => ForkInv(w, src, dst);
    case TouchOp(m, p, a, d, d') => ResolveInv(w, m, p, a, d, d');
    case WriteOp(m, p, off, b, d, d') => WriteInv(w, m, p, off, b, d, d');
    case ProtectOp(m, start, n, write) => ProtectInv(w, m, start, n, write);
  }

  lemma ProtectInv(w: World, m: MemId, start: nat, n: nat, write: bool)
    requires Inv(w) && m in w.spaces && Careful(w, ProtectOp(m, start, n, write))
    ensures Inv(SetFlags(w, m, start, n, write))
  {
    hide Conserved, Isolated, SetFlags;
    SetFlagsConserves(w, m, start, n, write);
    if forall p: nat :: start <= p < start + n ==> Mapped(w, m, p) {
      SetFlagsIsolates(w, m, start, n, write);
    } else {
      NotSet(w, m, start, n, write);
    }
  }

  lemma StepGood(w: World, op: Op)
    requires Good(w) && Enabled(w, op) && Careful(w, op)
    ensures Good(Apply(w, op))
  {
    hide Conserved, Isolated, Live, Bounded, Apply, Enabled, Careful;
    StepIsolates(w, op);
    StepKept(w, op);
  }

  /** Over every run whose changes of protection are careful, private pages stay isolated. */
  lemma {:induction false} RunGood(w: World, ops: seq<Op>, w': World)
    requires Good(w) && Runs(w, ops, w') && CarefulRun(w, ops)
    ensures Good(w')
    decreases |ops|
  {
    hide Good, Apply, Enabled, Careful;
    if ops != [] {
      StepGood(w, ops[0]);
      RunGood(Apply(w, ops[0]), ops[1..], w');
    }
  }

  // Private pages over whole runs

  /** An operation that is about this page of this address space. */
  predicate Names(op: Op, k: MemId, q: nat) {
    match op
    case NewOp(m) => m == k
    case DestroyOp(m) => m == k
    case MapOp(m, start, d, pages, f) => m == k && start <= q < start + |pages|
    case UnmapOp(m, start, n) => m == k && start <= q < start + n
    case ForkOp(src, dst) => dst == k
    case TouchOp(m, p, a, d, d') => m == k && p == q
    case WriteOp(m, p, off, b, d, d') => m == k && p == q
    case ProtectOp(m, start, n, write) => m == k && start <= q < start + n
  }

  predicate Private(w: World, k: MemId, q: nat) { Mapped(w, k, q) && !Entry(w, k, q).shared }

  /** Where a page leads, and whether it is shared, only changes for an operation that names it. */
  lemma StepStays(w: World, op: Op, k: MemId, q: nat)
    requires Bounded(w) && Enabled(w, op) && !Names(op, k, q)
    ensures var w' := Apply(w, op);
            (Mapped(w', k, q) <==> Mapped(w, k, q)) && (Mapped(w, k, q) ==> SamePage(Entry(w, k, q), Entry(w', k, q)) && Entry(w', k, q).shared == Entry(w, k, q).shared)
  {
    hide Bounded, Map, UnmapAlways, Fork, Resolve, Store, Translate, SetFlags, View, Destroy;
    match op
    case NewOp(m) =>
    case DestroyOp(m) => DestroyEntries(w, m, k, q);
    case MapOp(m, start, d, pages, f) => MapOther(w, m, start, d, pages, f, k, q);
    case UnmapOp(m, start, n) => UnmapEntries(w, m, start, n, k, q);
    case ForkOp(src, dst) => ForkEntries(w, src, dst, k, q);
    case TouchOp(m, p, a, d, d') => ResolveOther(w, m, p, a, d, d', k, q);
    case ProtectOp(m, start, n, write) => ProtectOther(w, m, start, n, write, k, q);
    case WriteOp(m, p, off, b, d, d') =>
      ResolveOther(w, m, p, Write, d, d', k, q);
      var v := Resolve(w, m, p, Write, d, d');
      if Translate(v, m, p, Write).Some? { StoreEntries(v, Translate(v, m, p, Write).value, off, b); }
  }

  lemma NotSeen(w: World, m: MemId, p: nat, k: MemId, q: nat)
    requires Isolated(w) && Private(w, k, q) && (k, q) != (m, p)
    ensures !SeenAt(w, m, p, k, q)
  {
    assert Mapped(w, m, p) ==> Apart(w, k, q, m, p);
  }

  lemma StepView(w: World, op: Op, k: MemId, q: nat)
    requires Good(w) && Enabled(w, op) && Private(w, k, q) && !Names(op, k, q)
    ensures View(Apply(w, op), k, q) == View(w, k, q)
  {
    hide Conserved, Isolated, Live, Bounded, Map, UnmapAlways, Fork, Resolve, WriteByte, SetFlags, View, SameBacking, Private, SeenAt, Lands, Grows, Destroy;
    match op
    case NewOp(m) => NewSpaceInv(w, m); SameViews(w, Apply(w, op), k, q);
    case DestroyOp(m) => DestroyView(w, m, k, q);
    case MapOp(m, start, d, pages, f) => MapView(w, m, start, d, pages, f, k, q);
    case UnmapOp(m, start, n) => UnmapAlwaysView(w, m, start, n, k, q);
    case ForkOp(src, dst) => ForkAgrees(w, src, dst, k, q);
    case TouchOp(m, p, a, d, d') => ResolveView(w, m, p, a, d, d', k, q);
    case ProtectOp(m, start, n, write) => ProtectOther(w, m, start, n, write, k, q);
    case WriteOp(m, p, off, b, d, d') =>
      NotSeen(w, m, p, k, q);
      WriteSeen(w, m, p, off, b, d, d', k, q);
  }

  /** Whatever a run does, a private page keeps its contents until an operation names it. */
  lemma {:induction false} RunPrivate(w: World, ops: seq<Op>, w': World, k: MemId, q: nat)
    requires Good(w) && Runs(w, ops, w') && CarefulRun(w, ops) && Private(w, k, q)
    requires forall i :: 0 <= i < |ops| ==> !Names(ops[i], k, q)
    ensures Private(w', k, q) && View(w', k, q) == View(w, k, q)
    decreases |ops|
  {
    hide Inv, Live, Bounded, Apply, Enabled, View, Names, Careful;
    if ops != [] {
      StepGood(w, ops[0]);
      StepStays(w, ops[0], k, q);
      StepView(w, ops[0], k, q);
      RunPrivate(Apply(w, ops[0]), ops[1..], w', k, q);
    }
  }

  /** A child keeps the memory its parent had at the fork, for every private page it has not
      touched itself, however the parent and everybody else go on. */
  lemma ForkSnapshot(w: World, src: MemId, dst: MemId, ops: seq<Op>, w': World, q: nat)
    requires Good(w) && Enabled(w, ForkOp(src, dst)) && Runs(Fork(w, src, dst), ops, w') && CarefulRun(Fork(w, src, dst), ops)
    requires q < MEM_PAGES && Private(w, src, q) && forall i :: 0 <= i < |ops| ==> !Names(ops[i], dst, q)
    ensures View(w', dst, q) == View(w, src, q)
  {
    hide Good, Fork, View, Runs, Names, CarefulRun;
    StepGood(w, ForkOp(src, dst));
    InvOfGood(w);
    InvOfGood(Fork(w, src, dst));
    ForkEntries(w, src, dst, dst, q);
    ForkEntries(w, src, dst, src, q);
    ForkAgrees(w, src, dst, dst, q);
    ForkedPrivate(Fork(w, src, dst), src, dst, q);
    RunPrivate(Fork(w, src, dst), ops, w', dst, q);
  }

  lemma InvOfGood(w: World)
    requires Good(w)
    ensures Inv(w)
  {
  }

  lemma ForkedPrivate(w: World, src: MemId, dst: MemId, q: nat)
    requires Good(w) && Private(w, src, q) && Mapped(w, dst, q) && SamePage(Entry(w, src, q), Entry(w, dst, q)) && src != dst
    ensures Private(w, dst, q)
  {
    assert Apart(w, src, q, dst, q);
  }
}
