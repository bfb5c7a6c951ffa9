/** A TLB whose address space was let go of and whose name was given to a new one, as execve can do:
    the count starts again, and here is exactly when comparing it is not enough. */
module TlbStale {

  import opened MemoryWorld
  import opened MemorySteps
  import opened MemoryMap
  import opened MemoryFork
  import opened MemoryAccess
  import opened MemoryIsolation
  import opened MemoryCounts
  import opened MemoryDestroy
  import opened MemoryRuns
  import opened TlbCoherence

  // What is counted

  /** How many pages of a range are mapped. */
  function MappedIn(w: World, m: MemId, start: nat, n: nat): nat {
    if n == 0 then 0 else MappedIn(w, m, start, n - 1) + if Mapped(w, m, start + n - 1) then 1 else 0
  }

  /** An access that gives a page memory of its own. */
  predicate Breaks(w: World, m: MemId, p: nat, a: Access) {
    || (Modifies(w, m, p, a) && (Entry(w, m, p).cow || a.Ptrace?))
    || (Grows(w, m, p) && a.Ptrace?)
  }

  /** The changes that an operation counts in an address space: one for each mapped page that is
      replaced, for each unmapping, fork, change of protection and copied page, and none for
      mapping where nothing was. */
  ghost function CountOf(w: World, op: Op, k: MemId): nat
    requires Enabled(w, op)
  {
    match op
    case NewOp(m) => 0
    case DestroyOp(m) => 0
    case MapOp(m, start, d, pages, f) => if k == m then MappedIn(w, m, start, |pages|) else 0
    case UnmapOp(m, start, n) => if k == m then 1 else 0
    case ForkOp(src, dst) => if k == src then 1 else 0
    case TouchOp(m, p, a, d, d') => if k == m && Breaks(w, m, p, a) then 1 else 0
    case WriteOp(m, p, off, b, d, d') => if k == m && Breaks(w, m, p, Write) then 1 else 0
    case ProtectOp(m, start, n, write) => if k == m && forall p: nat :: start <= p < start + n ==> Mapped(w, m, p) then 1 else 0
  }

  ghost function RunCount(w: World, ops: seq<Op>, k: MemId): nat
    decreases |ops|
  {
    if ops == [] || !Enabled(w, ops[0]) then 0 else CountOf(w, ops[0], k) + RunCount(Apply(w, ops[0]), ops[1..], k)
  }

  lemma PutCount(w: World, m: MemId, p: nat, e: Pte, k: MemId)
    requires m in w.spaces && k in w.spaces
    ensures PutPage(w, m, p, e).spaces[k].changes == w.spaces[k].changes + if k == m && Mapped(w, m, p) then 1 else 0
  {
    hide UnmapAlways, Keeps;
    PutKeeps(w, m, p, e, k);
  }

  lemma {:induction false} MapRangeCount(w: World, m: MemId, start: nat, n: nat, d: DataId, f: Flags, k: MemId)
    requires m in w.spaces && k in w.spaces
    ensures MapRange(w, m, start, n, d, f).spaces[k].changes == w.spaces[k].changes + if k == m then MappedIn(w, m, start, n) else 0
  {
    hide PutPage;
    if n > 0 {
      MapRangeCount(w, m, start, n - 1, d, f, k);
      PutCount(MapRange(w, m, start, n - 1, d, f), m, start + n - 1, At(d, n - 1, f), k);
      MapRangeOther(w, m, start, n - 1, d, f, m, start + n - 1);
    }
  }

  lemma {:induction false} SameMappedIn(w: World, w': World, m: MemId, start: nat, n: nat)
    requires forall p: nat :: Mapped(w, m, p) <==> Mapped(w', m, p)
    ensures MappedIn(w, m, start, n) == MappedIn(w', m, start, n)
  {
    if n > 0 { SameMappedIn(w, w', m, start, n - 1); }
  }

  lemma MapCount(w: World, m: MemId, start: nat, d: DataId, pages: seq<Bytes>, f: Flags, k: MemId)
    requires m in w.spaces && k in w.spaces
    ensures Map(w, m, start, d, pages, f).spaces[k].changes == w.spaces[k].changes + if k == m then MappedIn(w, m, start, |pages|) else 0
  {
    hide MapRange, MappedIn;
    MapRangeCount(Allocate(w, d, pages), m, start, |pages|, d, f, k);
    SameMappedIn(w, Allocate(w, d, pages), m, start, |pages|);
  }

  lemma CopyPageCount(w: World, src: MemId, dst: MemId, p: nat, k: MemId)
    requires src in w.spaces && dst in w.spaces && k in w.spaces && src != dst
    ensures CopyPage(w, src, dst, p).spaces[k].changes == w.spaces[k].changes + if k == dst && Mapped(w, src, p) then 1 else 0
  {
    hide UnmapAlways, Keeps;
    if Mapped(w, src, p) { UnmapKeeps(w, dst, p, 1, k); }
  }

  lemma {:induction false} CopyRangeCount(w: World, src: MemId, dst: MemId, start: nat, n: nat, k: MemId)
    requires src in w.spaces && dst in w.spaces && k in w.spaces && src != dst
    ensures CopyRange(w, src, dst, start, n).spaces[k].changes == w.spaces[k].changes + if k == dst then MappedIn(w, src, start, n) else 0
  {
    hide CopyPage;
    if n > 0 {
      CopyRangeCount(w, src, dst, start, n - 1, k);
      CopyPageCount(CopyRange(w, src, dst, start, n - 1), src, dst, start + n - 1, k);
      CopyRangeEntries(w, src, dst, start, n - 1, src, start + n - 1);
    }
  }

  /** A forked address space starts with a count of one more than the pages it was given. */
  lemma ForkCount(w: World, src: MemId, dst: MemId, k: MemId)
    requires src in w.spaces && dst !in w.spaces && (k in w.spaces || k == dst)
    ensures Fork(w, src, dst).spaces[k].changes ==
            if k == dst then MappedIn(w, src, 0, MEM_PAGES) + 1 else w.spaces[k].changes + if k == src then 1 else 0
  {
    hide CopyRange, MappedIn;
    var v := w.(spaces := w.spaces[dst := Space(map[], 0)]);
    CopyRangeCount(v, src, dst, 0, MEM_PAGES, k);
    SameMappedIn(w, v, src, 0, MEM_PAGES);
  }

  lemma OnePage(w: World, m: MemId, p: nat)
    ensures MappedIn(w, m, p, 1) == if Mapped(w, m, p) then 1 else 0
  {
    assert MappedIn(w, m, p, 0) == 0;
  }

  lemma GrownCount(w: World, m: MemId, p: nat, d: DataId, k: MemId)
    requires k in w.spaces
    ensures Grown(w, m, p, d).spaces[k].changes == w.spaces[k].changes
  {
    hide Map, Zeros, MappedIn;
    if Grows(w, m, p) {
      MapCount(w, m, p, d, [Zeros()], Flags(true, false, false, true), k);
      OnePage(w, m, p);
    }
  }

  lemma BrokenCount(w: World, m: MemId, p: nat, a: Access, d: DataId, k: MemId)
    requires Conserved(w) && k in w.spaces
    ensures Broken(w, m, p, a, d).spaces[k].changes ==
            w.spaces[k].changes + if k == m && Modifies(w, m, p, a) && (Entry(w, m, p).cow || a.Ptrace?) then 1 else 0
  {
    hide Conserved, Map, View, MappedIn;
    if Modifies(w, m, p, a) {
      var e := Prepared(Entry(w, m, p), a);
      var v := SetEntry(w, m, p, e);
      BackedThere(w, m, p);
      if e.cow {
        MapCount(v, m, p, d, [View(w, m, p).value], Flags(e.write, false, e.shared, e.grows), k);
        OnePage(v, m, p);
      }
    }
  }

  lemma ResolveCount(w: World, m: MemId, p: nat, a: Access, d: DataId, d': DataId, k: MemId)
    requires Conserved(w) && Fresh(w, d, d') && k in w.spaces
    ensures Resolve(w, m, p, a, d, d').spaces[k].changes == w.spaces[k].changes + if k == m && Breaks(w, m, p, a) then 1 else 0
  {
    hide Conserved, Grown, Broken, Grows;
    GrownCount(w, m, p, d, k);
    GrownConserves(w, m, p, d);
    BrokenCount(Grown(w, m, p, d), m, p, a, d', k);
    GrownEntry(w, m, p, d);
    GrowsUnmapped(w, m, p);
  }

  lemma GrowsUnmapped(w: World, m: MemId, p: nat)
    ensures Grows(w, m, p) ==> !Mapped(w, m, p)
  {
  }

  lemma ProtectCount(w: World, m: MemId, start: nat, n: nat, write: bool, k: MemId)
    requires m in w.spaces && k in w.spaces
    ensures SetFlags(w, m, start, n, write).spaces[k].changes ==
            w.spaces[k].changes + if k == m && forall p: nat :: start <= p < start + n ==> Mapped(w, m, p) then 1 else 0
  {
    hide FlagRange;
    FlagRangeChanges(w, m, start, n, write, k);
  }

  lemma StepCount(w: World, op: Op, k: MemId)
    requires Kept(w) && Enabled(w, op) && k in w.spaces && op != DestroyOp(k)
    ensures k in Apply(w, op).spaces && Apply(w, op).spaces[k].changes == w.spaces[k].changes + CountOf(w, op, k)
  {
    hide Conserved, Live, Bounded, Map, UnmapAlways, Fork, Resolve, Store, Translate, SetFlags, Destroy, Keeps, Breaks, MappedIn;
    StepKeeps(w, op, k);
    KeepsIn(w, Apply(w, op), k);
    match op
    case NewOp(m) =>
    case DestroyOp(m) => DestroyCount(w, m, k);
    case MapOp(m, start, d, pages, f) => MapCount(w, m, start, d, pages, f, k);
    case UnmapOp(m, start, n) => UnmapKeeps(w, m, start, n, k);
    case ForkOp(src, dst) => ForkCount(w, src, dst, k);
    case TouchOp(m, p, a, d, d') => ResolveCount(w, m, p, a, d, d', k);
    case WriteOp(m, p, off, b, d, d') =>
      ResolveCount(w, m, p, Write, d, d', k);
      var v := Resolve(w, m, p, Write, d, d');
      if Translate(v, m, p, Write).Some? { StoreEntries(v, Translate(v, m, p, Write).value, off, b); }
    case ProtectOp(m, start, n, write) => ProtectCount(w, m, start, n, write, k);
  }

  lemma KeepsIn(w: World, w': World, k: MemId)
    requires Keeps(w, w', k)
    ensures k in w'.spaces
  {
  }

  lemma DestroyCount(w: World, m: MemId, k: MemId)
    requires m in w.spaces && k in w.spaces && k != m
    ensures Destroy(w, m).spaces[k].changes == w.spaces[k].changes
  {
    hide UnmapAlways, Keeps;
    UnmapKeeps(w, m, 0, MEM_PAGES, k);
  }

  /** The counter is the number of counted changes since it was zero. */
  lemma {:induction false} RunCounts(w: World, ops: seq<Op>, w': World, k: MemId)
    requires Kept(w) && Runs(w, ops, w') && k in w.spaces && DestroyOp(k) !in ops
    ensures k in w'.spaces && w'.spaces[k].changes == w.spaces[k].changes + RunCount(w, ops, k)
    decreases |ops|
  {
    hide Kept, Apply, Enabled, CountOf;
    if ops != [] {
      StepKept(w, ops[0]);
      StepCount(w, ops[0], k);
      RunCounts(Apply(w, ops[0]), ops[1..], w', k);
    }
  }

  // Where the memory of a new address space comes from

  /** An operation that gives the address space no memory from a set of old objects. */
  predicate NotReused(op: Op, m: MemId, past: set<DataId>) {
    match op
    case MapOp(k, start, d, pages, f) => k == m ==> d !in past
    case TouchOp(k, p, a, d, d') => k == m ==> d !in past && d' !in past
    case WriteOp(k, p, off, b, d, d') => k == m ==> d !in past && d' !in past
    case _ => true
  }

  ghost predicate NewOnly(w: World, m: MemId, past: set<DataId>) { forall p: nat :: Mapped(w, m, p) ==> Entry(w, m, p).data !in past }

  lemma {:induction false} MapRangeIn(w: World, m: MemId, start: nat, n: nat, d: DataId, f: Flags, q: nat)
    requires m in w.spaces && start <= q < start + n
    ensures var w' := MapRange(w, m, start, n, d, f); Mapped(w', m, q) && Entry(w', m, q) == At(d, q - start, f)
  {
    hide PutPage;
    var v := MapRange(w, m, start, n - 1, d, f);
    UnfoldMap(w, m, start, n, d, f);
    if q < start + n - 1 {
      MapRangeIn(w, m, start, n - 1, d, f, q);
      PutOther(v, m, start + n - 1, At(d, n - 1, f), m, q);
    } else {
      UnfoldPut(v, m, q, At(d, n - 1, f));
      MapPageEntries(Cleared(v, m, q), m, q, At(d, n - 1, f), m, q);
    }
  }

  lemma MapNew(w: World, m: MemId, start: nat, d: DataId, pages: seq<Bytes>, f: Flags, k: MemId, past: set<DataId>)
    requires m in w.spaces && NewOnly(w, k, past) && (k == m ==> d !in past)
    ensures NewOnly(Map(w, m, start, d, pages, f), k, past)
  {
    hide MapRange;
    var w' := Map(w, m, start, d, pages, f);
    forall q: nat | Mapped(w', k, q) ensures Entry(w', k, q).data !in past {
      if Within(m, start, |pages|, k, q) {
        MapRangeIn(Allocate(w, d, pages), m, start, |pages|, d, f, q);
      } else {
        MapOther(w, m, start, d, pages, f, k, q);
      }
    }
  }

  lemma ResolveNew(w: World, m: MemId, p: nat, a: Access, d: DataId, d': DataId, k: MemId, past: set<DataId>)
    requires NewOnly(w, k, past) && (k == m ==> d !in past && d' !in past)
    ensures NewOnly(Resolve(w, m, p, a, d, d'), k, past)
  {
    hide Map, Zeros, View, NewOnly;
    if Grows(w, m, p) { MapNew(w, m, p, d, [Zeros()], Flags(true, false, false, true), k, past); }
    var v := Grown(w, m, p, d);
    if Modifies(v, m, p, a) {
      var e := Prepared(Entry(v, m, p), a);
      FlagsNew(v, m, p, e, k, past);
      if e.cow && View(v, m, p).Some? {
        MapNew(SetEntry(v, m, p, e), m, p, d', [View(v, m, p).value], Flags(e.write, false, e.shared, e.grows), k, past);
      }
    }
  }

  lemma FlagsNew(w: World, m: MemId, p: nat, e: Pte, k: MemId, past: set<DataId>)
    requires Mapped(w, m, p) && SamePage(Entry(w, m, p), e) && NewOnly(w, k, past)
    ensures NewOnly(SetEntry(w, m, p, e), k, past)
  {
    var w' := SetEntry(w, m, p, e);
    forall q: nat | Mapped(w', k, q) ensures Entry(w', k, q).data !in past { assert Mapped(w, k, q); }
  }

  lemma SameNew(w: World, w': World, k: MemId, past: set<DataId>)
    requires NewOnly(w, k, past) && k in w.spaces && k in w'.spaces && w'.spaces[k] == w.spaces[k]
    ensures NewOnly(w', k, past)
  {
    forall q: nat | Mapped(w', k, q) ensures Entry(w', k, q).data !in past { assert Mapped(w, k, q); }
  }

  lemma StepNew(w: World, op: Op, k: MemId, past: set<DataId>)
    requires Kept(w) && Enabled(w, op) && k in w.spaces && op != DestroyOp(k) && NewOnly(w, k, past) && NotReused(op, k, past)
    ensures NewOnly(Apply(w, op), k, past)
  {
    hide Conserved, Live, Map, UnmapAlways, Fork, Resolve, Store, Translate, SetFlags, Destroy;
    match op
    case NewOp(m) => SameNew(w, Apply(w, op), k, past);
    case DestroyOp(m) => forall q: nat { DestroyEntries(w, m, k, q); }
    case MapOp(m, start, d, pages, f) => MapNew(w, m, start, d, pages, f, k, past);
    case UnmapOp(m, start, n) => forall q: nat { UnmapEntries(w, m, start, n, k, q); }
    case ForkOp(src, dst) => forall q: nat { ForkEntries(w, src, dst, k, q); }
    case TouchOp(m, p, a, d, d') => ResolveNew(w, m, p, a, d, d', k, past);
    case WriteOp(m, p, off, b, d, d') =>
      ResolveNew(w, m, p, Write, d, d', k, past);
      var v := Resolve(w, m, p, Write, d, d');
      if Translate(v, m, p, Write).Some? {
        StoreEntries(v, Translate(v, m, p, Write).value, off, b);
        SameNew(v, Apply(w, op), k, past);
      }
    case ProtectOp(m, start, n, write) => ProtectNew(w, m, start, n, write, k, past);
  }

  lemma ProtectNew(w: World, m: MemId, start: nat, n: nat, write: bool, k: MemId, past: set<DataId>)
    requires m in w.spaces && NewOnly(w, k, past)
    ensures NewOnly(SetFlags(w, m, start, n, write), k, past)
  {
    hide SetFlags;
    if forall p: nat :: start <= p < start + n ==> Mapped(w, m, p) {
      forall q: nat { SetFlagsEntries(w, m, start, n, write, k, q); }
    } else {
      NotSet(w, m, start, n, write);
    }
  }

  lemma {:induction false} RunNew(w: World, ops: seq<Op>, w': World, k: MemId, past: set<DataId>)
    requires Kept(w) && Runs(w, ops, w') && k in w.spaces && DestroyOp(k) !in ops && NewOnly(w, k, past)
    requires forall i :: 0 <= i < |ops| ==> NotReused(ops[i], k, past)
    ensures NewOnly(w', k, past)
    decreases |ops|
  {
    hide Kept, Apply, Enabled, NewOnly, NotReused, CountOf;
    if ops != [] {
      StepKept(w, ops[0]);
      StepCount(w, ops[0], k);
      StepNew(w, ops[0], k, past);
      RunNew(Apply(w, ops[0]), ops[1..], w', k, past);
    }
  }

  // The name used again

  predicate Blank(e: TlbEntry) { e.page == EMPTY && e.pageIfWritable == EMPTY }

  /** What tlb_refresh leaves of these entries is true of the address space. */
  predicate RefreshTrue(w: World, m: MemId, changes: nat, entries: seq<TlbEntry>)
    requires m in w.spaces
  {
    changes == w.spaces[m].changes ==> AllTrue(w, m, entries)
  }

  /** An entry that was true before is not true of memory that is all newer. */
  lemma OldIsFalse(u: World, w: World, m: MemId, e: TlbEntry)
    requires Conserved(u) && True(u, m, e) && NewOnly(w, m, u.datas.Keys)
    ensures True(w, m, e) <==> Blank(e)
  {
    if e.page != EMPTY { assert Mapped(u, m, PageOf(e.page)) && BackedBy(u.datas, Entry(u, m, PageOf(e.page))); }
  }

  /** The page table leads where an entry says. */
  predicate LeadsBack(w: World, m: MemId, e: TlbEntry) {
    Blank(e) || (
      && Mapped(w, m, PageOf(e.page)) && Place(Entry(w, m, PageOf(e.page)).data, Entry(w, m, PageOf(e.page)).index) == e.host
      && (e.pageIfWritable == EMPTY || Writable(Entry(w, m, PageOf(e.page)))))
  }

  /** For an entry that was true before, that is all that can be asked of it. */
  lemma TrueAgain(u: World, w: World, m: MemId, e: TlbEntry)
    requires True(u, m, e)
    ensures True(w, m, e) <==> LeadsBack(w, m, e)
  {
  }

  /** Entries were made when the address space m was in state u; it was let go of, and a new one got
      its name in v. However the new one is then filled, tlb_refresh leaves only true entries if and
      only if the new table leads where every one of them says, or the count it remembers is not the
      number of changes counted in the new address space. If the host hands out other memory than
      before, the first of these means that they are all blank. */
  lemma StaleExactly(u: World, before: seq<Op>, v: World, m: MemId, ops: seq<Op>, w: World, changes: nat, entries: seq<TlbEntry>)
    requires Kept(u) && AllTrue(u, m, entries) && Runs(u, before, v) && Enabled(v, NewOp(m))
    requires Runs(Apply(v, NewOp(m)), ops, w) && DestroyOp(m) !in ops
    ensures m in w.spaces
    ensures RefreshTrue(w, m, changes, entries) <==>
            || changes != RunCount(Apply(v, NewOp(m)), ops, m)
            || forall i :: 0 <= i < |entries| ==> LeadsBack(w, m, entries[i])
    ensures (forall i :: 0 <= i < |ops| ==> NotReused(ops[i], m, u.datas.Keys)) ==>
            forall i :: 0 <= i < |entries| ==> (LeadsBack(w, m, entries[i]) <==> Blank(entries[i]))
  {
    hide Runs, Conserved, Live, Bounded, True, Blank, CountOf, NotReused, RunCount, LeadsBack;
    RunKept(u, before, v);
    StepKept(v, NewOp(m));
    var v' := Apply(v, NewOp(m));
    RunCounts(v', ops, w, m);
    forall i | 0 <= i < |entries| ensures True(w, m, entries[i]) <==> LeadsBack(w, m, entries[i]) { TrueAgain(u, w, m, entries[i]); }
    if forall i :: 0 <= i < |ops| ==> NotReused(ops[i], m, u.datas.Keys) {
      RunNew(v', ops, w, m, u.datas.Keys);
      forall i | 0 <= i < |entries| ensures True(w, m, entries[i]) <==> Blank(entries[i]) { OldIsFalse(u, w, m, entries[i]); }
    }
  }

  lemma FirstPage(w: World, m: MemId, p: nat, d: DataId, f: Flags)
    requires Kept(w) && Enabled(w, MapOp(m, p, d, [Zeros()], f)) && !Mapped(w, m, p)
    ensures var w' := Apply(w, MapOp(m, p, d, [Zeros()], f));
            Kept(w') && w'.spaces.Keys == w.spaces.Keys && w'.spaces[m].changes == w.spaces[m].changes && Mapped(w', m, p) && Entry(w', m, p) == At(d, 0, f)
  {
    hide Kept, Map, Zeros;
    StepKept(w, MapOp(m, p, d, [Zeros()], f));
    MapOneEntry(w, m, p, d, Zeros(), f);
    MapCount(w, m, p, d, [Zeros()], f, m);
    OnePage(w, m, p);
  }

  lemma EntryTrue(w: World, m: MemId, p: nat, d: DataId, f: Flags)
    requires Kept(w) && Mapped(w, m, p) && Entry(w, m, p) == At(d, 0, f)
    ensures d in w.datas && True(w, m, TlbEntry(p * PAGE_SIZE, EMPTY, Place(d, 0)))
  {
    hide Live, Bounded;
    assert BackedBy(w.datas, Entry(w, m, p));
    assert PageOf(p * PAGE_SIZE) == p && Offset(p * PAGE_SIZE) == 0;
  }

  lemma OnlyObject(w: World, m: MemId, p: nat, d: DataId, f: Flags)
    requires Kept(w) && Enabled(w, MapOp(m, p, d, [Zeros()], f)) && forall k: MemId, q: nat :: !Mapped(w, k, q)
    ensures Apply(w, MapOp(m, p, d, [Zeros()], f)).datas.Keys <= {d}
  {
    hide Kept, Map, Zeros;
    FirstPage(w, m, p, d, f);
    var w' := Apply(w, MapOp(m, p, d, [Zeros()], f));
    forall k: MemId, q: nat | (k, q) != (m, p) ensures !Mapped(w', k, q) { MapOther(w, m, p, d, [Zeros()], f, k, q); }
    forall c: DataId | c != d ensures c !in w'.datas { KeptWhileReferenced(w', [], w', c); }
  }

  lemma NothingKept(w: World)
    requires w == World(map[], map[])
    ensures Kept(w)
  {
  }

  /** Letting go of the only address space releases all memory. */
  lemma DestroyLast(w: World, m: MemId)
    requires Kept(w) && w.spaces.Keys == {m}
    ensures var w' := Destroy(w, m); Kept(w') && w'.spaces.Keys == {} && w'.datas.Keys == {}
  {
    hide Kept, UnmapAlways;
    StepKept(w, DestroyOp(m));
    var w' := Destroy(w, m);
    forall d: DataId ensures d !in w'.datas { KeptWhileReferenced(w', [], w', d); }
  }

  lemma Twice(u: World, m: MemId, again: Op)
    requires Enabled(u, DestroyOp(m)) && Enabled(Apply(u, DestroyOp(m)), NewOp(m)) && Enabled(Apply(Apply(u, DestroyOp(m)), NewOp(m)), again)
    ensures var v := Apply(u, DestroyOp(m)); var v' := Apply(v, NewOp(m)); var w := Apply(v', again);
            Runs(u, [DestroyOp(m)], v) && Runs(v', [again], w) && Runs(u, [DestroyOp(m), NewOp(m), again], w)
  {
    hide Apply, Enabled;
    var v := Apply(u, DestroyOp(m));
    var v' := Apply(v, NewOp(m));
    var w := Apply(v', again);
    assert Runs(v, [], v) && [DestroyOp(m)][1..] == [];
    assert Runs(w, [], w) && [again][1..] == [];
    var ops := [DestroyOp(m), NewOp(m), again];
    assert ops[1..] == [NewOp(m), again] && [NewOp(m), again][1..] == [again];
    assert Runs(v, [NewOp(m), again], w);
  }

  /** A run in which it happens: a page is mapped and cached, the address space is let go of, and a
      new one of the same name maps the page again. Nothing was counted either time. */
  lemma StaleExample()
    ensures exists u: World, ops: seq<Op>, w: World, m: MemId, entries: seq<TlbEntry> ::
              Kept(u) && Runs(u, ops, w) && Coherent(u, m, 0, entries) && m in w.spaces && !RefreshTrue(w, m, 0, entries)
  {
    hide Kept, Map, Destroy, Zeros, True, Runs;
    var f := Flags(true, false, false, false);
    var w0: World, m: MemId := World(map[], map[]), 0;
    NothingKept(w0);
    StepKept(w0, NewOp(m));
    var w1 := Apply(w0, NewOp(m));
    FirstPage(w1, m, 1, 0, f);
    var u := Apply(w1, MapOp(m, 1, 0, [Zeros()], f));
    EntryTrue(u, m, 1, 0, f);
    var entries := [TlbEntry(1 * PAGE_SIZE, EMPTY, Place(0, 0))];
    assert AllTrue(u, m, entries);
    OnlyObject(w1, m, 1, 0, f);
    DestroyLast(u, m);
    var v := Apply(u, DestroyOp(m));
    var again := MapOp(m, 1, 1, [Zeros()], f);
    StepKept(v, NewOp(m));
    Twice(u, m, again);
    var v' := Apply(v, NewOp(m));
    var w := Apply(v', again);
    StaleExactly(u, [DestroyOp(m)], v, m, [again], w, 0, entries);
    FirstPage(v', m, 1, 1, f);
    RunCounts(v', [again], w, m);
    assert !Blank(entries[0]);
    assert Coherent(u, m, 0, entries) && !RefreshTrue(w, m, 0, entries);
    assert Runs(u, [DestroyOp(m), NewOp(m), again], w);
  }
}
