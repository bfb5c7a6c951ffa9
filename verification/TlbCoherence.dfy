/** The software TLB (emu/tlb.c, emu/tlb.h) against the page tables: as long as the address space is
    there and its change counter has not moved, whatever happened to memory leaves every cached
    translation true. */
module TlbCoherence {

  import opened Options
  import opened MemoryWorld
  import opened MemorySteps
  import opened MemoryAccess
  import opened MemoryIsolation
  import opened MemoryCounts
  import opened MemoryRuns

  const EMPTY: nat := 1

  /** Page addresses have their low 12 bits clear, so EMPTY is none. The host pointer is the place
      of the page; an address adds its offset to it. */
  datatype TlbEntry = TlbEntry(page: nat, pageIfWritable: nat, host: Place)

  function PageOf(addr: nat): nat { addr / PAGE_SIZE }

  function Offset(addr: nat): nat { addr % PAGE_SIZE }

  function PageAddr(addr: nat): nat { addr - Offset(addr) }

  /** An entry tells the truth about an address space. */
  predicate True(w: World, m: MemId, e: TlbEntry) {
    && (e.page != EMPTY ==> Offset(e.page) == 0 && Translate(w, m, PageOf(e.page), Read) == Some(e.host))
    && (e.pageIfWritable != EMPTY ==> e.pageIfWritable == e.page && Translate(w, m, PageOf(e.page), Write) == Some(e.host))
  }

  predicate AllTrue(w: World, m: MemId, entries: seq<TlbEntry>) { forall i :: 0 <= i < |entries| ==> True(w, m, entries[i]) }

  /** What holds between runs of the processor: the remembered count was seen before, and while it
      is still the current one the cached translations are true. */
  predicate Coherent(w: World, m: MemId, changes: nat, entries: seq<TlbEntry>) {
    && m in w.spaces
    && changes <= w.spaces[m].changes
    && (changes == w.spaces[m].changes ==> AllTrue(w, m, entries))
  }

  // Steps that keep translations, or say that they did not

  predicate KeepsPage(w: World, w': World, m: MemId, p: nat)
    requires Mapped(w, m, p)
  {
    Mapped(w', m, p) && SamePage(Entry(w, m, p), Entry(w', m, p)) && (Writable(Entry(w, m, p)) ==> Writable(Entry(w', m, p)))
  }

  ghost predicate Keeps(w: World, w': World, m: MemId) {
    && m in w.spaces && m in w'.spaces
    && w.spaces[m].changes <= w'.spaces[m].changes
    && (w.spaces[m].changes == w'.spaces[m].changes ==> forall p :: Mapped(w, m, p) ==> KeepsPage(w, w', m, p))
  }

  lemma KeepsTrans(u: World, v: World, w: World, m: MemId)
    requires Keeps(u, v, m) && Keeps(v, w, m)
    ensures Keeps(u, w, m)
  {
    if u.spaces[m].changes == w.spaces[m].changes {
      forall p | Mapped(u, m, p) ensures KeepsPage(u, w, m, p) {
        assert KeepsPage(u, v, m, p);
        assert KeepsPage(v, w, m, p);
      }
    }
  }

  lemma KeepsSame(w: World, w': World, m: MemId)
    requires m in w.spaces && m in w'.spaces && w'.spaces[m] == w.spaces[m]
    ensures Keeps(w, w', m)
  {
    forall p | Mapped(w, m, p) ensures KeepsPage(w, w', m, p) { assert Mapped(w', m, p) && Entry(w', m, p) == Entry(w, m, p); }
  }

  lemma {:induction false} UnmapRangeChanges(w: World, m: MemId, start: nat, n: nat, k: MemId)
    requires m in w.spaces && k in w.spaces
    ensures UnmapRange(w, m, start, n).spaces[k].changes == w.spaces[k].changes
    ensures k != m ==> UnmapRange(w, m, start, n).spaces[k] == w.spaces[k]
  {
    if n > 0 { UnmapRangeChanges(w, m, start, n - 1, k); }
  }

  lemma UnmapKeeps(w: World, m: MemId, start: nat, n: nat, k: MemId)
    requires m in w.spaces && k in w.spaces
    ensures Keeps(w, UnmapAlways(w, m, start, n), k)
    ensures k == m ==> UnmapAlways(w, m, start, n).spaces[k].changes == w.spaces[k].changes + 1
    ensures k != m ==> UnmapAlways(w, m, start, n).spaces[k] == w.spaces[k]
  {
    hide UnmapRange;
    UnmapRangeChanges(w, m, start, n, k);
    if k != m { KeepsSame(w, UnmapAlways(w, m, start, n), k); }
  }

  /** Replacing a mapped page moves the counter; adding one cannot matter to the cache. */
  lemma PutKeeps(w: World, m: MemId, p: nat, e: Pte, k: MemId)
    requires m in w.spaces && k in w.spaces
    ensures Keeps(w, PutPage(w, m, p, e), k)
    ensures k == m && Mapped(w, m, p) ==> PutPage(w, m, p, e).spaces[k].changes == w.spaces[k].changes + 1
    ensures k != m ==> PutPage(w, m, p, e).spaces[k] == w.spaces[k]
  {
    hide UnmapAlways;
    var w' := PutPage(w, m, p, e);
    if Mapped(w, m, p) {
      UnmapKeeps(w, m, p, 1, k);
    }
    if k != m {
      KeepsSame(w, w', k);
    } else if !Mapped(w, m, p) {
      forall q | Mapped(w, k, q) ensures KeepsPage(w, w', k, q) { PutOther(w, m, p, e, k, q); }
    }
  }

  lemma {:induction false} MapRangeKeeps(w: World, m: MemId, start: nat, n: nat, d: DataId, f: Flags, k: MemId)
    requires m in w.spaces && k in w.spaces
    ensures Keeps(w, MapRange(w, m, start, n, d, f), k)
  {
    hide PutPage, Keeps;
    if n == 0 {
      KeepsSame(w, w, k);
    } else {
      MapRangeKeeps(w, m, start, n - 1, d, f, k);
      PutKeeps(MapRange(w, m, start, n - 1, d, f), m, start + n - 1, At(d, n - 1, f), k);
      KeepsTrans(w, MapRange(w, m, start, n - 1, d, f), MapRange(w, m, start, n, d, f), k);
    }
  }

  lemma MapKeeps(w: World, m: MemId, start: nat, d: DataId, pages: seq<Bytes>, f: Flags, k: MemId)
    requires m in w.spaces && k in w.spaces
    ensures Keeps(w, Map(w, m, start, d, pages, f), k)
  {
    hide MapRange, Keeps;
    var v := Allocate(w, d, pages);
    KeepsSame(w, v, k);
    MapRangeKeeps(v, m, start, |pages|, d, f, k);
    KeepsTrans(w, v, Map(w, m, start, d, pages, f), k);
  }

  /** The copy of a copy-on-write page moves the counter, so changed flags are no harm. */
  lemma RemapBumps(w: World, m: MemId, p: nat, d: DataId, page: Bytes, f: Flags)
    requires Mapped(w, m, p)
    ensures Map(w, m, p, d, [page], f).spaces[m].changes == w.spaces[m].changes + 1
  {
    hide PutPage;
    var v := Allocate(w, d, [page]);
    assert MapRange(v, m, p, 0, d, f) == v;
    assert MapRange(v, m, p, 1, d, f) == PutPage(v, m, p, At(d, 0, f));
    PutKeeps(v, m, p, At(d, 0, f), m);
  }

  lemma CopyPageKeeps(w: World, src: MemId, dst: MemId, p: nat, k: MemId)
    requires src in w.spaces && dst in w.spaces && k in w.spaces && src != dst
    ensures CopyPage(w, src, dst, p).spaces[k].changes >= w.spaces[k].changes
    ensures k != src && k != dst ==> CopyPage(w, src, dst, p).spaces[k] == w.spaces[k]
  {
    hide UnmapAlways, Keeps;
    if Mapped(w, src, p) { UnmapKeeps(w, dst, p, 1, k); }
  }

  lemma {:induction false} CopyRangeKeeps(w: World, src: MemId, dst: MemId, start: nat, n: nat, k: MemId)
    requires src in w.spaces && dst in w.spaces && k in w.spaces && src != dst
    ensures CopyRange(w, src, dst, start, n).spaces[k].changes >= w.spaces[k].changes
    ensures k != src && k != dst ==> CopyRange(w, src, dst, start, n).spaces[k] == w.spaces[k]
  {
    hide CopyPage;
    if n > 0 {
      CopyRangeKeeps(w, src, dst, start, n - 1, k);
      CopyPageKeeps(CopyRange(w, src, dst, start, n - 1), src, dst, start + n - 1, k);
    }
  }

  lemma CopyKeeps(w: World, src: MemId, dst: MemId, start: nat, n: nat, k: MemId)
    requires src in w.spaces && dst in w.spaces && k in w.spaces && src != dst
    ensures Keeps(w, CopyOnWrite(w, src, dst, start, n), k)
  {
    hide CopyRange;
    CopyRangeKeeps(w, src, dst, start, n, k);
    if k != src && k != dst { KeepsSame(w, CopyOnWrite(w, src, dst, start, n), k); }
  }

  lemma ForkKeeps(w: World, src: MemId, dst: MemId, k: MemId)
    requires src in w.spaces && dst !in w.spaces && k in w.spaces
    ensures Keeps(w, Fork(w, src, dst), k)
  {
    hide CopyOnWrite, Keeps;
    var v := w.(spaces := w.spaces[dst := Space(map[], 0)]);
    KeepsSame(w, v, k);
    CopyKeeps(v, src, dst, 0, MEM_PAGES, k);
    KeepsTrans(w, v, Fork(w, src, dst), k);
  }

  lemma GrownKeeps(w: World, m: MemId, p: nat, d: DataId, k: MemId)
    requires k in w.spaces
    ensures Keeps(w, Grown(w, m, p, d), k)
  {
    hide Map, Keeps, Zeros;
    if Grows(w, m, p) { MapKeeps(w, m, p, d, [Zeros()], Flags(true, false, false, true), k); } else { KeepsSame(w, w, k); }
  }

  lemma BackedThere(w: World, m: MemId, p: nat)
    requires Conserved(w) && Mapped(w, m, p)
    ensures View(w, m, p).Some?
  {
    assert BackedBy(w.datas, Entry(w, m, p));
  }

  lemma BrokenKeeps(w: World, m: MemId, p: nat, a: Access, d: DataId, k: MemId)
    requires Conserved(w) && k in w.spaces
    ensures Keeps(w, Broken(w, m, p, a, d), k)
  {
    hide Map, View, Conserved;
    if Modifies(w, m, p, a) {
      var e := Prepared(Entry(w, m, p), a);
      var v := SetEntry(w, m, p, e);
      BackedThere(w, m, p);
      if e.cow {
        var f := Flags(e.write, false, e.shared, e.grows);
        RemapBumps(v, m, p, d, View(w, m, p).value, f);
        if k != m {
          KeepsSame(w, v, k);
          MapKeeps(v, m, p, d, [View(w, m, p).value], f, k);
          KeepsTrans(w, v, Broken(w, m, p, a, d), k);
        }
      } else {
        InPlaceOf(w, m, p, a, d);
        KeepsSame(w, w, k);
      }
    } else {
      KeepsSame(w, w, k);
    }
  }

  lemma InPlaceOf(w: World, m: MemId, p: nat, a: Access, d: DataId)
    requires Modifies(w, m, p, a) && !Prepared(Entry(w, m, p), a).cow
    ensures Broken(w, m, p, a, d) == w
  {
    InPlace(w, m, p, d);
  }

  lemma ResolveKeeps(w: World, m: MemId, p: nat, a: Access, d: DataId, d': DataId, k: MemId)
    requires Conserved(w) && Fresh(w, d, d') && k in w.spaces
    ensures Keeps(w, Resolve(w, m, p, a, d, d'), k)
  {
    hide Conserved, Grown, Broken, Keeps;
    GrownKeeps(w, m, p, d, k);
    GrownConserves(w, m, p, d);
    BrokenKeeps(Grown(w, m, p, d), m, p, a, d', k);
    KeepsTrans(w, Grown(w, m, p, d), Resolve(w, m, p, a, d, d'), k);
  }

  /** A change of protection counts a change, unless it fails. */
  lemma SetFlagsKeeps(w: World, m: MemId, start: nat, n: nat, write: bool, k: MemId)
    requires m in w.spaces && k in w.spaces
    ensures Keeps(w, SetFlags(w, m, start, n, write), k)
  {
    hide FlagRange;
    FlagRangeChanges(w, m, start, n, write, k);
    if k != m || SetFlags(w, m, start, n, write) == w { KeepsSame(w, SetFlags(w, m, start, n, write), k); }
  }

  lemma {:induction false} FlagRangeChanges(w: World, m: MemId, start: nat, n: nat, write: bool, k: MemId)
    requires m in w.spaces && k in w.spaces
    ensures FlagRange(w, m, start, n, write).spaces[k].changes == w.spaces[k].changes
    ensures k != m ==> FlagRange(w, m, start, n, write).spaces[k] == w.spaces[k]
  {
    if n > 0 { FlagRangeChanges(w, m, start, n - 1, write, k); }
  }

  lemma DestroyKeeps(w: World, m: MemId, k: MemId)
    requires m in w.spaces && k in w.spaces && k != m
    ensures Keeps(w, Destroy(w, m), k)
  {
    hide UnmapAlways, Keeps;
    UnmapKeeps(w, m, 0, MEM_PAGES, k);
    KeepsSame(w, Destroy(w, m), k);
  }

  /** Every operation on memory leaves an address space's translations as they were or counts a
      change in it, unless it lets go of the address space. */
  lemma StepKeeps(w: World, op: Op, k: MemId)
    requires Kept(w) && Enabled(w, op) && k in w.spaces && op != DestroyOp(k)
    ensures Keeps(w, Apply(w, op), k)
  {
    hide Conserved, Live, Bounded, Map, UnmapAlways, Fork, Resolve, Store, Translate, SetFlags, Keeps, Destroy;
    match op
    case NewOp(m) => KeepsSame(w, Apply(w, op), k);
    case DestroyOp(m) => DestroyKeeps(w, m, k);
    case MapOp(m, start, d, pages, f) => MapKeeps(w, m, start, d, pages, f, k);
    case UnmapOp(m, start, n) => UnmapKeeps(w, m, start, n, k);
    case ForkOp(src, dst) => ForkKeeps(w, src, dst, k);
    case TouchOp(m, p, a, d, d') => ResolveKeeps(w, m, p, a, d, d', k);
    case ProtectOp(m, start, n, write) => SetFlagsKeeps(w, m, start, n, write, k);
    case WriteOp(m, p, off, b, d, d') =>
      ResolveKeeps(w, m, p, Write, d, d', k);
      var v := Resolve(w, m, p, Write, d, d');
      if Translate(v, m, p, Write).Some? {
        StoreEntries(v, Translate(v, m, p, Write).value, off, b);
        KeepsSame(v, Apply(w, op), k);
        KeepsTrans(w, v, Apply(w, op), k);
      }
  }

  lemma KeptTrue(w: World, w': World, m: MemId, e: TlbEntry)
    requires Keeps(w, w', m) && w.spaces[m].changes == w'.spaces[m].changes && True(w, m, e)
    ensures True(w', m, e)
  {
    if e.page != EMPTY { assert Mapped(w, m, PageOf(e.page)) && KeepsPage(w, w', m, PageOf(e.page)); }
  }

  lemma KeepsCoherent(w: World, w': World, m: MemId, changes: nat, entries: seq<TlbEntry>)
    requires Keeps(w, w', m) && Coherent(w, m, changes, entries)
    ensures Coherent(w', m, changes, entries)
  {
    if changes == w'.spaces[m].changes {
      forall i | 0 <= i < |entries| ensures True(w', m, entries[i]) { KeptTrue(w, w', m, entries[i]); }
    }
  }

  /** A TLB that was coherent when the processor stopped is coherent after any run of memory
      operations by any process that does not let go of its address space, so comparing the
      counter is then enough to know whether to flush. */
  lemma {:induction false} RunCoherent(w: World, ops: seq<Op>, w': World, m: MemId, changes: nat, entries: seq<TlbEntry>)
    requires Kept(w) && Runs(w, ops, w') && Coherent(w, m, changes, entries) && DestroyOp(m) !in ops
    ensures Coherent(w', m, changes, entries)
    decreases |ops|
  {
    hide Kept, Apply, Enabled, Keeps, AllTrue;
    if ops != [] {
      StepKept(w, ops[0]);
      StepKeeps(w, ops[0], m);
      KeepsCoherent(w, Apply(w, ops[0]), m, changes, entries);
      RunCoherent(Apply(w, ops[0]), ops[1..], w', m, changes, entries);
    }
  }
}
