/** Reference counts do not depend on flags: every operation keeps them exact and leaks nothing,
    whatever protection the pages have. */
module MemoryCounts {

  import opened MemoryWorld
  import opened MemorySteps
  import opened MemoryMap
  import opened MemoryFork
  import opened MemoryAccess
  import opened MemoryIsolation

  // Counts

  lemma {:induction false} UnmapRangeConserves(w: World, m: MemId, start: nat, n: nat)
    requires Conserved(w) && m in w.spaces
    ensures Conserved(UnmapRange(w, m, start, n))
  {
    hide Conserved, UnmapPage;
    if n > 0 {
      UnmapRangeConserves(w, m, start, n - 1);
      UnmapConserves(UnmapRange(w, m, start, n - 1), m, start + n - 1);
    }
  }

  lemma ChangedConserves(w: World, m: MemId)
    requires Conserved(w) && m in w.spaces
    ensures Conserved(Changed(w, m))
  {
    hide Conserved, SameBacking, Changed;
    ChangedSame(w, m);
    SameConserves(w, Changed(w, m));
  }

  lemma UnmapAlwaysConserves(w: World, m: MemId, start: nat, n: nat)
    requires Conserved(w) && m in w.spaces
    ensures Conserved(UnmapAlways(w, m, start, n))
  {
    hide Conserved, UnmapRange, Changed;
    UnmapRangeConserves(w, m, start, n);
    ChangedConserves(UnmapRange(w, m, start, n), m);
  }

  lemma PutConserves(w: World, m: MemId, p: nat, start: nat, d: DataId, pages: seq<Bytes>, f: Flags)
    requires Conserved(w) && m in w.spaces && start <= p && Placed(w, m, start, p - start, d) && Holds(w, d, pages) && p - start < |pages|
    ensures var w' := PutPage(w, m, p, At(d, p - start, f));
            Conserved(w') && Placed(w', m, start, p - start + 1, d) && Holds(w', d, pages)
  {
    hide Conserved, Placed, Fits, UnmapAlways;
    var v, e := Cleared(w, m, p), At(d, p - start, f);
    ClearedFits(w, m, p, start, d, f);
    PlacedElsewhere(w, m, p, start, d);
    if Mapped(w, m, p) {
      UnmapAlwaysConserves(w, m, p, 1);
      UnmapOneHolds(w, m, p, d);
    }
    assert Conserved(v) && Holds(v, d, pages);
    MapConserves(v, m, p, e);
    PutPlaced(v, m, p, start, d, f);
  }

  lemma {:induction false} MapRangeConserves(w: World, m: MemId, start: nat, n: nat, d: DataId, pages: seq<Bytes>, f: Flags)
    requires Conserved(w) && m in w.spaces && Placed(w, m, start, 0, d) && Holds(w, d, pages) && n <= |pages|
    ensures var w' := MapRange(w, m, start, n, d, f);
            Conserved(w') && Placed(w', m, start, n, d) && Holds(w', d, pages)
  {
    hide Conserved, Placed, Holds, PutPage;
    if n > 0 {
      MapRangeConserves(w, m, start, n - 1, d, pages, f);
      assert start + n - 1 - start == n - 1;
      PutConserves(MapRange(w, m, start, n - 1, d, f), m, start + n - 1, start, d, pages, f);
    }
  }

  lemma AllocatePlaced(w: World, m: MemId, start: nat, d: DataId, pages: seq<Bytes>)
    requires Conserved(w) && d !in w.datas
    ensures var w' := Allocate(w, d, pages); Conserved(w') && Placed(w', m, start, 0, d) && Holds(w', d, pages)
  {
    AllocateConserves(w, d, pages);
    var w' := Allocate(w, d, pages);
    forall k: MemId, q: nat | Mapped(w', k, q) ensures Entry(w', k, q).data != d { assert Mapped(w, k, q) && BackedBy(w.datas, Entry(w, k, q)); }
  }

  lemma MapKeepsCounts(w: World, m: MemId, start: nat, d: DataId, pages: seq<Bytes>, f: Flags)
    requires Conserved(w) && m in w.spaces && d !in w.datas
    ensures Conserved(Map(w, m, start, d, pages, f))
  {
    hide Conserved, Placed, Holds, MapRange;
    AllocatePlaced(w, m, start, d, pages);
    MapRangeConserves(Allocate(w, d, pages), m, start, |pages|, d, pages, f);
  }

  lemma EntryConserves(w: World, m: MemId, p: nat, e: Pte)
    requires Conserved(w) && Mapped(w, m, p) && SamePage(Entry(w, m, p), e)
    ensures Conserved(SetEntry(w, m, p, e)) && SameBacking(w, SetEntry(w, m, p, e)) && BackedBy(w.datas, e)
  {
    FlagsSame(w, m, p, e);
    SameConserves(w, SetEntry(w, m, p, e));
    assert BackedBy(w.datas, Entry(w, m, p));
  }

  lemma CopyPageConserves(w: World, src: MemId, dst: MemId, p: nat)
    requires Conserved(w) && src in w.spaces && dst in w.spaces && src != dst
    ensures Conserved(CopyPage(w, src, dst, p))
  {
    if Mapped(w, src, p) {
      hide Conserved, UnmapAlways, SetEntry, SameBacking;
      var v, e := UnmapAlways(w, dst, p, 1), Copied(Entry(w, src, p));
      UnmapAlwaysConserves(w, dst, p, 1);
      UnmapEntries(w, dst, p, 1, src, p);
      UnmapEntries(w, dst, p, 1, dst, p);
      EntryConserves(v, src, p, e);
      SameMapped(v, SetEntry(v, src, p, e), dst, p);
      MapConserves(SetEntry(v, src, p, e), dst, p, e);
    }
  }

  lemma {:induction false} CopyRangeConserves(w: World, src: MemId, dst: MemId, start: nat, n: nat)
    requires Conserved(w) && src in w.spaces && dst in w.spaces && src != dst
    ensures Conserved(CopyRange(w, src, dst, start, n))
  {
    hide Conserved, CopyPage;
    if n > 0 {
      CopyRangeConserves(w, src, dst, start, n - 1);
      CopyPageConserves(CopyRange(w, src, dst, start, n - 1), src, dst, start + n - 1);
    }
  }

  lemma NewSpaceConserves(w: World, m: MemId)
    requires Conserved(w) && m !in w.spaces
    ensures Conserved(w.(spaces := w.spaces[m := Space(map[], 0)]))
  {
    hide Conserved;
    SameConserves(w, w.(spaces := w.spaces[m := Space(map[], 0)]));
  }

  lemma ForkConserves(w: World, src: MemId, dst: MemId)
    requires Conserved(w) && src in w.spaces && dst !in w.spaces
    ensures Conserved(Fork(w, src, dst))
  {
    hide Conserved, CopyRange, Changed;
    var v := w.(spaces := w.spaces[dst := Space(map[], 0)]);
    NewSpaceConserves(w, dst);
    CopyRangeConserves(v, src, dst, 0, MEM_PAGES);
    ChangedConserves(CopyRange(v, src, dst, 0, MEM_PAGES), src);
    ChangedConserves(Changed(CopyRange(v, src, dst, 0, MEM_PAGES), src), dst);
  }

  lemma GrownConserves(w: World, m: MemId, p: nat, d: DataId)
    requires Conserved(w) && d !in w.datas
    ensures Conserved(Grown(w, m, p, d))
  {
    hide Conserved, Map, Zeros;
    if Grows(w, m, p) { MapKeepsCounts(w, m, p, d, [Zeros()], Flags(true, false, false, true)); }
  }

  lemma PreparedConserves(w: World, m: MemId, p: nat, a: Access)
    requires Conserved(w) && Mapped(w, m, p)
    ensures var w' := SetEntry(w, m, p, Prepared(Entry(w, m, p), a)); Conserved(w') && SameBacking(w, w')
  {
    hide Conserved, SetEntry;
    EntryConserves(w, m, p, Prepared(Entry(w, m, p), a));
  }

  lemma BrokenConserves(w: World, m: MemId, p: nat, a: Access, d: DataId)
    requires Conserved(w) && d !in w.datas
    ensures Conserved(Broken(w, m, p, a, d))
  {
    hide Conserved, Map, SetEntry, SameBacking, View;
    if Modifies(w, m, p, a) {
      PreparedConserves(w, m, p, a);
      var e := Prepared(Entry(w, m, p), a);
      SameMapped(w, SetEntry(w, m, p, e), m, p);
      if e.cow && View(w, m, p).Some? {
        MapKeepsCounts(SetEntry(w, m, p, e), m, p, d, [View(w, m, p).value], Flags(e.write, false, e.shared, e.grows));
      }
    }
  }

  lemma ResolveConserves(w: World, m: MemId, p: nat, a: Access, d: DataId, d': DataId)
    requires Conserved(w) && Fresh(w, d, d')
    ensures Conserved(Resolve(w, m, p, a, d, d'))
  {
    hide Conserved, Grown, Broken;
    GrownConserves(w, m, p, d);
    GrownFresh(w, m, p, d, d');
    BrokenConserves(Grown(w, m, p, d), m, p, a, d');
  }

  lemma StoreConserves(w: World, at: Place, off: nat, b: int)
    requires Conserved(w)
    ensures Conserved(Store(w, at, off, b))
  {
    hide Store;
    StoreEntries(w, at, off, b);
    var w' := Store(w, at, off, b);
    forall d ensures CountedAt(w', d) { assert CountedAt(w, d); RefsSame(w, w', d); }
    forall m: MemId, p: nat | Mapped(w', m, p) ensures BackedBy(w'.datas, Entry(w', m, p)) { assert BackedBy(w.datas, Entry(w, m, p)); }
  }

  lemma SetFlagsConserves(w: World, m: MemId, start: nat, n: nat, write: bool)
    requires Conserved(w) && m in w.spaces
    ensures Conserved(SetFlags(w, m, start, n, write)) && SetFlags(w, m, start, n, write).datas == w.datas
  {
    hide Conserved, SetFlags;
    if forall p: nat :: start <= p < start + n ==> Mapped(w, m, p) {
      forall k: MemId, q: nat { SetFlagsEntries(w, m, start, n, write, k, q); }
      SetFlagsEntries(w, m, start, n, write, m, start);
      SameConserves(w, SetFlags(w, m, start, n, write));
    } else {
      NotSet(w, m, start, n, write);
    }
  }

  lemma NotSet(w: World, m: MemId, start: nat, n: nat, write: bool)
    requires m in w.spaces && !(forall p: nat :: start <= p < start + n ==> Mapped(w, m, p))
    ensures SetFlags(w, m, start, n, write) == w
  {
  }

  // Nothing is leaked

  /** Every object except the named one has a reference. */
  ghost predicate LiveBut(w: World, x: DataId) { forall d :: d in w.datas && d != x ==> w.datas[d].refcount > 0 }

  lemma UnmapLiveBut(w: World, m: MemId, p: nat, x: DataId)
    requires Conserved(w) && LiveBut(w, x) && m in w.spaces
    ensures LiveBut(UnmapPage(w, m, p), x)
  {
  }

  lemma {:induction false} UnmapRangeLive(w: World, m: MemId, start: nat, n: nat, x: DataId)
    requires Conserved(w) && LiveBut(w, x) && m in w.spaces
    ensures LiveBut(UnmapRange(w, m, start, n), x)
  {
    hide Counted, Backed, LiveBut, UnmapPage;
    if n > 0 {
      UnmapRangeLive(w, m, start, n - 1, x);
      UnmapRangeConserves(w, m, start, n - 1);
      UnmapLiveBut(UnmapRange(w, m, start, n - 1), m, start + n - 1, x);
    }
  }

  lemma UnmapAlwaysLive(w: World, m: MemId, start: nat, n: nat, x: DataId)
    requires Conserved(w) && LiveBut(w, x) && m in w.spaces
    ensures LiveBut(UnmapAlways(w, m, start, n), x)
  {
    hide Conserved, UnmapRange;
    UnmapRangeLive(w, m, start, n, x);
  }

  lemma PutLive(w: World, m: MemId, p: nat, e: Pte, x: DataId)
    requires Conserved(w) && LiveBut(w, x) && m in w.spaces
    ensures LiveBut(PutPage(w, m, p, e), x)
  {
    hide Conserved, UnmapAlways;
    if Mapped(w, m, p) { UnmapAlwaysLive(w, m, p, 1, x); }
  }

  lemma {:induction false} MapRangeLive(w: World, m: MemId, start: nat, n: nat, d: DataId, pages: seq<Bytes>, f: Flags)
    requires Conserved(w) && LiveBut(w, d) && m in w.spaces && Placed(w, m, start, 0, d) && Holds(w, d, pages) && n <= |pages|
    ensures LiveBut(MapRange(w, m, start, n, d, f), d)
  {
    hide Conserved, LiveBut, PutPage, Placed, Holds;
    if n > 0 {
      MapRangeLive(w, m, start, n - 1, d, pages, f);
      MapRangeConserves(w, m, start, n - 1, d, pages, f);
      PutLive(MapRange(w, m, start, n - 1, d, f), m, start + n - 1, At(d, n - 1, f), d);
    }
  }

  lemma ReferencedIsLive(w: World, m: MemId, p: nat)
    requires Conserved(w) && Mapped(w, m, p)
    ensures Entry(w, m, p).data in w.datas && w.datas[Entry(w, m, p).data].refcount > 0
  {
    var d := Entry(w, m, p).data;
    assert BackedBy(w.datas, Entry(w, m, p));
    assert CountedAt(w, d) && (m, p) in Refs(w, d);
  }

  lemma LastEntry(w: World, m: MemId, start: nat, n: nat, d: DataId, f: Flags)
    requires m in w.spaces && n > 0
    ensures var w' := MapRange(w, m, start, n, d, f); Mapped(w', m, start + n - 1) && Entry(w', m, start + n - 1).data == d
  {
    hide MapRange, Cleared, MapPage;
    var v := MapRange(w, m, start, n - 1, d, f);
    assert MapRange(w, m, start, n, d, f) == PutPage(v, m, start + n - 1, At(d, n - 1, f)) by { UnfoldMap(w, m, start, n, d, f); }
    MapPageEntries(Cleared(v, m, start + n - 1), m, start + n - 1, At(d, n - 1, f), m, start + n - 1);
    assert PutPage(v, m, start + n - 1, At(d, n - 1, f)) == MapPage(Cleared(v, m, start + n - 1), m, start + n - 1, At(d, n - 1, f)) by {
      UnfoldPut(v, m, start + n - 1, At(d, n - 1, f));
    }
  }

  lemma UnfoldMap(w: World, m: MemId, start: nat, n: nat, d: DataId, f: Flags)
    requires m in w.spaces && n > 0
    ensures MapRange(w, m, start, n, d, f) == PutPage(MapRange(w, m, start, n - 1, d, f), m, start + n - 1, At(d, n - 1, f))
  {
  }

  lemma UnfoldPut(w: World, m: MemId, p: nat, e: Pte)
    requires m in w.spaces
    ensures PutPage(w, m, p, e) == MapPage(Cleared(w, m, p), m, p, e)
  {
  }

  lemma MapLive(w: World, m: MemId, start: nat, d: DataId, pages: seq<Bytes>, f: Flags)
    requires Conserved(w) && Live(w) && m in w.spaces && d !in w.datas && pages != []
    ensures Live(Map(w, m, start, d, pages, f))
  {
    hide Counted, Backed, MapRange, Placed, Holds;
    var v := Allocate(w, d, pages);
    AllocatePlaced(w, m, start, d, pages);
    MapRangeLive(v, m, start, |pages|, d, pages, f);
    MapRangeConserves(v, m, start, |pages|, d, pages, f);
    LastEntry(v, m, start, |pages|, d, f);
    ReferencedIsLive(Map(w, m, start, d, pages, f), m, start + |pages| - 1);
  }

  lemma CopyPageLive(w: World, src: MemId, dst: MemId, p: nat)
    requires Conserved(w) && Live(w) && src in w.spaces && dst in w.spaces
    ensures Live(CopyPage(w, src, dst, p))
  {
    hide Conserved, UnmapAlways;
    if Mapped(w, src, p) { LiveIsLiveBut(w); UnmapLive(w, dst, p, 1); }
  }

  /** Without exceptions. */
  lemma LiveIsLiveBut(w: World)
    ensures Live(w) ==> forall x :: LiveBut(w, x)
  {
  }

  lemma UnmapLive(w: World, m: MemId, start: nat, n: nat)
    requires Conserved(w) && Live(w) && m in w.spaces
    ensures Live(UnmapAlways(w, m, start, n))
  {
    hide Conserved, UnmapAlways;
    var w' := UnmapAlways(w, m, start, n);
    forall d | d in w'.datas ensures w'.datas[d].refcount > 0 { UnmapAlwaysLive(w, m, start, n, d + 1); }
  }

  lemma {:induction false} CopyRangeLive(w: World, src: MemId, dst: MemId, start: nat, n: nat)
    requires Conserved(w) && Live(w) && src in w.spaces && dst in w.spaces && src != dst
    ensures Live(CopyRange(w, src, dst, start, n))
  {
    hide Conserved, Live, CopyPage;
    if n > 0 {
      CopyRangeLive(w, src, dst, start, n - 1);
      CopyRangeConserves(w, src, dst, start, n - 1);
      CopyPageLive(CopyRange(w, src, dst, start, n - 1), src, dst, start + n - 1);
    }
  }

  lemma ForkLive(w: World, src: MemId, dst: MemId)
    requires Conserved(w) && Live(w) && src in w.spaces && dst !in w.spaces
    ensures Live(Fork(w, src, dst))
  {
    hide Conserved, CopyRange, SameBacking;
    var v := w.(spaces := w.spaces[dst := Space(map[], 0)]);
    NewSpaceConserves(w, dst);
    CopyRangeLive(v, src, dst, 0, MEM_PAGES);
  }

  lemma ResolveLive(w: World, m: MemId, p: nat, a: Access, d: DataId, d': DataId)
    requires Conserved(w) && Live(w) && Fresh(w, d, d')
    ensures Live(Resolve(w, m, p, a, d, d'))
  {
    hide Conserved, Map, Grows, Zeros, SetEntry, View, SameBacking;
    var v := Grown(w, m, p, d);
    GrownConserves(w, m, p, d);
    GrownFresh(w, m, p, d, d');
    if Grows(w, m, p) { GrowsIn(w, m, p); MapLive(w, m, p, d, [Zeros()], Flags(true, false, false, true)); }
    if Modifies(v, m, p, a) {
      var e := Prepared(Entry(v, m, p), a);
      PreparedConserves(v, m, p, a);
      SameMapped(v, SetEntry(v, m, p, e), m, p);
      if e.cow && View(v, m, p).Some? {
        MapLive(SetEntry(v, m, p, e), m, p, d', [View(v, m, p).value], Flags(e.write, false, e.shared, e.grows));
      }
    }
  }

  lemma GrowsIn(w: World, m: MemId, p: nat)
    requires Grows(w, m, p)
    ensures m in w.spaces
  {
  }

  lemma StoreLive(w: World, at: Place, off: nat, b: int)
    requires Live(w)
    ensures Live(Store(w, at, off, b))
  {
    hide Store;
    StoreEntries(w, at, off, b);
  }
}
