/** The operations on address spaces (kernel/memory.c): mapping, unmapping, copying on fork and
    resolving an access; and what each does to the memory that every address space sees. */
module MemorySteps {

  import opened Options
  import opened MemoryWorld

  const MEM_PAGES: nat := 0x10_0000

  datatype Flags = Flags(write: bool, cow: bool, shared: bool, grows: bool)

  function At(d: DataId, index: nat, f: Flags): Pte { Pte(d, index, f.write, f.cow, f.shared, f.grows) }

  function FlagsOf(e: Pte): Flags { Flags(e.write, e.cow, e.shared, e.grows) }

  // pt_unmap_always

  function UnmapRange(w: World, m: MemId, start: nat, n: nat): (r: World)
    requires m in w.spaces
    ensures r.spaces.Keys == w.spaces.Keys
  {
    if n == 0 then w else UnmapPage(UnmapRange(w, m, start, n - 1), m, start + n - 1)
  }

  function UnmapAlways(w: World, m: MemId, start: nat, n: nat): (r: World)
    requires m in w.spaces
    ensures r.spaces.Keys == w.spaces.Keys
  {
    Changed(UnmapRange(w, m, start, n), m)
  }

  // pt_map

  /** One round of pt_map: an existing entry goes first, and only then the counter moves. */
  function PutPage(w: World, m: MemId, p: nat, e: Pte): (r: World)
    requires m in w.spaces
    ensures r.spaces.Keys == w.spaces.Keys
  {
    MapPage(if Mapped(w, m, p) then UnmapAlways(w, m, p, 1) else w, m, p, e)
  }

  function MapRange(w: World, m: MemId, start: nat, n: nat, d: DataId, f: Flags): (r: World)
    requires m in w.spaces
    ensures r.spaces.Keys == w.spaces.Keys
  {
    if n == 0 then w else PutPage(MapRange(w, m, start, n - 1, d, f), m, start + n - 1, At(d, n - 1, f))
  }

  function Map(w: World, m: MemId, start: nat, d: DataId, pages: seq<Bytes>, f: Flags): (r: World)
    requires m in w.spaces
    ensures r.spaces.Keys == w.spaces.Keys
  {
    MapRange(Allocate(w, d, pages), m, start, |pages|, d, f)
  }

  // pt_copy_on_write

  function Copied(e: Pte): Pte { e.(cow := e.cow || !e.shared) }

  function CopyPage(w: World, src: MemId, dst: MemId, p: nat): (r: World)
    requires src in w.spaces && dst in w.spaces
    ensures r.spaces.Keys == w.spaces.Keys
  {
    if Mapped(w, src, p) then
      var e := Copied(Entry(w, src, p));
      MapPage(SetEntry(UnmapAlways(w, dst, p, 1), src, p, e), dst, p, e)
    else w
  }

  function CopyRange(w: World, src: MemId, dst: MemId, start: nat, n: nat): (r: World)
    requires src in w.spaces && dst in w.spaces
    ensures r.spaces.Keys == w.spaces.Keys
  {
    if n == 0 then w else CopyPage(CopyRange(w, src, dst, start, n - 1), src, dst, start + n - 1)
  }

  function CopyOnWrite(w: World, src: MemId, dst: MemId, start: nat, n: nat): (r: World)
    requires src in w.spaces && dst in w.spaces
    ensures r.spaces.Keys == w.spaces.Keys
  {
    Changed(Changed(CopyRange(w, src, dst, start, n), src), dst)
  }

  /** mm_copy, with the new address space of mem_init. */
  function Fork(w: World, src: MemId, dst: MemId): World
    requires src in w.spaces
  {
    CopyOnWrite(w.(spaces := w.spaces[dst := Space(map[], 0)]), src, dst, 0, MEM_PAGES)
  }

  /** mem_destroy: every page is unmapped and the address space is gone. Its name may be used again. */
  function Destroy(w: World, m: MemId): World
    requires m in w.spaces
  {
    var v := UnmapAlways(w, m, 0, MEM_PAGES);
    v.(spaces := v.spaces - {m})
  }

  /** Page numbers have 20 bits. */
  ghost predicate Bounded(w: World) { forall m: MemId, p: nat :: Mapped(w, m, p) ==> p < MEM_PAGES }

  predicate Guarded(e: Pte) { e.cow || e.shared }

  // What a page holds

  function View(w: World, m: MemId, p: nat): Option<Bytes> {
    if Mapped(w, m, p) && BackedBy(w.datas, Entry(w, m, p)) then
      Some(w.datas[Entry(w, m, p).data].pages[Entry(w, m, p).index])
    else None
  }

  /** Entries on one page of backing memory are all shared mappings, or all copy-on-write, and
      stand at the same page of different address spaces. */
  ghost predicate Isolated(w: World) {
    forall m: MemId, p: nat, n: MemId, q: nat :: Mapped(w, m, p) && Mapped(w, n, q) ==> Apart(w, m, p, n, q)
  }

  predicate Apart(w: World, m: MemId, p: nat, n: MemId, q: nat)
    requires Mapped(w, m, p) && Mapped(w, n, q)
  {
    (m, p) != (n, q) && SamePage(Entry(w, m, p), Entry(w, n, q)) ==>
      p == q && Guarded(Entry(w, m, p)) && Entry(w, m, p).shared == Entry(w, n, q).shared
  }

  ghost predicate Inv(w: World) { Conserved(w) && Isolated(w) }

  /** Nothing is kept that no entry points at. */
  ghost predicate Live(w: World) { forall d :: d in w.datas ==> w.datas[d].refcount > 0 }

  // Unmapping

  lemma UnmapKeepsViews(w: World, m: MemId, p: nat, n: MemId, q: nat)
    requires Conserved(w) && m in w.spaces
    ensures View(UnmapPage(w, m, p), n, q) == if (n, q) == (m, p) then None else View(w, n, q)
  {
    if Mapped(w, m, p) && (n, q) != (m, p) && Mapped(w, n, q) {
      assert BackedBy(w.datas, Entry(w, n, q)) && BackedBy(w.datas, Entry(w, m, p));
      if Entry(w, n, q).data == Entry(w, m, p).data { SharedCount(w, m, p, n, q); }
    }
  }

  lemma UnmapIsolates(w: World, m: MemId, p: nat)
    requires Isolated(w) && m in w.spaces
    ensures Isolated(UnmapPage(w, m, p))
  {
    if Mapped(w, m, p) {
      var w' := UnmapPage(w, m, p);
      forall n: MemId, q: nat, k: MemId, r: nat | Mapped(w', n, q) && Mapped(w', k, r) ensures Apart(w', n, q, k, r) {
        StillMapped(w, m, p, n, q);
        StillMapped(w, m, p, k, r);
        assert Apart(w, n, q, k, r);
      }
    }
  }

  lemma {:induction false} UnmapRangeInv(w: World, m: MemId, start: nat, n: nat)
    requires Inv(w) && m in w.spaces
    ensures Inv(UnmapRange(w, m, start, n))
  {
    hide Conserved, Isolated, UnmapPage;
    if n > 0 {
      UnmapRangeInv(w, m, start, n - 1);
      UnmapConserves(UnmapRange(w, m, start, n - 1), m, start + n - 1);
      UnmapIsolates(UnmapRange(w, m, start, n - 1), m, start + n - 1);
    }
  }

  lemma {:induction false} UnmapRangeView(w: World, m: MemId, start: nat, n: nat, k: MemId, q: nat)
    requires Inv(w) && m in w.spaces
    ensures View(UnmapRange(w, m, start, n), k, q) == if k == m && start <= q < start + n then None else View(w, k, q)
  {
    hide Conserved, Isolated, UnmapPage, View;
    if n > 0 {
      UnmapRangeInv(w, m, start, n - 1);
      UnmapRangeView(w, m, start, n - 1, k, q);
      UnmapKeepsViews(UnmapRange(w, m, start, n - 1), m, start + n - 1, k, q);
    }
  }

  // Steps that keep every entry on its memory

  lemma SameViews(w: World, w': World, n: MemId, q: nat)
    requires SameBacking(w, w')
    ensures View(w', n, q) == View(w, n, q)
  {
    assert Mapped(w, n, q) <==> Mapped(w', n, q);
    assert Mapped(w, n, q) ==> SamePage(Entry(w, n, q), Entry(w', n, q));
  }

  /** Flags may become more guarded, never less. */
  ghost predicate FlagsGrow(w: World, w': World) {
    SameBacking(w, w') && forall m: MemId, p: nat :: Mapped(w, m, p) ==> GuardedIn(w, w', m, p)
  }

  predicate GuardedIn(w: World, w': World, m: MemId, p: nat)
    requires Mapped(w, m, p)
  {
    Mapped(w', m, p) && (Guarded(Entry(w, m, p)) ==> Guarded(Entry(w', m, p))) && Entry(w, m, p).shared == Entry(w', m, p).shared
  }

  lemma FlagsGrowInv(w: World, w': World)
    requires Inv(w) && FlagsGrow(w, w')
    ensures Inv(w')
  {
    SameConserves(w, w');
    forall n: MemId, q: nat, k: MemId, r: nat | Mapped(w', n, q) && Mapped(w', k, r) ensures Apart(w', n, q, k, r) {
      assert Mapped(w, n, q) && Mapped(w, k, r) && Apart(w, n, q, k, r);
      assert GuardedIn(w, w', n, q) && GuardedIn(w, w', k, r);
      assert SamePage(Entry(w, n, q), Entry(w', n, q)) && SamePage(Entry(w, k, r), Entry(w', k, r));
    }
  }

  lemma ChangedInv(w: World, m: MemId)
    requires Inv(w) && m in w.spaces
    ensures Inv(Changed(w, m)) && SameBacking(w, Changed(w, m))
  {
    hide Inv;
    ChangedSame(w, m);
    assert FlagsGrow(w, Changed(w, m)) by {
      forall n: MemId, p: nat | Mapped(w, n, p) ensures GuardedIn(w, Changed(w, m), n, p) {}
    }
    FlagsGrowInv(w, Changed(w, m));
  }

  lemma UnmapAlwaysInv(w: World, m: MemId, start: nat, n: nat)
    requires Inv(w) && m in w.spaces
    ensures Inv(UnmapAlways(w, m, start, n))
  {
    hide Inv, UnmapRange, Changed;
    UnmapRangeInv(w, m, start, n);
    ChangedInv(UnmapRange(w, m, start, n), m);
  }

  /** Unmapping takes away exactly the pages of the range. */
  lemma UnmapAlwaysView(w: World, m: MemId, start: nat, n: nat, k: MemId, q: nat)
    requires Inv(w) && m in w.spaces
    ensures View(UnmapAlways(w, m, start, n), k, q) == if k == m && start <= q < start + n then None else View(w, k, q)
  {
    hide Inv, UnmapRange, Changed, View;
    UnmapRangeInv(w, m, start, n);
    UnmapRangeView(w, m, start, n, k, q);
    ChangedInv(UnmapRange(w, m, start, n), m);
    SameViews(UnmapRange(w, m, start, n), UnmapAlways(w, m, start, n), k, q);
  }
}
