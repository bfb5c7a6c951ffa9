/** Letting go of an address space (mem_destroy), and the bound on page numbers that makes its sweep
    over all pages reach every entry. */
module MemoryDestroy {

  import opened Options
  import opened MemoryWorld
  import opened MemorySteps
  import opened MemoryMap
  import opened MemoryFork
  import opened MemoryCounts

  lemma DestroyEntries(w: World, m: MemId, k: MemId, q: nat)
    requires m in w.spaces && Bounded(w)
    ensures var w' := Destroy(w, m);
            && (Mapped(w', k, q) <==> Mapped(w, k, q) && k != m)
            && (Mapped(w', k, q) ==> Entry(w', k, q) == Entry(w, k, q))
  {
    hide UnmapAlways;
    UnmapEntries(w, m, 0, MEM_PAGES, k, q);
  }

  /** After the sweep nothing is left in the address space, so dropping it moves nothing. */
  lemma DestroySame(w: World, m: MemId)
    requires m in w.spaces && Bounded(w)
    ensures SameBacking(UnmapAlways(w, m, 0, MEM_PAGES), Destroy(w, m))
  {
    hide UnmapAlways;
    forall k: MemId, q: nat { UnmapEntries(w, m, 0, MEM_PAGES, k, q); }
  }

  lemma DestroyConserves(w: World, m: MemId)
    requires Conserved(w) && m in w.spaces && Bounded(w)
    ensures Conserved(Destroy(w, m))
  {
    hide Conserved, UnmapAlways, SameBacking, Destroy, Bounded;
    UnmapAlwaysConserves(w, m, 0, MEM_PAGES);
    DestroySame(w, m);
    SameConserves(UnmapAlways(w, m, 0, MEM_PAGES), Destroy(w, m));
  }

  lemma DestroyLive(w: World, m: MemId)
    requires Conserved(w) && Live(w) && m in w.spaces
    ensures Live(Destroy(w, m))
  {
    hide Conserved, UnmapAlways;
    UnmapLive(w, m, 0, MEM_PAGES);
  }

  lemma DestroyInv(w: World, m: MemId)
    requires Inv(w) && m in w.spaces && Bounded(w)
    ensures Inv(Destroy(w, m))
  {
    hide Inv, UnmapAlways;
    UnmapAlwaysInv(w, m, 0, MEM_PAGES);
    DestroySame(w, m);
    var v, w' := UnmapAlways(w, m, 0, MEM_PAGES), Destroy(w, m);
    forall k: MemId, q: nat | Mapped(v, k, q) ensures GuardedIn(v, w', k, q) { UnmapEntries(w, m, 0, MEM_PAGES, k, q); }
    FlagsGrowInv(v, w');
  }

  /** Nobody else sees the difference. */
  lemma DestroyView(w: World, m: MemId, k: MemId, q: nat)
    requires Inv(w) && m in w.spaces && Bounded(w)
    ensures View(Destroy(w, m), k, q) == if k == m then None else View(w, k, q)
  {
    hide Inv, UnmapAlways, SameBacking, Destroy;
    UnmapAlwaysView(w, m, 0, MEM_PAGES, k, q);
    DestroySame(w, m);
    SameViews(UnmapAlways(w, m, 0, MEM_PAGES), Destroy(w, m), k, q);
    assert k == m && q >= MEM_PAGES ==> View(w, k, q) == None;
  }

  // Page numbers stay in bounds

  lemma UnmapBounded(w: World, m: MemId, start: nat, n: nat)
    requires Bounded(w) && m in w.spaces
    ensures Bounded(UnmapAlways(w, m, start, n))
  {
    hide UnmapAlways;
    forall k: MemId, q: nat { UnmapEntries(w, m, start, n, k, q); }
  }

  lemma DestroyBounded(w: World, m: MemId)
    requires Bounded(w) && m in w.spaces
    ensures Bounded(Destroy(w, m))
  {
    hide Destroy;
    forall k: MemId, q: nat { DestroyEntries(w, m, k, q); }
  }

  lemma SameBounded(w: World, w': World)
    requires Bounded(w) && forall k: MemId, q: nat :: Mapped(w', k, q) ==> Mapped(w, k, q)
    ensures Bounded(w')
  {
  }

  lemma CopyPageBounded(w: World, src: MemId, dst: MemId, p: nat)
    requires Bounded(w) && src in w.spaces && dst in w.spaces && src != dst
    ensures Bounded(CopyPage(w, src, dst, p))
  {
    hide CopyPage;
    forall k: MemId, q: nat | Mapped(CopyPage(w, src, dst, p), k, q) ensures q < MEM_PAGES {
      CopyPageEntries(w, src, dst, p, k, q);
    }
  }

  lemma {:induction false} CopyRangeBounded(w: World, src: MemId, dst: MemId, start: nat, n: nat)
    requires Bounded(w) && src in w.spaces && dst in w.spaces && src != dst
    ensures Bounded(CopyRange(w, src, dst, start, n))
  {
    hide CopyPage, Bounded;
    if n > 0 {
      CopyRangeBounded(w, src, dst, start, n - 1);
      CopyPageBounded(CopyRange(w, src, dst, start, n - 1), src, dst, start + n - 1);
    }
  }

  lemma ForkBounded(w: World, src: MemId, dst: MemId)
    requires Bounded(w) && src in w.spaces && dst !in w.spaces
    ensures Bounded(Fork(w, src, dst))
  {
    hide CopyRange;
    var v := w.(spaces := w.spaces[dst := Space(map[], 0)]);
    SameBounded(w, v);
    CopyRangeBounded(v, src, dst, 0, MEM_PAGES);
    SameBounded(CopyRange(v, src, dst, 0, MEM_PAGES), Fork(w, src, dst));
  }
}
