/** Copying an address space on fork (pt_copy_on_write, mm_copy): parent and child see the same
    memory, nobody else sees a change, and private pages stay isolated. */
module MemoryFork {

  import opened Options
  import opened MemoryWorld
  import opened MemorySteps
  import opened MemoryMap

  /** The source of a copied page takes on the flags of the copy. */
  lemma MarkInv(w: World, m: MemId, p: nat)
    requires Inv(w) && Mapped(w, m, p)
    ensures var w' := SetEntry(w, m, p, Copied(Entry(w, m, p)));
            Inv(w') && SameBacking(w, w') && Fits(w', p, Copied(Entry(w, m, p)))
  {
    hide Conserved;
    var e := Copied(Entry(w, m, p));
    var w' := SetEntry(w, m, p, e);
    FlagsSame(w, m, p, e);
    forall n: MemId, q: nat | Mapped(w, n, q) ensures GuardedIn(w, w', n, q) {}
    FlagsGrowInv(w, w');
    forall n: MemId, q: nat | Mapped(w', n, q) && SamePage(Entry(w', n, q), e)
      ensures q == p && Guarded(Entry(w', n, q)) && Entry(w', n, q).shared == e.shared
    {
      assert Mapped(w, n, q) && Apart(w, n, q, m, p);
    }
  }

  lemma CopyPageInv(w: World, src: MemId, dst: MemId, p: nat)
    requires Inv(w) && src in w.spaces && dst in w.spaces && src != dst
    ensures Inv(CopyPage(w, src, dst, p))
  {
    if Mapped(w, src, p) {
      hide Conserved, Isolated, Fits, UnmapAlways, SetEntry, SameBacking;
      var v, e := UnmapAlways(w, dst, p, 1), Copied(Entry(w, src, p));
      UnmapAlwaysInv(w, dst, p, 1);
      UnmapEntries(w, dst, p, 1, src, p);
      UnmapEntries(w, dst, p, 1, dst, p);
      MarkInv(v, src, p);
      BackedAt(v, src, p);
      SameMapped(v, SetEntry(v, src, p, e), dst, p);
      MapPageInv(SetEntry(v, src, p, e), dst, p, e);
    }
  }

  lemma BackedAt(w: World, m: MemId, p: nat)
    requires Inv(w) && Mapped(w, m, p)
    ensures BackedBy(w.datas, Copied(Entry(w, m, p)))
    ensures View(w, m, p) == Some(w.datas[Entry(w, m, p).data].pages[Entry(w, m, p).index])
  {
    assert BackedBy(w.datas, Entry(w, m, p));
  }

  lemma SameMapped(w: World, w': World, m: MemId, p: nat)
    requires SameBacking(w, w')
    ensures (Mapped(w, m, p) <==> Mapped(w', m, p)) && w'.datas == w.datas
    ensures Mapped(w, m, p) ==> SamePage(Entry(w, m, p), Entry(w', m, p))
  {
  }

  lemma CopyPageView(w: World, src: MemId, dst: MemId, p: nat, k: MemId, q: nat)
    requires Inv(w) && src in w.spaces && dst in w.spaces && src != dst
    ensures View(CopyPage(w, src, dst, p), k, q) ==
            if (k, q) == (dst, p) && View(w, src, p).Some? then View(w, src, p) else View(w, k, q)
  {
    hide Counted, Backed, Isolated, Fits, UnmapAlways, SetEntry, SameBacking;
    if Mapped(w, src, p) {
      hide View;
      var v, e := UnmapAlways(w, dst, p, 1), Copied(Entry(w, src, p));
      UnmapAlwaysInv(w, dst, p, 1);
      UnmapEntries(w, dst, p, 1, src, p);
      UnmapAlwaysView(w, dst, p, 1, k, q);
      UnmapAlwaysView(w, dst, p, 1, src, p);
      MarkInv(v, src, p);
      var u := SetEntry(v, src, p, e);
      BackedAt(w, src, p);
      BackedAt(v, src, p);
      SameMapped(v, u, dst, p);
      SameViews(v, u, k, q);
      MapPageView(u, dst, p, e, k, q);
    }
  }

  lemma CopyPageEntries(w: World, src: MemId, dst: MemId, p: nat, k: MemId, q: nat)
    requires src in w.spaces && dst in w.spaces && src != dst
    ensures var w' := CopyPage(w, src, dst, p);
            && (Mapped(w', k, q) <==> Mapped(w, k, q) || ((k, q) == (dst, p) && Mapped(w, src, p)))
            && (Mapped(w, k, q) && (k, q) != (dst, p) ==> SamePage(Entry(w, k, q), Entry(w', k, q)) && Entry(w, k, q).shared == Entry(w', k, q).shared)
            && ((k, q) == (dst, p) && Mapped(w, src, p) ==> SamePage(Entry(w, src, p), Entry(w', k, q)))
  {
    hide UnmapAlways;
    if Mapped(w, src, p) { UnmapEntries(w, dst, p, 1, k, q); }
  }

  /** A copied page leads to the same memory from both address spaces. */
  lemma {:induction false} CopyRangeEntries(w: World, src: MemId, dst: MemId, start: nat, n: nat, k: MemId, q: nat)
    requires src in w.spaces && dst in w.spaces && src != dst
    ensures var w' := CopyRange(w, src, dst, start, n);
            && (k != dst ==> (Mapped(w', k, q) <==> Mapped(w, k, q)))
            && (k != dst && Mapped(w, k, q) ==> SamePage(Entry(w, k, q), Entry(w', k, q)) && Entry(w, k, q).shared == Entry(w', k, q).shared)
            && (k == dst && start <= q < start + n && Mapped(w, src, q) ==> Mapped(w', dst, q) && SamePage(Entry(w, src, q), Entry(w', dst, q)))
  {
    hide CopyPage;
    if n > 0 {
      var v, p := CopyRange(w, src, dst, start, n - 1), start + n - 1;
      CopyRangeEntries(w, src, dst, start, n - 1, k, q);
      CopyRangeEntries(w, src, dst, start, n - 1, src, q);
      CopyPageEntries(v, src, dst, p, k, q);
    }
  }

  lemma {:induction false} CopyRangeInv(w: World, src: MemId, dst: MemId, start: nat, n: nat)
    requires Inv(w) && src in w.spaces && dst in w.spaces && src != dst
    ensures Inv(CopyRange(w, src, dst, start, n))
  {
    hide Inv, CopyPage;
    if n > 0 {
      CopyRangeInv(w, src, dst, start, n - 1);
      CopyPageInv(CopyRange(w, src, dst, start, n - 1), src, dst, start + n - 1);
    }
  }

  lemma {:induction false} CopyRangeView(w: World, src: MemId, dst: MemId, start: nat, n: nat, k: MemId, q: nat)
    requires Inv(w) && src in w.spaces && dst in w.spaces && src != dst
    ensures View(CopyRange(w, src, dst, start, n), k, q) ==
            if k == dst && start <= q < start + n && View(w, src, q).Some? then View(w, src, q) else View(w, k, q)
  {
    hide Inv, CopyPage, View;
    if n > 0 {
      var p := start + n - 1;
      CopyRangeInv(w, src, dst, start, n - 1);
      CopyRangeView(w, src, dst, start, n - 1, k, q);
      CopyRangeView(w, src, dst, start, n - 1, src, p);
      CopyPageView(CopyRange(w, src, dst, start, n - 1), src, dst, p, k, q);
    }
  }

  lemma CopyInv(w: World, src: MemId, dst: MemId, start: nat, n: nat)
    requires Inv(w) && src in w.spaces && dst in w.spaces && src != dst
    ensures Inv(CopyOnWrite(w, src, dst, start, n))
  {
    hide Inv, CopyRange, Changed;
    CopyRangeInv(w, src, dst, start, n);
    ChangedInv(CopyRange(w, src, dst, start, n), src);
    ChangedInv(Changed(CopyRange(w, src, dst, start, n), src), dst);
  }

  /** pt_copy_on_write: the destination sees what the source sees, wherever the source is mapped. */
  lemma CopyView(w: World, src: MemId, dst: MemId, start: nat, n: nat, k: MemId, q: nat)
    requires Inv(w) && src in w.spaces && dst in w.spaces && src != dst
    ensures View(CopyOnWrite(w, src, dst, start, n), k, q) ==
            if k == dst && start <= q < start + n && View(w, src, q).Some? then View(w, src, q) else View(w, k, q)
  {
    hide Inv, CopyRange, Changed, View;
    var v := CopyRange(w, src, dst, start, n);
    CopyRangeInv(w, src, dst, start, n);
    CopyRangeView(w, src, dst, start, n, k, q);
    ChangedInv(v, src);
    SameViews(v, Changed(v, src), k, q);
    ChangedInv(Changed(v, src), dst);
    SameViews(Changed(v, src), Changed(Changed(v, src), dst), k, q);
  }

  lemma NewSpaceInv(w: World, m: MemId)
    requires Inv(w) && m !in w.spaces
    ensures Inv(w.(spaces := w.spaces[m := Space(map[], 0)]))
    ensures SameBacking(w, w.(spaces := w.spaces[m := Space(map[], 0)]))
  {
    hide Inv;
    var w' := w.(spaces := w.spaces[m := Space(map[], 0)]);
    assert SameBacking(w, w');
    forall n: MemId, q: nat | Mapped(w, n, q) ensures GuardedIn(w, w', n, q) {}
    FlagsGrowInv(w, w');
  }

  lemma ForkInv(w: World, src: MemId, dst: MemId)
    requires Inv(w) && src in w.spaces && dst !in w.spaces
    ensures Inv(Fork(w, src, dst))
  {
    hide Inv, CopyOnWrite, SameBacking;
    NewSpaceInv(w, dst);
    CopyInv(w.(spaces := w.spaces[dst := Space(map[], 0)]), src, dst, 0, MEM_PAGES);
  }

  /** Right after mm_copy parent and child agree on every page, and nobody else sees a change. */
  lemma ForkAgrees(w: World, src: MemId, dst: MemId, k: MemId, q: nat)
    requires Inv(w) && src in w.spaces && dst !in w.spaces
    ensures View(Fork(w, src, dst), k, q) == if k == dst && q < MEM_PAGES then View(w, src, q) else View(w, k, q)
  {
    hide Inv, CopyOnWrite, SameBacking;
    var v := w.(spaces := w.spaces[dst := Space(map[], 0)]);
    assert View(v, dst, q) == View(w, dst, q) == None;
    hide View;
    NewSpaceInv(w, dst);
    SameViews(w, v, k, q);
    SameViews(w, v, src, q);
    CopyView(v, src, dst, 0, MEM_PAGES, k, q);
  }

  lemma ForkEntries(w: World, src: MemId, dst: MemId, k: MemId, q: nat)
    requires src in w.spaces && dst !in w.spaces
    ensures var w' := Fork(w, src, dst);
            && (k != dst ==> (Mapped(w', k, q) <==> Mapped(w, k, q)))
            && (k != dst && Mapped(w, k, q) ==> SamePage(Entry(w, k, q), Entry(w', k, q)) && Entry(w, k, q).shared == Entry(w', k, q).shared)
            && (k == dst && q < MEM_PAGES && Mapped(w, src, q) ==> Mapped(w', dst, q) && SamePage(Entry(w, src, q), Entry(w', dst, q)))
  {
    hide CopyRange;
    CopyRangeEntries(w.(spaces := w.spaces[dst := Space(map[], 0)]), src, dst, 0, MEM_PAGES, k, q);
  }
}
