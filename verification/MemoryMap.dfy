/** Mapping fresh memory (pt_map) and copying an address space (pt_copy_on_write): both keep the
    reference counts and the isolation of private pages, and here is what everybody then sees. */
module MemoryMap {

  import opened Options
  import opened MemoryWorld
  import opened MemorySteps

  /** A new entry may stand beside the ones that are there. */
  ghost predicate Fits(w: World, p: nat, e: Pte) {
    forall n: MemId, q: nat :: Mapped(w, n, q) && SamePage(Entry(w, n, q), e) ==>
      q == p && Guarded(Entry(w, n, q)) && Guarded(e) && Entry(w, n, q).shared == e.shared
  }

  lemma MapPageIsolates(w: World, m: MemId, p: nat, e: Pte)
    requires Isolated(w) && m in w.spaces && !Mapped(w, m, p) && Fits(w, p, e)
    ensures Isolated(MapPage(w, m, p, e))
  {
    var w' := MapPage(w, m, p, e);
    forall n: MemId, q: nat, k: MemId, r: nat | Mapped(w', n, q) && Mapped(w', k, r) ensures Apart(w', n, q, k, r) {
      MapPageEntries(w, m, p, e, n, q);
      MapPageEntries(w, m, p, e, k, r);
      if (n, q) != (m, p) && (k, r) != (m, p) { assert Apart(w, n, q, k, r); }
    }
  }

  lemma MapPageEntries(w: World, m: MemId, p: nat, e: Pte, n: MemId, q: nat)
    requires m in w.spaces
    ensures var w' := MapPage(w, m, p, e);
            if (n, q) == (m, p) then Mapped(w', n, q) && Entry(w', n, q) == e
            else (Mapped(w', n, q) <==> Mapped(w, n, q)) && (Mapped(w, n, q) ==> Entry(w', n, q) == Entry(w, n, q))
  {
  }

  lemma MapPageInv(w: World, m: MemId, p: nat, e: Pte)
    requires Inv(w) && m in w.spaces && !Mapped(w, m, p) && BackedBy(w.datas, e) && Fits(w, p, e)
    ensures Inv(MapPage(w, m, p, e))
  {
    hide Conserved, Isolated, MapPage, Fits;
    MapConserves(w, m, p, e);
    MapPageIsolates(w, m, p, e);
  }

  lemma MapPageView(w: World, m: MemId, p: nat, e: Pte, n: MemId, q: nat)
    requires Backed(w) && m in w.spaces && BackedBy(w.datas, e)
    ensures View(MapPage(w, m, p, e), n, q) == if (n, q) == (m, p) then Some(w.datas[e.data].pages[e.index]) else View(w, n, q)
  {
    MapPageEntries(w, m, p, e, n, q);
    assert Mapped(w, n, q) ==> BackedBy(w.datas, Entry(w, n, q));
  }

  // pt_map

  /** The first n pages of the new object are mapped from start on, and nowhere else. */
  ghost predicate Placed(w: World, m: MemId, start: nat, n: nat, d: DataId) {
    forall k: MemId, q: nat :: Mapped(w, k, q) && Entry(w, k, q).data == d ==>
      k == m && start <= q < start + n && Entry(w, k, q).index == q - start
  }

  /** The memory of an object is there and holds the given pages. */
  predicate Holds(w: World, d: DataId, pages: seq<Bytes>) { d in w.datas && w.datas[d].pages == pages }

  lemma {:induction false} UnmapRangeEntries(w: World, m: MemId, start: nat, n: nat, k: MemId, q: nat)
    requires m in w.spaces
    ensures var w' := UnmapRange(w, m, start, n);
            && (Mapped(w', k, q) <==> Mapped(w, k, q) && !(k == m && start <= q < start + n))
            && (Mapped(w', k, q) ==> Entry(w', k, q) == Entry(w, k, q))
  {
    if n > 0 { UnmapRangeEntries(w, m, start, n - 1, k, q); }
  }

  lemma UnmapEntries(w: World, m: MemId, start: nat, n: nat, k: MemId, q: nat)
    requires m in w.spaces
    ensures var w' := UnmapAlways(w, m, start, n);
            && (Mapped(w', k, q) <==> Mapped(w, k, q) && !(k == m && start <= q < start + n))
            && (Mapped(w', k, q) ==> Entry(w', k, q) == Entry(w, k, q))
  {
    UnmapRangeEntries(w, m, start, n, k, q);
  }

  /** Unmapping one page does not touch objects that this page is not backed by. */
  lemma UnmapOneHolds(w: World, m: MemId, p: nat, d: DataId)
    requires m in w.spaces && (Mapped(w, m, p) ==> Entry(w, m, p).data != d)
    ensures d in w.datas ==> Holds(UnmapAlways(w, m, p, 1), d, w.datas[d].pages)
  {
    assert UnmapRange(w, m, p, 0) == w;
    assert UnmapRange(w, m, p, 1) == UnmapPage(w, m, p);
  }

  function Cleared(w: World, m: MemId, p: nat): (r: World)
    requires m in w.spaces
    ensures r.spaces.Keys == w.spaces.Keys
  {
    if Mapped(w, m, p) then UnmapAlways(w, m, p, 1) else w
  }

  lemma ClearedFits(w: World, m: MemId, p: nat, start: nat, d: DataId, f: Flags)
    requires m in w.spaces && start <= p && Placed(w, m, start, p - start, d)
    ensures !Mapped(Cleared(w, m, p), m, p) && Fits(Cleared(w, m, p), p, At(d, p - start, f))
    ensures Placed(Cleared(w, m, p), m, start, p - start, d)
  {
    hide UnmapAlways;
    var w' := Cleared(w, m, p);
    UnmapEntries(w, m, p, 1, m, p);
    forall k: MemId, q: nat | Mapped(w', k, q) ensures Mapped(w, k, q) && Entry(w', k, q) == Entry(w, k, q) {
      UnmapEntries(w, m, p, 1, k, q);
    }
  }

  lemma PutPlaced(w: World, m: MemId, p: nat, start: nat, d: DataId, f: Flags)
    requires m in w.spaces && start <= p && Placed(w, m, start, p - start, d)
    ensures Placed(MapPage(w, m, p, At(d, p - start, f)), m, start, p - start + 1, d)
  {
    var e := At(d, p - start, f);
    var w' := MapPage(w, m, p, e);
    forall k: MemId, q: nat | Mapped(w', k, q) && Entry(w', k, q).data == d
      ensures k == m && start <= q < start + (p - start + 1) && Entry(w', k, q).index == q - start
    {
      MapPageEntries(w, m, p, e, k, q);
      assert (k, q) != (m, p) ==> Mapped(w, k, q) && Entry(w, k, q) == Entry(w', k, q);
    }
  }

  /** One round of pt_map on the memory of one new object. */
  lemma PutInv(w: World, m: MemId, p: nat, start: nat, d: DataId, pages: seq<Bytes>, f: Flags)
    requires Inv(w) && m in w.spaces && start <= p && Placed(w, m, start, p - start, d) && Holds(w, d, pages) && p - start < |pages|
    ensures var w' := PutPage(w, m, p, At(d, p - start, f));
            Inv(w') && Placed(w', m, start, p - start + 1, d) && Holds(w', d, pages)
  {
    hide Inv, Placed, Fits, UnmapAlways;
    var v, e := Cleared(w, m, p), At(d, p - start, f);
    ClearedFits(w, m, p, start, d, f);
    PlacedElsewhere(w, m, p, start, d);
    if Mapped(w, m, p) {
      UnmapAlwaysInv(w, m, p, 1);
      UnmapOneHolds(w, m, p, d);
    }
    assert Inv(v) && Holds(v, d, pages);
    MapPageInv(v, m, p, e);
    PutPlaced(v, m, p, start, d, f);
  }

  lemma PlacedElsewhere(w: World, m: MemId, p: nat, start: nat, d: DataId)
    requires start <= p && Placed(w, m, start, p - start, d)
    ensures Mapped(w, m, p) ==> Entry(w, m, p).data != d
  {
  }

  lemma PutView(w: World, m: MemId, p: nat, start: nat, d: DataId, pages: seq<Bytes>, f: Flags, k: MemId, q: nat)
    requires Inv(w) && m in w.spaces && start <= p && Placed(w, m, start, p - start, d) && Holds(w, d, pages) && p - start < |pages|
    ensures View(PutPage(w, m, p, At(d, p - start, f)), k, q) == if (k, q) == (m, p) then Some(pages[p - start]) else View(w, k, q)
  {
    hide Isolated, Counted, Backed, Placed, Fits, UnmapAlways, View;
    var v, e := Cleared(w, m, p), At(d, p - start, f);
    PlacedElsewhere(w, m, p, start, d);
    if Mapped(w, m, p) {
      UnmapAlwaysInv(w, m, p, 1);
      UnmapOneHolds(w, m, p, d);
      UnmapAlwaysView(w, m, p, 1, k, q);
    }
    assert Backed(v) && Holds(v, d, pages);
    MapPageView(v, m, p, e, k, q);
  }

  lemma {:induction false} MapRangeInv(w: World, m: MemId, start: nat, n: nat, d: DataId, pages: seq<Bytes>, f: Flags)
    requires Inv(w) && m in w.spaces && Placed(w, m, start, 0, d) && Holds(w, d, pages) && n <= |pages|
    ensures var w' := MapRange(w, m, start, n, d, f);
            Inv(w') && Placed(w', m, start, n, d) && Holds(w', d, pages)
  {
    hide Inv, Placed, Holds, PutPage;
    if n > 0 {
      MapRangeInv(w, m, start, n - 1, d, pages, f);
      assert start + n - 1 - start == n - 1;
      PutInv(MapRange(w, m, start, n - 1, d, f), m, start + n - 1, start, d, pages, f);
    }
  }

  lemma {:induction false} MapRangeView(w: World, m: MemId, start: nat, n: nat, d: DataId, pages: seq<Bytes>, f: Flags, k: MemId, q: nat)
    requires Inv(w) && m in w.spaces && Placed(w, m, start, 0, d) && Holds(w, d, pages) && n <= |pages|
    ensures View(MapRange(w, m, start, n, d, f), k, q) ==
            if k == m && start <= q < start + n then Some(pages[q - start]) else View(w, k, q)
  {
    hide Inv, Placed, Holds, PutPage, View;
    if n > 0 {
      MapRangeView(w, m, start, n - 1, d, pages, f, k, q);
      MapRangeInv(w, m, start, n - 1, d, pages, f);
      assert start + n - 1 - start == n - 1;
      PutView(MapRange(w, m, start, n - 1, d, f), m, start + n - 1, start, d, pages, f, k, q);
    }
  }

  lemma AllocateInv(w: World, m: MemId, start: nat, d: DataId, pages: seq<Bytes>)
    requires Inv(w) && d !in w.datas
    ensures var w' := Allocate(w, d, pages); Inv(w') && Placed(w', m, start, 0, d) && Holds(w', d, pages)
  {
    AllocateConserves(w, d, pages);
    var w' := Allocate(w, d, pages);
    forall n: MemId, q: nat, k: MemId, r: nat | Mapped(w', n, q) && Mapped(w', k, r) ensures Apart(w', n, q, k, r) {
      assert Mapped(w, n, q) && Mapped(w, k, r) && Apart(w, n, q, k, r);
    }
    forall k: MemId, q: nat | Mapped(w', k, q) ensures Entry(w', k, q).data != d { assert Mapped(w, k, q) && BackedBy(w.datas, Entry(w, k, q)); }
  }

  lemma AllocateView(w: World, d: DataId, pages: seq<Bytes>, k: MemId, q: nat)
    requires Backed(w) && d !in w.datas
    ensures View(Allocate(w, d, pages), k, q) == View(w, k, q)
  {
    assert Mapped(w, k, q) ==> BackedBy(w.datas, Entry(w, k, q));
  }

  lemma MapInv(w: World, m: MemId, start: nat, d: DataId, pages: seq<Bytes>, f: Flags)
    requires Inv(w) && m in w.spaces && d !in w.datas
    ensures Inv(Map(w, m, start, d, pages, f)) && Placed(Map(w, m, start, d, pages, f), m, start, |pages|, d)
  {
    hide Inv, Placed, Holds, MapRange;
    AllocateInv(w, m, start, d, pages);
    MapRangeInv(Allocate(w, d, pages), m, start, |pages|, d, pages, f);
  }

  /** After pt_map the range shows the new memory, and nothing else looks different to anybody. */
  lemma MapView(w: World, m: MemId, start: nat, d: DataId, pages: seq<Bytes>, f: Flags, k: MemId, q: nat)
    requires Inv(w) && m in w.spaces && d !in w.datas
    ensures View(Map(w, m, start, d, pages, f), k, q) ==
            if k == m && start <= q < start + |pages| then Some(pages[q - start]) else View(w, k, q)
  {
    hide Isolated, Counted, Backed, Placed, Holds, MapRange, View;
    AllocateInv(w, m, start, d, pages);
    AllocateView(w, d, pages, k, q);
    MapRangeView(Allocate(w, d, pages), m, start, |pages|, d, pages, f, k, q);
  }
}
