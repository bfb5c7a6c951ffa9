/** Resolving an access (mem_ptr, mem_ptr_nofault) and writing through the result: a write to a
    private page is seen by the writer alone. */
module MemoryAccess {

  import opened Options
  import opened MemoryWorld
  import opened MemorySteps
  import opened MemoryMap
  import opened MemoryFork

  const PAGE_SIZE: nat := 0x1000

  /** MEM_READ, MEM_WRITE and MEM_WRITE_PTRACE. */
  datatype Access = Read | Write | Ptrace

  datatype Place = Place(data: DataId, index: nat)

  function Zeros(): Bytes { seq(PAGE_SIZE, _ => 0) }

  predicate Writable(e: Pte) { e.write && !e.cow }

  /** mem_ptr_nofault, up to the offset within the page. */
  function Translate(w: World, m: MemId, p: nat, a: Access): Option<Place> {
    if !Mapped(w, m, p) then None
    else if a.Write? && !Writable(Entry(w, m, p)) then None
    else Some(Place(Entry(w, m, p).data, Entry(w, m, p).index))
  }

  /** The first mapped page at or after p, or MEM_PAGES. */
  function NextUsed(w: World, m: MemId, p: nat): (q: nat)
    ensures p <= q || MEM_PAGES < p
    ensures forall r :: p <= r < q ==> !Mapped(w, m, r)
    ensures q < MEM_PAGES ==> Mapped(w, m, q)
    ensures q <= MEM_PAGES
    decreases MEM_PAGES - p
  {
    if p >= MEM_PAGES then MEM_PAGES else if Mapped(w, m, p) then p else NextUsed(w, m, p + 1)
  }

  /** A page below a mapping that grows down. */
  predicate Grows(w: World, m: MemId, p: nat) {
    && m in w.spaces
    && !Mapped(w, m, p)
    && NextUsed(w, m, p + 1) < MEM_PAGES
    && Entry(w, m, NextUsed(w, m, p + 1)).grows
  }

  function Grown(w: World, m: MemId, p: nat, d: DataId): (r: World)
    ensures r.spaces.Keys == w.spaces.Keys
  {
    if Grows(w, m, p) then Map(w, m, p, d, [Zeros()], Flags(true, false, false, true)) else w
  }

  /** What the access asks of the entry before a copy is considered. */
  function Prepared(e: Pte, a: Access): Pte { if a.Ptrace? then e.(write := true, cow := true) else e }

  predicate Modifies(w: World, m: MemId, p: nat, a: Access) {
    Mapped(w, m, p) && !a.Read? && (a.Write? ==> Entry(w, m, p).write)
  }

  /** The page gets memory of its own when it is copy-on-write. */
  function Broken(w: World, m: MemId, p: nat, a: Access, d: DataId): (r: World)
    ensures r.spaces.Keys == w.spaces.Keys
  {
    if !Modifies(w, m, p, a) then w
    else
      var e := Prepared(Entry(w, m, p), a);
      var v := SetEntry(w, m, p, e);
      if e.cow && View(w, m, p).Some? then
        Map(v, m, p, d, [View(w, m, p).value], Flags(e.write, false, e.shared, e.grows))
      else v
  }

  /** mem_ptr. The two object names are for memory that it may have to allocate. */
  function Resolve(w: World, m: MemId, p: nat, a: Access, d: DataId, d': DataId): (r: World)
    ensures r.spaces.Keys == w.spaces.Keys
  {
    Broken(Grown(w, m, p, d), m, p, a, d')
  }

  /** A byte written through the pointer. */
  function Store(w: World, at: Place, off: nat, b: int): World {
    if at.data in w.datas && at.index < |w.datas[at.data].pages| && off < |w.datas[at.data].pages[at.index]| then
      var o := w.datas[at.data];
      w.(datas := w.datas[at.data := o.(pages := o.pages[at.index := o.pages[at.index][off := b]])])
    else w
  }

  predicate Fresh(w: World, d: DataId, d': DataId) { d !in w.datas && d' !in w.datas && d != d' }

  // Objects that come and go

  lemma {:induction false} MapRangeNames(w: World, m: MemId, start: nat, n: nat, d: DataId, f: Flags)
    requires m in w.spaces
    ensures MapRange(w, m, start, n, d, f).datas.Keys <= w.datas.Keys
  {
    hide PutPage;
    if n > 0 {
      MapRangeNames(w, m, start, n - 1, d, f);
      PutNames(MapRange(w, m, start, n - 1, d, f), m, start + n - 1, At(d, n - 1, f));
    }
  }

  lemma PutNames(w: World, m: MemId, p: nat, e: Pte)
    requires m in w.spaces
    ensures PutPage(w, m, p, e).datas.Keys <= w.datas.Keys
  {
    assert UnmapRange(w, m, p, 0) == w;
    assert UnmapRange(w, m, p, 1) == UnmapPage(w, m, p);
  }

  lemma MapNames(w: World, m: MemId, start: nat, d: DataId, pages: seq<Bytes>, f: Flags)
    requires m in w.spaces
    ensures Map(w, m, start, d, pages, f).datas.Keys <= w.datas.Keys + {d}
  {
    MapRangeNames(Allocate(w, d, pages), m, start, |pages|, d, f);
  }

  // The entry that a one-page mapping leaves

  lemma MapOneEntry(w: World, m: MemId, p: nat, d: DataId, page: Bytes, f: Flags)
    requires m in w.spaces
    ensures var w' := Map(w, m, p, d, [page], f); Mapped(w', m, p) && Entry(w', m, p) == At(d, 0, f)
  {
    var v := Allocate(w, d, [page]);
    assert MapRange(v, m, p, 0, d, f) == v;
    assert MapRange(v, m, p, 1, d, f) == PutPage(v, m, p, At(d, 0, f));
    MapPageEntries(Cleared(v, m, p), m, p, At(d, 0, f), m, p);
  }

  // Invariants and views

  lemma GrownInv(w: World, m: MemId, p: nat, d: DataId)
    requires Inv(w) && d !in w.datas
    ensures Inv(Grown(w, m, p, d))
  {
    hide Inv, Map, Placed;
    if Grows(w, m, p) { MapInv(w, m, p, d, [Zeros()], Flags(true, false, false, true)); }
  }

  lemma GrownView(w: World, m: MemId, p: nat, d: DataId, k: MemId, q: nat)
    requires Inv(w) && d !in w.datas
    ensures View(Grown(w, m, p, d), k, q) == if (k, q) == (m, p) && Grows(w, m, p) then Some(Zeros()) else View(w, k, q)
  {
    hide Inv, Map, View, Zeros;
    if Grows(w, m, p) { MapView(w, m, p, d, [Zeros()], Flags(true, false, false, true), k, q); }
  }

  lemma PreparedInv(w: World, m: MemId, p: nat, a: Access)
    requires Inv(w) && Mapped(w, m, p)
    ensures var w' := SetEntry(w, m, p, Prepared(Entry(w, m, p), a)); Inv(w') && SameBacking(w, w')
  {
    hide Inv;
    var w' := SetEntry(w, m, p, Prepared(Entry(w, m, p), a));
    FlagsSame(w, m, p, Prepared(Entry(w, m, p), a));
    forall n: MemId, q: nat | Mapped(w, n, q) ensures GuardedIn(w, w', n, q) {}
    FlagsGrowInv(w, w');
  }

  lemma BrokenInv(w: World, m: MemId, p: nat, a: Access, d: DataId)
    requires Inv(w) && d !in w.datas
    ensures Inv(Broken(w, m, p, a, d))
  {
    hide Inv, Map, SetEntry, SameBacking, Placed, View;
    if Modifies(w, m, p, a) {
      PreparedInv(w, m, p, a);
      var e := Prepared(Entry(w, m, p), a);
      var v := SetEntry(w, m, p, e);
      SameMapped(w, v, m, p);
      if e.cow && View(w, m, p).Some? { MapInv(v, m, p, d, [View(w, m, p).value], Flags(e.write, false, e.shared, e.grows)); }
    }
  }

  /** Giving a page memory of its own changes what nobody sees. */
  lemma BrokenView(w: World, m: MemId, p: nat, a: Access, d: DataId, k: MemId, q: nat)
    requires Inv(w) && d !in w.datas
    ensures View(Broken(w, m, p, a, d), k, q) == View(w, k, q)
  {
    hide Inv, Map, SetEntry, SameBacking, Placed, View;
    if Modifies(w, m, p, a) {
      PreparedInv(w, m, p, a);
      var e := Prepared(Entry(w, m, p), a);
      var v := SetEntry(w, m, p, e);
      SameMapped(w, v, m, p);
      SameViews(w, v, k, q);
      if e.cow && View(w, m, p).Some? { MapView(v, m, p, d, [View(w, m, p).value], Flags(e.write, false, e.shared, e.grows), k, q); }
    }
  }

  lemma GrownFresh(w: World, m: MemId, p: nat, d: DataId, d': DataId)
    requires Fresh(w, d, d')
    ensures d' !in Grown(w, m, p, d).datas
  {
    hide Map;
    if Grows(w, m, p) { MapNames(w, m, p, d, [Zeros()], Flags(true, false, false, true)); }
  }

  lemma ResolveInv(w: World, m: MemId, p: nat, a: Access, d: DataId, d': DataId)
    requires Inv(w) && Fresh(w, d, d')
    ensures Inv(Resolve(w, m, p, a, d, d'))
  {
    hide Inv, Grown, Broken;
    GrownInv(w, m, p, d);
    GrownFresh(w, m, p, d, d');
    BrokenInv(Grown(w, m, p, d), m, p, a, d');
  }

  /** mem_ptr changes what a page holds for nobody; it can only add a page of zeros. */
  lemma ResolveView(w: World, m: MemId, p: nat, a: Access, d: DataId, d': DataId, k: MemId, q: nat)
    requires Inv(w) && Fresh(w, d, d')
    ensures View(Resolve(w, m, p, a, d, d'), k, q) == if (k, q) == (m, p) && Grows(w, m, p) then Some(Zeros()) else View(w, k, q)
  {
    hide Inv, Grown, Broken, View, Grows, Zeros;
    GrownInv(w, m, p, d);
    GrownView(w, m, p, d, k, q);
    GrownFresh(w, m, p, d, d');
    BrokenView(Grown(w, m, p, d), m, p, a, d', k, q);
  }
}
