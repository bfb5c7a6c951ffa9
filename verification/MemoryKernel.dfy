/** The memory operations of kernel/memory.c on two-level page tables, with their loops, proved to
    do what the operations on plain page maps say. */
module MemoryKernel {

  import opened Options
  import opened MemoryWorld
  import opened MemorySteps
  import opened MemoryAccess
  import opened MemoryIsolation
  import opened MemoryTable

  // The page maps that the tables stand for

  ghost predicate AllFormed(dirs: map<MemId, Dir>) { forall m :: m in dirs ==> Formed(dirs[m].pgdir) }

  function SpaceOf(d: Dir): Space
    requires Formed(d.pgdir)
  {
    Space(TableOf(d.pgdir), d.changes)
  }

  ghost function SpacesOf(dirs: map<MemId, Dir>): (r: map<MemId, Space>)
    requires AllFormed(dirs)
    ensures r.Keys == dirs.Keys
  {
    map m | m in dirs :: SpaceOf(dirs[m])
  }

  ghost function WorldOf(datas: map<DataId, Data>, dirs: map<MemId, Dir>): (r: World)
    requires AllFormed(dirs)
    ensures r.spaces.Keys == dirs.Keys
  {
    World(datas, SpacesOf(dirs))
  }

  lemma SpacesUpdate(dirs: map<MemId, Dir>, m: MemId, d: Dir)
    requires AllFormed(dirs) && Formed(d.pgdir)
    ensures AllFormed(dirs[m := d]) && SpacesOf(dirs[m := d]) == SpacesOf(dirs)[m := SpaceOf(d)]
  {
  }

  lemma SpacesDrop(dirs: map<MemId, Dir>, m: MemId)
    requires AllFormed(dirs)
    ensures AllFormed(dirs - {m}) && SpacesOf(dirs - {m}) == SpacesOf(dirs) - {m}
  {
  }

  /** Whether a page is mapped, seen from the table. */
  lemma EntryAt(datas: map<DataId, Data>, dirs: map<MemId, Dir>, m: MemId, p: nat)
    requires AllFormed(dirs) && m in dirs && p < MEM_PAGES
    ensures Formed(dirs[m].pgdir)
    ensures var w := WorldOf(datas, dirs);
            Lookup(dirs[m].pgdir, p) == if Mapped(w, m, p) then Some(Entry(w, m, p)) else None
  {
    hide Lookup, TableOf;
    LookupTable(dirs[m].pgdir, p);
  }

  lemma PutAt(datas: map<DataId, Data>, dirs: map<MemId, Dir>, m: MemId, p: nat, e: Pte)
    requires AllFormed(dirs) && m in dirs && p < MEM_PAGES
    ensures var d' := dirs[m].(pgdir := Update(WithTable(dirs[m].pgdir, p), p, Some(e)));
            AllFormed(dirs[m := d']) && WorldOf(datas, dirs[m := d']) == SetEntry(WorldOf(datas, dirs), m, p, e)
  {
    hide TableOf, WithTable, Update, SpacesOf;
    PutTable(dirs[m].pgdir, p, e);
    var d' := dirs[m].(pgdir := Update(WithTable(dirs[m].pgdir, p), p, Some(e)));
    SpacesUpdate(dirs, m, d');
    SpacesAt(dirs, m);
  }

  lemma SpacesAt(dirs: map<MemId, Dir>, m: MemId)
    requires AllFormed(dirs) && m in dirs
    ensures SpacesOf(dirs)[m] == SpaceOf(dirs[m])
  {
  }

  lemma DropAt(datas: map<DataId, Data>, dirs: map<MemId, Dir>, m: MemId, p: nat)
    requires AllFormed(dirs) && m in dirs && p < MEM_PAGES && Lookup(dirs[m].pgdir, p).Some?
    ensures Top(p) < |dirs[m].pgdir| && dirs[m].pgdir[Top(p)].Some?
    ensures var d' := dirs[m].(pgdir := Update(dirs[m].pgdir, p, None));
            && AllFormed(dirs[m := d'])
            && WorldOf(datas, dirs[m := d']) == SetTable(WorldOf(datas, dirs), m, SpacesOf(dirs)[m].table - {p})
  {
    hide TableOf, Update, SpacesOf;
    Split(p);
    DropTable(dirs[m].pgdir, p);
    var d' := dirs[m].(pgdir := Update(dirs[m].pgdir, p, None));
    SpacesUpdate(dirs, m, d');
    SpacesAt(dirs, m);
  }

  lemma ChangeAt(datas: map<DataId, Data>, dirs: map<MemId, Dir>, m: MemId)
    requires AllFormed(dirs) && m in dirs
    ensures var d' := dirs[m].(changes := dirs[m].changes + 1);
            AllFormed(dirs[m := d']) && WorldOf(datas, dirs[m := d']) == Changed(WorldOf(datas, dirs), m)
  {
    hide TableOf, SpacesOf;
    SpacesUpdate(dirs, m, dirs[m].(changes := dirs[m].changes + 1));
    SpacesAt(dirs, m);
  }

  // Sweeps that skip

  /** Skipping pages that are not mapped leaves out nothing. */
  lemma {:induction false} UnmapSkips(w: World, m: MemId, start: nat, n: nat, n': nat, v: World)
    requires m in w.spaces && n <= n' && v == UnmapRange(w, m, start, n)
    requires forall q: nat :: start + n <= q < start + n' ==> !Mapped(v, m, q)
    ensures UnmapRange(w, m, start, n') == v
    decreases n'
  {
    if n < n' { UnmapSkips(w, m, start, n, n' - 1, v); }
  }

  lemma {:induction false} CopySkips(w: World, src: MemId, dst: MemId, start: nat, n: nat, n': nat, v: World)
    requires src in w.spaces && dst in w.spaces && n <= n' && v == CopyRange(w, src, dst, start, n)
    requires forall q: nat :: start + n <= q < start + n' ==> !Mapped(v, src, q)
    ensures CopyRange(w, src, dst, start, n') == v
    decreases n'
  {
    if n < n' { CopySkips(w, src, dst, start, n, n' - 1, v); }
  }

  class Kernel {
    var datas: map<DataId, Data>
    var dirs: map<MemId, Dir>

    ghost predicate Valid()
      reads this
    {
      AllFormed(dirs)
    }

    ghost function Abs(): (r: World)
      reads this
      requires Valid()
      ensures r.spaces.Keys == dirs.Keys && r.datas == datas
    {
      WorldOf(datas, dirs)
    }

    /** mem_next_page: the next page worth looking at; everything before it is not mapped. */
    method NextPage(m: MemId, page: nat) returns (q: nat)
      requires Valid() && m in dirs && page < MEM_PAGES
      ensures page < q <= MEM_PAGES
      ensures forall r: nat :: page < r < q ==> !Mapped(Abs(), m, r)
      ensures q < MEM_PAGES ==> dirs[m].pgdir[Top(q)].Some?
    {
      var g := dirs[m].pgdir;
      q := page + 1;
      if q >= MEM_PAGES { return; }
      Split(q);
      while q < MEM_PAGES && g[Top(q)].None?
        invariant page < q <= MEM_PAGES && (q < MEM_PAGES ==> Top(q) < |g|)
        invariant forall r :: page < r < q ==> r !in TableOf(g)
        decreases MEM_PAGES - q
      {
        MissingTable(g, q);
        NextTable(q);
        q := (q - Bottom(q)) + PGDIR_SIZE;
        Split(q);
      }
    }

    /** mem_changed. */
    method MemChanged(m: MemId)
      requires Valid() && m in dirs
      modifies this
      ensures Valid() && Abs() == Changed(old(Abs()), m)
    {
      ChangeAt(datas, dirs, m);
      dirs := dirs[m := dirs[m].(changes := dirs[m].changes + 1)];
    }

    /** The body of the loop of pt_unmap_always: the entry goes, its reference with it, and the
        memory when that was the last one. */
    method UnmapOne(m: MemId, page: nat)
      requires Valid() && m in dirs && page < MEM_PAGES
      modifies this
      ensures Valid() && Abs() == UnmapPage(old(Abs()), m, page)
    {
      hide AllFormed, SpacesOf, Lookup, Update;
      EntryAt(datas, dirs, m, page);
      var pt := Lookup(dirs[m].pgdir, page);
      if pt.None? { return; }
      DropAt(datas, dirs, m, page);
      var d := pt.value.data;
      dirs := dirs[m := dirs[m].(pgdir := Update(dirs[m].pgdir, page, None))];
      if d in datas {
        datas := datas[d := datas[d].(refcount := datas[d].refcount - 1)];
        if datas[d].refcount == 0 { datas := datas - {d}; }
      }
      assert datas == Release(old(datas), d);
    }

    /** pt_unmap_always. The sweep jumps over missing tables and still misses no mapped page. */
    method PtUnmapAlways(m: MemId, start: nat, pages: nat)
      requires Valid() && m in dirs && start + pages <= MEM_PAGES
      modifies this
      ensures Valid() && Abs() == UnmapAlways(old(Abs()), m, start, pages)
    {
      hide AllFormed, WorldOf, UnmapPage;
      var page := start;
      while page < start + pages
        invariant Valid() && m in dirs && start <= page <= MEM_PAGES
        invariant page <= start + pages ==> Abs() == UnmapRange(old(Abs()), m, start, page - start)
        invariant page > start + pages ==> Abs() == UnmapRange(old(Abs()), m, start, pages)
        decreases start + pages - page
      {
        UnmapOne(m, page);
        assert Abs() == UnmapRange(old(Abs()), m, start, page + 1 - start);
        var next := NextPage(m, page);
        ghost var n' := if next <= start + pages then next - start else pages;
        UnmapSkips(old(Abs()), m, start, page + 1 - start, n', Abs());
        page := next;
      }
      MemChanged(m);
    }

    /** The whole range is mapped, as pt_unmap and pt_map ask before they unmap. */
    method PtUnmap(m: MemId, start: nat, pages: nat) returns (ok: bool)
      requires Valid() && m in dirs && start + pages <= MEM_PAGES
      modifies this
      ensures Valid() && ok == forall p :: start <= p < start + pages ==> Mapped(old(Abs()), m, p)
      ensures Abs() == if ok then UnmapAlways(old(Abs()), m, start, pages) else old(Abs())
    {
      hide AllFormed, WorldOf, UnmapAlways, Lookup;
      var page := start;
      while page < start + pages
        invariant start <= page <= start + pages && Valid() && dirs == old(dirs) && datas == old(datas)
        invariant forall p :: start <= p < page ==> Mapped(Abs(), m, p)
      {
        EntryAt(datas, dirs, m, page);
        if Lookup(dirs[m].pgdir, page).None? {
          assert !Mapped(old(Abs()), m, page);
          return false;
        }
        page := page + 1;
      }
      PtUnmapAlways(m, start, pages);
      ok := true;
    }

    /** The body of the loop of pt_map. */
    method MapOne(m: MemId, page: nat, e: Pte)
      requires Valid() && m in dirs && page < MEM_PAGES
      modifies this
      ensures Valid() && Abs() == PutPage(old(Abs()), m, page, e)
    {
      hide AllFormed, SpacesOf, Lookup, Update, WithTable, UnmapAlways;
      EntryAt(datas, dirs, m, page);
      if Lookup(dirs[m].pgdir, page).Some? { PtUnmapAlways(m, page, 1); }
      Refer(m, page, e);
    }

    /** An entry is written and its reference counted. */
    method Refer(m: MemId, page: nat, e: Pte)
      requires Valid() && m in dirs && page < MEM_PAGES
      modifies this
      ensures Valid() && Abs() == MapPage(old(Abs()), m, page, e)
    {
      hide AllFormed, SpacesOf, Update, WithTable;
      EntryAt(datas, dirs, m, page);
      PutAt(datas, dirs, m, page, e);
      if e.data in datas { datas := datas[e.data := datas[e.data].(refcount := datas[e.data].refcount + 1)]; }
      dirs := dirs[m := dirs[m].(pgdir := Update(WithTable(dirs[m].pgdir, page), page, Some(e)))];
    }

    /** pt_map. */
    method PtMap(m: MemId, start: nat, d: DataId, memory: seq<Bytes>, f: Flags)
      requires Valid() && m in dirs && start + |memory| <= MEM_PAGES
      modifies this
      ensures Valid() && Abs() == Map(old(Abs()), m, start, d, memory, f)
    {
      hide AllFormed, SpacesOf, PutPage;
      ghost var w := Allocate(Abs(), d, memory);
      datas := datas[d := Data(0, memory)];
      var page := start;
      while page < start + |memory|
        invariant Valid() && m in dirs && m in w.spaces && start <= page <= start + |memory|
        invariant Abs() == MapRange(w, m, start, page - start, d, f)
      {
        MapOne(m, page, At(d, page - start, f));
        page := page + 1;
      }
    }

    /** The body of the loop of pt_copy_on_write. */
    method CopyOne(src: MemId, dst: MemId, page: nat)
      requires Valid() && src in dirs && dst in dirs && src != dst && page < MEM_PAGES
      modifies this
      ensures Valid() && Abs() == CopyPage(old(Abs()), src, dst, page)
    {
      hide AllFormed, SpacesOf, Lookup, Update, WithTable, UnmapAlways, MapPage;
      EntryAt(datas, dirs, src, page);
      var entry := Lookup(dirs[src].pgdir, page);
      if entry.None? { return; }
      PtUnmapAlways(dst, page, 1);
      var e := entry.value;
      if !e.shared { e := e.(cow := true); }
      EntryAt(datas, dirs, src, page);
      PutAt(datas, dirs, src, page, e);
      dirs := dirs[src := dirs[src].(pgdir := Update(WithTable(dirs[src].pgdir, page), page, Some(e)))];
      Refer(dst, page, e);
    }

    /** pt_copy_on_write, sweeping the source as pt_unmap_always does. */
    method PtCopyOnWrite(src: MemId, dst: MemId, start: nat, pages: nat)
      requires Valid() && src in dirs && dst in dirs && src != dst && start + pages <= MEM_PAGES
      modifies this
      ensures Valid() && Abs() == CopyOnWrite(old(Abs()), src, dst, start, pages)
    {
      hide AllFormed, WorldOf, CopyPage;
      var page := start;
      while page < start + pages
        invariant Valid() && src in dirs && dst in dirs && start <= page <= MEM_PAGES
        invariant page <= start + pages ==> Abs() == CopyRange(old(Abs()), src, dst, start, page - start)
        invariant page > start + pages ==> Abs() == CopyRange(old(Abs()), src, dst, start, pages)
        decreases start + pages - page
      {
        CopyOne(src, dst, page);
        assert Abs() == CopyRange(old(Abs()), src, dst, start, page + 1 - start);
        var next := NextPage(src, page);
        ghost var n' := if next <= start + pages then next - start else pages;
        CopySkips(old(Abs()), src, dst, start, page + 1 - start, n', Abs());
        page := next;
      }
      MemChanged(src);
      MemChanged(dst);
    }

    /** mem_init. */
    method MemInit(m: MemId)
      requires Valid() && m !in dirs
      modifies this
      ensures Valid() && Abs() == old(Abs()).(spaces := old(Abs()).spaces[m := Space(map[], 0)])
    {
      hide TableOf;
      NoTable();
      var d := Dir(seq(PGDIR_SIZE, _ => None), 0);
      SpacesUpdate(dirs, m, d);
      dirs := dirs[m := d];
    }

    /** mem_destroy, when the last user of an address space lets go of it. */
    method MemDestroy(m: MemId)
      requires Valid() && m in dirs
      modifies this
      ensures Valid() && Abs() == Destroy(old(Abs()), m)
    {
      hide AllFormed, UnmapAlways, SpacesOf;
      PtUnmapAlways(m, 0, MEM_PAGES);
      SpacesDrop(dirs, m);
      dirs := dirs - {m};
    }

    /** mm_copy: a new address space, filled from the old one. */
    method MmCopy(src: MemId, dst: MemId)
      requires Valid() && src in dirs && dst !in dirs
      modifies this
      ensures Valid() && Abs() == Fork(old(Abs()), src, dst)
    {
      hide AllFormed, WorldOf, CopyOnWrite;
      MemInit(dst);
      PtCopyOnWrite(src, dst, 0, MEM_PAGES);
    }

    /** The body of the second loop of pt_set_flags. */
    method FlagOne(m: MemId, page: nat, write: bool)
      requires Valid() && m in dirs && page < MEM_PAGES && Mapped(Abs(), m, page)
      modifies this
      ensures Valid() && Abs() == FlagPage(old(Abs()), m, page, write)
    {
      hide AllFormed, SpacesOf, Lookup, Update, WithTable, SetEntry;
      EntryAt(datas, dirs, m, page);
      var e := Lookup(dirs[m].pgdir, page).value;
      e := e.(write := write, cow := false, shared := false, grows := false);
      PutAt(datas, dirs, m, page, e);
      dirs := dirs[m := dirs[m].(pgdir := Update(WithTable(dirs[m].pgdir, page), page, Some(e)))];
    }

    /** pt_set_flags with the flags of mprotect, of which the model keeps P_WRITE. */
    method PtSetFlags(m: MemId, start: nat, pages: nat, write: bool) returns (ok: bool)
      requires Valid() && m in dirs && start + pages <= MEM_PAGES
      modifies this
      ensures Valid() && Abs() == SetFlags(old(Abs()), m, start, pages, write)
      ensures ok == forall p: nat :: start <= p < start + pages ==> Mapped(old(Abs()), m, p)
    {
      hide AllFormed, WorldOf, Lookup, FlagPage, Changed;
      var page := start;
      while page < start + pages
        invariant start <= page <= start + pages && Valid() && dirs == old(dirs) && datas == old(datas)
        invariant forall p: nat :: start <= p < page ==> Mapped(Abs(), m, p)
      {
        EntryAt(datas, dirs, m, page);
        if Lookup(dirs[m].pgdir, page).None? {
          assert !Mapped(old(Abs()), m, page);
          return false;
        }
        page := page + 1;
      }
      ghost var w := Abs();
      page := start;
      while page < start + pages
        invariant start <= page <= start + pages && Valid() && m in dirs
        invariant Abs() == FlagRange(w, m, start, page - start, write)
      {
        FlagRangeEntries(w, m, start, page - start, write, m, page);
        FlagOne(m, page, write);
        page := page + 1;
      }
      MemChanged(m);
      ok := true;
    }

    /** pt_is_hole. */
    method PtIsHole(m: MemId, start: nat, pages: nat) returns (r: bool)
      requires Valid() && m in dirs && start + pages <= MEM_PAGES
      ensures r == IsHole(Abs(), m, start, pages)
    {
      hide AllFormed, WorldOf, Lookup;
      var page := start;
      while page < start + pages
        invariant start <= page <= start + pages && IsHole(Abs(), m, start, page - start)
      {
        EntryAt(datas, dirs, m, page);
        if Lookup(dirs[m].pgdir, page).Some? { return false; }
        page := page + 1;
      }
      r := true;
    }

    /** pt_find_hole: the highest place that is free, or BAD_PAGE when there is none. */
    method PtFindHole(m: MemId, size: nat) returns (r: nat)
      requires Valid() && m in dirs
      ensures r != BAD_PAGE ==> Candidate(Abs(), m, r, size) && forall p :: r < p ==> !Candidate(Abs(), m, p, size)
      ensures r == BAD_PAGE ==> forall p :: !Candidate(Abs(), m, p, size)
    {
      hide AllFormed, WorldOf, Lookup;
      var holeEnd, inHole := 0, false;
      var page := HOLE_TOP - 1;
      while page >= HOLE_BOTTOM
        invariant HOLE_BOTTOM - 1 <= page < HOLE_TOP
        invariant forall p :: page < p ==> !Candidate(Abs(), m, p, size)
        invariant inHole ==> page + 1 < holeEnd <= HOLE_TOP && IsHole(Abs(), m, page + 1, holeEnd - (page + 1))
        invariant inHole ==> size == 0 || holeEnd - (page + 1) < size
        invariant inHole ==> holeEnd == HOLE_TOP || Mapped(Abs(), m, holeEnd)
        invariant !inHole ==> page + 1 == HOLE_TOP || Mapped(Abs(), m, page + 1)
      {
        EntryAt(datas, dirs, m, page);
        var used := Lookup(dirs[m].pgdir, page).Some?;
        if !inHole && !used { inHole, holeEnd := true, page + 1; }
        if used {
          inHole := false;
        } else if holeEnd - page == size {
          return page;
        }
        page := page - 1;
      }
      r := BAD_PAGE;
    }

    /** The search of mem_ptr for the next mapping above a page. */
    method FindNext(m: MemId, page: nat) returns (q: nat)
      requires Valid() && m in dirs
      ensures q == NextUsed(Abs(), m, page)
    {
      hide AllFormed, WorldOf, Lookup;
      q := page;
      if q >= MEM_PAGES { return MEM_PAGES; }
      EntryAt(datas, dirs, m, q);
      while q < MEM_PAGES && Lookup(dirs[m].pgdir, q).None?
        invariant page <= q <= MEM_PAGES && Formed(dirs[m].pgdir)
        invariant NextUsed(Abs(), m, page) == NextUsed(Abs(), m, q)
      {
        EntryAt(datas, dirs, m, q);
        q := q + 1;
      }
      if q < MEM_PAGES { EntryAt(datas, dirs, m, q); }
    }

    /** The first half of mem_ptr: a missing page may be added below a mapping that grows down. */
    method Grow(m: MemId, page: nat, d: DataId)
      requires Valid() && m in dirs && page < MEM_PAGES
      modifies this
      ensures Valid() && Abs() == Grown(old(Abs()), m, page, d)
    {
      hide AllFormed, WorldOf, Lookup, Map, Zeros, NextUsed;
      EntryAt(datas, dirs, m, page);
      if Lookup(dirs[m].pgdir, page).Some? { return; }
      var p := FindNext(m, page + 1);
      if p >= MEM_PAGES { return; }
      EntryAt(datas, dirs, m, p);
      if !Lookup(dirs[m].pgdir, p).value.grows { return; }
      PtMap(m, page, d, [Zeros()], Flags(true, false, false, true));
    }

    /** The second half: a page about to be written gets memory of its own if it has to. */
    method Break(m: MemId, page: nat, a: Access, d: DataId)
      requires Valid() && m in dirs && page < MEM_PAGES && Backed(Abs())
      modifies this
      ensures Valid() && Abs() == Broken(old(Abs()), m, page, a, d)
    {
      hide AllFormed, SpacesOf, Lookup, Map, Update, WithTable, SetEntry;
      EntryAt(datas, dirs, m, page);
      var entry := Lookup(dirs[m].pgdir, page);
      if entry.None? || a.Read? { return; }
      var e := entry.value;
      if a.Write? && !e.write { return; }
      assert BackedBy(datas, e);
      var data := datas[e.data].pages[e.index];
      if a.Ptrace? { e := e.(write := true, cow := true); }
      PutAt(datas, dirs, m, page, e);
      dirs := dirs[m := dirs[m].(pgdir := Update(WithTable(dirs[m].pgdir, page), page, Some(e)))];
      if e.cow { PtMap(m, page, d, [data], Flags(e.write, false, e.shared, e.grows)); }
    }

    /** mem_ptr_nofault. */
    method NoFault(m: MemId, page: nat, a: Access) returns (r: Option<Place>)
      requires Valid() && m in dirs && page < MEM_PAGES
      ensures r == Translate(Abs(), m, page, a)
    {
      hide AllFormed, WorldOf, Lookup;
      EntryAt(datas, dirs, m, page);
      var entry := Lookup(dirs[m].pgdir, page);
      if entry.None? || (a.Write? && !(entry.value.write && !entry.value.cow)) { return None; }
      r := Some(Place(entry.value.data, entry.value.index));
    }

    /** mem_ptr. */
    method MemPtr(m: MemId, page: nat, a: Access, d: DataId, d': DataId) returns (r: Option<Place>)
      requires Valid() && m in dirs && page < MEM_PAGES && Inv(Abs()) && Fresh(Abs(), d, d')
      modifies this
      ensures Valid() && Abs() == Resolve(old(Abs()), m, page, a, d, d')
      ensures r == Translate(Abs(), m, page, a)
      ensures old(Translate(Abs(), m, page, a)).None? || r == old(Translate(Abs(), m, page, a)) || a.Ptrace?
    {
      hide AllFormed, WorldOf, Inv, Grown, Broken;
      GrownInv(Abs(), m, page, d);
      GrownFresh(Abs(), m, page, d, d');
      ResolveStable(Abs(), m, page, a, d, d');
      Grow(m, page, d);
      InvBacked(Abs());
      Break(m, page, a, d');
      r := NoFault(m, page, a);
    }
  }

  lemma NoTable()
    ensures var g: Pgdir := seq(PGDIR_SIZE, _ => None); Formed(g) && TableOf(g) == map[]
  {
  }

  lemma InvBacked(w: World)
    requires Inv(w)
    ensures Backed(w)
  {
  }

  // Holes

  const HOLE_TOP: nat := 0xf7ffe
  const HOLE_BOTTOM: nat := 0x40001
  const BAD_PAGE: nat := 0x10000

  /** A range without mappings. */
  ghost predicate IsHole(w: World, m: MemId, start: nat, n: nat) { forall q: nat :: start <= q < start + n ==> !Mapped(w, m, q) }

  /** A place where pt_find_hole may put a mapping. */
  ghost predicate Candidate(w: World, m: MemId, start: nat, n: nat) {
    HOLE_BOTTOM <= start && start + n <= HOLE_TOP && n > 0 && IsHole(w, m, start, n)
  }

  lemma NextTable(q: nat)
    requires q < MEM_PAGES
    ensures q < (q - Bottom(q)) + PGDIR_SIZE <= MEM_PAGES
  {
    Split(q);
  }
}
