/** Address spaces and the host memory behind them (kernel/memory.c), as values: the page
    tables of all address spaces and the reference-counted backing objects they share. */
module MemoryWorld {

  type MemId = nat
  type DataId = nat
  type Bytes = seq<int>   // the contents of one page

  /** A page-table entry: which page of which backing object, and the flags P_WRITE, P_COW,
      P_SHARED and P_GROWSDOWN. */
  datatype Pte = Pte(data: DataId, index: nat, write: bool, cow: bool, shared: bool, grows: bool)

  /** struct data, with the host memory it owns. */
  datatype Data = Data(refcount: int, pages: seq<Bytes>)

  datatype Space = Space(table: map<nat, Pte>, changes: nat)

  datatype World = World(datas: map<DataId, Data>, spaces: map<MemId, Space>)

  predicate Mapped(w: World, m: MemId, p: nat) { m in w.spaces && p in w.spaces[m].table }

  function Entry(w: World, m: MemId, p: nat): Pte
    requires Mapped(w, m, p)
  {
    w.spaces[m].table[p]
  }

  // Steps on single entries

  function SetTable(w: World, m: MemId, table: map<nat, Pte>): (r: World)
    requires m in w.spaces
    ensures r.spaces.Keys == w.spaces.Keys && r.datas == w.datas
  {
    w.(spaces := w.spaces[m := w.spaces[m].(table := table)])
  }

  function SetEntry(w: World, m: MemId, p: nat, e: Pte): (r: World)
    requires m in w.spaces
    ensures r.spaces.Keys == w.spaces.Keys
  {
    SetTable(w, m, w.spaces[m].table[p := e])
  }

  /** One more reference to a backing object. */
  function Retain(datas: map<DataId, Data>, d: DataId): map<DataId, Data> {
    if d in datas then datas[d := datas[d].(refcount := datas[d].refcount + 1)] else datas
  }

  /** One reference less; giving up the last one releases the memory. */
  function Release(datas: map<DataId, Data>, d: DataId): map<DataId, Data> {
    if d !in datas then datas
    else if datas[d].refcount - 1 == 0 then datas - {d}
    else datas[d := datas[d].(refcount := datas[d].refcount - 1)]
  }

  /** One round of pt_unmap_always. */
  function UnmapPage(w: World, m: MemId, p: nat): (r: World)
    requires m in w.spaces
    ensures r.spaces.Keys == w.spaces.Keys
  {
    if Mapped(w, m, p) then SetTable(w, m, w.spaces[m].table - {p}).(datas := Release(w.datas, Entry(w, m, p).data)) else w
  }

  /** A new entry, with its reference. */
  function MapPage(w: World, m: MemId, p: nat, e: Pte): (r: World)
    requires m in w.spaces
    ensures r.spaces.Keys == w.spaces.Keys
  {
    SetEntry(w, m, p, e).(datas := Retain(w.datas, e.data))
  }

  /** mem_changed. */
  function Changed(w: World, m: MemId): (r: World)
    requires m in w.spaces
    ensures r.spaces.Keys == w.spaces.Keys
  {
    w.(spaces := w.spaces[m := w.spaces[m].(changes := w.spaces[m].changes + 1)])
  }

  /** A backing object without references, as pt_map makes it first. */
  function Allocate(w: World, d: DataId, pages: seq<Bytes>): World { w.(datas := w.datas[d := Data(0, pages)]) }

  // Conservation

  /** The entries, over all address spaces, that point at a backing object. */
  ghost function Refs(w: World, d: DataId): set<(MemId, nat)> {
    set m, p | m in w.spaces && p in w.spaces[m].table && w.spaces[m].table[p].data == d :: (m, p)
  }

  ghost predicate CountedAt(w: World, d: DataId) { d in w.datas ==> w.datas[d].refcount == |Refs(w, d)| }

  /** Every backing object counts exactly the entries that point at it. */
  ghost predicate Counted(w: World) { forall d :: CountedAt(w, d) }

  predicate BackedBy(datas: map<DataId, Data>, e: Pte) { e.data in datas && e.index < |datas[e.data].pages| }

  /** Every entry points at memory that has not been released. */
  ghost predicate Backed(w: World) { forall m: MemId, p: nat :: Mapped(w, m, p) ==> BackedBy(w.datas, Entry(w, m, p)) }

  ghost predicate Conserved(w: World) { Counted(w) && Backed(w) }

  lemma RefsDropped(w: World, m: MemId, p: nat, d: DataId)
    requires Mapped(w, m, p)
    ensures Refs(UnmapPage(w, m, p), d) == if d == Entry(w, m, p).data then Refs(w, d) - {(m, p)} else Refs(w, d)
  {
  }

  lemma RefsAdded(w: World, m: MemId, p: nat, e: Pte, d: DataId)
    requires m in w.spaces && !Mapped(w, m, p)
    ensures Refs(MapPage(w, m, p, e), d) == if d == e.data then Refs(w, d) + {(m, p)} else Refs(w, d)
  {
  }

  /** What the reference sets depend on. */
  lemma RefsSame(w: World, w': World, d: DataId)
    requires forall m: MemId, p: nat :: Mapped(w, m, p) <==> Mapped(w', m, p)
    requires forall m: MemId, p: nat :: Mapped(w, m, p) ==> Entry(w, m, p).data == Entry(w', m, p).data
    ensures Refs(w, d) == Refs(w', d)
  {
    forall m: MemId, p: nat ensures (m, p) in Refs(w, d) <==> (m, p) in Refs(w', d) {
      assert Mapped(w, m, p) <==> Mapped(w', m, p);
    }
  }

  lemma UnmapCountedAt(w: World, m: MemId, p: nat, d: DataId)
    requires CountedAt(w, d) && Mapped(w, m, p)
    ensures CountedAt(UnmapPage(w, m, p), d)
  {
    hide SetTable;
    RefsDropped(w, m, p, d);
    assert d == Entry(w, m, p).data ==> (m, p) in Refs(w, d);
  }

  lemma UnmapCounted(w: World, m: MemId, p: nat)
    requires Counted(w) && m in w.spaces
    ensures Counted(UnmapPage(w, m, p))
  {
    hide UnmapPage, CountedAt;
    if Mapped(w, m, p) {
      forall d ensures CountedAt(UnmapPage(w, m, p), d) { UnmapCountedAt(w, m, p, d); }
    } else {
      NotMapped(w, m, p);
    }
  }

  lemma NotMapped(w: World, m: MemId, p: nat)
    requires m in w.spaces && !Mapped(w, m, p)
    ensures UnmapPage(w, m, p) == w
  {
  }

  lemma UnmapBacked(w: World, m: MemId, p: nat)
    requires Conserved(w) && m in w.spaces
    ensures Backed(UnmapPage(w, m, p))
  {
    if Mapped(w, m, p) {
      var w' := UnmapPage(w, m, p);
      forall n: MemId, q: nat | Mapped(w', n, q) ensures BackedBy(w'.datas, Entry(w', n, q)) {
        StillMapped(w, m, p, n, q);
        if Entry(w, n, q).data == Entry(w, m, p).data { SharedCount(w, m, p, n, q); }
      }
    }
  }

  lemma StillMapped(w: World, m: MemId, p: nat, n: MemId, q: nat)
    requires Mapped(w, m, p) && Mapped(UnmapPage(w, m, p), n, q)
    ensures (n, q) != (m, p) && Mapped(w, n, q) && Entry(w, n, q) == Entry(UnmapPage(w, m, p), n, q)
  {
  }

  lemma SharedCount(w: World, m: MemId, p: nat, n: MemId, q: nat)
    requires Counted(w) && Mapped(w, m, p) && Mapped(w, n, q) && (m, p) != (n, q)
    requires Entry(w, m, p).data == Entry(w, n, q).data && Entry(w, m, p).data in w.datas
    ensures w.datas[Entry(w, m, p).data].refcount >= 2
  {
    var s := Refs(w, Entry(w, m, p).data);
    assert CountedAt(w, Entry(w, m, p).data);
    assert (m, p) in s && (n, q) in s;
    var t := s - {(m, p)};
    assert (n, q) in t;
    assert s == t + {(m, p)};
  }

  lemma UnmapConserves(w: World, m: MemId, p: nat)
    requires Conserved(w) && m in w.spaces
    ensures Conserved(UnmapPage(w, m, p))
  {
    UnmapCounted(w, m, p);
    UnmapBacked(w, m, p);
  }

  lemma MapCounted(w: World, m: MemId, p: nat, e: Pte)
    requires Counted(w) && m in w.spaces && !Mapped(w, m, p)
    ensures Counted(MapPage(w, m, p, e))
  {
    forall d ensures CountedAt(MapPage(w, m, p, e), d) {
      assert CountedAt(w, d);
      RefsAdded(w, m, p, e, d);
      assert (m, p) !in Refs(w, d);
    }
  }

  lemma MapBacked(w: World, m: MemId, p: nat, e: Pte)
    requires Backed(w) && m in w.spaces && BackedBy(w.datas, e)
    ensures Backed(MapPage(w, m, p, e))
  {
    var w' := MapPage(w, m, p, e);
    forall n: MemId, q: nat | Mapped(w', n, q) ensures BackedBy(w'.datas, Entry(w', n, q)) {
      assert (n, q) == (m, p) || (Mapped(w, n, q) && Entry(w, n, q) == Entry(w', n, q));
    }
  }

  lemma MapConserves(w: World, m: MemId, p: nat, e: Pte)
    requires Conserved(w) && m in w.spaces && !Mapped(w, m, p) && BackedBy(w.datas, e)
    ensures Conserved(MapPage(w, m, p, e))
  {
    MapCounted(w, m, p, e);
    MapBacked(w, m, p, e);
  }

  /** A step that moves no entry to other memory and keeps the memory. */
  ghost predicate SameBacking(w: World, w': World) {
    && w'.datas == w.datas
    && (forall m: MemId, p: nat :: Mapped(w, m, p) <==> Mapped(w', m, p))
    && (forall m: MemId, p: nat :: Mapped(w, m, p) ==> SamePage(Entry(w, m, p), Entry(w', m, p)))
  }

  predicate SamePage(e: Pte, f: Pte) { e.data == f.data && e.index == f.index }

  lemma SameConserves(w: World, w': World)
    requires Conserved(w) && SameBacking(w, w')
    ensures Conserved(w')
  {
    forall d ensures CountedAt(w', d) {
      assert CountedAt(w, d);
      RefsSame(w, w', d);
    }
    forall m: MemId, p: nat | Mapped(w', m, p) ensures BackedBy(w'.datas, Entry(w', m, p)) {
      assert Mapped(w, m, p) && BackedBy(w.datas, Entry(w, m, p)) && SamePage(Entry(w, m, p), Entry(w', m, p));
    }
  }

  lemma FlagsSame(w: World, m: MemId, p: nat, e: Pte)
    requires Mapped(w, m, p) && SamePage(Entry(w, m, p), e)
    ensures SameBacking(w, SetEntry(w, m, p, e))
  {
  }

  lemma ChangedSame(w: World, m: MemId)
    requires m in w.spaces
    ensures SameBacking(w, Changed(w, m))
  {
  }

  lemma NoRefs(w: World, d: DataId)
    requires Backed(w) && d !in w.datas
    ensures Refs(w, d) == {}
  {
    forall m: MemId, p: nat | Mapped(w, m, p) ensures Entry(w, m, p).data != d { assert BackedBy(w.datas, Entry(w, m, p)); }
    forall m: MemId, p: nat ensures (m, p) !in Refs(w, d) { assert Mapped(w, m, p) ==> Entry(w, m, p).data != d; }
    assert forall r :: r !in Refs(w, d) by {
      forall r ensures r !in Refs(w, d) { assert (r.0, r.1) == r; }
    }
  }

  lemma AllocateConserves(w: World, d: DataId, pages: seq<Bytes>)
    requires Conserved(w) && d !in w.datas
    ensures Conserved(Allocate(w, d, pages))
  {
    var w' := Allocate(w, d, pages);
    NoRefs(w, d);
    forall x ensures CountedAt(w', x) {
      assert CountedAt(w, x);
      RefsSame(w, w', x);
    }
    forall m: MemId, p: nat | Mapped(w', m, p) ensures BackedBy(w'.datas, Entry(w', m, p)) {
      assert Mapped(w, m, p) && BackedBy(w.datas, Entry(w, m, p));
    }
  }
}
