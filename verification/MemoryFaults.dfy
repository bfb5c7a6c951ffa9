/** mem_ptr as it really runs: it lets go of the read lock before it takes the write lock, so the
    copy of a copy-on-write page and the growth of a mapping are each two steps, with anything in
    between. What the second step does to memory, and exactly when that is harmless. */
module MemoryFaults {

  import opened Options
  import opened MemoryWorld
  import opened MemorySteps
  import opened MemoryMap
  import opened MemoryAccess
  import opened MemoryIsolation
  import opened MemoryDestroy
  import opened MemoryFork
  import opened MemoryRuns

  /** A fault on a page whose entry is, or becomes, copy-on-write. */
  predicate Copies(w: World, m: MemId, p: nat, a: Access) { Modifies(w, m, p, a) && (Entry(w, m, p).cow || a.Ptrace?) }

  /** The first step changes flags for ptrace and remembers where the page is. */
  function Begun(w: World, m: MemId, p: nat, a: Access): (r: World)
    requires Mapped(w, m, p)
    ensures r.spaces.Keys == w.spaces.Keys
  {
    SetEntry(w, m, p, Prepared(Entry(w, m, p), a))
  }

  function PlaceOf(w: World, m: MemId, p: nat): Place
    requires Mapped(w, m, p)
  {
    Place(Entry(w, m, p).data, Entry(w, m, p).index)
  }

  /** The remembered memory has not been given back to the host. */
  predicate Present(w: World, at: Place) { at.data in w.datas && at.index < |w.datas[at.data].pages| }

  function Held(w: World, at: Place): Bytes
    requires Present(w, at)
  {
    w.datas[at.data].pages[at.index]
  }

  /** The second step copies what is at the remembered place now, and maps the copy with the flags
      that the slot of the table has now. */
  function Finished(w: World, m: MemId, p: nat, at: Place, f: Flags, d: DataId): World
    requires m in w.spaces && Present(w, at)
  {
    Map(w, m, p, d, [Held(w, at)], f.(cow := false))
  }

  // With nothing in between

  /** Two steps with nothing in between are the one step of the other modules. */
  lemma FinishedAtOnce(w: World, m: MemId, p: nat, a: Access, d: DataId)
    requires Inv(w) && Copies(w, m, p, a)
    ensures var v := Begun(w, m, p, a);
            Present(v, PlaceOf(w, m, p)) && Finished(v, m, p, PlaceOf(w, m, p), FlagsOf(Entry(v, m, p)), d) == Broken(w, m, p, a, d)
  {
    hide Inv, Map;
    BackedAt(w, m, p);
  }

  // With anything in between

  /** The second step changes the one page, to what is at the remembered place. */
  lemma FinishedView(w: World, m: MemId, p: nat, at: Place, f: Flags, d: DataId, k: MemId, q: nat)
    requires Inv(w) && m in w.spaces && Present(w, at) && d !in w.datas
    ensures View(Finished(w, m, p, at, f, d), k, q) == if (k, q) == (m, p) then Some(Held(w, at)) else View(w, k, q)
  {
    hide Inv, Map, View;
    MapView(w, m, p, d, [Held(w, at)], f.(cow := false), k, q);
  }

  /** Nobody sees a change if and only if the page still holds what the remembered place holds. */
  lemma FinishedHarmless(w: World, m: MemId, p: nat, at: Place, f: Flags, d: DataId)
    requires Inv(w) && m in w.spaces && Present(w, at) && d !in w.datas
    ensures (forall k: MemId, q: nat :: View(Finished(w, m, p, at, f, d), k, q) == View(w, k, q)) <==> View(w, m, p) == Some(Held(w, at))
  {
    hide Inv, Finished, View, Held;
    forall k: MemId, q: nat { FinishedView(w, m, p, at, f, d, k, q); }
  }

  lemma {:induction false} RunStays(w: World, ops: seq<Op>, w': World, k: MemId, q: nat)
    requires Good(w) && Runs(w, ops, w') && CarefulRun(w, ops) && forall i :: 0 <= i < |ops| ==> !Names(ops[i], k, q)
    ensures (Mapped(w', k, q) <==> Mapped(w, k, q)) && (Mapped(w, k, q) ==> SamePage(Entry(w, k, q), Entry(w', k, q)))
    decreases |ops|
  {
    hide Inv, Live, Bounded, Apply, Enabled, Names, Careful;
    if ops != [] {
      StepGood(w, ops[0]);
      StepStays(w, ops[0], k, q);
      RunStays(Apply(w, ops[0]), ops[1..], w', k, q);
    }
  }

  /** Whatever else happens between the two steps, a fault is harmless, and still has its memory,
      if nothing else that happens names the page. */
  lemma FaultUndisturbed(w: World, m: MemId, p: nat, a: Access, ops: seq<Op>, w': World, f: Flags, d: DataId, k: MemId, q: nat)
    requires Good(w) && Copies(w, m, p, a)
    requires Runs(Begun(w, m, p, a), ops, w') && CarefulRun(Begun(w, m, p, a), ops) && forall i :: 0 <= i < |ops| ==> !Names(ops[i], m, p)
    requires d !in w'.datas
    ensures m in w'.spaces && Present(w', PlaceOf(w, m, p))
    ensures View(Finished(w', m, p, PlaceOf(w, m, p), f, d), k, q) == View(w', k, q)
  {
    hide Inv, Live, Bounded, Runs, CarefulRun, Names, Finished, SameBacking;
    var v := Begun(w, m, p, a);
    BegunGood(w, m, p, a);
    RunGood(v, ops, w');
    RunStays(v, ops, w', m, p);
    BackedAt(w', m, p);
    FinishedView(w', m, p, PlaceOf(w, m, p), f, d, k, q);
  }

  lemma BegunGood(w: World, m: MemId, p: nat, a: Access)
    requires Good(w) && Mapped(w, m, p)
    ensures Good(Begun(w, m, p, a)) && Mapped(Begun(w, m, p, a), m, p) && PlaceOf(Begun(w, m, p, a), m, p) == PlaceOf(w, m, p)
  {
    hide Inv;
    PreparedInv(w, m, p, a);
    SameBounded(w, Begun(w, m, p, a));
  }

  // When another thread has the same fault

  lemma UnmapPages(w: World, m: MemId, p: nat, x: DataId)
    requires m in w.spaces
    ensures var w' := UnmapAlways(w, m, p, 1); x in w'.datas ==> x in w.datas && w'.datas[x].pages == w.datas[x].pages
  {
    assert UnmapRange(w, m, p, 0) == w;
    assert UnmapRange(w, m, p, 1) == UnmapPage(w, m, p);
  }

  /** Mapping a page writes to no memory but its own. */
  lemma MapOnePages(w: World, m: MemId, p: nat, d: DataId, page: Bytes, f: Flags, x: DataId)
    requires m in w.spaces && x != d
    ensures var w' := Map(w, m, p, d, [page], f); x in w'.datas ==> x in w.datas && w'.datas[x].pages == w.datas[x].pages
  {
    hide UnmapAlways;
    var v := Allocate(w, d, [page]);
    assert MapRange(v, m, p, 0, d, f) == v;
    assert MapRange(v, m, p, 1, d, f) == PutPage(v, m, p, At(d, 0, f));
    UnmapPages(v, m, p, x);
  }

  /** Some other entry leads to the same object. */
  ghost predicate HeldElsewhere(w: World, m: MemId, p: nat)
    requires Mapped(w, m, p)
  {
    exists k: MemId, q: nat :: (k, q) != (m, p) && Mapped(w, k, q) && Entry(w, k, q).data == Entry(w, m, p).data
  }

  /** Another thread's write to the page moves it to new memory. */
  lemma MovedAway(w: World, m: MemId, p: nat, off: nat, b: int, d: DataId, d': DataId)
    requires Good(w) && Copies(w, m, p, Write) && Fresh(w, d, d') && p < MEM_PAGES
    ensures var w' := WriteByte(w, m, p, off, b, d, d');
            && Mapped(w', m, p) && Entry(w', m, p).data == d'
            && (forall k: MemId, q: nat | (k, q) != (m, p) :: (Mapped(w', k, q) <==> Mapped(w, k, q)) && (Mapped(w, k, q) ==> Entry(w', k, q) == Entry(w, k, q)))
  {
    hide Inv, Live, Bounded, Grown, Broken, Store;
    GrownEntry(w, m, p, d);
    BrokenEntry(w, m, p, Write, d');
    var v := Resolve(w, m, p, Write, d, d');
    StoreEntries(v, Place(d', 0), off, b);
    forall k: MemId, q: nat | (k, q) != (m, p) ensures
      var w' := WriteByte(w, m, p, off, b, d, d');
      (Mapped(w', k, q) <==> Mapped(w, k, q)) && (Mapped(w, k, q) ==> Entry(w', k, q) == Entry(w, k, q))
    {
      ResolveOther(w, m, p, Write, d, d', k, q);
    }
  }

  lemma WritePages(w: World, m: MemId, p: nat, off: nat, b: int, d: DataId, d': DataId, x: DataId)
    requires Good(w) && Copies(w, m, p, Write) && Fresh(w, d, d') && x in w.datas
    ensures var w' := WriteByte(w, m, p, off, b, d, d'); x in w'.datas ==> w'.datas[x].pages == w.datas[x].pages
  {
    hide Inv, Live, Bounded, Map, View;
    GrownEntry(w, m, p, d);
    BackedAt(w, m, p);
    BrokenEntry(w, m, p, Write, d');
    var e := Entry(w, m, p);
    MapOnePages(SetEntry(w, m, p, e), m, p, d', View(w, m, p).value, Flags(e.write, false, e.shared, e.grows), x);
  }

  /** Two threads of one process write to a copy-on-write page at once: one has begun its fault, the
      other faults and writes, and the first finishes. It reads memory that is gone unless some
      other entry still holds it. If one does, the page is back to what it was before the write. */
  lemma WriteLost(w: World, m: MemId, p: nat, off: nat, b: int, d: DataId, d': DataId, f: Flags, c: DataId)
    requires Good(w) && Copies(w, m, p, Write) && Enabled(w, WriteOp(m, p, off, b, d, d')) && c !in WriteByte(w, m, p, off, b, d, d').datas
    ensures var w', at := WriteByte(w, m, p, off, b, d, d'), PlaceOf(w, m, p);
            && m in w'.spaces
            && (Present(w', at) <==> HeldElsewhere(w, m, p))
            && (Present(w', at) ==> View(Finished(w', m, p, at, f, c), m, p) == View(w, m, p))
  {
    hide Inv, Live, Bounded, WriteByte, View, Finished;
    var w', at := WriteByte(w, m, p, off, b, d, d'), PlaceOf(w, m, p);
    BackedAt(w, m, p);
    MovedAway(w, m, p, off, b, d, d');
    WritePages(w, m, p, off, b, d, d', at.data);
    StepGood(w, WriteOp(m, p, off, b, d, d'));
    AliveIff(w', at.data);
    if Present(w', at) { FinishedView(w', m, p, at, f, c, m, p); }
  }

  lemma AliveIff(w: World, x: DataId)
    requires Good(w)
    ensures x in w.datas <==> exists m: MemId, p: nat :: Mapped(w, m, p) && Entry(w, m, p).data == x
  {
    hide Counted, Backed, Live, Bounded;
    KeptWhileReferenced(w, [], w, x);
  }

  /** What is then left of the write: nothing, unless it wrote what was there. */
  lemma WriteLostExactly(w: World, m: MemId, p: nat, off: nat, b: int, d: DataId, d': DataId, f: Flags, c: DataId)
    requires Good(w) && Copies(w, m, p, Write) && Enabled(w, WriteOp(m, p, off, b, d, d')) && c !in WriteByte(w, m, p, off, b, d, d').datas
    requires HeldElsewhere(w, m, p)
    ensures var w', at := WriteByte(w, m, p, off, b, d, d'), PlaceOf(w, m, p);
            && Present(w', at) && m in w'.spaces && View(w, m, p).Some?
            && (View(Finished(w', m, p, at, f, c), m, p) == View(w', m, p) <==> off >= |View(w, m, p).value| || View(w, m, p).value[off] == b)
  {
    hide Inv, Live, Bounded, WriteByte, View, Finished, HeldElsewhere, Resolve;
    WriteLost(w, m, p, off, b, d, d', f, c);
    BackedAt(w, m, p);
    WriteSeen(w, m, p, off, b, d, d', m, p);
    var page := View(w, m, p).value;
    assert off < |page| ==> page[off := b][off] == b && (page[off] == b ==> page[off := b] == page);
  }

  // Growth

  /** The second step of a growth maps a page of zeros. If nothing between the two steps named the
      page it was still free, so only the new page appears. */
  lemma GrowthUndisturbed(w: World, m: MemId, p: nat, ops: seq<Op>, w': World, d: DataId, k: MemId, q: nat)
    requires Good(w) && Grows(w, m, p) && Runs(w, ops, w') && CarefulRun(w, ops) && forall i :: 0 <= i < |ops| ==> !Names(ops[i], m, p)
    requires m in w'.spaces && d !in w'.datas
    ensures View(w', m, p) == None
    ensures View(Map(w', m, p, d, [Zeros()], Flags(true, false, false, true)), k, q) == if (k, q) == (m, p) then Some(Zeros()) else View(w', k, q)
  {
    hide Inv, Live, Bounded, Runs, CarefulRun, Names, Map, Zeros;
    RunGood(w, ops, w');
    RunStays(w, ops, w', m, p);
    MapView(w', m, p, d, [Zeros()], Flags(true, false, false, true), k, q);
  }

  /** After another thread has grown the mapping by the same page and written a byte to it, the
      second growth keeps that byte if and only if it is zero. */
  lemma GrowthLost(w: World, m: MemId, p: nat, off: nat, b: int, d: DataId, d': DataId, c: DataId)
    requires Good(w) && Grows(w, m, p) && Fresh(w, d, d') && off < PAGE_SIZE && c !in WriteByte(w, m, p, off, b, d, d').datas
    ensures var w' := WriteByte(w, m, p, off, b, d, d');
            && m in w'.spaces
            && (View(Map(w', m, p, c, [Zeros()], Flags(true, false, false, true)), m, p) == View(w', m, p) <==> b == 0)
  {
    hide Inv, Live, Bounded, Map, View, Resolve;
    var w' := WriteByte(w, m, p, off, b, d, d');
    WriteInv(w, m, p, off, b, d, d');
    WriteSeen(w, m, p, off, b, d, d', m, p);
    MapView(w', m, p, c, [Zeros()], Flags(true, false, false, true), m, p);
    assert Zeros()[off] == 0;
    if b == 0 { assert Zeros()[off := b] == Zeros(); }
  }
}
