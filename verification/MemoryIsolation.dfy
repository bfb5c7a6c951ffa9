/** What the flags of an entry promise: a write through mem_ptr to a private page is seen by
    nobody else. And what changing the flags of mapped pages (pt_set_flags) does to that. */
module MemoryIsolation {

  import opened Options
  import opened MemoryWorld
  import opened MemorySteps
  import opened MemoryMap
  import opened MemoryFork
  import opened MemoryAccess

  // The pointer that mem_ptr returns

  lemma BrokenEntry(w: World, m: MemId, p: nat, a: Access, d: DataId)
    requires Inv(w) && Mapped(w, m, p)
    ensures var w' := Broken(w, m, p, a, d);
            && Mapped(w', m, p)
            && Entry(w', m, p).shared == Entry(w, m, p).shared
            && Entry(w', m, p).write == (Entry(w, m, p).write || a.Ptrace?)
            && (Modifies(w, m, p, a) && (Entry(w, m, p).cow || a.Ptrace?) ==> SamePage(Entry(w', m, p), At(d, 0, FlagsOf(Entry(w', m, p)))))
            && (!(Modifies(w, m, p, a) && (Entry(w, m, p).cow || a.Ptrace?)) ==> Entry(w', m, p) == Entry(w, m, p))
            && (Modifies(w, m, p, a) ==> !Entry(w', m, p).cow)
  {
    hide Inv, Map, View;
    BackedAt(w, m, p);
    if Modifies(w, m, p, a) {
      var e := Prepared(Entry(w, m, p), a);
      var v := SetEntry(w, m, p, e);
      if e.cow { MapOneEntry(v, m, p, d, View(w, m, p).value, Flags(e.write, false, e.shared, e.grows)); }
    }
  }

  lemma GrownEntry(w: World, m: MemId, p: nat, d: DataId)
    ensures var w' := Grown(w, m, p, d);
            && (Mapped(w', m, p) <==> Mapped(w, m, p) || Grows(w, m, p))
            && (Mapped(w, m, p) ==> w' == w)
            && (Grows(w, m, p) ==> Entry(w', m, p) == At(d, 0, Flags(true, false, false, true)))
  {
    hide Map, Zeros;
    if Grows(w, m, p) { MapOneEntry(w, m, p, d, Zeros(), Flags(true, false, false, true)); }
  }

  /** mem_ptr succeeds exactly on mapped pages, writable ones for a plain write, and on pages
      below a mapping that grows down. */
  lemma ResolveSucceeds(w: World, m: MemId, p: nat, a: Access, d: DataId, d': DataId)
    requires Inv(w) && Fresh(w, d, d')
    ensures Translate(Resolve(w, m, p, a, d, d'), m, p, a).Some? <==>
            Grows(w, m, p) || (Mapped(w, m, p) && (a.Write? ==> Entry(w, m, p).write))
  {
    hide Inv, Grown, Broken, Grows;
    GrownEntry(w, m, p, d);
    GrownInv(w, m, p, d);
    var v := Grown(w, m, p, d);
    if Mapped(v, m, p) { BrokenEntry(v, m, p, a, d'); } else { UnmappedStays(v, m, p, a, d'); }
  }

  lemma UnmappedStays(w: World, m: MemId, p: nat, a: Access, d: DataId)
    requires !Mapped(w, m, p)
    ensures Broken(w, m, p, a, d) == w
  {
  }

  /** The assertion at the end of mem_ptr: a pointer that was good before the call is the one
      returned, except for a debugger's write. */
  lemma ResolveStable(w: World, m: MemId, p: nat, a: Access, d: DataId, d': DataId)
    requires Inv(w) && Fresh(w, d, d')
    ensures Translate(w, m, p, a).None? || Translate(Resolve(w, m, p, a, d, d'), m, p, a) == Translate(w, m, p, a) || a.Ptrace?
  {
    hide Inv, Grown, Broken, Grows;
    if Translate(w, m, p, a).Some? {
      GrownEntry(w, m, p, d);
      BrokenEntry(w, m, p, a, d');
    }
  }

  // Writing

  /** No other entry leads to the same memory. */
  ghost predicate Sole(w: World, m: MemId, p: nat)
    requires Mapped(w, m, p)
  {
    forall n: MemId, q: nat :: Mapped(w, n, q) && SamePage(Entry(w, n, q), Entry(w, m, p)) ==> (n, q) == (m, p)
  }

  /** A writable entry that is neither copy-on-write nor shared is the only one on its page. */
  lemma PrivateIsSole(w: World, m: MemId, p: nat)
    requires Isolated(w) && Mapped(w, m, p) && !Entry(w, m, p).cow && !Entry(w, m, p).shared
    ensures Sole(w, m, p)
  {
    forall n: MemId, q: nat | Mapped(w, n, q) && SamePage(Entry(w, n, q), Entry(w, m, p)) ensures (n, q) == (m, p) {
      assert Apart(w, m, p, n, q);
    }
  }

  lemma StoreEntries(w: World, at: Place, off: nat, b: int)
    ensures Store(w, at, off, b).spaces == w.spaces && Store(w, at, off, b).datas.Keys == w.datas.Keys
    ensures forall d :: d in w.datas ==> Store(w, at, off, b).datas[d].refcount == w.datas[d].refcount
    ensures forall d :: d in w.datas ==> |Store(w, at, off, b).datas[d].pages| == |w.datas[d].pages|
  {
  }

  lemma StoreInv(w: World, at: Place, off: nat, b: int)
    requires Inv(w)
    ensures Inv(Store(w, at, off, b))
  {
    hide Store;
    StoreEntries(w, at, off, b);
    var w' := Store(w, at, off, b);
    forall d ensures CountedAt(w', d) { assert CountedAt(w, d); RefsSame(w, w', d); }
    forall m: MemId, p: nat | Mapped(w', m, p) ensures BackedBy(w'.datas, Entry(w', m, p)) { assert BackedBy(w.datas, Entry(w, m, p)); }
    forall n: MemId, q: nat, k: MemId, r: nat | Mapped(w', n, q) && Mapped(w', k, r) ensures Apart(w', n, q, k, r) { assert Apart(w, n, q, k, r); }
  }

  predicate On(w: World, m: MemId, p: nat, at: Place) { Mapped(w, m, p) && Entry(w, m, p).data == at.data && Entry(w, m, p).index == at.index }

  function Updated(page: Option<Bytes>, off: nat, b: int): Option<Bytes> {
    if page.Some? && off < |page.value| then Some(page.value[off := b]) else page
  }

  lemma StoreView(w: World, at: Place, off: nat, b: int, k: MemId, q: nat)
    ensures View(Store(w, at, off, b), k, q) == if On(w, k, q, at) then Updated(View(w, k, q), off, b) else View(w, k, q)
  {
  }

  /** mem_ptr for writing, then the write. */
  function WriteByte(w: World, m: MemId, p: nat, off: nat, b: int, d: DataId, d': DataId): World {
    var v := Resolve(w, m, p, Write, d, d');
    match Translate(v, m, p, Write)
    case None => v
    case Some(at) => Store(v, at, off, b)
  }

  lemma WriteInv(w: World, m: MemId, p: nat, off: nat, b: int, d: DataId, d': DataId)
    requires Inv(w) && Fresh(w, d, d')
    ensures Inv(WriteByte(w, m, p, off, b, d, d'))
  {
    hide Inv, Resolve, Store, Translate;
    ResolveInv(w, m, p, Write, d, d');
    var v := Resolve(w, m, p, Write, d, d');
    if Translate(v, m, p, Write).Some? { StoreInv(v, Translate(v, m, p, Write).value, off, b); }
  }

  /** Memory that an access just gave to a page belongs to it alone. */
  lemma BrokenSole(w: World, m: MemId, p: nat, a: Access, d: DataId)
    requires Inv(w) && d !in w.datas && Modifies(w, m, p, a) && (Entry(w, m, p).cow || a.Ptrace?)
    ensures Mapped(Broken(w, m, p, a, d), m, p) && Sole(Broken(w, m, p, a, d), m, p)
  {
    hide Inv, Map, SetEntry, SameBacking, View, Placed;
    var w', e := Broken(w, m, p, a, d), Prepared(Entry(w, m, p), a);
    BackedAt(w, m, p);
    PreparedInv(w, m, p, a);
    var v := SetEntry(w, m, p, e);
    SameMapped(w, v, m, p);
    MapInv(v, m, p, d, [View(w, m, p).value], Flags(e.write, false, e.shared, e.grows));
    BrokenEntry(w, m, p, a, d);
    PlacedSole(w', m, p, d);
  }

  lemma PlacedSole(w: World, m: MemId, p: nat, d: DataId)
    requires Placed(w, m, p, 1, d) && Mapped(w, m, p) && Entry(w, m, p).data == d
    ensures Sole(w, m, p)
  {
  }

  /** A write lands on a writable page, or on one that the access adds. */
  predicate Lands(w: World, m: MemId, p: nat) { Grows(w, m, p) || (Mapped(w, m, p) && Entry(w, m, p).write) }

  /** Who else sees a write to a page: the other entries of a shared mapping. */
  predicate SeenAt(w: World, m: MemId, p: nat, k: MemId, q: nat) {
    && Mapped(w, m, p) && Entry(w, m, p).shared && !Entry(w, m, p).cow
    && Mapped(w, k, q) && SamePage(Entry(w, k, q), Entry(w, m, p))
  }

  /** The page that a successful write lands on is one that exactly the right entries lead to. */
  lemma ResolvedOn(w: World, m: MemId, p: nat, d: DataId, d': DataId, k: MemId, q: nat)
    requires Inv(w) && Fresh(w, d, d') && Lands(w, m, p)
    ensures var v := Resolve(w, m, p, Write, d, d');
            && Mapped(v, m, p) && Writable(Entry(v, m, p))
            && (On(v, k, q, Place(Entry(v, m, p).data, Entry(v, m, p).index)) <==> (k, q) == (m, p) || SeenAt(w, m, p, k, q))
  {
    hide Inv, Grown, Broken, Grows;
    GrownEntry(w, m, p, d);
    GrownInv(w, m, p, d);
    GrownFresh(w, m, p, d, d');
    var u := Grown(w, m, p, d);
    var v := Broken(u, m, p, Write, d');
    BrokenEntry(u, m, p, Write, d');
    BrokenInv(u, m, p, Write, d');
    if Entry(u, m, p).cow {
      BrokenSole(u, m, p, Write, d');
    } else {
      InPlace(u, m, p, d');
      if !Entry(v, m, p).shared { SoleOfInv(v, m, p); }
    }
  }

  lemma SoleOfInv(w: World, m: MemId, p: nat)
    requires Inv(w) && Mapped(w, m, p) && !Entry(w, m, p).cow && !Entry(w, m, p).shared
    ensures Sole(w, m, p)
  {
    PrivateIsSole(w, m, p);
  }

  lemma InPlace(w: World, m: MemId, p: nat, d: DataId)
    requires Mapped(w, m, p) && !Entry(w, m, p).cow
    ensures Broken(w, m, p, Write, d) == w
  {
    var s := w.spaces[m];
    assert s.table[p := s.table[p]] == s.table;
    assert w.spaces[m := s] == w.spaces;
    assert SetEntry(w, m, p, Entry(w, m, p)) == w;
  }

  function Before(w: World, m: MemId, p: nat, k: MemId, q: nat): Option<Bytes> {
    if (k, q) == (m, p) && Grows(w, m, p) then Some(Zeros()) else View(w, k, q)
  }

  /** A write through mem_ptr changes one byte of the page it names, also where a shared mapping
      leads to it, and nothing else that anybody can see. */
  lemma WriteSeen(w: World, m: MemId, p: nat, off: nat, b: int, d: DataId, d': DataId, k: MemId, q: nat)
    requires Inv(w) && Fresh(w, d, d')
    ensures View(WriteByte(w, m, p, off, b, d, d'), k, q) ==
            if Lands(w, m, p) && ((k, q) == (m, p) || SeenAt(w, m, p, k, q)) then Updated(Before(w, m, p, k, q), off, b)
            else View(w, k, q)
  {
    hide Inv, Resolve, Store, View, Grows, Zeros, SeenAt;
    var v := Resolve(w, m, p, Write, d, d');
    ResolveView(w, m, p, Write, d, d', k, q);
    ResolveSucceeds(w, m, p, Write, d, d');
    if Lands(w, m, p) {
      ResolvedOn(w, m, p, d, d', k, q);
      StoreView(v, Place(Entry(v, m, p).data, Entry(v, m, p).index), off, b, k, q);
    }
  }

  // pt_set_flags

  function FlagPage(w: World, m: MemId, p: nat, write: bool): (r: World)
    requires m in w.spaces
    ensures r.spaces.Keys == w.spaces.Keys
  {
    if Mapped(w, m, p) then SetEntry(w, m, p, At(Entry(w, m, p).data, Entry(w, m, p).index, Flags(write, false, false, false))) else w
  }

  function FlagRange(w: World, m: MemId, start: nat, n: nat, write: bool): (r: World)
    requires m in w.spaces
    ensures r.spaces.Keys == w.spaces.Keys
  {
    if n == 0 then w else FlagPage(FlagRange(w, m, start, n - 1, write), m, start + n - 1, write)
  }

  /** The whole flag word is replaced, and nothing happens unless all pages are mapped. */
  function SetFlags(w: World, m: MemId, start: nat, n: nat, write: bool): (r: World)
    requires m in w.spaces
  {
    if forall p: nat :: start <= p < start + n ==> Mapped(w, m, p) then Changed(FlagRange(w, m, start, n, write), m) else w
  }

  predicate Within(m: MemId, start: nat, n: nat, k: MemId, q: nat) { k == m && start <= q < start + n }

  lemma {:induction false} FlagRangeEntries(w: World, m: MemId, start: nat, n: nat, write: bool, k: MemId, q: nat)
    requires m in w.spaces
    ensures var w' := FlagRange(w, m, start, n, write);
            && w'.datas == w.datas
            && (Mapped(w', k, q) <==> Mapped(w, k, q))
            && (Mapped(w, k, q) && !Within(m, start, n, k, q) ==> Entry(w', k, q) == Entry(w, k, q))
            && (Mapped(w, k, q) && Within(m, start, n, k, q) ==>
                  Entry(w', k, q) == At(Entry(w, k, q).data, Entry(w, k, q).index, Flags(write, false, false, false)))
  {
    if n > 0 { FlagRangeEntries(w, m, start, n - 1, write, k, q); }
  }

  lemma SetFlagsEntries(w: World, m: MemId, start: nat, n: nat, write: bool, k: MemId, q: nat)
    requires m in w.spaces && forall p: nat :: start <= p < start + n ==> Mapped(w, m, p)
    ensures var w' := SetFlags(w, m, start, n, write);
            && w'.datas == w.datas
            && (Mapped(w', k, q) <==> Mapped(w, k, q))
            && (Mapped(w, k, q) && !Within(m, start, n, k, q) ==> Entry(w', k, q) == Entry(w, k, q))
            && (Mapped(w, k, q) && Within(m, start, n, k, q) ==>
                  Entry(w', k, q) == At(Entry(w, k, q).data, Entry(w, k, q).index, Flags(write, false, false, false)))
  {
    FlagRangeEntries(w, m, start, n, write, k, q);
  }

  /** Changing protection keeps private pages isolated exactly when no page in the range has
      memory in common with any other entry; copy-on-write pages after a fork do. */
  lemma SetFlagsIsolates(w: World, m: MemId, start: nat, n: nat, write: bool)
    requires Inv(w) && m in w.spaces && forall p: nat :: start <= p < start + n ==> Mapped(w, m, p)
    ensures Isolated(SetFlags(w, m, start, n, write)) <==> forall p: nat :: start <= p < start + n ==> Sole(w, m, p)
  {
    hide Conserved, SetFlags;
    var w' := SetFlags(w, m, start, n, write);
    forall k: MemId, q: nat { SetFlagsEntries(w, m, start, n, write, k, q); }
    if Isolated(w') {
      forall p: nat | start <= p < start + n ensures Sole(w, m, p) {
        forall k: MemId, q: nat | Mapped(w, k, q) && SamePage(Entry(w, k, q), Entry(w, m, p)) ensures (k, q) == (m, p) {
          assert Apart(w', m, p, k, q);
        }
      }
    }
    if forall p: nat :: start <= p < start + n ==> Sole(w, m, p) {
      forall k: MemId, q: nat, n': MemId, r: nat | Mapped(w', k, q) && Mapped(w', n', r) ensures Apart(w', k, q, n', r) {
        assert Apart(w, k, q, n', r);
        assert Within(m, start, n, k, q) ==> Sole(w, m, q);
        assert Within(m, start, n, n', r) ==> Sole(w, m, r);
      }
    }
  }

  /** A write to a page that is already writable needs no new memory. */
  lemma WriteInPlace(w: World, m: MemId, p: nat, off: nat, b: int, d: DataId, d': DataId, k: MemId, q: nat)
    requires Mapped(w, m, p) && Writable(Entry(w, m, p)) && On(w, k, q, Place(Entry(w, m, p).data, Entry(w, m, p).index))
    ensures View(WriteByte(w, m, p, off, b, d, d'), k, q) == Updated(View(w, k, q), off, b)
  {
    hide Map, Store;
    var e := Entry(w, m, p);
    assert Grown(w, m, p, d) == w;
    var v := Resolve(w, m, p, Write, d, d');
    assert v == SetEntry(w, m, p, e);
    assert Mapped(v, k, q) && Entry(v, k, q) == Entry(w, k, q);
    assert View(v, k, q) == View(w, k, q);
    StoreView(v, Place(e.data, e.index), off, b, k, q);
  }

  /** Isolation does not survive a change of protection: when a forked child makes any private
      page of its own writable again, its next write to it appears in the parent. */
  lemma ProtectionLeaks(w: World, src: MemId, dst: MemId, p: nat, off: nat, b: int, d: DataId, d': DataId)
    requires Inv(w) && src in w.spaces && dst !in w.spaces && Mapped(w, src, p) && p < MEM_PAGES
    ensures dst in Fork(w, src, dst).spaces
    ensures var v := SetFlags(Fork(w, src, dst), dst, p, 1, true);
            View(WriteByte(v, dst, p, off, b, d, d'), src, p) == Updated(View(w, src, p), off, b)
  {
    hide Inv, Fork, SetFlags, View, WriteByte;
    ForkEntries(w, src, dst, src, p);
    ForkEntries(w, src, dst, dst, p);
    ForkAgrees(w, src, dst, src, p);
    var u := Fork(w, src, dst);
    SetFlagsEntries(u, dst, p, 1, true, src, p);
    SetFlagsEntries(u, dst, p, 1, true, dst, p);
    var v := SetFlags(u, dst, p, 1, true);
    ViewOf(u, v, src, p);
    WriteInPlace(v, dst, p, off, b, d, d', src, p);
  }

  lemma ViewOf(w: World, w': World, m: MemId, p: nat)
    requires w.datas == w'.datas && Mapped(w, m, p) && Mapped(w', m, p) && SamePage(Entry(w, m, p), Entry(w', m, p))
    ensures View(w, m, p) == View(w', m, p)
  {
  }
}
