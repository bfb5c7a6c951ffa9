/** The software TLB as an object (emu/tlb.c, emu/tlb.h): 1024 entries that are filled on a miss and
    thrown away when the address space has changed. */
module TlbCache {

  import opened Options
  import opened MemoryWorld
  import opened MemorySteps
  import opened MemoryAccess
  import opened MemoryKernel
  import opened TlbCoherence
  import opened TlbBytes

  const TLB_SIZE: nat := 1024

  function Index(addr: nat): (i: nat)
    ensures i < TLB_SIZE
  {
    (((PageOf(addr) % TLB_SIZE) as bv10) ^ ((PageOf(addr) / TLB_SIZE % TLB_SIZE) as bv10)) as nat
  }

  datatype Pointer = Pointer(at: Place, off: nat)

  /** The host pointer of an address. */
  function PtrOf(w: World, m: MemId, addr: nat, a: Access): Option<Pointer> {
    match Translate(w, m, PageOf(addr), a)
    case None => None
    case Some(at) => Some(Pointer(at, Offset(addr)))
  }

  class Tlb {
    var mmu: MemId
    var dirtyPage: nat
    var memChanges: nat
    var segfaultAddr: nat
    const entries: array<TlbEntry>

    constructor ()
      ensures fresh(entries) && entries.Length == TLB_SIZE
    {
      mmu, dirtyPage, memChanges, segfaultAddr := 0, 0, 0, 0;
      entries := new TlbEntry[TLB_SIZE](_ => TlbEntry(EMPTY, EMPTY, Place(0, 0)));
    }

    /** What holds whenever the processor is not running. */
    ghost predicate Rests(w: World)
      reads this, entries
    {
      entries.Length == TLB_SIZE && Coherent(w, mmu, memChanges, entries[..])
    }

    /** What holds while it runs: all cached translations are true. */
    ghost predicate Agrees(w: World)
      reads this, entries
    {
      Rests(w) && AllTrue(w, mmu, entries[..])
    }

    /** tlb_flush. The counter is remembered in 32 bits. */
    method Flush(k: Kernel)
      requires k.Valid() && mmu in k.dirs && entries.Length == TLB_SIZE
      modifies this`memChanges, entries
      ensures Agrees(k.Abs()) && memChanges == k.dirs[mmu].changes % ADDR_SPACE
      ensures forall i :: 0 <= i < TLB_SIZE ==> entries[i].page == EMPTY && entries[i].pageIfWritable == EMPTY
    {
      memChanges := k.dirs[mmu].changes % ADDR_SPACE;
      var i := 0;
      while i < TLB_SIZE
        invariant 0 <= i <= TLB_SIZE && memChanges == k.dirs[mmu].changes % ADDR_SPACE
        invariant forall j :: 0 <= j < i ==> entries[j] == TlbEntry(EMPTY, EMPTY, Place(0, 0))
      {
        entries[i] := TlbEntry(EMPTY, EMPTY, Place(0, 0));
        i := i + 1;
      }
    }

    /** tlb_refresh: the entries are thrown away unless the address space has the same name and the
        same count. They are true of it now if they were thrown away or still are, and always if
        the address space is the one they were made for. */
    method Refresh(k: Kernel, m: MemId)
      requires k.Valid() && m in k.dirs && entries.Length == TLB_SIZE
      modifies this, entries
      ensures var kept := old(mmu) == m && old(memChanges) == k.dirs[m].changes;
              && mmu == m
              && (Agrees(k.Abs()) <==> kept ==> AllTrue(k.Abs(), m, old(entries[..])))
              && (kept ==> entries[..] == old(entries[..]))
              && dirtyPage == if kept then old(dirtyPage) else EMPTY
      ensures old(mmu == m ==> Rests(k.Abs())) ==> Agrees(k.Abs())
    {
      if mmu == m && memChanges == k.dirs[m].changes { return; }
      mmu, dirtyPage := m, EMPTY;
      Flush(k);
    }

    /** tlb_handle_miss. */
    method HandleMiss(k: Kernel, addr: nat, a: Access) returns (r: Option<Pointer>)
      requires k.Valid() && Agrees(k.Abs()) && addr < ADDR_SPACE && !a.Ptrace?
      modifies this, entries
      ensures Agrees(k.Abs()) && mmu == old(mmu)
      ensures r == PtrOf(k.Abs(), mmu, addr, a)
      ensures segfaultAddr == if r.None? then addr else old(segfaultAddr)
      ensures dirtyPage == if r.None? then old(dirtyPage) else PageAddr(addr)
    {
      PageParts(addr);
      var ptr := k.NoFault(mmu, PageOf(addr), a);
      if k.dirs[mmu].changes != memChanges { Flush(k); }
      if ptr.None? {
        segfaultAddr := addr;
        return None;
      }
      dirtyPage := PageAddr(addr);
      var page := PageAddr(addr);
      WriteIsRead(k.Abs(), mmu, PageOf(addr));
      entries[Index(addr)] := TlbEntry(page, if a.Write? then page else EMPTY, ptr.value);
      r := Some(Pointer(ptr.value, addr - page));
    }

    /** __tlb_read_ptr. */
    method ReadPtr(k: Kernel, addr: nat) returns (r: Option<Pointer>)
      requires k.Valid() && Agrees(k.Abs()) && addr < ADDR_SPACE
      modifies this, entries
      ensures Agrees(k.Abs()) && mmu == old(mmu)
      ensures r == PtrOf(k.Abs(), mmu, addr, Read)
      ensures segfaultAddr == if r.None? then addr else old(segfaultAddr)
    {
      PageParts(addr);
      var entry := entries[Index(addr)];
      if entry.page == PageAddr(addr) {
        HitTrue(k.Abs(), mmu, entries[..], Index(addr));
        return Some(Pointer(entry.host, addr - PageAddr(addr)));
      }
      r := HandleMiss(k, addr, Read);
    }

    /** __tlb_write_ptr. A hit is only ever a page that may be written in place. */
    method WritePtr(k: Kernel, addr: nat) returns (r: Option<Pointer>)
      requires k.Valid() && Agrees(k.Abs()) && addr < ADDR_SPACE
      modifies this, entries
      ensures Agrees(k.Abs()) && mmu == old(mmu)
      ensures r == PtrOf(k.Abs(), mmu, addr, Write)
      ensures segfaultAddr == if r.None? then addr else old(segfaultAddr)
      ensures dirtyPage == if r.None? then old(dirtyPage) else PageAddr(addr)
    {
      PageParts(addr);
      var entry := entries[Index(addr)];
      if entry.pageIfWritable == PageAddr(addr) {
        HitTrue(k.Abs(), mmu, entries[..], Index(addr));
        dirtyPage := PageAddr(addr);
        return Some(Pointer(entry.host, addr - PageAddr(addr)));
      }
      r := HandleMiss(k, addr, Write);
    }

    /** tlb_read with __tlb_read_cross_page: the bytes that are in memory, or a fault when one of
        the pages is missing. */
    method ReadBytes(k: Kernel, addr: nat, size: nat) returns (ok: bool, value: seq<int>)
      requires k.Valid() && Agrees(k.Abs()) && Inv(k.Abs()) && Sized(k.Abs())
      requires addr < ADDR_SPACE && 0 < size <= PAGE_SIZE
      modifies this, entries
      ensures Agrees(k.Abs()) && mmu == old(mmu)
      ensures ok <==> forall i: nat :: i < size ==> Mapped(k.Abs(), mmu, PageOf(Plus(addr, i)))
      ensures ok ==> |value| == size && forall i: nat :: i < size ==> ByteAt(k.Abs(), mmu, Plus(addr, i)) == Some(value[i])
      ensures !ok ==> !Mapped(k.Abs(), mmu, PageOf(segfaultAddr))
    {
      hide Inv, Sized, View, Agrees, Plus, PageOf, Offset, Kernel.Valid, Kernel.Abs;
      PageParts(addr);
      FirstByte(addr, size);
      if Offset(addr) > PAGE_SIZE - size {
        ok, value := ReadCrossPage(k, addr, size);
        return;
      }
      var ptr := ReadPtr(k, addr);
      PtrMapped(k.Abs(), mmu, addr, Read);
      if ptr.None? { return false, []; }
      PageBytes(k.Abs(), mmu, addr, ptr.value);
      value := k.datas[ptr.value.at.data].pages[ptr.value.at.index][ptr.value.off..ptr.value.off + size];
      forall i: nat | i < size
        ensures Mapped(k.Abs(), mmu, PageOf(Plus(addr, i))) && ByteAt(k.Abs(), mmu, Plus(addr, i)) == Some(value[i])
      {
        RangeParts(addr, i);
      }
      ok := true;
    }

    /** __tlb_read_cross_page. */
    method ReadCrossPage(k: Kernel, addr: nat, size: nat) returns (ok: bool, value: seq<int>)
      requires k.Valid() && Agrees(k.Abs()) && Inv(k.Abs()) && Sized(k.Abs())
      requires addr < ADDR_SPACE && size <= PAGE_SIZE && Offset(addr) > PAGE_SIZE - size
      modifies this, entries
      ensures Agrees(k.Abs()) && mmu == old(mmu)
      ensures ok <==> forall i: nat :: i < size ==> Mapped(k.Abs(), mmu, PageOf(Plus(addr, i)))
      ensures ok ==> |value| == size && forall i: nat :: i < size ==> ByteAt(k.Abs(), mmu, Plus(addr, i)) == Some(value[i])
      ensures !ok ==> !Mapped(k.Abs(), mmu, PageOf(segfaultAddr))
    {
      hide Inv, Sized, View, Agrees, Plus, PageOf, Offset, Kernel.Valid, Kernel.Abs;
      PageParts(addr);
      NextPageParts(addr);
      ghost var w := k.Abs();
      var addr2 := NextPageAddr(addr);
      CrossParts(addr, size);
      var ptr1 := ReadPtr(k, addr);
      PtrMapped(w, mmu, addr, Read);
      if ptr1.None? { return false, []; }
      var ptr2 := ReadPtr(k, addr2);
      PtrMapped(w, mmu, addr2, Read);
      if ptr2.None? { return false, []; }
      var part1 := PAGE_SIZE - Offset(addr);
      assert part1 < size;
      PageBytes(w, mmu, addr, ptr1.value);
      PageBytes(w, mmu, addr2, ptr2.value);
      var page1 := k.datas[ptr1.value.at.data].pages[ptr1.value.at.index];
      var page2 := k.datas[ptr2.value.at.data].pages[ptr2.value.at.index];
      value := page1[ptr1.value.off..ptr1.value.off + part1] + page2[..size - part1];
      ok := true;
      CrossBytes(w, mmu, addr, size, page1, page2, value);
    }

    /** tlb_write with __tlb_write_cross_page: all the bytes are written or none, through entries
        that were writable all along. */
    method WriteBytes(k: Kernel, addr: nat, value: seq<int>) returns (ok: bool)
      requires k.Valid() && Agrees(k.Abs()) && Inv(k.Abs()) && Sized(k.Abs())
      requires addr < ADDR_SPACE && 0 < |value| <= PAGE_SIZE
      modifies this, entries, k`datas
      ensures k.Valid() && Agrees(k.Abs()) && Inv(k.Abs()) && Sized(k.Abs()) && mmu == old(mmu)
      ensures ok <==> forall i: nat :: i < |value| ==> PtrOf(old(k.Abs()), mmu, Plus(addr, i), Write).Some?
      ensures ok ==> Written(old(k.Abs()), k.Abs(), mmu, addr, value)
      ensures !ok ==> k.Abs() == old(k.Abs()) && PtrOf(k.Abs(), mmu, segfaultAddr, Write).None?
    {
      hide Inv, Sized, View, Plus, PageOf, Offset, Written, Poked, WorldOf, AllFormed, Coherent, AllTrue;
      PageParts(addr);
      FirstByte(addr, |value|);
      if Offset(addr) > PAGE_SIZE - |value| {
        ok := WriteCrossPage(k, addr, value);
        return;
      }
      ghost var w := k.Abs();
      var ptr := WritePtr(k, addr);
      if ptr.None? { return false; }
      PtrMapped(w, mmu, addr, Write);
      PtrPage(w, mmu, addr);
      WrittenWithin(w, mmu, addr, ptr.value.at, value);
      CopyTo(k, ptr.value.at, ptr.value.off, value);
      ok := true;
      forall i: nat | i < |value| ensures PtrOf(w, mmu, Plus(addr, i), Write).Some? { RangeParts(addr, i); }
    }

    /** __tlb_write_cross_page. */
    method WriteCrossPage(k: Kernel, addr: nat, value: seq<int>) returns (ok: bool)
      requires k.Valid() && Agrees(k.Abs()) && Inv(k.Abs()) && Sized(k.Abs())
      requires addr < ADDR_SPACE && |value| <= PAGE_SIZE && Offset(addr) > PAGE_SIZE - |value|
      modifies this, entries, k`datas
      ensures k.Valid() && Agrees(k.Abs()) && Inv(k.Abs()) && Sized(k.Abs()) && mmu == old(mmu)
      ensures ok <==> forall i: nat :: i < |value| ==> PtrOf(old(k.Abs()), mmu, Plus(addr, i), Write).Some?
      ensures ok ==> Written(old(k.Abs()), k.Abs(), mmu, addr, value)
      ensures !ok ==> k.Abs() == old(k.Abs()) && PtrOf(k.Abs(), mmu, segfaultAddr, Write).None?
    {
      hide Inv, Sized, View, Plus, PageOf, Offset, Written, Poked, WorldOf, AllFormed, Coherent, AllTrue;
      PageParts(addr);
      NextPageParts(addr);
      CrossParts(addr, |value|);
      ghost var w := k.Abs();
      var addr2 := NextPageAddr(addr);
      SamePagePtr(w, mmu, addr2, Plus(addr, |value| - 1));
      SamePagePtr(w, mmu, addr, Plus(addr, 0));
      var ptr1 := WritePtr(k, addr);
      if ptr1.None? { return false; }
      var ptr2 := WritePtr(k, addr2);
      if ptr2.None? { return false; }
      PtrMapped(w, mmu, addr, Write);
      PtrMapped(w, mmu, addr2, Write);
      var part1 := PAGE_SIZE - Offset(addr);
      assert part1 < |value|;
      WrittenCross(w, mmu, addr, ptr1.value.at, ptr2.value.at, value);
      CopyTo(k, ptr1.value.at, ptr1.value.off, value[..part1]);
      CopyTo(k, ptr2.value.at, ptr2.value.off, value[part1..]);
      ok := true;
      forall i: nat | i < |value| ensures PtrOf(w, mmu, Plus(addr, i), Write).Some? {
        RangeParts(addr, i);
      }
    }

    /** memcpy to a host pointer. */
    method CopyTo(k: Kernel, at: Place, off: nat, bytes: seq<int>)
      requires k.Valid() && Agrees(k.Abs()) && Inv(k.Abs()) && Sized(k.Abs())
      modifies k`datas
      ensures k.Valid() && Agrees(k.Abs()) && Inv(k.Abs()) && Sized(k.Abs())
      ensures k.Abs() == Poked(old(k.Abs()), at, off, bytes)
    {
      hide Inv, Sized, SpacesOf, AllFormed, CopyInto;
      PokedInv(k.Abs(), at, off, bytes);
      PokedSized(k.Abs(), at, off, bytes);
      PokedKeeps(k.Abs(), at, off, bytes);
      PokedTrue(k.Abs(), at, off, bytes, mmu, entries[..]);
      k.datas := CopyInto(k.datas, at, off, bytes);
    }
  }

  lemma PtrMapped(w: World, m: MemId, addr: nat, a: Access)
    ensures PtrOf(w, m, addr, a).Some? ==> Mapped(w, m, PageOf(addr)) && PtrOf(w, m, addr, a).value.off == Offset(addr)
    ensures a.Read? ==> (PtrOf(w, m, addr, a).Some? <==> Mapped(w, m, PageOf(addr)))
  {
  }

  /** The memory behind a pointer is the page as the address space sees it. */
  lemma PageBytes(w: World, m: MemId, addr: nat, ptr: Pointer)
    requires Inv(w) && Sized(w) && PtrOf(w, m, addr, Read) == Some(ptr)
    ensures ptr.at.data in w.datas && ptr.at.index < |w.datas[ptr.at.data].pages|
    ensures |w.datas[ptr.at.data].pages[ptr.at.index]| == PAGE_SIZE
    ensures View(w, m, PageOf(addr)) == Some(w.datas[ptr.at.data].pages[ptr.at.index])
  {
    assert Mapped(w, m, PageOf(addr)) && BackedBy(w.datas, Entry(w, m, PageOf(addr)));
  }

  lemma FirstByte(addr: nat, size: nat)
    requires addr < ADDR_SPACE && size > 0
    ensures Plus(addr, 0) == addr
  {
  }

  /** The first and the last byte of a range that crosses a page boundary. */
  lemma CrossParts(addr: nat, size: nat)
    requires addr < ADDR_SPACE && size <= PAGE_SIZE && Offset(addr) > PAGE_SIZE - size
    ensures Offset(addr) < PAGE_SIZE && PageOf(Plus(addr, 0)) == PageOf(addr)
    ensures PageOf(Plus(addr, size - 1)) == PageOf(NextPageAddr(addr))
  {
    PageParts(addr);
    RangeParts(addr, 0);
    RangeParts(addr, size - 1);
  }

  lemma CrossBytes(w: World, m: MemId, addr: nat, size: nat, page1: Bytes, page2: Bytes, value: seq<int>)
    requires addr < ADDR_SPACE && size <= PAGE_SIZE && Offset(addr) > PAGE_SIZE - size && Offset(addr) < PAGE_SIZE
    requires |page1| == PAGE_SIZE && |page2| == PAGE_SIZE && View(w, m, PageOf(addr)) == Some(page1)
    requires View(w, m, PageOf(NextPageAddr(addr))) == Some(page2)
    requires value == page1[Offset(addr)..] + page2[..size - (PAGE_SIZE - Offset(addr))]
    ensures |value| == size
    ensures forall i: nat :: i < size ==> Mapped(w, m, PageOf(Plus(addr, i)))
    ensures forall i: nat :: i < size ==> ByteAt(w, m, Plus(addr, i)) == Some(value[i])
  {
    hide Plus, PageOf, Offset, NextPageAddr, View;
    forall i: nat | i < size ensures Mapped(w, m, PageOf(Plus(addr, i))) && ByteAt(w, m, Plus(addr, i)) == Some(value[i]) {
      RangeParts(addr, i);
      ViewMapped(w, m, PageOf(Plus(addr, i)));
    }
  }

  lemma ViewMapped(w: World, m: MemId, p: nat)
    ensures View(w, m, p).Some? ==> Mapped(w, m, p)
  {
  }

  lemma WriteIsRead(w: World, m: MemId, p: nat)
    ensures Translate(w, m, p, Write).Some? ==> Translate(w, m, p, Read) == Translate(w, m, p, Write)
  {
  }

  lemma HitTrue(w: World, m: MemId, entries: seq<TlbEntry>, i: nat)
    requires AllTrue(w, m, entries) && i < |entries|
    ensures True(w, m, entries[i])
  {
  }

  lemma PokedTrue(w: World, at: Place, off: nat, bytes: seq<int>, m: MemId, entries: seq<TlbEntry>)
    requires AllTrue(w, m, entries)
    ensures AllTrue(Poked(w, at, off, bytes), m, entries)
  {
    forall i | 0 <= i < |entries| ensures True(Poked(w, at, off, bytes), m, entries[i]) { assert True(w, m, entries[i]); }
  }

  lemma SamePagePtr(w: World, m: MemId, addr: nat, addr': nat)
    requires PageOf(addr) == PageOf(addr')
    ensures PtrOf(w, m, addr, Write).Some? == PtrOf(w, m, addr', Write).Some?
  {
  }

  lemma PtrPage(w: World, m: MemId, addr: nat)
    requires Inv(w) && Sized(w) && PtrOf(w, m, addr, Write).Some?
    ensures View(w, m, PageOf(addr)).Some? && |View(w, m, PageOf(addr)).value| == PAGE_SIZE
    ensures Translate(w, m, PageOf(addr), Write) == Some(PtrOf(w, m, addr, Write).value.at)
  {
    FullPage(w, m, PageOf(addr));
  }
}
