/** Guest memory byte by byte, and copying bytes into a page of the host. */
module TlbBytes {

  import opened Options
  import opened MemoryWorld
  import opened MemorySteps
  import opened MemoryAccess
  import opened MemoryIsolation
  import opened MemoryRuns
  import opened TlbCoherence

  const ADDR_SPACE: nat := 0x1_0000_0000

  /** Every page holds 4096 bytes. */
  ghost predicate Sized(w: World) {
    forall d, i :: d in w.datas && 0 <= i < |w.datas[d].pages| ==> |w.datas[d].pages[i]| == PAGE_SIZE
  }

  /** The byte an address space holds at an address. */
  function ByteAt(w: World, m: MemId, addr: nat): Option<int> {
    match View(w, m, PageOf(addr))
    case None => None
    case Some(page) => if Offset(addr) < |page| then Some(page[Offset(addr)]) else None
  }

  /** Addresses wrap around at 32 bits. */
  function Plus(addr: nat, i: nat): nat { (addr + i) % ADDR_SPACE }

  function Splice(page: Bytes, off: nat, bytes: seq<int>): (r: Bytes)
    requires off + |bytes| <= |page|
    ensures |r| == |page|
  {
    page[..off] + bytes + page[off + |bytes|..]
  }

  /** memcpy into a page. */
  function CopyInto(datas: map<DataId, Data>, at: Place, off: nat, bytes: seq<int>): map<DataId, Data> {
    if at.data in datas && at.index < |datas[at.data].pages| && off + |bytes| <= |datas[at.data].pages[at.index]| then
      var o := datas[at.data];
      datas[at.data := o.(pages := o.pages[at.index := Splice(o.pages[at.index], off, bytes)])]
    else datas
  }

  function Spliced(page: Option<Bytes>, off: nat, bytes: seq<int>): Option<Bytes> {
    if page.Some? && off + |bytes| <= |page.value| then Some(Splice(page.value, off, bytes)) else page
  }

  function Poked(w: World, at: Place, off: nat, bytes: seq<int>): World { w.(datas := CopyInto(w.datas, at, off, bytes)) }

  lemma PokedView(w: World, at: Place, off: nat, bytes: seq<int>, k: MemId, q: nat)
    ensures View(Poked(w, at, off, bytes), k, q) == if On(w, k, q, at) then Spliced(View(w, k, q), off, bytes) else View(w, k, q)
  {
  }

  lemma PokedKeeps(w: World, at: Place, off: nat, bytes: seq<int>)
    ensures Poked(w, at, off, bytes).spaces == w.spaces && Poked(w, at, off, bytes).datas.Keys == w.datas.Keys
    ensures forall d :: d in w.datas ==> Poked(w, at, off, bytes).datas[d].refcount == w.datas[d].refcount
    ensures forall d :: d in w.datas ==> |Poked(w, at, off, bytes).datas[d].pages| == |w.datas[d].pages|
  {
  }

  lemma PokedSized(w: World, at: Place, off: nat, bytes: seq<int>)
    requires Sized(w)
    ensures Sized(Poked(w, at, off, bytes))
  {
  }

  /** The place of a page that may be written in place leads back to it alone, within its address
      space and against every private page. */
  lemma WritableAlone(w: World, m: MemId, p: nat, k: MemId, q: nat)
    requires Isolated(w) && Mapped(w, m, p) && Writable(Entry(w, m, p))
    requires On(w, k, q, Place(Entry(w, m, p).data, Entry(w, m, p).index)) && (k == m || Private(w, k, q))
    ensures (k, q) == (m, p)
  {
    assert Apart(w, m, p, k, q);
  }

  lemma WritePlace(w: World, m: MemId, p: nat, at: Place)
    requires Translate(w, m, p, Write) == Some(at)
    ensures Mapped(w, m, p) && Writable(Entry(w, m, p)) && at == Place(Entry(w, m, p).data, Entry(w, m, p).index)
  {
  }

  /** What bytes put into a writable page change. */
  lemma PokedSeen(w: World, m: MemId, p: nat, at: Place, off: nat, bytes: seq<int>, k: MemId, q: nat)
    requires Isolated(w) && Translate(w, m, p, Write) == Some(at) && (k == m || Private(w, k, q))
    ensures View(Poked(w, at, off, bytes), k, q) == if (k, q) == (m, p) then Spliced(View(w, k, q), off, bytes) else View(w, k, q)
  {
    hide Isolated, Poked, View, Spliced, Private;
    WritePlace(w, m, p, at);
    PokedView(w, at, off, bytes, k, q);
    if On(w, k, q, at) { WritableAlone(w, m, p, k, q); }
  }

  // Pages and offsets

  lemma PageParts(addr: nat)
    ensures addr == PageOf(addr) * PAGE_SIZE + Offset(addr) && Offset(addr) < PAGE_SIZE
    ensures PageAddr(addr) == PageOf(addr) * PAGE_SIZE && PageOf(PageAddr(addr)) == PageOf(addr) && Offset(PageAddr(addr)) == 0
    ensures PageAddr(addr) != EMPTY
    ensures addr < ADDR_SPACE ==> PageOf(addr) < MEM_PAGES
  {
  }

  lemma PartsOf(p: nat, off: nat)
    requires off < PAGE_SIZE
    ensures PageOf(p * PAGE_SIZE + off) == p && Offset(p * PAGE_SIZE + off) == off
  {
  }

  /** The page after the last is the first. */
  function NextPageAddr(addr: nat): nat { ((PageOf(addr) + 1) * PAGE_SIZE) % ADDR_SPACE }

  lemma NextPageParts(addr: nat)
    requires addr < ADDR_SPACE
    ensures NextPageAddr(addr) < ADDR_SPACE && Offset(NextPageAddr(addr)) == 0
    ensures PageOf(NextPageAddr(addr)) == if PageOf(addr) + 1 == MEM_PAGES then 0 else PageOf(addr) + 1
    ensures PageOf(NextPageAddr(addr)) != PageOf(addr)
  {
    PageParts(addr);
    if PageOf(addr) + 1 == MEM_PAGES { assert NextPageAddr(addr) == 0; } else { PartsOf(PageOf(addr) + 1, 0); }
  }

  /** Which page, and where in it, the bytes of a range fall. */
  lemma RangeParts(addr: nat, i: nat)
    requires addr < ADDR_SPACE && i <= PAGE_SIZE
    ensures Offset(addr) + i < PAGE_SIZE ==> PageOf(Plus(addr, i)) == PageOf(addr) && Offset(Plus(addr, i)) == Offset(addr) + i
    ensures Offset(addr) + i >= PAGE_SIZE && i < PAGE_SIZE ==>
              PageOf(Plus(addr, i)) == PageOf(NextPageAddr(addr)) && Offset(Plus(addr, i)) == Offset(addr) + i - PAGE_SIZE
  {
    PageParts(addr);
    NextPageParts(addr);
    var p, off := PageOf(addr), Offset(addr);
    if off + i < PAGE_SIZE {
      PartsOf(p, off + i);
    } else if i < PAGE_SIZE {
      var rest := off + i - PAGE_SIZE;
      if p + 1 == MEM_PAGES {
        assert addr + i == ADDR_SPACE + rest;
        PartsOf(0, rest);
      } else {
        assert addr + i == (p + 1) * PAGE_SIZE + rest;
        PartsOf(p + 1, rest);
      }
    }
  }

  /** How far an address lies above another, around the end of the address space. */
  function Above(addr: nat, a: nat): nat
    requires addr < ADDR_SPACE && a < ADDR_SPACE
  {
    if a >= addr then a - addr else a + ADDR_SPACE - addr
  }

  lemma AbovePlus(addr: nat, a: nat)
    requires addr < ADDR_SPACE && a < ADDR_SPACE
    ensures Plus(addr, Above(addr, a)) == a
  {
  }

  lemma AboveSamePage(addr: nat, a: nat)
    requires addr < ADDR_SPACE && a < ADDR_SPACE && PageOf(a) == PageOf(addr) && Offset(addr) <= Offset(a)
    ensures Above(addr, a) == Offset(a) - Offset(addr)
  {
    PageParts(addr);
    PageParts(a);
  }

  lemma AboveNextPage(addr: nat, a: nat)
    requires addr < ADDR_SPACE && a < ADDR_SPACE && PageOf(a) == PageOf(NextPageAddr(addr))
    ensures Above(addr, a) == PAGE_SIZE - Offset(addr) + Offset(a)
  {
    PageParts(addr);
    PageParts(a);
    NextPageParts(addr);
  }

  /** Membership of a range that stays within a page, and of one that does not. */
  lemma AboveWithin(addr: nat, size: nat, a: nat)
    requires addr < ADDR_SPACE && a < ADDR_SPACE && Offset(addr) + size <= PAGE_SIZE
    ensures Above(addr, a) < size <==> PageOf(a) == PageOf(addr) && Offset(addr) <= Offset(a) < Offset(addr) + size
    ensures Above(addr, a) < size ==> Offset(a) - Offset(addr) == Above(addr, a)
  {
    hide PageOf, Offset, Plus, Above, NextPageAddr;
    if Above(addr, a) < size { AbovePlus(addr, a); RangeParts(addr, Above(addr, a)); }
    if PageOf(a) == PageOf(addr) && Offset(addr) <= Offset(a) { AboveSamePage(addr, a); }
  }

  lemma AboveCross(addr: nat, size: nat, a: nat)
    requires addr < ADDR_SPACE && a < ADDR_SPACE && size <= PAGE_SIZE && PAGE_SIZE - size < Offset(addr) < PAGE_SIZE
    ensures Above(addr, a) < size <==>
            || (PageOf(a) == PageOf(addr) && Offset(addr) <= Offset(a))
            || (PageOf(a) == PageOf(NextPageAddr(addr)) && Offset(a) < size - (PAGE_SIZE - Offset(addr)))
    ensures Above(addr, a) < size && PageOf(a) == PageOf(addr) ==> Above(addr, a) == Offset(a) - Offset(addr)
    ensures PageOf(a) == PageOf(NextPageAddr(addr)) ==> Above(addr, a) == PAGE_SIZE - Offset(addr) + Offset(a)
  {
    hide PageOf, Offset, Plus, Above, NextPageAddr;
    PageParts(a);
    NextPageParts(addr);
    if PageOf(a) == PageOf(addr) && Offset(addr) <= Offset(a) { AboveSamePage(addr, a); }
    if PageOf(a) == PageOf(NextPageAddr(addr)) { AboveNextPage(addr, a); }
    if Above(addr, a) < size { AbovePlus(addr, a); RangeParts(addr, Above(addr, a)); }
  }

  /** Bytes put into a writable page are what is read back there, and nowhere else. */
  lemma PokedBytes(w: World, m: MemId, p: nat, at: Place, off: nat, bytes: seq<int>, a: nat)
    requires Isolated(w) && Translate(w, m, p, Write) == Some(at)
    requires View(w, m, p).Some? && |View(w, m, p).value| == PAGE_SIZE && off + |bytes| <= PAGE_SIZE
    ensures ByteAt(Poked(w, at, off, bytes), m, a) ==
            if PageOf(a) == p && off <= Offset(a) < off + |bytes| then Some(bytes[Offset(a) - off]) else ByteAt(w, m, a)
  {
    hide Isolated, Poked, View, Translate, PageOf, Offset;
    PokedSeen(w, m, p, at, off, bytes, m, PageOf(a));
  }

  lemma PokedInv(w: World, at: Place, off: nat, bytes: seq<int>)
    requires Inv(w)
    ensures Inv(Poked(w, at, off, bytes))
  {
    hide Poked;
    PokedKeeps(w, at, off, bytes);
    var w' := Poked(w, at, off, bytes);
    forall d ensures CountedAt(w', d) { assert CountedAt(w, d); RefsSame(w, w', d); }
    forall m: MemId, p: nat | Mapped(w', m, p) ensures BackedBy(w'.datas, Entry(w', m, p)) { assert BackedBy(w.datas, Entry(w, m, p)); }
    forall n: MemId, q: nat, k: MemId, r: nat | Mapped(w', n, q) && Mapped(w', k, r) ensures Apart(w', n, q, k, r) { assert Apart(w, n, q, k, r); }
  }

  /** A range of bytes written: exactly these addresses change in the address space, and no
      private page of another one does. */
  ghost predicate Written(w: World, w': World, m: MemId, addr: nat, value: seq<int>)
    requires addr < ADDR_SPACE
  {
    && w'.spaces == w.spaces
    && (forall a: nat {:trigger ByteAt(w', m, a)} :: a < ADDR_SPACE ==>
          ByteAt(w', m, a) == if Above(addr, a) < |value| then Some(value[Above(addr, a)]) else ByteAt(w, m, a))
    && (forall k: MemId, q: nat :: k != m && Private(w, k, q) ==> View(w', k, q) == View(w, k, q))
  }

  lemma WrittenWithin(w: World, m: MemId, addr: nat, at: Place, value: seq<int>)
    requires Inv(w) && addr < ADDR_SPACE && Translate(w, m, PageOf(addr), Write) == Some(at)
    requires View(w, m, PageOf(addr)).Some? && |View(w, m, PageOf(addr)).value| == PAGE_SIZE && Offset(addr) + |value| <= PAGE_SIZE
    ensures Written(w, Poked(w, at, Offset(addr), value), m, addr, value)
  {
    hide Poked, View, Translate, PageOf, Offset, Above, Isolated, Private, ByteAt, Conserved;
    var w' := Poked(w, at, Offset(addr), value);
    PokedKeeps(w, at, Offset(addr), value);
    forall a: nat {:trigger ByteAt(w', m, a)} | a < ADDR_SPACE
      ensures ByteAt(w', m, a) == if Above(addr, a) < |value| then Some(value[Above(addr, a)]) else ByteAt(w, m, a)
    {
      AboveWithin(addr, |value|, a);
      PokedBytes(w, m, PageOf(addr), at, Offset(addr), value, a);
    }
    forall k: MemId, q: nat | k != m && Private(w, k, q) ensures View(w', k, q) == View(w, k, q) {
      PokedSeen(w, m, PageOf(addr), at, Offset(addr), value, k, q);
    }
  }

  lemma SameTranslate(w: World, w': World, m: MemId, p: nat, a: Access)
    requires w'.spaces == w.spaces
    ensures Translate(w', m, p, a) == Translate(w, m, p, a) && Mapped(w', m, p) == Mapped(w, m, p)
  {
  }

  lemma CrossByte(w: World, m: MemId, addr: nat, at: Place, at2: Place, value: seq<int>, a: nat)
    requires Inv(w) && Sized(w) && addr < ADDR_SPACE && a < ADDR_SPACE && |value| <= PAGE_SIZE && PAGE_SIZE - |value| < Offset(addr) < PAGE_SIZE
    requires Translate(w, m, PageOf(addr), Write) == Some(at) && Translate(w, m, PageOf(NextPageAddr(addr)), Write) == Some(at2)
    ensures var part := PAGE_SIZE - Offset(addr);
            var v := Poked(w, at, Offset(addr), value[..part]);
            ByteAt(Poked(v, at2, 0, value[part..]), m, a) ==
            if Above(addr, a) < |value| then Some(value[Above(addr, a)]) else ByteAt(w, m, a)
  {
    hide Poked, View, Translate, PageOf, Offset, Above, Isolated, Conserved, Sized, NextPageAddr, ByteAt;
    var part := PAGE_SIZE - Offset(addr);
    var v := Poked(w, at, Offset(addr), value[..part]);
    PageParts(a);
    NextPageParts(addr);
    AboveCross(addr, |value|, a);
    PokedInv(w, at, Offset(addr), value[..part]);
    PokedSized(w, at, Offset(addr), value[..part]);
    PokedKeeps(w, at, Offset(addr), value[..part]);
    SameTranslate(w, v, m, PageOf(NextPageAddr(addr)), Write);
    FullPage(w, m, PageOf(addr));
    FullPage(v, m, PageOf(NextPageAddr(addr)));
    PokedBytes(w, m, PageOf(addr), at, Offset(addr), value[..part], a);
    PokedBytes(v, m, PageOf(NextPageAddr(addr)), at2, 0, value[part..], a);
  }

  lemma FullPage(w: World, m: MemId, p: nat)
    requires Inv(w) && Sized(w) && Translate(w, m, p, Write).Some?
    ensures View(w, m, p).Some? && |View(w, m, p).value| == PAGE_SIZE
  {
    assert Mapped(w, m, p) && BackedBy(w.datas, Entry(w, m, p));
  }

  lemma WrittenCross(w: World, m: MemId, addr: nat, at: Place, at2: Place, value: seq<int>)
    requires Inv(w) && Sized(w) && addr < ADDR_SPACE && |value| <= PAGE_SIZE && PAGE_SIZE - |value| < Offset(addr) < PAGE_SIZE
    requires Translate(w, m, PageOf(addr), Write) == Some(at) && Translate(w, m, PageOf(NextPageAddr(addr)), Write) == Some(at2)
    ensures var part := PAGE_SIZE - Offset(addr);
            Written(w, Poked(Poked(w, at, Offset(addr), value[..part]), at2, 0, value[part..]), m, addr, value)
  {
    hide Poked, View, Translate, PageOf, Offset, Above, Isolated, Conserved, Sized, NextPageAddr, ByteAt;
    var part := PAGE_SIZE - Offset(addr);
    var v := Poked(w, at, Offset(addr), value[..part]);
    var w' := Poked(v, at2, 0, value[part..]);
    PokedKeeps(w, at, Offset(addr), value[..part]);
    PokedKeeps(v, at2, 0, value[part..]);
    PokedInv(w, at, Offset(addr), value[..part]);
    SameTranslate(w, v, m, PageOf(NextPageAddr(addr)), Write);
    forall a: nat {:trigger ByteAt(w', m, a)} | a < ADDR_SPACE
      ensures ByteAt(w', m, a) == if Above(addr, a) < |value| then Some(value[Above(addr, a)]) else ByteAt(w, m, a)
    {
      CrossByte(w, m, addr, at, at2, value, a);
    }
    forall k: MemId, q: nat | k != m && Private(w, k, q) ensures View(w', k, q) == View(w, k, q) {
      PokedSeen(w, m, PageOf(addr), at, Offset(addr), value[..part], k, q);
      PokedSeen(v, m, PageOf(NextPageAddr(addr)), at2, 0, value[part..], k, q);
    }
  }
}
