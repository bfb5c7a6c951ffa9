/** The block cache of asbestos/asbestos.c as a value: the allocated blocks with their jump
    slots, and the list of blocks waiting to be freed. Each function is the effect of one
    section that runs under the cache's lock. */
module FiberCache {

  import opened Options

  type Id = nat    // the address of an allocated block
  type Addr = nat  // a guest address

  /** A jump at the end of a block. It holds its guest target until it is patched to point
      straight at the code of another block; the original value is kept beside it. */
  datatype Slot = NoJump | Jump(target: Addr, to: Option<Id>)

  datatype Block = Block(addr: Addr, endAddr: Addr, used: nat, slot0: Slot, slot1: Slot, jetsam: bool)

  datatype Cache = Cache(blocks: map<Id, Block>, jetsam: seq<Id>)

  function SlotOf(b: Block, first: bool): Slot { if first then b.slot0 else b.slot1 }

  predicate Live(c: Cache, id: Id) { id in c.blocks && !c.blocks[id].jetsam }

  predicate PatchedTo(s: Slot, id: Id) { s.Jump? && s.to == Some(id) }

  // The operations

  /** Put the original value back into a slot that points at id. */
  function Restore(s: Slot, id: Id): Slot { if PatchedTo(s, id) then s.(to := None) else s }

  function RestoreBlock(b: Block, id: Id): Block { b.(slot0 := Restore(b.slot0, id), slot1 := Restore(b.slot1, id)) }

  /** fiber_block_disconnect, as asbestos_invalidate_range uses it. The live blocks that jump
      to id get their slots back, except id itself; blocks that are jetsam already keep theirs. */
  function Disconnect(c: Cache, id: Id): Cache
    requires id in c.blocks
  {
    Cache(map b | b in c.blocks ::
            if b == id then c.blocks[b].(jetsam := true)
            else if c.blocks[b].jetsam then c.blocks[b]
            else RestoreBlock(c.blocks[b], id),
          [id] + c.jetsam)
  }

  /** Disconnecting one block after another. */
  function DisconnectAll(c: Cache, ids: seq<Id>): Cache
    requires forall i :: 0 <= i < |ids| ==> ids[i] in c.blocks
    decreases |ids|
  {
    if ids == [] then c else
    var d := Disconnect(c, ids[0]);
    assert d.blocks.Keys == c.blocks.Keys;
    DisconnectAll(d, ids[1..])
  }

  function Insert(c: Cache, id: Id, b: Block): Cache { c.(blocks := c.blocks[id := b]) }

  function Patch(s: Slot, addr: Addr, id: Id): Slot {
    if s.Jump? && s.to == None && s.target == addr then s.(to := Some(id)) else s
  }

  /** The chaining section of cpu_step_to_interrupt: no new pointers to or from jetsam. */
  function Chain(c: Cache, last: Id, id: Id): Cache
    requires last in c.blocks && id in c.blocks
  {
    var b, addr := c.blocks[last], c.blocks[id].addr;
    if b.jetsam || c.blocks[id].jetsam then c
    else c.(blocks := c.blocks[last := b.(slot0 := Patch(b.slot0, addr, id), slot1 := Patch(b.slot1, addr, id))])
  }

  /** fiber_free_jetsam. */
  function FreeJetsam(c: Cache): Cache {
    Cache(c.blocks - (set b | b in c.jetsam), [])
  }

  // What every operation keeps

  predicate NoDuplicates(s: seq<Id>) { forall i, j :: 0 <= i < j < |s| ==> s[i] != s[j] }

  /** The jetsam list and the flags agree. */
  ghost predicate JetsamListed(c: Cache) {
    && NoDuplicates(c.jetsam)
    && (forall id :: id in c.jetsam <==> id in c.blocks && c.blocks[id].jetsam)
  }

  ghost predicate AddressesUnique(c: Cache) {
    forall a, b :: Live(c, a) && Live(c, b) && c.blocks[a].addr == c.blocks[b].addr ==> a == b
  }

  /** t became jetsam no earlier than b: new jetsam goes to the head of the list. */
  ghost predicate NotBefore(jetsam: seq<Id>, t: Id, b: Id) {
    exists i, j :: 0 <= i <= j < |jetsam| && jetsam[i] == t && jetsam[j] == b
  }

  /** A patched slot points at an allocated block that starts at the slot's original target:
      at a live one if its own block is live, and otherwise at one that is live or became
      jetsam no earlier. */
  ghost predicate SlotSound(c: Cache, b: Id, s: Slot)
    requires b in c.blocks
  {
    s.Jump? && s.to.Some? ==>
      var t := s.to.value;
      && t in c.blocks && c.blocks[t].addr == s.target
      && (Live(c, b) ==> Live(c, t))
      && (!Live(c, b) ==> Live(c, t) || NotBefore(c.jetsam, t, b))
  }

  const PAGE_SIZE: nat := 4096

  const ADDR_SPACE: nat := 0x1_0000_0000

  /** How far an address is behind a start. Addresses wrap around at 32 bits. */
  function Behind(start: Addr, a: Addr): nat { (a - start) % ADDR_SPACE }

  /** A block reaches no further than a page from its start. */
  predicate Short(b: Block) { b.addr < ADDR_SPACE && b.endAddr < ADDR_SPACE && Behind(b.addr, b.endAddr) < PAGE_SIZE }

  ghost predicate BlockSound(c: Cache, b: Id)
    requires b in c.blocks
  {
    SlotSound(c, b, c.blocks[b].slot0) && SlotSound(c, b, c.blocks[b].slot1) && Short(c.blocks[b])
  }

  ghost predicate Sound(c: Cache) {
    && JetsamListed(c)
    && AddressesUnique(c)
    && forall b :: b in c.blocks ==> BlockSound(c, b)
  }

  predicate Unpatched(s: Slot) { s.Jump? ==> s.to == None }

  lemma InsertSound(c: Cache, id: Id, b: Block)
    requires Sound(c) && id !in c.blocks && !b.jetsam && Unpatched(b.slot0) && Unpatched(b.slot1) && Short(b)
    requires forall x :: Live(c, x) ==> c.blocks[x].addr != b.addr
    ensures Sound(Insert(c, id, b))
  {
    var d := Insert(c, id, b);
    forall x | x in d.blocks ensures BlockSound(d, x) {
      if x != id { assert BlockSound(c, x); }
    }
  }

  lemma ChainSound(c: Cache, last: Id, id: Id)
    requires Sound(c) && last in c.blocks && id in c.blocks
    ensures Sound(Chain(c, last, id)) && Chain(c, last, id).blocks.Keys == c.blocks.Keys
  {
    var d := Chain(c, last, id);
    forall x | x in d.blocks ensures BlockSound(d, x) { assert BlockSound(c, x); }
  }

  /** Where a block comes from and how large it is never changes. */
  predicate SameCode(a: Block, b: Block) { a.addr == b.addr && a.endAddr == b.endAddr && a.used == b.used }

  lemma DisconnectSound(c: Cache, id: Id)
    requires Sound(c) && Live(c, id)
    ensures Sound(Disconnect(c, id)) && Disconnect(c, id).blocks.Keys == c.blocks.Keys
    ensures forall x :: Live(Disconnect(c, id), x) <==> Live(c, x) && x != id
    ensures Disconnect(c, id).jetsam == [id] + c.jetsam
    ensures forall x :: x in c.blocks ==> SameCode(c.blocks[x], Disconnect(c, id).blocks[x])
  {
    var d := Disconnect(c, id);
    assert d.blocks.Keys == c.blocks.Keys;
    forall x | x in d.blocks ensures BlockSound(d, x) {
      assert BlockSound(c, x);
      SlotDisconnect(c, id, x, c.blocks[x].slot0, d.blocks[x].slot0);
      SlotDisconnect(c, id, x, c.blocks[x].slot1, d.blocks[x].slot1);
    }
  }

  lemma SlotDisconnect(c: Cache, id: Id, x: Id, s: Slot, s': Slot)
    requires JetsamListed(c) && Live(c, id) && x in c.blocks && SlotSound(c, x, s)
    requires s' == if x == id || c.blocks[x].jetsam then s else Restore(s, id)
    ensures x in Disconnect(c, id).blocks && SlotSound(Disconnect(c, id), x, s')
  {
    var d := Disconnect(c, id);
    if s'.Jump? && s'.to.Some? {
      var t := s'.to.value;
      if x == id && t == id {
        assert d.jetsam[0] == id;
        assert NotBefore(d.jetsam, t, x);
      } else if !Live(c, x) && !Live(c, t) {
        var i, j :| 0 <= i <= j < |c.jetsam| && c.jetsam[i] == t && c.jetsam[j] == x;
        assert d.jetsam[i + 1] == t && d.jetsam[j + 1] == x;
      } else if !Live(c, x) && t == id {
        var j :| 0 <= j < |c.jetsam| && c.jetsam[j] == x;
        assert d.jetsam[0] == t && d.jetsam[j + 1] == x;
      }
    }
  }

  lemma {:induction false} DisconnectAllSound(c: Cache, ids: seq<Id>)
    requires Sound(c) && NoDuplicates(ids) && forall i :: 0 <= i < |ids| ==> Live(c, ids[i])
    ensures Sound(DisconnectAll(c, ids)) && DisconnectAll(c, ids).blocks.Keys == c.blocks.Keys
    ensures forall x :: Live(DisconnectAll(c, ids), x) <==> Live(c, x) && x !in ids
    decreases |ids|
  {
    if ids != [] {
      DisconnectSound(c, ids[0]);
      var d, rest := Disconnect(c, ids[0]), ids[1..];
      forall i | 0 <= i < |rest| ensures Live(d, rest[i]) { assert rest[i] == ids[i + 1] && ids[0] != ids[i + 1]; }
      DisconnectAllSound(d, rest);
    }
  }

  /** Freeing all jetsam at once leaves no dangling slot: whatever still pointed at a freed
      block was jetsam no later than it, and is freed with it. */
  lemma FreeSound(c: Cache)
    requires Sound(c)
    ensures Sound(FreeJetsam(c))
    ensures forall x :: x in FreeJetsam(c).blocks <==> Live(c, x)
  {
    var d := FreeJetsam(c);
    forall x | x in d.blocks ensures BlockSound(d, x) { assert BlockSound(c, x); }
  }
}
