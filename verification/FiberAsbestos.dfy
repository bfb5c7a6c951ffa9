/** The methods of asbestos/asbestos.c that edit the block index. */
module FiberAsbestos {
  import opened Options
  import opened FiberCache
  import opened FiberIndex

  /** A live block is hit when a page of the range shares a bucket with its first or its last
      page; every block of the bucket goes. */
  predicate Hit(b: Block, start: nat, end: nat) {
    exists p :: start <= p < end &&
      (p % PAGE_HASH == Page(b.addr) % PAGE_HASH || (Spans(b) && p % PAGE_HASH == Page(b.endAddr) % PAGE_HASH))
  }

  lemma HitHere(b: Block, page: nat)
    ensures Hit(b, page, page + 1) <==>
      page % PAGE_HASH == Page(b.addr) % PAGE_HASH || (Spans(b) && page % PAGE_HASH == Page(b.endAddr) % PAGE_HASH)
  {
  }

  lemma HitMore(b: Block, start: nat, page: nat)
    requires start <= page
    ensures Hit(b, start, page + 1) <==> Hit(b, start, page) || Hit(b, page, page + 1)
  {
  }

  /** The bytes of a block, which may run past the last address to the first ones. */
  predicate OnBlock(b: Block, a: Addr) { a < ADDR_SPACE && Behind(b.addr, a) <= Behind(b.addr, b.endAddr) }

  lemma BehindIs(start: Addr, a: Addr)
    requires start < ADDR_SPACE && a < ADDR_SPACE
    ensures Behind(start, a) == if start <= a then a - start else a - start + ADDR_SPACE
  {
  }

  /** A short block lies on the pages of its first and its last byte. */
  lemma TwoPages(b: Block, a: Addr)
    requires Short(b) && OnBlock(b, a)
    ensures Page(a) == Page(b.addr) || Page(a) == Page(b.endAddr)
  {
    hide Behind;
    BehindIs(b.addr, a);
    BehindIs(b.addr, b.endAddr);
  }

  /** Discarding the blocks that a range of pages hits leaves no live block with a byte on one of
      them, whatever pages share buckets. */
  lemma PagesClear(c: Cache, d: Cache, ids: seq<Id>, start: nat, end: nat, id: Id, a: Addr)
    requires Sound(c) && Discarded(c, ids, d)
    requires forall x :: x in ids <==> Live(c, x) && Hit(c.blocks[x], start, end)
    requires Live(d, id) && OnBlock(d.blocks[id], a)
    ensures !(start <= Page(a) < end)
  {
    hide Discarded, Hit, SlotSound, JetsamListed, AddressesUnique, Page, Behind;
    DiscardedLive(c, ids, d, id);
    assert BlockSound(c, id);
    TwoPages(c.blocks[id], a);
    if start <= Page(a) < end {
      HitOn(c.blocks[id], start, end, Page(a));
    }
  }

  lemma HitOn(b: Block, start: nat, end: nat, p: nat)
    requires start <= p < end && (p == Page(b.addr) || p == Page(b.endAddr))
    ensures Hit(b, start, end)
  {
    assert p % PAGE_HASH == Page(b.addr) % PAGE_HASH || (Spans(b) && p % PAGE_HASH == Page(b.endAddr) % PAGE_HASH);
  }

  class Asbestos {
    var blocks: map<Id, Block>
    var jetsam: seq<Id>
    var hash: seq<seq<Id>>
    var page0: seq<seq<Id>>
    var page1: seq<seq<Id>>
    var from0: map<Id, seq<Id>>
    var from1: map<Id, seq<Id>>
    var numBlocks: nat
    var memUsed: nat
    ghost var live: seq<Id>

    /** The cache that the fields stand for. */
    function Contents(): Cache
      reads this
    {
      Cache(blocks, jetsam)
    }

    ghost predicate Valid()
      reads this
    {
      && Sound(Contents())
      && hash != [] && numBlocks < 2 * |hash|
      && |page0| == |page1| == PAGE_HASH && from0.Keys == from1.Keys == blocks.Keys
      && HashOK(hash, Contents())
      && Page0OK(page0, Contents()) && Page1OK(page1, Contents())
      && JumpsOK(from0, Contents(), true) && JumpsOK(from1, Contents(), false)
      && CountsOK(live, Contents(), numBlocks, memUsed)
    }

    constructor ()
      ensures Valid() && Contents() == Cache(map[], [])
    {
      blocks, jetsam := map[], [];
      hash := seq(INITIAL_HASH, i => []);
      page0, page1 := seq(PAGE_HASH, i => []), seq(PAGE_HASH, i => []);
      from0, from1 := map[], map[];
      numBlocks, memUsed, live := 0, 0, [];
    }

    /** fiber_lookup: the live block at an address, which is unique, or none. */
    method Lookup(addr: Addr) returns (r: Option<Id>)
      requires Valid()
      ensures r.Some? ==> Live(Contents(), r.value) && blocks[r.value].addr == addr
      ensures r.Some? ==> forall id :: Live(Contents(), id) && blocks[id].addr == addr ==> id == r.value
      ensures r.None? ==> forall id :: Live(Contents(), id) ==> blocks[id].addr != addr
    {
      hide JetsamListed, Page0OK, Page1OK, JumpsOK, CountsOK, BlockSound;
      var bucket := hash[addr % |hash|];
      assert forall j :: 0 <= j < |bucket| ==> bucket[j] in bucket;
      var i := 0;
      while i < |bucket|
        invariant 0 <= i <= |bucket|
        invariant forall j :: 0 <= j < i ==> blocks[bucket[j]].addr != addr
      {
        if blocks[bucket[i]].addr == addr {
          return Some(bucket[i]);
        }
        i := i + 1;
      }
      r := None;
    }

    /** fiber_resize_hash: the same blocks in a new number of buckets. */
    method ResizeHash(newSize: nat)
      requires newSize > 0 && hash != [] && HashOK(hash, Contents())
      modifies this`hash
      ensures |hash| == newSize && HashOK(hash, Contents())
    {
      hide HashOK, Moved;
      ghost var c := Contents();
      var newHash: seq<seq<Id>> := seq(newSize, i => []);
      MovedNone(newHash, c);
      assert hash[..0] == [];
      var i := 0;
      while i < |hash|
        invariant 0 <= i <= |hash| && |newHash| == newSize && hash == old(hash)
        invariant Moved(newHash, c, hash[..i])
      {
        var bucket := hash[i];
        var j := 0;
        forall id ensures InLists(id, hash[..i]) <==> InLists(id, hash[..i] + [bucket[..0]]) { InMore(hash[..i], bucket[..0], id); }
        MovedSame(newHash, c, hash[..i], hash[..i] + [bucket[..0]]);
        while j < |bucket|
          invariant 0 <= j <= |bucket| && |newHash| == newSize && hash == old(hash)
          invariant Moved(newHash, c, hash[..i] + [bucket[..j]])
        {
          var id := bucket[j];
          MoveOne(newHash, c, hash, i, j);
          var k := blocks[id].addr % newSize;
          newHash := newHash[k := [id] + newHash[k]];
          j := j + 1;
        }
        assert bucket[..j] == bucket && hash[..i] + [bucket] == hash[..i + 1];
        i := i + 1;
      }
      assert hash[..i] == hash;
      MovedAll(newHash, c, hash);
      hash := newHash;
    }

    /** fiber_insert. */
    method InsertBlock(id: Id, b: Block)
      requires Valid() && id !in blocks && !b.jetsam && Unpatched(b.slot0) && Unpatched(b.slot1) && Short(b)
      requires forall x :: Live(Contents(), x) ==> blocks[x].addr != b.addr
      modifies this
      ensures Valid() && Contents() == Insert(old(Contents()), id, b)
      ensures numBlocks == old(numBlocks) + 1 && memUsed == old(memUsed) + b.used
    {
      hide Sound, HashOK, Page0OK, Page1OK, JumpsOK, CountsOK, Page, Spans, Unpatched, Short, Live, Insert;
      ghost var c := Contents();
      InsertOne(c, id, b, live, numBlocks, memUsed, from0, from1);
      if numBlocks + 1 >= |hash| * 2 {
        ResizeHash(|hash| * 2);
      }
      AddToLists(id, b);
      Register(id, b);
      assert Contents() == Insert(c, id, b);
    }

    /** The counts, the empty jump lists of the block, and the block itself. */
    method Register(id: Id, b: Block)
      modifies `memUsed, `numBlocks, `live, `from0, `from1, `blocks
      ensures memUsed == old(memUsed) + b.used && numBlocks == old(numBlocks) + 1 && live == [id] + old(live)
      ensures from0 == old(from0)[id := []] && from1 == old(from1)[id := []] && blocks == old(blocks)[id := b]
    {
      memUsed, numBlocks, live := memUsed + b.used, numBlocks + 1, [id] + live;
      from0, from1 := from0[id := []], from1[id := []];
      blocks := blocks[id := b];
    }

    method AddToLists(id: Id, b: Block)
      requires id !in blocks && !b.jetsam && hash != []
      requires HashOK(hash, Contents()) && Page0OK(page0, Contents()) && Page1OK(page1, Contents())
      modifies `hash, `page0, `page1
      ensures |hash| == |old(hash)| && |page0| == |page1| == PAGE_HASH
      ensures var d := Insert(Contents(), id, b); HashOK(hash, d) && Page0OK(page0, d) && Page1OK(page1, d)
    {
      PageCounts(page0, page1, Contents());
      InsertLists(Contents(), id, b, hash, page0, page1);
      hide HashOK, Page0OK, Page1OK;
      var h, p, q := b.addr % |hash|, Page(b.addr) % PAGE_HASH, Page(b.endAddr) % PAGE_HASH;
      hash, page0 := hash[h := [id] + hash[h]], page0[p := [id] + page0[p]];
      if Spans(b) {
        page1 := page1[q := [id] + page1[q]];
      }
    }

    method DropFromLists(id: Id)
      requires Sound(Contents()) && Live(Contents(), id) && hash != []
      requires HashOK(hash, Contents()) && Page0OK(page0, Contents()) && Page1OK(page1, Contents())
      modifies `hash, `page0, `page1
      ensures |hash| == |old(hash)| && |page0| == |page1| == PAGE_HASH
      ensures var d := Disconnect(Contents(), id); HashOK(hash, d) && Page0OK(page0, d) && Page1OK(page1, d)
    {
      hide HashOK, Page0OK, Page1OK, Sound, Disconnect;
      PageCounts(page0, page1, Contents());
      DisconnectSound(Contents(), id);
      ListsWithout(Contents(), Disconnect(Contents(), id), id, hash, page0, page1);
      var b := blocks[id];
      var h, p, q := b.addr % |hash|, Page(b.addr) % PAGE_HASH, Page(b.endAddr) % PAGE_HASH;
      hash := hash[h := Remove(hash[h], id)];
      page0, page1 := page0[p := Remove(page0[p], id)], page1[q := Remove(page1[q], id)];
    }

    /** The chaining section of cpu_step_to_interrupt. */
    method ChainBlocks(last: Id, id: Id)
      requires Valid() && last in blocks && id in blocks
      modifies this
      ensures Valid() && Contents() == Chain(old(Contents()), last, id)
    {
      hide Sound, HashOK, Page0OK, Page1OK, JumpsOK, CountsOK;
      ghost var c := Contents();
      ChainSound(c, last, id);
      if !blocks[last].jetsam && !blocks[id].jetsam {
        var addr := blocks[id].addr;
        var b := blocks[last];
        if b.slot0.Jump? && b.slot0.to == None && b.slot0.target == addr {
          b := b.(slot0 := b.slot0.(to := Some(id)));
          from0 := from0[id := [last] + from0[id]];
        }
        if b.slot1.Jump? && b.slot1.to == None && b.slot1.target == addr {
          b := b.(slot1 := b.slot1.(to := Some(id)));
          from1 := from1[id := [last] + from1[id]];
        }
        blocks := blocks[last := b];
        ChainLists(c, last, id, hash, page0, page1, live, numBlocks, memUsed);
        ChainJumps(c, last, id, old(from0), true);
        ChainJumps(c, last, id, old(from1), false);
      }
    }

    /** The part of fiber_block_disconnect that gives the jumps into a block their original
        values back, for one of the two slots. */
    static method RestoreJumps(blocks: map<Id, Block>, first: bool, prev: seq<Id>) returns (r: map<Id, Block>)
      requires forall i :: 0 <= i < |prev| ==> prev[i] in blocks
      ensures r.Keys == blocks.Keys
      ensures forall b :: b in blocks ==> r[b] == if b in prev then Unhook(blocks[b], first) else blocks[b]
    {
      r := blocks;
      var i := 0;
      while i < |prev|
        invariant 0 <= i <= |prev| && r.Keys == blocks.Keys
        invariant forall b :: b in blocks ==> r[b] == if b in prev[..i] then Unhook(blocks[b], first) else blocks[b]
      {
        var p := prev[i];
        if SlotOf(r[p], first).Jump? {
          r := r[p := WithSlot(r[p], first, SlotOf(r[p], first).(to := None))];
        }
        i := i + 1;
      }
      assert prev[..i] == prev;
    }

    /** The jump lists and slots once id is disconnected. */
    static method Unchain(ghost c: Cache, id: Id, blocks: map<Id, Block>, from0: map<Id, seq<Id>>, from1: map<Id, seq<Id>>)
      returns (blocks': map<Id, Block>, from0': map<Id, seq<Id>>, from1': map<Id, seq<Id>>)
      requires Sound(c) && Live(c, id) && blocks == c.blocks && JumpsOK(from0, c, true) && JumpsOK(from1, c, false)
      ensures blocks' == Disconnect(c, id).blocks
      ensures JumpsOK(from0', Disconnect(c, id), true) && JumpsOK(from1', Disconnect(c, id), false)
    {
      hide Sound, JumpsOK, Disconnect, Remove, NoDuplicates;
      JumpsAfter(c, id, from0, true);
      JumpsAfter(c, id, from1, false);
      JumpsInto(c, id, from0, true);
      JumpsInto(c, id, from1, false);
      var b := blocks[id];
      from0', from1' := from0, from1;
      if b.slot0.Jump? && b.slot0.to.Some? {
        from0' := from0'[b.slot0.to.value := Remove(from0'[b.slot0.to.value], id)];
      }
      if b.slot1.Jump? && b.slot1.to.Some? {
        from1' := from1'[b.slot1.to.value := Remove(from1'[b.slot1.to.value], id)];
      }
      ghost var prev0, prev1 := from0'[id], from1'[id];
      blocks' := RestoreJumps(blocks, true, from0'[id]);
      blocks' := RestoreJumps(blocks', false, from1'[id]);
      blocks' := blocks'[id := blocks'[id].(jetsam := true)];
      from0', from1' := from0'[id := []], from1'[id := []];
      Restored(c, id, prev0, prev1, blocks');
    }

    /** fiber_block_disconnect, and moving the block to the jetsam list. */
    method Discard(id: Id)
      requires Valid() && Live(Contents(), id)
      modifies this
      ensures Valid() && Contents() == Disconnect(old(Contents()), id)
      ensures numBlocks == old(numBlocks) - 1 && memUsed == old(memUsed) - old(blocks)[id].used
    {
      hide Sound, HashOK, Page0OK, Page1OK, JumpsOK, CountsOK, Disconnect, Remove, SameCode, Page;
      ghost var c, d := Contents(), Disconnect(Contents(), id);
      DisconnectOne(c, id, live, numBlocks, memUsed);
      var blocks', from0', from1' := Unchain(c, id, blocks, from0, from1);
      KeysOf(d, from0', from1');
      DropFromLists(id);
      Retire(id, blocks', from0', from1');
      assert Contents() == d;
    }

    /** The counts, the other blocks with their restored jumps, and the jetsam list. */
    method Retire(id: Id, blocks': map<Id, Block>, from0': map<Id, seq<Id>>, from1': map<Id, seq<Id>>)
      requires id in blocks && blocks[id].used <= memUsed && numBlocks > 0
      modifies `memUsed, `numBlocks, `live, `from0, `from1, `blocks, `jetsam
      ensures memUsed == old(memUsed) - old(blocks)[id].used && numBlocks == old(numBlocks) - 1 && live == Remove(old(live), id)
      ensures blocks == blocks' && from0 == from0' && from1 == from1' && jetsam == [id] + old(jetsam)
    {
      memUsed, numBlocks, live := memUsed - blocks[id].used, numBlocks - 1, Remove(live, id);
      blocks, from0, from1 := blocks', from0', from1';
      jetsam := [id] + jetsam;
    }

    /** asbestos_invalidate_range: every block that is hit goes to jetsam, one after another in
        some order. No block with a byte on a page of the range stays live. */
    method InvalidateRange(start: nat, end: nat) returns (ghost ids: seq<Id>)
      requires Valid()
      modifies this
      ensures Valid() && NoDuplicates(ids)
      ensures forall i :: 0 <= i < |ids| ==> Live(old(Contents()), ids[i])
      ensures Contents() == DisconnectAll(old(Contents()), ids)
      ensures forall id :: id in ids <==> Live(old(Contents()), id) && Hit(old(blocks)[id], start, end)
      ensures forall id, a :: Live(Contents(), id) && OnBlock(blocks[id], a) ==> !(start <= Page(a) < end)
    {
      hide Sound, HashOK, Page0OK, Page1OK, JumpsOK, CountsOK, DisconnectAll, Page, OnBlock;
      ghost var c := Contents();
      ids := [];
      DiscardedNone(c);
      var page := start;
      while page < end
        invariant Valid() && Discarded(c, ids, Contents()) && start <= page && (page <= end || page == start)
        invariant forall id :: id in ids <==> Live(c, id) && Hit(c.blocks[id], start, page)
      {
        forall id | Live(c, id) ensures Hit(c.blocks[id], start, page + 1) <==> Hit(c.blocks[id], start, page) || Hit(c.blocks[id], page, page + 1) {
          HitMore(c.blocks[id], start, page);
        }
        ids := DiscardBucket(c, ids, page);
        page := page + 1;
      }
      forall id, a | Live(Contents(), id) && OnBlock(blocks[id], a) ensures !(start <= Page(a) < page) {
        PagesClear(c, Contents(), ids, start, page, id, a);
      }
    }

    /** The two inner loops, for one page: each round takes the first block of the list, and
        discarding it takes it off both lists. */
    method DiscardBucket(ghost c: Cache, ghost ids0: seq<Id>, page: nat) returns (ghost ids: seq<Id>)
      requires Valid() && Discarded(c, ids0, Contents())
      modifies this
      ensures Valid() && Discarded(c, ids, Contents())
      ensures forall id :: id in ids <==> id in ids0 || (Live(c, id) && Hit(c.blocks[id], page, page + 1))
    {
      hide Sound, HashOK, Page0OK, Page1OK, JumpsOK, CountsOK, Discarded, Disconnect, Page, Hit;
      var k := page % PAGE_HASH;
      ids := ids0;
      while page0[k] != []
        invariant Valid() && Discarded(c, ids, Contents())
        invariant forall id :: id in ids0 ==> id in ids
        invariant forall id :: id in ids ==> id in ids0 || (Live(c, id) && Hit(c.blocks[id], page, page + 1))
        decreases numBlocks
      {
        var id := page0[k][0];
        FirstOnPage(page0, page1, Contents(), k);
        DiscardedLive(c, ids, Contents(), id);
        HitHere(c.blocks[id], page);
        DiscardedMore(c, ids, Contents(), id);
        Discard(id);
        ids := ids + [id];
      }
      PagesEmpty(page0, page1, Contents(), k);
      ghost var mid := ids;
      ghost var none := Contents();
      while page1[k] != []
        invariant Valid() && Discarded(c, ids, Contents())
        invariant forall id :: id in mid ==> id in ids
        invariant forall id :: id in ids ==> id in ids0 || (Live(c, id) && Hit(c.blocks[id], page, page + 1))
        decreases numBlocks
      {
        var id := page1[k][0];
        FirstOnPage(page0, page1, Contents(), k);
        DiscardedLive(c, ids, Contents(), id);
        HitHere(c.blocks[id], page);
        DiscardedMore(c, ids, Contents(), id);
        Discard(id);
        ids := ids + [id];
      }
      PagesEmpty(page0, page1, Contents(), k);
      forall id | Live(c, id) && Hit(c.blocks[id], page, page + 1) ensures id in ids {
        HitHere(c.blocks[id], page);
        DiscardedLive(c, mid, none, id);
        DiscardedLive(c, ids, Contents(), id);
      }
    }

    /** fiber_free_jetsam. */
    method FreeAll()
      requires Valid()
      modifies this
      ensures Valid() && Contents() == FreeJetsam(old(Contents()))
      ensures numBlocks == old(numBlocks) && memUsed == old(memUsed)
    {
      hide Sound, HashOK, Page0OK, Page1OK, JumpsOK, CountsOK;
      ghost var c := Contents();
      FreeSound(c);
      var blocks', from0', from1' := FreeList(jetsam, blocks, from0, from1);
      FreeLists(c, hash, page0, page1, live, numBlocks, memUsed);
      FreeJumps(c, from0, from0', true);
      FreeJumps(c, from1, from1', false);
      blocks, from0, from1, jetsam := blocks', from0', from1', [];
    }

    /** Its loop. */
    static method FreeList(jetsam: seq<Id>, blocks: map<Id, Block>, from0: map<Id, seq<Id>>, from1: map<Id, seq<Id>>)
      returns (blocks': map<Id, Block>, from0': map<Id, seq<Id>>, from1': map<Id, seq<Id>>)
      ensures var gone := set b | b in jetsam; blocks' == blocks - gone && from0' == from0 - gone && from1' == from1 - gone
    {
      blocks', from0', from1' := blocks, from0, from1;
      ghost var done: set<Id> := {};
      var rest := jetsam;
      while rest != []
        invariant forall x :: x in jetsam <==> x in done || x in rest
        invariant blocks' == blocks - done && from0' == from0 - done && from1' == from1 - done
        decreases |rest|
      {
        done := done + {rest[0]};
        blocks' := blocks' - {rest[0]};
        from0', from1' := from0' - {rest[0]}, from1' - {rest[0]};
        rest := rest[1..];
      }
      assert done == set b | b in jetsam;
    }
  }
}
