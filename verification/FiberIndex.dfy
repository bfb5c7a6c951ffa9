/** The block cache as asbestos/asbestos.c keeps it: a resizable hash of the live blocks by
    address, a page index for invalidation, lists of the jumps into each block, and counters,
    all edited in place. Each method is tied to the operation of FiberCache it carries out. */
module FiberIndex {
  import opened Options
  import opened FiberCache

  const PAGE_HASH: nat := 1024     // FIBER_PAGE_HASH_SIZE
  const INITIAL_HASH: nat := 1024  // FIBER_INITIAL_HASH_SIZE

  function Page(a: Addr): nat { a / PAGE_SIZE }

  // Lists

  /** A list without its first x. */
  function Remove(s: seq<Id>, x: Id): seq<Id> {
    if s == [] then [] else if s[0] == x then s[1..] else [s[0]] + Remove(s[1..], x)
  }

  lemma {:induction false} RemoveMembers(s: seq<Id>, x: Id)
    requires NoDuplicates(s)
    ensures NoDuplicates(Remove(s, x))
    ensures forall y :: y in Remove(s, x) <==> y in s && y != x
    ensures |Remove(s, x)| == if x in s then |s| - 1 else |s|
  {
    if s != [] {
      RemoveMembers(s[1..], x);
      assert s[0] !in s[1..];
    }
  }

  ghost function SumUsed(ids: seq<Id>, blocks: map<Id, Block>): nat
    requires forall i :: 0 <= i < |ids| ==> ids[i] in blocks
  {
    if ids == [] then 0 else blocks[ids[0]].used + SumUsed(ids[1..], blocks)
  }

  lemma {:induction false} SumRemove(ids: seq<Id>, x: Id, blocks: map<Id, Block>)
    requires NoDuplicates(ids) && x in ids && forall i :: 0 <= i < |ids| ==> ids[i] in blocks
    ensures forall i :: 0 <= i < |Remove(ids, x)| ==> Remove(ids, x)[i] in blocks
    ensures SumUsed(ids, blocks) == blocks[x].used + SumUsed(Remove(ids, x), blocks)
  {
    RemoveMembers(ids, x);
    if ids[0] != x {
      RemoveMembers(ids[1..], x);
      SumRemove(ids[1..], x, blocks);
      assert Remove(ids, x)[1..] == Remove(ids[1..], x);
    }
  }

  lemma {:induction false} SumSame(ids: seq<Id>, blocks: map<Id, Block>, blocks': map<Id, Block>)
    requires forall i :: 0 <= i < |ids| ==> ids[i] in blocks && ids[i] in blocks' && blocks[ids[i]].used == blocks'[ids[i]].used
    ensures SumUsed(ids, blocks) == SumUsed(ids, blocks')
  {
    if ids != [] { SumSame(ids[1..], blocks, blocks'); }
  }

  // What the lists contain

  ghost predicate HashOK(hash: seq<seq<Id>>, c: Cache) {
    forall k :: 0 <= k < |hash| ==>
      NoDuplicates(hash[k]) && forall id :: id in hash[k] <==> Live(c, id) && c.blocks[id].addr % |hash| == k
  }

  ghost predicate Page0OK(pages: seq<seq<Id>>, c: Cache) {
    |pages| == PAGE_HASH && forall k :: 0 <= k < PAGE_HASH ==>
      NoDuplicates(pages[k]) && forall id :: id in pages[k] <==> Live(c, id) && Page(c.blocks[id].addr) % PAGE_HASH == k
  }

  /** Only blocks that end on another page than they start on are listed a second time. */
  ghost predicate Page1OK(pages: seq<seq<Id>>, c: Cache) {
    |pages| == PAGE_HASH && forall k :: 0 <= k < PAGE_HASH ==>
      NoDuplicates(pages[k]) && forall id :: id in pages[k] <==> Live(c, id) && Spans(c.blocks[id]) && Page(c.blocks[id].endAddr) % PAGE_HASH == k
  }

  predicate Spans(b: Block) { Page(b.addr) != Page(b.endAddr) }

  function WithSlot(b: Block, first: bool, s: Slot): Block { if first then b.(slot0 := s) else b.(slot1 := s) }

  /** A live block is listed as jumping to t exactly when its slot is patched to t. */
  ghost predicate JumpsOK(from: map<Id, seq<Id>>, c: Cache, first: bool) {
    from.Keys == c.blocks.Keys && forall t :: t in from ==>
      NoDuplicates(from[t]) && forall p :: p in from[t] <==> Live(c, p) && PatchedTo(SlotOf(c.blocks[p], first), t)
  }

  ghost predicate CountsOK(live: seq<Id>, c: Cache, numBlocks: nat, memUsed: nat) {
    && NoDuplicates(live) && (forall id :: id in live <==> Live(c, id))
    && (forall i :: 0 <= i < |live| ==> live[i] in c.blocks)
    && numBlocks == |live| && memUsed == SumUsed(live, c.blocks)
  }

  // Effect of the cache operations on the lists

  /** Dropping id from each list it is on is what disconnecting it asks for. */
  lemma ListsWithout(c: Cache, d: Cache, id: Id, hash: seq<seq<Id>>, page0: seq<seq<Id>>, page1: seq<seq<Id>>)
    requires Live(c, id) && d.blocks.Keys == c.blocks.Keys && hash != []
    requires forall x :: Live(d, x) <==> Live(c, x) && x != id
    requires forall x :: x in c.blocks ==> SameCode(c.blocks[x], d.blocks[x])
    requires HashOK(hash, c) && Page0OK(page0, c) && Page1OK(page1, c)
    ensures var b := c.blocks[id];
      var h, p, q := b.addr % |hash|, Page(b.addr) % PAGE_HASH, Page(b.endAddr) % PAGE_HASH;
      && HashOK(hash[h := Remove(hash[h], id)], d)
      && Page0OK(page0[p := Remove(page0[p], id)], d)
      && Page1OK(page1[q := Remove(page1[q], id)], d)
  {
    var b := c.blocks[id];
    var h, p, q := b.addr % |hash|, Page(b.addr) % PAGE_HASH, Page(b.endAddr) % PAGE_HASH;
    RemoveMembers(hash[h], id);
    RemoveMembers(page0[p], id);
    RemoveMembers(page1[q], id);
  }

  lemma CountsWithout(c: Cache, d: Cache, id: Id, live: seq<Id>, numBlocks: nat, memUsed: nat)
    requires Live(c, id) && d.blocks.Keys == c.blocks.Keys && CountsOK(live, c, numBlocks, memUsed)
    requires forall x :: Live(d, x) <==> Live(c, x) && x != id
    requires forall x :: x in c.blocks ==> SameCode(c.blocks[x], d.blocks[x])
    ensures numBlocks >= 1 && memUsed >= c.blocks[id].used
    ensures CountsOK(Remove(live, id), d, numBlocks - 1, memUsed - c.blocks[id].used)
  {
    SumRemove(live, id, c.blocks);
    RemoveMembers(live, id);
    SumSame(Remove(live, id), c.blocks, d.blocks);
  }

  /** The list of the block that id jumps to loses id. */
  function JumpsUnlinked(from: map<Id, seq<Id>>, id: Id, s: Slot): map<Id, seq<Id>>
    requires s.Jump? && s.to.Some? ==> s.to.value in from
  {
    if s.Jump? && s.to.Some? then from[s.to.value := Remove(from[s.to.value], id)] else from
  }

  /** Then id's own list is emptied. */
  function JumpsWithout(from: map<Id, seq<Id>>, id: Id, s: Slot): map<Id, seq<Id>>
    requires s.Jump? && s.to.Some? ==> s.to.value in from
  {
    JumpsUnlinked(from, id, s)[id := []]
  }

  /** What is on id's list in between: the other live blocks that jump to it. */
  lemma JumpsInto(c: Cache, id: Id, from: map<Id, seq<Id>>, first: bool)
    requires Sound(c) && Live(c, id) && JumpsOK(from, c, first)
    ensures var s := SlotOf(c.blocks[id], first);
      && (s.Jump? && s.to.Some? ==> s.to.value in from)
      && var f := JumpsUnlinked(from, id, s);
      && id in f
      && (forall p :: p in f[id] <==> Live(c, p) && p != id && PatchedTo(SlotOf(c.blocks[p], first), id))
      && (forall i :: 0 <= i < |f[id]| ==> f[id][i] in c.blocks)
      && f.Keys == c.blocks.Keys
  {
    hide JetsamListed, AddressesUnique, NotBefore;
    assert BlockSound(c, id);
    RemoveMembers(from[id], id);
    var f := JumpsUnlinked(from, id, SlotOf(c.blocks[id], first));
    forall p ensures p in f[id] <==> Live(c, p) && p != id && PatchedTo(SlotOf(c.blocks[p], first), id) {
      assert p in from[id] <==> Live(c, p) && PatchedTo(SlotOf(c.blocks[p], first), id);
    }
    forall i | 0 <= i < |f[id]| ensures f[id][i] in c.blocks { assert f[id][i] in f[id]; }
  }

  /** Who still jumps to t once id is disconnected: who did, unless that was id or went to id. */
  lemma SlotAfter(c: Cache, id: Id, first: bool, p: Id, t: Id)
    requires Live(c, id)
    ensures var d := Disconnect(c, id);
      && d.blocks.Keys == c.blocks.Keys
      && (Live(d, p) && PatchedTo(SlotOf(d.blocks[p], first), t) <==>
          Live(c, p) && p != id && t != id && PatchedTo(SlotOf(c.blocks[p], first), t))
  {
  }

  lemma ListAfter(c: Cache, id: Id, from: map<Id, seq<Id>>, first: bool, t: Id)
    requires Live(c, id) && JumpsOK(from, c, first) && t in from
    ensures var s, d := SlotOf(c.blocks[id], first), Disconnect(c, id);
      var list := if t == id then [] else if PatchedTo(s, t) then Remove(from[t], id) else from[t];
      NoDuplicates(list) && forall p :: p in list <==> Live(d, p) && PatchedTo(SlotOf(d.blocks[p], first), t)
  {
    hide Disconnect;
    var s, d := SlotOf(c.blocks[id], first), Disconnect(c, id);
    var list := if t == id then [] else if PatchedTo(s, t) then Remove(from[t], id) else from[t];
    RemoveMembers(from[t], id);
    forall p ensures p in list <==> Live(d, p) && PatchedTo(SlotOf(d.blocks[p], first), t) {
      assert p in from[t] <==> Live(c, p) && PatchedTo(SlotOf(c.blocks[p], first), t);
      SlotAfter(c, id, first, p, t);
    }
  }

  lemma TargetListed(c: Cache, id: Id, from: map<Id, seq<Id>>, first: bool)
    requires Sound(c) && Live(c, id) && JumpsOK(from, c, first)
    ensures var s := SlotOf(c.blocks[id], first); s.Jump? && s.to.Some? ==> s.to.value in from
  {
    assert BlockSound(c, id);
  }

  lemma JumpsAfter(c: Cache, id: Id, from: map<Id, seq<Id>>, first: bool)
    requires Sound(c) && Live(c, id) && JumpsOK(from, c, first)
    ensures var s := SlotOf(c.blocks[id], first); s.Jump? && s.to.Some? ==> s.to.value in from
    ensures JumpsOK(JumpsWithout(from, id, SlotOf(c.blocks[id], first)), Disconnect(c, id), first)
  {
    hide Sound, SlotOf, Disconnect, NoDuplicates, Remove;
    TargetListed(c, id, from, first);
    var s, d := SlotOf(c.blocks[id], first), Disconnect(c, id);
    var from' := JumpsWithout(from, id, s);
    SlotAfter(c, id, first, id, id);
    assert from'.Keys == d.blocks.Keys;
    forall t | t in from' ensures NoDuplicates(from'[t])
      && forall p :: p in from'[t] <==> Live(d, p) && PatchedTo(SlotOf(d.blocks[p], first), t)
    {
      ListAfter(c, id, from, first, t);
      assert from'[t] == if t == id then [] else if PatchedTo(s, t) then Remove(from[t], id) else from[t];
    }
  }

  lemma DisconnectOne(c: Cache, id: Id, live: seq<Id>, numBlocks: nat, memUsed: nat)
    requires Sound(c) && Live(c, id) && CountsOK(live, c, numBlocks, memUsed)
    ensures Sound(Disconnect(c, id)) && Disconnect(c, id).jetsam == [id] + c.jetsam
    ensures numBlocks >= 1 && memUsed >= c.blocks[id].used
    ensures CountsOK(Remove(live, id), Disconnect(c, id), numBlocks - 1, memUsed - c.blocks[id].used)
  {
    hide Sound, Disconnect, CountsOK;
    DisconnectSound(c, id);
    CountsWithout(c, Disconnect(c, id), id, live, numBlocks, memUsed);
  }

  lemma PageCounts(page0: seq<seq<Id>>, page1: seq<seq<Id>>, c: Cache)
    requires Page0OK(page0, c) && Page1OK(page1, c)
    ensures |page0| == |page1| == PAGE_HASH
  {
  }

  lemma KeysOf(c: Cache, from0: map<Id, seq<Id>>, from1: map<Id, seq<Id>>)
    requires JumpsOK(from0, c, true) && JumpsOK(from1, c, false)
    ensures from0.Keys == from1.Keys == c.blocks.Keys
  {
  }

  // Rehashing

  ghost predicate InLists(id: Id, lists: seq<seq<Id>>) { exists m :: 0 <= m < |lists| && id in lists[m] }

  /** The new buckets hold exactly the blocks of the given lists. */
  ghost predicate Moved(newHash: seq<seq<Id>>, c: Cache, lists: seq<seq<Id>>) {
    forall k :: 0 <= k < |newHash| ==>
      && NoDuplicates(newHash[k])
      && forall id :: id in newHash[k] <==> InLists(id, lists) && id in c.blocks && c.blocks[id].addr % |newHash| == k
  }

  lemma MovedNone(newHash: seq<seq<Id>>, c: Cache)
    requires forall k :: 0 <= k < |newHash| ==> newHash[k] == []
    ensures Moved(newHash, c, [])
  {
  }

  lemma MovedSame(newHash: seq<seq<Id>>, c: Cache, lists: seq<seq<Id>>, lists': seq<seq<Id>>)
    requires Moved(newHash, c, lists) && forall id :: InLists(id, lists) <==> InLists(id, lists')
    ensures Moved(newHash, c, lists')
  {
  }

  lemma InMore(lists: seq<seq<Id>>, l: seq<Id>, id: Id)
    ensures InLists(id, lists + [l]) <==> InLists(id, lists) || id in l
  {
    if m :| 0 <= m < |lists| && id in lists[m] { assert id in (lists + [l])[m]; }
    if id in l { assert id in (lists + [l])[|lists|]; }
  }

  lemma OneBucket(hash: seq<seq<Id>>, c: Cache, id: Id, i: nat)
    requires HashOK(hash, c) && i < |hash| && id in hash[i]
    ensures !InLists(id, hash[..i])
  {
    assert forall m :: 0 <= m < i ==> id !in hash[m];
  }

  lemma MoveOne(newHash: seq<seq<Id>>, c: Cache, hash: seq<seq<Id>>, i: nat, j: nat)
    requires i < |hash| && j < |hash[i]| && HashOK(hash, c) && newHash != []
    requires Moved(newHash, c, hash[..i] + [hash[i][..j]])
    ensures hash[i][j] in c.blocks
    ensures var id := hash[i][j]; var k := c.blocks[id].addr % |newHash|;
      Moved(newHash[k := [id] + newHash[k]], c, hash[..i] + [hash[i][..j + 1]])
  {
    var id := hash[i][j];
    var before, after := hash[..i] + [hash[i][..j]], hash[..i] + [hash[i][..j + 1]];
    assert id in hash[i];
    forall x ensures InLists(x, after) <==> InLists(x, before) || x == id {
      InMore(hash[..i], hash[i][..j], x);
      InMore(hash[..i], hash[i][..j + 1], x);
    }
    assert !InLists(id, before) by {
      InMore(hash[..i], hash[i][..j], id);
      OneBucket(hash, c, id, i);
    }
  }

  lemma MovedAll(newHash: seq<seq<Id>>, c: Cache, hash: seq<seq<Id>>)
    requires Moved(newHash, c, hash) && HashOK(hash, c) && hash != []
    ensures HashOK(newHash, c)
  {
    forall id ensures InLists(id, hash) <==> Live(c, id) {
      if Live(c, id) { assert id in hash[c.blocks[id].addr % |hash|]; }
    }
  }

  // Inserting

  lemma InsertLists(c: Cache, id: Id, b: Block, hash: seq<seq<Id>>, page0: seq<seq<Id>>, page1: seq<seq<Id>>)
    requires id !in c.blocks && !b.jetsam && hash != []
    requires HashOK(hash, c) && Page0OK(page0, c) && Page1OK(page1, c)
    ensures var d := Insert(c, id, b);
      var h, p, q := b.addr % |hash|, Page(b.addr) % PAGE_HASH, Page(b.endAddr) % PAGE_HASH;
      && HashOK(hash[h := [id] + hash[h]], d)
      && Page0OK(page0[p := [id] + page0[p]], d)
      && Page1OK(if Spans(b) then page1[q := [id] + page1[q]] else page1, d)
  {
    InsertHash(c, id, b, hash);
    InsertPages(c, id, b, page0, page1);
  }

  lemma InsertHash(c: Cache, id: Id, b: Block, hash: seq<seq<Id>>)
    requires id !in c.blocks && !b.jetsam && hash != [] && HashOK(hash, c)
    ensures var h := b.addr % |hash|; HashOK(hash[h := [id] + hash[h]], Insert(c, id, b))
  {
    var d, h := Insert(c, id, b), b.addr % |hash|;
    var hash' := hash[h := [id] + hash[h]];
    forall k | 0 <= k < |hash'| ensures NoDuplicates(hash'[k])
      && forall x :: x in hash'[k] <==> Live(d, x) && d.blocks[x].addr % |hash'| == k
    {
      assert NoDuplicates(hash[k]) && id !in hash[k];
      assert forall x :: x in hash[k] <==> Live(c, x) && c.blocks[x].addr % |hash| == k;
    }
  }

  lemma InsertPages(c: Cache, id: Id, b: Block, page0: seq<seq<Id>>, page1: seq<seq<Id>>)
    requires id !in c.blocks && !b.jetsam && Page0OK(page0, c) && Page1OK(page1, c)
    ensures var d := Insert(c, id, b);
      var p, q := Page(b.addr) % PAGE_HASH, Page(b.endAddr) % PAGE_HASH;
      && Page0OK(page0[p := [id] + page0[p]], d)
      && Page1OK(if Spans(b) then page1[q := [id] + page1[q]] else page1, d)
  {
    hide Page;
    var d := Insert(c, id, b);
    var p, q := Page(b.addr) % PAGE_HASH, Page(b.endAddr) % PAGE_HASH;
    var page0' := page0[p := [id] + page0[p]];
    var page1' := if Spans(b) then page1[q := [id] + page1[q]] else page1;
    forall k | 0 <= k < PAGE_HASH ensures NoDuplicates(page0'[k])
      && forall x :: x in page0'[k] <==> Live(d, x) && Page(d.blocks[x].addr) % PAGE_HASH == k
    {
      assert NoDuplicates(page0[k]) && id !in page0[k];
      assert forall x :: x in page0[k] <==> Live(c, x) && Page(c.blocks[x].addr) % PAGE_HASH == k;
    }
    forall k | 0 <= k < PAGE_HASH ensures NoDuplicates(page1'[k])
      && forall x :: x in page1'[k] <==> Live(d, x) && Spans(d.blocks[x]) && Page(d.blocks[x].endAddr) % PAGE_HASH == k
    {
      assert NoDuplicates(page1[k]) && id !in page1[k];
      assert forall x :: x in page1[k] <==> Live(c, x) && Spans(c.blocks[x]) && Page(c.blocks[x].endAddr) % PAGE_HASH == k;
    }
  }

  lemma InsertCounts(c: Cache, id: Id, b: Block, live: seq<Id>, numBlocks: nat, memUsed: nat)
    requires id !in c.blocks && !b.jetsam && CountsOK(live, c, numBlocks, memUsed)
    ensures CountsOK([id] + live, Insert(c, id, b), numBlocks + 1, memUsed + b.used)
  {
    var d := Insert(c, id, b);
    SumSame(live, c.blocks, d.blocks);
    assert ([id] + live)[1..] == live;
    forall x ensures Live(d, x) <==> Live(c, x) || x == id {}
  }

  lemma InsertJumps(c: Cache, id: Id, b: Block, from: map<Id, seq<Id>>, first: bool)
    requires Sound(c) && id !in c.blocks && !b.jetsam && Unpatched(SlotOf(b, first)) && JumpsOK(from, c, first)
    ensures JumpsOK(from[id := []], Insert(c, id, b), first)
  {
    hide JetsamListed, AddressesUnique, NotBefore;
    var d, from' := Insert(c, id, b), from[id := []];
    forall p | Live(c, p) ensures !PatchedTo(SlotOf(c.blocks[p], first), id) { assert BlockSound(c, p); }
    forall t | t in from' ensures NoDuplicates(from'[t])
      && forall p :: p in from'[t] <==> Live(d, p) && PatchedTo(SlotOf(d.blocks[p], first), t)
    {
    }
  }

  lemma InsertOne(c: Cache, id: Id, b: Block, live: seq<Id>, numBlocks: nat, memUsed: nat,
                  from0: map<Id, seq<Id>>, from1: map<Id, seq<Id>>)
    requires Sound(c) && id !in c.blocks && !b.jetsam && Unpatched(b.slot0) && Unpatched(b.slot1) && Short(b)
    requires forall x :: Live(c, x) ==> c.blocks[x].addr != b.addr
    requires CountsOK(live, c, numBlocks, memUsed) && JumpsOK(from0, c, true) && JumpsOK(from1, c, false)
    ensures var d := Insert(c, id, b);
      && d == Cache(c.blocks[id := b], c.jetsam)
      && Sound(d) && CountsOK([id] + live, d, numBlocks + 1, memUsed + b.used)
      && JumpsOK(from0[id := []], d, true) && JumpsOK(from1[id := []], d, false)
      && from0[id := []].Keys == from1[id := []].Keys == d.blocks.Keys
  {
    hide Sound, CountsOK, JumpsOK, Unpatched, Short;
    InsertSound(c, id, b);
    InsertCounts(c, id, b, live, numBlocks, memUsed);
    InsertJumps(c, id, b, from0, true);
    InsertJumps(c, id, b, from1, false);
    KeysOf(Insert(c, id, b), from0[id := []], from1[id := []]);
  }

  // Chaining

  lemma ChainLists(c: Cache, last: Id, id: Id, hash: seq<seq<Id>>, page0: seq<seq<Id>>, page1: seq<seq<Id>>,
                   live: seq<Id>, numBlocks: nat, memUsed: nat)
    requires last in c.blocks && id in c.blocks
    requires HashOK(hash, c) && Page0OK(page0, c) && Page1OK(page1, c) && CountsOK(live, c, numBlocks, memUsed)
    ensures var d := Chain(c, last, id);
      HashOK(hash, d) && Page0OK(page0, d) && Page1OK(page1, d) && CountsOK(live, d, numBlocks, memUsed)
  {
    var d := Chain(c, last, id);
    forall x ensures Live(d, x) <==> Live(c, x) {}
    SumSame(live, c.blocks, d.blocks);
  }

  /** Who jumps to t once last is chained to id: who did, and last if its slot was patched. */
  lemma SlotChained(c: Cache, last: Id, id: Id, first: bool, p: Id, t: Id)
    requires Live(c, last) && Live(c, id)
    ensures var s, d := SlotOf(c.blocks[last], first), Chain(c, last, id);
      && d.blocks.Keys == c.blocks.Keys
      && (Live(d, p) && PatchedTo(SlotOf(d.blocks[p], first), t) <==>
          || (Live(c, p) && PatchedTo(SlotOf(c.blocks[p], first), t))
          || (p == last && t == id && Patch(s, c.blocks[id].addr, id) != s))
  {
  }

  lemma ListChained(c: Cache, last: Id, id: Id, from: map<Id, seq<Id>>, first: bool, t: Id)
    requires Live(c, last) && Live(c, id) && JumpsOK(from, c, first) && t in from
    ensures var s, d := SlotOf(c.blocks[last], first), Chain(c, last, id);
      var list := if t == id && Patch(s, c.blocks[id].addr, id) != s then [last] + from[t] else from[t];
      NoDuplicates(list) && forall p :: p in list <==> Live(d, p) && PatchedTo(SlotOf(d.blocks[p], first), t)
  {
    hide Chain;
    var s, d := SlotOf(c.blocks[last], first), Chain(c, last, id);
    var list := if t == id && Patch(s, c.blocks[id].addr, id) != s then [last] + from[t] else from[t];
    forall p ensures p in list <==> Live(d, p) && PatchedTo(SlotOf(d.blocks[p], first), t) {
      assert p in from[t] <==> Live(c, p) && PatchedTo(SlotOf(c.blocks[p], first), t);
      SlotChained(c, last, id, first, p, t);
    }
  }

  lemma ChainJumps(c: Cache, last: Id, id: Id, from: map<Id, seq<Id>>, first: bool)
    requires Live(c, last) && Live(c, id) && JumpsOK(from, c, first)
    ensures var s := SlotOf(c.blocks[last], first);
      JumpsOK(if Patch(s, c.blocks[id].addr, id) != s then from[id := [last] + from[id]] else from, Chain(c, last, id), first)
  {
    hide Chain, SlotOf, Patch, PatchedTo, NoDuplicates;
    var s, d := SlotOf(c.blocks[last], first), Chain(c, last, id);
    var from' := if Patch(s, c.blocks[id].addr, id) != s then from[id := [last] + from[id]] else from;
    SlotChained(c, last, id, first, id, id);
    assert from'.Keys == d.blocks.Keys;
    forall t | t in from' ensures NoDuplicates(from'[t])
      && forall p :: p in from'[t] <==> Live(d, p) && PatchedTo(SlotOf(d.blocks[p], first), t)
    {
      ListChained(c, last, id, from, first, t);
    }
  }

  // Disconnecting

  function Unpatch(s: Slot): Slot { if s.Jump? then s.(to := None) else s }

  function Unhook(b: Block, first: bool): Block { WithSlot(b, first, Unpatch(SlotOf(b, first))) }

  function Unhooked(b: Block, first: bool, second: bool, discard: bool): Block {
    var x := if first then Unhook(b, true) else b;
    var y := if second then Unhook(x, false) else x;
    if discard then y.(jetsam := true) else y
  }

  /** Giving the listed jumps their original values back is what Disconnect does to them. */
  lemma Restored(c: Cache, id: Id, prev0: seq<Id>, prev1: seq<Id>, blocks: map<Id, Block>)
    requires Live(c, id) && blocks.Keys == c.blocks.Keys
    requires forall p :: p in prev0 <==> Live(c, p) && p != id && PatchedTo(c.blocks[p].slot0, id)
    requires forall p :: p in prev1 <==> Live(c, p) && p != id && PatchedTo(c.blocks[p].slot1, id)
    requires forall b :: b in blocks ==> blocks[b] == Unhooked(c.blocks[b], b in prev0, b in prev1, b == id)
    ensures blocks == Disconnect(c, id).blocks
  {
    var d := Disconnect(c, id);
    forall b | b in blocks ensures blocks[b] == d.blocks[b] {
      assert b in prev0 <==> Live(c, b) && b != id && PatchedTo(c.blocks[b].slot0, id);
      assert b in prev1 <==> Live(c, b) && b != id && PatchedTo(c.blocks[b].slot1, id);
    }
  }

  lemma {:induction false} DisconnectAllKeeps(c: Cache, ids: seq<Id>, x: Id)
    requires x in c.blocks && forall i :: 0 <= i < |ids| ==> ids[i] in c.blocks
    ensures var d := DisconnectAll(c, ids);
      x in d.blocks && d.blocks[x].addr == c.blocks[x].addr && d.blocks[x].endAddr == c.blocks[x].endAddr
    decreases |ids|
  {
    if ids != [] {
      assert Disconnect(c, ids[0]).blocks.Keys == c.blocks.Keys;
      DisconnectAllKeeps(Disconnect(c, ids[0]), ids[1..], x);
    }
  }

  lemma {:induction false} DisconnectAllKeys(c: Cache, ids: seq<Id>)
    requires forall i :: 0 <= i < |ids| ==> ids[i] in c.blocks
    ensures DisconnectAll(c, ids).blocks.Keys == c.blocks.Keys
    decreases |ids|
  {
    if ids != [] {
      assert Disconnect(c, ids[0]).blocks.Keys == c.blocks.Keys;
      DisconnectAllKeys(Disconnect(c, ids[0]), ids[1..]);
    }
  }

  lemma {:induction false} DisconnectAllMore(c: Cache, ids: seq<Id>, x: Id)
    requires x in c.blocks && forall i :: 0 <= i < |ids| ==> ids[i] in c.blocks
    ensures x in DisconnectAll(c, ids).blocks
    ensures DisconnectAll(c, ids + [x]) == Disconnect(DisconnectAll(c, ids), x)
    decreases |ids|
  {
    DisconnectAllKeys(c, ids);
    if ids == [] {
      assert [] + [x] == [x] && [x][1..] == [];
    } else {
      assert (ids + [x])[1..] == ids[1..] + [x] && (ids + [x])[0] == ids[0];
      assert Disconnect(c, ids[0]).blocks.Keys == c.blocks.Keys;
      DisconnectAllMore(Disconnect(c, ids[0]), ids[1..], x);
    }
  }

  /** d is what is left of a sound cache c after discarding ids in turn. */
  ghost predicate Discarded(c: Cache, ids: seq<Id>, d: Cache) {
    && Sound(c) && NoDuplicates(ids) && (forall i :: 0 <= i < |ids| ==> Live(c, ids[i]))
    && d == DisconnectAll(c, ids)
  }

  lemma DiscardedNone(c: Cache)
    requires Sound(c)
    ensures Discarded(c, [], c)
  {
  }

  lemma DiscardedMore(c: Cache, ids: seq<Id>, d: Cache, id: Id)
    requires Discarded(c, ids, d) && Live(d, id)
    ensures Discarded(c, ids + [id], Disconnect(d, id)) && id !in ids
  {
    hide Sound;
    DisconnectAllSound(c, ids);
    DisconnectAllMore(c, ids, id);
  }

  lemma DiscardedLive(c: Cache, ids: seq<Id>, d: Cache, id: Id)
    requires Discarded(c, ids, d)
    ensures Live(d, id) <==> Live(c, id) && id !in ids
    ensures Live(d, id) ==> d.blocks[id].addr == c.blocks[id].addr && d.blocks[id].endAddr == c.blocks[id].endAddr
  {
    hide Sound;
    DisconnectAllSound(c, ids);
    if Live(c, id) { DisconnectAllKeeps(c, ids, id); }
  }

  // Freeing

  lemma FreeLists(c: Cache, hash: seq<seq<Id>>, page0: seq<seq<Id>>, page1: seq<seq<Id>>,
                  live: seq<Id>, numBlocks: nat, memUsed: nat)
    requires Sound(c)
    requires HashOK(hash, c) && Page0OK(page0, c) && Page1OK(page1, c) && CountsOK(live, c, numBlocks, memUsed)
    ensures var d := FreeJetsam(c);
      HashOK(hash, d) && Page0OK(page0, d) && Page1OK(page1, d) && CountsOK(live, d, numBlocks, memUsed)
  {
    var d := FreeJetsam(c);
    forall x ensures Live(d, x) <==> Live(c, x) {}
    forall i | 0 <= i < |live| ensures Live(c, live[i]) { assert live[i] in live; }
    SumSame(live, c.blocks, d.blocks);
  }

  lemma FreeJumps(c: Cache, from: map<Id, seq<Id>>, from': map<Id, seq<Id>>, first: bool)
    requires Sound(c) && JumpsOK(from, c, first)
    requires from' == from - (set b | b in c.jetsam)
    ensures JumpsOK(from', FreeJetsam(c), first)
  {
    var d := FreeJetsam(c);
    assert from'.Keys == d.blocks.Keys;
    forall t | t in from' ensures NoDuplicates(from'[t])
      && forall p :: p in from'[t] <==> Live(d, p) && PatchedTo(SlotOf(d.blocks[p], first), t)
    {
      assert from'[t] == from[t];
    }
  }

  // Emptying a bucket of the page index

  lemma FirstOnPage(page0: seq<seq<Id>>, page1: seq<seq<Id>>, c: Cache, k: nat)
    requires k < PAGE_HASH && Page0OK(page0, c) && Page1OK(page1, c)
    ensures page0[k] != [] ==> var id := page0[k][0]; Live(c, id) && Page(c.blocks[id].addr) % PAGE_HASH == k
    ensures page1[k] != [] ==>
      var id := page1[k][0]; Live(c, id) && Spans(c.blocks[id]) && Page(c.blocks[id].endAddr) % PAGE_HASH == k
  {
    if page0[k] != [] { assert page0[k][0] in page0[k]; }
    if page1[k] != [] { assert page1[k][0] in page1[k]; }
  }

  lemma PagesEmpty(page0: seq<seq<Id>>, page1: seq<seq<Id>>, c: Cache, k: nat)
    requires k < PAGE_HASH && Page0OK(page0, c) && Page1OK(page1, c)
    ensures page0[k] == [] <==> forall id :: Live(c, id) ==> Page(c.blocks[id].addr) % PAGE_HASH != k
    ensures page1[k] == [] <==> forall id :: Live(c, id) && Spans(c.blocks[id]) ==> Page(c.blocks[id].endAddr) % PAGE_HASH != k
  {
    FirstOnPage(page0, page1, c, k);
  }
}
