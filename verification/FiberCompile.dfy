/** How far a compiled block reaches. */
module FiberCompile {
  import opened FiberCache

  const MAX_INSTRUCTION: nat := 15

  /** What decoding at an address consumes, and whether the block goes on after it. Only an
      instruction that ends the block may consume nothing. */
  type Decoder = nat -> (nat, bool)

  ghost predicate Decodes(decode: Decoder) {
    forall ip: nat :: decode(ip).0 <= MAX_INSTRUCTION && (decode(ip).1 ==> decode(ip).0 >= 1)
  }

  function Ahead(a: Addr, n: nat): Addr { (a + n) % ADDR_SPACE }

  lemma Distance(a: Addr, n: nat)
    requires a < ADDR_SPACE && n <= PAGE_SIZE
    ensures Behind(a, Ahead(a, n)) == n && (n == 0 ==> Ahead(a, n) == a) && (n > 0 ==> Ahead(a, n) != a && (Ahead(a, n) - 1) % ADDR_SPACE == Ahead(a, n - 1))
  {
  }

  lemma AheadTwice(a: Addr, n: nat, k: nat)
    ensures Ahead(Ahead(a, n), k) == Ahead(a, n + k)
  {
  }

  /** The loop of fiber_block_compile and the extent that gen_end records, in 32-bit addresses. The
      block stops as soon as less than the longest instruction is left of one page, so it is a
      short one. */
  method CompileExtent(ip: Addr, decode: Decoder) returns (endAddr: Addr)
    requires Decodes(decode) && ip < ADDR_SPACE
    ensures forall used, slot0, slot1 :: Short(Block(ip, endAddr, used, slot0, slot1, false))
  {
    hide Ahead;
    var cur := ip;
    ghost var n := 0;
    Distance(ip, 0);
    while true
      invariant cur == Ahead(ip, n) && (n == 0 || n < PAGE_SIZE - MAX_INSTRUCTION)
      decreases PAGE_SIZE - n
    {
      var (len, more) := decode(cur);
      assert decode(cur).0 <= MAX_INSTRUCTION;
      AheadTwice(ip, n, len);
      cur := Ahead(cur, len);
      n := n + len;
      Distance(ip, n);
      if !more { break; }
      if Behind(ip, cur) >= PAGE_SIZE - MAX_INSTRUCTION { break; }
    }
    assert Behind(ip, cur) <= PAGE_SIZE;
    endAddr := if cur != ip then (cur - 1) % ADDR_SPACE else ip;
    if n > 0 { Distance(ip, n - 1); }
  }
}
