/** The two-level page table (kernel/memory.c): a directory of 1024 tables of 1024 entries, with
    tables allocated when first needed. */
module MemoryTable {

  import opened Options
  import opened MemoryWorld
  import opened MemorySteps

  const PGDIR_SIZE: nat := 1024

  /** A slot is in use when its data pointer is not null. */
  type Slots = seq<Option<Pte>>

  type Pgdir = seq<Option<Slots>>

  datatype Dir = Dir(pgdir: Pgdir, changes: nat)

  predicate Formed(g: Pgdir) { |g| == PGDIR_SIZE && forall i :: 0 <= i < |g| ==> g[i].None? || |g[i].value| == PGDIR_SIZE }

  function Top(p: nat): nat { p / PGDIR_SIZE }

  function Bottom(p: nat): nat { p % PGDIR_SIZE }

  lemma Split(p: nat)
    ensures p == Top(p) * PGDIR_SIZE + Bottom(p) && Bottom(p) < PGDIR_SIZE && (p < MEM_PAGES ==> Top(p) < PGDIR_SIZE)
  {
  }

  lemma SplitUnique(p: nat, q: nat)
    requires Top(p) == Top(q) && Bottom(p) == Bottom(q)
    ensures p == q
  {
    Split(p);
    Split(q);
  }

  /** mem_pt. */
  function Lookup(g: Pgdir, p: nat): Option<Pte>
    requires Formed(g) && p < MEM_PAGES
  {
    Split(p);
    if g[Top(p)].None? then None else g[Top(p)].value[Bottom(p)]
  }

  /** The page table as a map. */
  function TableOf(g: Pgdir): map<nat, Pte>
    requires Formed(g)
  {
    map p: nat | 0 <= p < MEM_PAGES && Lookup(g, p).Some? :: Lookup(g, p).value
  }

  /** The table that holds a page, allocated when it is not there (mem_pt_new). */
  function WithTable(g: Pgdir, p: nat): (r: Pgdir)
    requires Formed(g) && p < MEM_PAGES
    ensures Formed(r) && Top(p) < |r| && r[Top(p)].Some?
  {
    Split(p);
    if g[Top(p)].None? then g[Top(p) := Some(seq(PGDIR_SIZE, _ => None))] else g
  }

  /** A slot is filled or emptied. */
  function Update(g: Pgdir, p: nat, e: Option<Pte>): (r: Pgdir)
    requires Formed(g) && p < MEM_PAGES && Top(p) < |g| && g[Top(p)].Some?
    ensures Formed(r)
  {
    Split(p);
    g[Top(p) := Some(g[Top(p)].value[Bottom(p) := e])]
  }

  lemma WithTableLookup(g: Pgdir, p: nat, q: nat)
    requires Formed(g) && p < MEM_PAGES && q < MEM_PAGES
    ensures Lookup(WithTable(g, p), q) == Lookup(g, q)
  {
    Split(q);
    Split(p);
  }

  lemma UpdateLookup(g: Pgdir, p: nat, e: Option<Pte>, q: nat)
    requires Formed(g) && p < MEM_PAGES && q < MEM_PAGES && Top(p) < |g| && g[Top(p)].Some?
    ensures Lookup(Update(g, p, e), q) == if q == p then e else Lookup(g, q)
  {
    Split(q);
    Split(p);
    if Top(q) == Top(p) && Bottom(q) == Bottom(p) { SplitUnique(p, q); }
  }

  /** Filling a slot adds the entry to the map, whether or not a table had to be allocated. */
  lemma PutTable(g: Pgdir, p: nat, e: Pte)
    requires Formed(g) && p < MEM_PAGES
    ensures TableOf(Update(WithTable(g, p), p, Some(e))) == TableOf(g)[p := e]
  {
    hide WithTable, Update, Lookup;
    forall q: nat | q < MEM_PAGES
      ensures Lookup(Update(WithTable(g, p), p, Some(e)), q) == if q == p then Some(e) else Lookup(g, q)
    {
      UpdateLookup(WithTable(g, p), p, Some(e), q);
      WithTableLookup(g, p, q);
    }
  }

  /** Emptying a slot in use takes the entry out. */
  lemma DropTable(g: Pgdir, p: nat)
    requires Formed(g) && p < MEM_PAGES && Top(p) < |g| && g[Top(p)].Some?
    ensures TableOf(Update(g, p, None)) == TableOf(g) - {p}
  {
    hide Update, Lookup;
    forall q: nat | q < MEM_PAGES ensures Lookup(Update(g, p, None), q) == if q == p then None else Lookup(g, q) {
      UpdateLookup(g, p, None, q);
    }
  }

  lemma LookupTable(g: Pgdir, p: nat)
    requires Formed(g) && p < MEM_PAGES
    ensures Lookup(g, p) == if p in TableOf(g) then Some(TableOf(g)[p]) else None
  {
  }

  /** No page under a missing table is mapped. */
  lemma MissingTable(g: Pgdir, p: nat)
    requires Formed(g) && p < MEM_PAGES && Top(p) < |g| && g[Top(p)].None?
    ensures forall q: nat {:trigger q in TableOf(g)} :: p <= q < (p - Bottom(p)) + PGDIR_SIZE ==> q !in TableOf(g)
  {
    forall q: nat {:trigger q in TableOf(g)} | p <= q < (p - Bottom(p)) + PGDIR_SIZE ensures q !in TableOf(g) {
      Split(p);
      Split(q);
      SameTop(p, q);
    }
  }

  lemma SameTop(p: nat, q: nat)
    requires p <= q < (p - Bottom(p)) + PGDIR_SIZE
    ensures Top(p) == Top(q)
  {
    Split(p);
    Split(q);
  }
}
