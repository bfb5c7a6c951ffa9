/** POSIX record locks (fs/lock.c): the list of locks of one inode, and what acquiring or
    releasing a byte range does to it. */
module FileLock {

  datatype Kind = Read | Write | Unlock

  /** A lock on the bytes start..end, both included. Requests have the same form. */
  datatype Lock = Lock(start: int, end: int, kind: Kind, owner: int, pid: int)

  predicate Covers(l: Lock, b: int) { l.start <= b <= l.end }

  predicate Overlap(a: Lock, b: Lock) { a.end >= b.start && b.end >= a.start }

  predicate Adjacent(a: Lock, b: Lock) { a.end == b.start - 1 || b.end == a.start - 1 }

  /** Locks of different owners conflict where they overlap, unless both are read locks. */
  predicate Conflict(a: Lock, b: Lock) {
    a.owner != b.owner && Overlap(a, b) && (a.kind == Write || b.kind == Write)
  }

  /** The first lock in the list that conflicts with the request, as an index. */
  method Test(locks: seq<Lock>, request: Lock) returns (i: nat)
    ensures i <= |locks|
    ensures i < |locks| ==> Conflict(locks[i], request)
    ensures forall j :: 0 <= j < i ==> !Conflict(locks[j], request)
  {
    i := 0;
    while i < |locks|
      invariant i <= |locks|
      invariant forall j :: 0 <= j < i ==> !Conflict(locks[j], request)
    {
      if Conflict(locks[i], request) { return; }
      i := i + 1;
    }
  }

  predicate Free(locks: seq<Lock>, request: Lock) {
    forall j :: 0 <= j < |locks| ==> !Conflict(locks[j], request)
  }

  // The meaning of a list of locks: what each owner holds on each byte

  function Held(locks: seq<Lock>, owner: int, b: int): Kind {
    if locks == [] then Unlock
    else if locks[0].owner == owner && Covers(locks[0], b) then locks[0].kind
    else Held(locks[1..], owner, b)
  }

  // What every list keeps

  predicate WellFormed(l: Lock) { l.start <= l.end && l.kind != Unlock }

  /** Locks of one owner do not overlap, and those of one kind do not even touch. */
  predicate Separate(a: Lock, b: Lock) {
    !Overlap(a, b) && (a.kind == b.kind ==> !Adjacent(a, b))
  }

  predicate Compatible(a: Lock, b: Lock) {
    if a.owner == b.owner then Separate(a, b) else !Conflict(a, b)
  }

  ghost predicate Grouped(locks: seq<Lock>) {
    forall i, j, k :: 0 <= i < j < k < |locks| && locks[i].owner == locks[k].owner ==> locks[j].owner == locks[i].owner
  }

  /** Well-formed locks, grouped by owner; an owner's locks disjoint and coalesced; no
      conflict between owners. */
  ghost predicate Valid(locks: seq<Lock>) {
    && (forall i :: 0 <= i < |locks| ==> WellFormed(locks[i]))
    && Grouped(locks)
    && AllCompatible(locks)
  }

  predicate NoUnlocks(locks: seq<Lock>) { forall i :: 0 <= i < |locks| ==> locks[i].kind != Unlock }

  /** What an owner holds on a byte does not depend on which of its locks one looks at. */
  ghost predicate Faithful(locks: seq<Lock>) {
    forall i, b :: 0 <= i < |locks| && Covers(locks[i], b) ==> Held(locks, locks[i].owner, b) == locks[i].kind
  }

  /** What is left of that when requests may end before they start, as an overflowing length makes
      them: such locks stay in the list, and locks of one owner may overlap. */
  ghost predicate Loose(locks: seq<Lock>) { NoUnlocks(locks) && Grouped(locks) && Faithful(locks) }

  ghost predicate AllCompatible(locks: seq<Lock>) {
    forall i, j :: 0 <= i < j < |locks| ==> Compatible(locks[i], locks[j])
  }

  // Acquiring: the effect on the locks of the requesting owner

  /** The request grown to cover a lock of its own kind that it overlaps or is adjacent to. */
  function Absorb(request: Lock, l: Lock): Lock {
    request.(start := if l.start < request.start then l.start else request.start,
             end := if l.end > request.end then l.end else request.end)
  }

  /** What a request of another kind leaves of a lock: the parts that stick out. */
  function Carve(l: Lock, request: Lock): seq<Lock> {
    if !Overlap(l, request) then [l]
    else if request.start > l.start && request.end < l.end then
      [l.(end := request.start - 1), l.(start := request.end + 1)]
    else if request.start <= l.start && request.end >= l.end then []
    else if l.start < request.start then [l.(end := request.start - 1)]
    else [l.(start := request.end + 1)]
  }

  predicate Touches(request: Lock, l: Lock) { Overlap(l, request) || Adjacent(request, l) }

  /** Locks kept, the request as it has become, and whether waiters were notified. */
  datatype Pass = Pass(kept: seq<Lock>, request: Lock, notified: bool)

  /** The request meets one lock of its owner: it swallows it, overrides a part of it, or
      leaves it alone. */
  function Meet(l: Lock, request: Lock): Pass {
    if l.kind == request.kind then
      if Touches(request, l) then Pass([], Absorb(request, l), false) else Pass([l], request, false)
    else
      Pass(Carve(l, request), request, Overlap(l, request))
  }

  /** One pass over the owner's locks, left to right, with a request that grows as it goes. */
  function Process(group: seq<Lock>, request: Lock): Pass {
    if group == [] then Pass([], request, false)
    else
      var m := Meet(group[0], request);
      var p := Process(group[1..], m.request);
      Pass(m.kept + p.kept, p.request, m.notified || p.notified)
  }

  /** The locks of the owner after the pass. */
  function After(p: Pass): seq<Lock> {
    if p.request.kind == Unlock then p.kept else p.kept + [p.request]
  }

  // The whole list

  /** Index of the owner's first lock, or the length of the list. */
  function GroupStart(locks: seq<Lock>, owner: int): (i: nat)
    ensures i <= |locks|
    ensures forall j :: 0 <= j < i ==> locks[j].owner != owner
    ensures i < |locks| ==> locks[i].owner == owner
  {
    if locks == [] || locks[0].owner == owner then 0 else 1 + GroupStart(locks[1..], owner)
  }

  /** Number of locks at the front of the list that belong to the owner. */
  function GroupSize(locks: seq<Lock>, owner: int): (n: nat)
    ensures n <= |locks|
    ensures forall j :: 0 <= j < n ==> locks[j].owner == owner
    ensures n < |locks| ==> locks[n].owner != owner
  {
    if locks == [] || locks[0].owner != owner then 0 else 1 + GroupSize(locks[1..], owner)
  }

  function GroupEnd(locks: seq<Lock>, owner: int): (i: nat)
    ensures GroupStart(locks, owner) <= i <= |locks|
  {
    var s := GroupStart(locks, owner);
    s + GroupSize(locks[s..], owner)
  }

  function Group(locks: seq<Lock>, owner: int): seq<Lock> {
    locks[GroupStart(locks, owner)..GroupEnd(locks, owner)]
  }

  /** The list after a request that may be granted. */
  function Granted(locks: seq<Lock>, request: Lock): seq<Lock> {
    var s, e := GroupStart(locks, request.owner), GroupEnd(locks, request.owner);
    locks[..s] + After(Process(locks[s..e], request)) + locks[e..]
  }
}
