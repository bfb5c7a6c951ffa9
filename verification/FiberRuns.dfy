/** Guest threads that run, compile, chain, invalidate and reclaim blocks of one cache, as a
    system of steps. A step is one section under the cache's lock, one lock operation on
    jetsam_lock, or one jump between blocks by the compiled code itself, which takes no lock. */
module FiberRuns {
  import opened Options
  import opened FiberCache

  type Tid = nat

  /** The pointers to blocks that a thread keeps while it runs: its direct-mapped cache, the
      block it ran last, and the call sites in its return cache. */
  datatype Frame = Frame(cache: map<nat, Id>, last: Option<Id>, rets: map<nat, Id>)

  datatype Thread =
    | Outside
    | Fetching(frame: Frame)               // looking for the block at the current ip
    | Linking(frame: Frame, block: Id)     // about to patch the last block's jumps
    | Executing(frame: Frame, block: Id)   // inside fiber_enter
    | Checking                             // about to look at the jetsam list
    | WaitingWrite                         // waiting for the write side of jetsam_lock
    | Writing                              // holding it

  /** Fetching, linking and executing happen under the read side of jetsam_lock. */
  predicate Reading(th: Thread) { th.Fetching? || th.Linking? || th.Executing? }

  datatype State = State(cache: Cache, threads: map<Tid, Thread>)

  datatype Step =
    | Enter(t: Tid)                                       // read_wrlock, empty frame
    | SingleStep(t: Tid)                                  // cpu_single_step, with a private block
    | Fetch(t: Tid, ip: Addr, k: nat, id: Id, b: Block)   // k is where ip hashes to; id and b if compiled
    | Link(t: Tid)
    | Hop(t: Tid, first: bool)                            // a patched jump is taken
    | Call(t: Tid, k: nat)                                // a call gadget fills the return cache
    | Return(t: Tid, k: nat)                              // a ret gadget uses it
    | Exit(t: Tid)                                        // back to the loop
    | Leave(t: Tid)                                       // interrupt: free the frame, read_wrunlock
    | Check(t: Tid)
    | TakeWrite(t: Tid)                                   // write_wrlock
    | Free(t: Tid)                                        // fiber_free_jetsam, write_wrunlock
    | Invalidate(ids: seq<Id>)                            // asbestos_invalidate_range, by anyone

  // Lookup

  /** The live block at an address, if there is one. */
  ghost function Find(c: Cache, ip: Addr): (r: Option<Id>)
    ensures r.Some? ==> Live(c, r.value) && c.blocks[r.value].addr == ip
    ensures r.None? ==> forall id :: Live(c, id) ==> c.blocks[id].addr != ip
  {
    if id :| Live(c, id) && c.blocks[id].addr == ip then Some(id) else None
  }

  predicate CompiledAt(b: Block, ip: Addr) { b.addr == ip && !b.jetsam && Unpatched(b.slot0) && Unpatched(b.slot1) && Short(b) }


  // Which steps can be taken

  ghost predicate Enabled(s: State, step: Step) {
    match step
    case Enter(t) => t in s.threads && s.threads[t].Outside? && forall u :: u in s.threads ==> !s.threads[u].Writing?
    case SingleStep(t) => t in s.threads && s.threads[t].Outside?
    case Fetch(t, ip, k, id, b) =>
      t in s.threads && s.threads[t].Fetching? && id !in s.cache.blocks && CompiledAt(b, ip)
    case Link(t) => t in s.threads && s.threads[t].Linking?
    case Hop(t, first) =>
      && t in s.threads && s.threads[t].Executing?
      && (s.threads[t].block in s.cache.blocks ==> exists id :: PatchedTo(SlotOf(s.cache.blocks[s.threads[t].block], first), id))
    case Call(t, k) => t in s.threads && s.threads[t].Executing?
    case Return(t, k) => t in s.threads && s.threads[t].Executing? && k in s.threads[t].frame.rets
    case Exit(t) => t in s.threads && s.threads[t].Executing?
    case Leave(t) => t in s.threads && s.threads[t].Fetching?
    case Check(t) => t in s.threads && s.threads[t].Checking?
    case TakeWrite(t) =>
      && t in s.threads && s.threads[t].WaitingWrite?
      && forall u :: u in s.threads ==> !Reading(s.threads[u]) && !s.threads[u].Writing?
    case Free(t) => t in s.threads && s.threads[t].Writing?
    case Invalidate(ids) => NoDuplicates(ids) && forall i :: 0 <= i < |ids| ==> Live(s.cache, ids[i])
  }

  function AsSet(o: Option<Id>): set<Id> { if o.Some? then {o.value} else {} }

  /** The blocks whose memory a step reads or writes through a pointer of its thread. */
  ghost function Touched(s: State, step: Step): set<Id>
    requires Enabled(s, step)
  {
    match step
    case Fetch(t, _, k, _, _) => var f := s.threads[t].frame; if k in f.cache then {f.cache[k]} else {}
    case Link(t) => AsSet(s.threads[t].frame.last) + {s.threads[t].block}
    case Hop(t, _) => {s.threads[t].block}
    case Call(t, _) => {s.threads[t].block}
    case Return(t, k) => {s.threads[t].frame.rets[k]}
    case _ => {}
  }

  /** The step touches no freed block. */
  ghost predicate Safe(s: State, step: Step)
    requires Enabled(s, step)
  {
    Touched(s, step) <= s.cache.blocks.Keys
  }

  // What a step does

  ghost function FetchBlock(c: Cache, f: Frame, ip: Addr, k: nat, id: Id): Id
    requires k in f.cache ==> f.cache[k] in c.blocks
  {
    if k in f.cache && c.blocks[f.cache[k]].addr == ip then f.cache[k]
    else if Find(c, ip).Some? then Find(c, ip).value
    else id
  }

  ghost function Apply(s: State, step: Step): State
    requires Enabled(s, step) && Safe(s, step)
  {
    match step
    case Enter(t) => s.(threads := s.threads[t := Fetching(Frame(map[], None, map[]))])
    case SingleStep(t) => s.(threads := s.threads[t := Checking])
    case Fetch(t, ip, k, id, b) =>
      var f := s.threads[t].frame;
      var block := FetchBlock(s.cache, f, ip, k, id);
      State(if block == id then Insert(s.cache, id, b) else s.cache,
            s.threads[t := Linking(f.(cache := f.cache[k := block]), block)])
    case Link(t) =>
      var f, block := s.threads[t].frame, s.threads[t].block;
      State(if f.last.Some? then Chain(s.cache, f.last.value, block) else s.cache,
            s.threads[t := Executing(f.(last := Some(block)), block)])
    case Hop(t, first) =>
      var f := s.threads[t].frame;
      var to := SlotOf(s.cache.blocks[s.threads[t].block], first).to.value;
      s.(threads := s.threads[t := Executing(f.(last := Some(to)), to)])
    case Call(t, k) =>
      var f, block := s.threads[t].frame, s.threads[t].block;
      s.(threads := s.threads[t := Executing(f.(rets := f.rets[k := block]), block)])
    case Return(t, k) =>
      var f := s.threads[t].frame;
      var slot := s.cache.blocks[f.rets[k]].slot0;
      if slot.Jump? && slot.to.Some? then s.(threads := s.threads[t := Executing(f.(last := slot.to), slot.to.value)])
      else s.(threads := s.threads[t := Fetching(f.(last := Some(f.rets[k])))])
    case Exit(t) => s.(threads := s.threads[t := Fetching(s.threads[t].frame)])
    case Leave(t) => s.(threads := s.threads[t := Checking])
    case Check(t) => s.(threads := s.threads[t := if s.cache.jetsam != [] then WaitingWrite else Outside])
    case TakeWrite(t) => s.(threads := s.threads[t := Writing])
    case Free(t) => State(FreeJetsam(s.cache), s.threads[t := Outside])
    case Invalidate(ids) => s.(cache := DisconnectAll(s.cache, ids))
  }

  // What every state keeps

  function FrameHolds(f: Frame): set<Id> { f.cache.Values + AsSet(f.last) + f.rets.Values }

  /** The blocks a thread could go to or read through its own pointers. */
  function Holds(th: Thread): set<Id> {
    match th
    case Fetching(f) => FrameHolds(f)
    case Linking(f, b) => FrameHolds(f) + {b}
    case Executing(f, b) => FrameHolds(f) + {b}
    case _ => {}
  }

  /** jetsam_lock: a writer is alone. */
  ghost predicate Exclusive(threads: map<Tid, Thread>) {
    forall t, u :: t in threads && u in threads && t != u && threads[t].Writing? ==> !Reading(threads[u]) && !threads[u].Writing?
  }

  ghost predicate Inv(s: State) {
    && Sound(s.cache)
    && Exclusive(s.threads)
    && forall t :: t in s.threads ==> Holds(s.threads[t]) <= s.cache.blocks.Keys
  }

  lemma InvSafe(s: State, step: Step)
    requires Inv(s) && Enabled(s, step)
    ensures Safe(s, step)
  {
  }

  /** One thread moves and the blocks stay allocated. */
  lemma InvMoves(s: State, t: Tid, th: Thread, c: Cache)
    requires Inv(s) && t in s.threads && Sound(c) && s.cache.blocks.Keys <= c.blocks.Keys
    requires Holds(th) <= c.blocks.Keys && !th.Writing?
    requires Reading(th) ==> forall u :: u in s.threads ==> !s.threads[u].Writing?
    ensures Inv(State(c, s.threads[t := th]))
  {
  }

  lemma HoldsUpdated(m: map<nat, Id>, k: nat, b: Id)
    ensures m[k := b].Values <= m.Values + {b}
  {
  }

  lemma FetchInv(s: State, step: Step)
    requires Inv(s) && step.Fetch? && Enabled(s, step) && Safe(s, step)
    ensures Inv(Apply(s, step))
  {
    hide Sound, Holds;
    var f := s.threads[step.t].frame;
    var block := FetchBlock(s.cache, f, step.ip, step.k, step.id);
    var c := if block == step.id then Insert(s.cache, step.id, step.b) else s.cache;
    HoldsFrame(s, step.t);
    FoundAllocated(s.cache, f, step);
    HoldsUpdated(f.cache, step.k, block);
    HoldsLinking(f.(cache := f.cache[step.k := block]), block);
    InvMoves(s, step.t, Linking(f.(cache := f.cache[step.k := block]), block), c);
  }

  lemma HoldsFrame(s: State, t: Tid)
    requires Inv(s) && t in s.threads && Reading(s.threads[t])
    ensures FrameHolds(s.threads[t].frame) <= s.cache.blocks.Keys
    ensures !s.threads[t].Fetching? ==> s.threads[t].block in s.cache.blocks
    ensures forall u :: u in s.threads ==> !s.threads[u].Writing?
  {
  }

  lemma HoldsLinking(f: Frame, b: Id)
    ensures Holds(Linking(f, b)) == FrameHolds(f) + {b} && Holds(Executing(f, b)) == FrameHolds(f) + {b}
  {
  }

  lemma FoundAllocated(c: Cache, f: Frame, step: Step)
    requires step.Fetch? && Sound(c) && step.id !in c.blocks && CompiledAt(step.b, step.ip)
    requires step.k in f.cache ==> f.cache[step.k] in c.blocks
    ensures var block := FetchBlock(c, f, step.ip, step.k, step.id);
      var c' := if block == step.id then Insert(c, step.id, step.b) else c;
      && Sound(c') && block in c'.blocks && c'.blocks[block].addr == step.ip && c.blocks.Keys <= c'.blocks.Keys
  {
    if FetchBlock(c, f, step.ip, step.k, step.id) == step.id { InsertSound(c, step.id, step.b); }
  }

  lemma LinkInv(s: State, t: Tid)
    requires Inv(s) && Enabled(s, Link(t)) && Safe(s, Link(t))
    ensures Inv(Apply(s, Link(t)))
  {
    hide Sound, Chain;
    var f, block := s.threads[t].frame, s.threads[t].block;
    if f.last.Some? { ChainSound(s.cache, f.last.value, block); }
    var c := if f.last.Some? then Chain(s.cache, f.last.value, block) else s.cache;
    HoldsFrame(s, t);
    InvMoves(s, t, Executing(f.(last := Some(block)), block), c);
  }

  lemma JumpInv(s: State, step: Step)
    requires (step.Hop? || step.Call? || step.Return?) && Inv(s) && Enabled(s, step) && Safe(s, step)
    ensures Inv(Apply(s, step))
  {
    hide NotBefore, JetsamListed, AddressesUnique;
    var t, f, block := step.t, s.threads[step.t].frame, s.threads[step.t].block;
    HoldsFrame(s, t);
    assert BlockSound(s.cache, block);
    match step
    case Hop(_, first) =>
      var to := SlotOf(s.cache.blocks[block], first).to.value;
      InvMoves(s, t, Executing(f.(last := Some(to)), to), s.cache);
    case Call(_, k) =>
      HoldsUpdated(f.rets, k, block);
      InvMoves(s, t, Executing(f.(rets := f.rets[k := block]), block), s.cache);
    case Return(_, k) =>
      var r := f.rets[k];
      assert r in f.rets.Values && BlockSound(s.cache, r);
      var slot := s.cache.blocks[r].slot0;
      if slot.Jump? && slot.to.Some? {
        InvMoves(s, t, Executing(f.(last := slot.to), slot.to.value), s.cache);
      } else {
        InvMoves(s, t, Fetching(f.(last := Some(r))), s.cache);
      }
  }

  lemma FreeInv(s: State, t: Tid)
    requires Inv(s) && Enabled(s, Free(t))
    ensures Inv(Apply(s, Free(t)))
  {
    FreeSound(s.cache);
    forall u | u in s.threads && u != t ensures Holds(s.threads[u]) == {} {
      assert !Reading(s.threads[u]);
    }
  }

  lemma InvalidateInv(s: State, ids: seq<Id>)
    requires Inv(s) && Enabled(s, Invalidate(ids))
    ensures Inv(Apply(s, Invalidate(ids)))
  {
    DisconnectAllSound(s.cache, ids);
  }

  /** Every step keeps the invariant. */
  lemma StepInv(s: State, step: Step)
    requires Inv(s) && Enabled(s, step) && Safe(s, step)
    ensures Inv(Apply(s, step))
  {
    hide Sound, Holds;
    match step
    case Enter(t) =>
      EmptyFrame();
      InvMoves(s, t, Fetching(Frame(map[], None, map[])), s.cache);
    case SingleStep(t) => NoHolds(Checking); InvMoves(s, t, Checking, s.cache);
    case Fetch(t, ip, k, id, b) => FetchInv(s, step);
    case Link(t) => LinkInv(s, t);
    case Hop(t, first) => JumpInv(s, step);
    case Call(t, k) => JumpInv(s, step);
    case Return(t, k) => JumpInv(s, step);
    case Exit(t) => ExitInv(s, t);
    case Leave(t) => NoHolds(Checking); InvMoves(s, t, Checking, s.cache);
    case Check(t) =>
      NoHolds(WaitingWrite); NoHolds(Outside);
      InvMoves(s, t, if s.cache.jetsam != [] then WaitingWrite else Outside, s.cache);
    case TakeWrite(t) => NoHolds(Writing);
    case Free(t) => FreeInv(s, t);
    case Invalidate(ids) => InvalidateInv(s, ids);
  }

  lemma EmptyFrame()
    ensures Holds(Fetching(Frame(map[], None, map[]))) == {}
  {
  }

  lemma NoHolds(th: Thread)
    requires !Reading(th)
    ensures Holds(th) == {}
  {
  }

  lemma ExitInv(s: State, t: Tid)
    requires Inv(s) && Enabled(s, Exit(t))
    ensures Inv(Apply(s, Exit(t)))
  {
    HoldsFrame(s, t);
    InvMoves(s, t, Fetching(s.threads[t].frame), s.cache);
  }

  // Whole runs

  ghost predicate Reaches(s: State, steps: seq<Step>, end: State)
    decreases |steps|
  {
    if steps == [] then s == end
    else Enabled(s, steps[0]) && Safe(s, steps[0]) && Reaches(Apply(s, steps[0]), steps[1..], end)
  }

  /** A new cache, with any number of threads outside of it. */
  predicate Initial(s: State) {
    s.cache == Cache(map[], []) && forall t :: t in s.threads ==> s.threads[t].Outside?
  }

  lemma {:induction false} ReachesInv(s: State, steps: seq<Step>, end: State)
    requires Inv(s) && Reaches(s, steps, end)
    ensures Inv(end)
    decreases |steps|
  {
    if steps != [] {
      StepInv(s, steps[0]);
      ReachesInv(Apply(s, steps[0]), steps[1..], end);
    }
  }

  /** In every state that any interleaving reaches, no thread holds a freed block, no step that
      can be taken touches one, and every jump slot of every allocated block is sound. */
  lemma NeverDangling(s: State, steps: seq<Step>, end: State)
    requires Initial(s) && Reaches(s, steps, end)
    ensures forall t :: t in end.threads ==> Holds(end.threads[t]) <= end.cache.blocks.Keys
    ensures forall step :: Enabled(end, step) ==> Safe(end, step)
    ensures forall b :: b in end.cache.blocks ==> BlockSound(end.cache, b)
  {
    assert Inv(s);
    ReachesInv(s, steps, end);
    forall step | Enabled(end, step) ensures Safe(end, step) { InvSafe(end, step); }
  }

  /** Chaining preserves control flow: in every reachable state, a jump that compiled code takes
      through a patched slot, from a live block or from jetsam, enters the block at the slot's
      original target, which is where the unpatched jump would have gone. */
  lemma HopKeepsTarget(s: State, steps: seq<Step>, end: State, t: Tid, first: bool)
    requires Initial(s) && Reaches(s, steps, end) && Enabled(end, Hop(t, first))
    ensures Safe(end, Hop(t, first))
    ensures var from, next := end.threads[t].block, Apply(end, Hop(t, first));
      && next.threads[t].Executing? && next.threads[t].block in next.cache.blocks
      && next.cache.blocks[next.threads[t].block].addr == SlotOf(end.cache.blocks[from], first).target
  {
    NeverDangling(s, steps, end);
    assert Safe(end, Hop(t, first));
    assert BlockSound(end.cache, end.threads[t].block);
  }
}
