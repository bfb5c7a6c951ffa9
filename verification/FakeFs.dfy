/** One fakefs mount: its database and its file descriptors, which hold inodes of the table that
    all mounts share. Each method is one transaction or one section under a lock. */
module FakeFs {

  import opened FakePaths
  import opened FakeState
  import InodeTable

  type NodeId = InodeTable.NodeId
  type Nodes = InodeTable.Nodes
  type Counts = InodeTable.Counts
  type Key = InodeTable.Key

  /** A descriptor as the source has it: an inode number until the inode is taken, then the object
      of the inode table. */
  datatype Handle = Pending(inode: Inode) | Holding(node: NodeId)

  // The state that the fields stand for

  function OpenIn(open: Counts, mount: nat): map<Inode, nat> {
    map k | k in open && k.mount == mount :: k.number := open[k]
  }

  /** The descriptors of a mount hold objects of that mount. */
  ghost predicate Placed(fds: map<FdId, Handle>, nodes: Nodes, mount: nat) {
    forall fd :: fd in fds && fds[fd].Holding? ==> fds[fd].node in nodes && nodes[fds[fd].node].key.mount == mount
  }

  function FdOf(h: Handle, nodes: Nodes): Fd
    requires h.Holding? ==> h.node in nodes
  {
    if h.Pending? then Opening(h.inode) else Opened(nodes[h.node].key.number)
  }

  ghost function FdsOf(fds: map<FdId, Handle>, nodes: Nodes, mount: nat): map<FdId, Fd>
    requires Placed(fds, nodes, mount)
  {
    map fd | fd in fds :: FdOf(fds[fd], nodes)
  }

  // Holding and letting go, seen from one mount

  lemma OpenAt(open: Counts, mount: nat, i: Inode)
    ensures i in OpenIn(open, mount) <==> InodeTable.Key(mount, i) in open
    ensures i in OpenIn(open, mount) ==> OpenIn(open, mount)[i] == open[InodeTable.Key(mount, i)]
  {
    var k := InodeTable.Key(mount, i);
    if k in open { assert k.mount == mount && k.number == i; }
  }

  lemma OpenSame(open: Counts, mount: nat, view: map<Inode, nat>)
    requires forall i: Inode :: i in view <==> InodeTable.Key(mount, i) in open
    requires forall i: Inode :: i in view ==> view[i] == open[InodeTable.Key(mount, i)]
    ensures OpenIn(open, mount) == view
  {
    hide OpenIn;
    forall i: Inode { OpenAt(open, mount, i); }
  }

  lemma RetainSeen(open: Counts, k: Key, mount: nat)
    ensures OpenIn(InodeTable.Retained(open, k), mount) ==
            if k.mount == mount then Retained(OpenIn(open, mount), k.number) else OpenIn(open, mount)
  {
    hide OpenIn;
    forall i: Inode { OpenAt(open, mount, i); }
    OpenSame(InodeTable.Retained(open, k), mount, if k.mount == mount then Retained(OpenIn(open, mount), k.number) else OpenIn(open, mount));
  }

  /** One descriptor less, as inode_release counts it. */
  function Dropped(open: map<Inode, nat>, i: Inode): map<Inode, nat>
    requires i in open
  {
    if open[i] <= 1 then open - {i} else open[i := open[i] - 1]
  }

  lemma ReleaseSeen(open: Counts, k: Key, mount: nat)
    requires k in open
    ensures k.mount == mount ==> k.number in OpenIn(open, mount)
    ensures OpenIn(InodeTable.Released(open, k), mount) ==
            if k.mount == mount then Dropped(OpenIn(open, mount), k.number) else OpenIn(open, mount)
  {
    hide OpenIn;
    forall i: Inode { OpenAt(open, mount, i); }
    OpenSame(InodeTable.Released(open, k), mount, if k.mount == mount then Dropped(OpenIn(open, mount), k.number) else OpenIn(open, mount));
  }

  lemma FdsSame(fds: map<FdId, Handle>, nodes: Nodes, nodes': Nodes, mount: nat)
    requires Placed(fds, nodes, mount)
    requires forall fd :: fd in fds && fds[fd].Holding? ==> fds[fd].node in nodes' && nodes'[fds[fd].node].key == nodes[fds[fd].node].key
    ensures Placed(fds, nodes', mount) && FdsOf(fds, nodes', mount) == FdsOf(fds, nodes, mount)
  {
    forall fd | fd in fds && fds[fd].Holding? ensures fds[fd].node in nodes && nodes[fds[fd].node].key.mount == mount {}
  }

  /** The table may have lost an object that none of them holds. */
  lemma FdsAfter(fds: map<FdId, Handle>, nodes: Nodes, nodes': Nodes, mount: nat, id: InodeTable.NodeId, last: bool)
    requires Placed(fds, nodes, mount)
    requires forall x :: x in nodes' <==> x in nodes && (last ==> x != id)
    requires forall x :: x in nodes' ==> nodes'[x].key == nodes[x].key
    requires last ==> forall fd :: fd in fds && fds[fd].Holding? ==> fds[fd].node != id
    ensures Placed(fds, nodes', mount) && FdsOf(fds, nodes', mount) == FdsOf(fds, nodes, mount)
  {
    FdsSame(fds, nodes, nodes', mount);
  }

  lemma FdsPut(fds: map<FdId, Handle>, nodes: Nodes, mount: nat, fd: FdId, h: Handle)
    requires Placed(fds, nodes, mount) && (h.Holding? ==> h.node in nodes && nodes[h.node].key.mount == mount)
    ensures Placed(fds[fd := h], nodes, mount)
    ensures FdsOf(fds[fd := h], nodes, mount) == FdsOf(fds, nodes, mount)[fd := FdOf(h, nodes)]
  {
  }

  lemma FdsDrop(fds: map<FdId, Handle>, nodes: Nodes, mount: nat, fd: FdId)
    requires Placed(fds, nodes, mount)
    ensures Placed(fds - {fd}, nodes, mount)
    ensures FdsOf(fds - {fd}, nodes, mount) == FdsOf(fds, nodes, mount) - {fd}
  {
  }

  class Fs {
    const mount: nat
    const inodes: InodeTable.Inodes
    var paths: Table
    var stats: map<Inode, Stat>
    var fds: map<FdId, Handle>
    var checks: map<TaskId, Inode>

    ghost predicate Related()
      reads this, inodes
    {
      inodes.Valid() && Placed(fds, inodes.nodes, mount)
    }

    ghost function Abs(): State
      reads this, inodes
      requires Related()
    {
      State(paths, stats, OpenIn(inodes.open, mount), FdsOf(fds, inodes.nodes, mount), checks)
    }

    ghost predicate Valid()
      reads this, inodes
    {
      Related() && Consistent(Abs())
    }

    /** Mounting, as far as the tables go: fake_db_init drops the rows that no path leads to. */
    constructor (mount: nat, inodes: InodeTable.Inodes, paths: Table, stats: map<Inode, Stat>)
      requires inodes.Valid() && forall k :: k in inodes.open ==> k.mount != mount
      requires forall p :: p in paths ==> paths[p] in stats && paths[p] != 0
      ensures Valid() && NoGarbage(Abs()) && this.mount == mount && this.inodes == inodes && this.paths == paths
      ensures forall i :: i in this.stats <==> i in stats && Linked(paths, i)
    {
      this.mount, this.inodes, this.paths := mount, inodes, paths;
      this.stats := map i | i in stats && Linked(paths, i) :: stats[i];
      fds, checks := map[], map[];
      new;
      Unused(inodes.open, mount);
      assert FdsOf(fds, inodes.nodes, mount) == map[];
      forall p | p in paths ensures Linked(paths, paths[p]) {}
      forall i ensures CountedAt(Abs(), i) { assert Holders(Abs().fds, i) == {}; }
    }

    /** fakefs_open after the host file is open: the descriptor gets the number of the path's inode,
        which is created if that was asked for and it is missing. */
    method Open(fd: FdId, p: Path, create: bool, st: Stat, row: Inode) returns (ok: bool)
      requires Valid() && Enabled(Abs(), OpenStartOp(fd, p, create, row, st))
      modifies this
      ensures Valid() && Abs() == OpenStart(old(Abs()), fd, p, create, row, st)
      ensures ok <==> fd in fds
      ensures ok ==> p in paths && fds[fd] == Pending(paths[p]) && paths[p] in stats
    {
      hide Consistent, OpenIn, FdsOf;
      OpenStartConsistent(Abs(), fd, p, create, row, st);
      NonZero(Abs());
      var i := if p in paths then paths[p] else 0;
      if create && i == 0 {
        stats, paths := stats[row := st], paths[p := row];
        i := row;
      }
      ok := i != 0;
      FdMapped(fds, inodes.nodes, mount, fd);
      if ok {
        FdsPut(fds, inodes.nodes, mount, fd, Pending(i));
        fds := fds[fd := Pending(i)];
      }
      HasRow(Abs());
    }

    /** The section of generic_openat under inodes_lock: the row is read again, and if it is still
        there the descriptor takes the inode from the table. */
    method TakeInode(fd: FdId) returns (ok: bool)
      requires Valid() && fd in fds && fds[fd].Pending?
      modifies this, inodes
      ensures Valid() && Abs() == OpenFinish(old(Abs()), fd)
      ensures ok <==> fd in fds
      ensures ok ==> fds[fd].Holding? && inodes.nodes[fds[fd].node].key == InodeTable.Key(mount, old(fds)[fd].inode)
    {
      hide Consistent, OpenIn, FdsOf;
      ghost var s := Abs();
      FdMapped(fds, inodes.nodes, mount, fd);
      OpenFinishConsistent(s, fd);
      var i := fds[fd].inode;
      if i !in stats {
        FdsDrop(fds, inodes.nodes, mount, fd);
        fds := fds - {fd};
        return false;
      }
      var k := InodeTable.Key(mount, i);
      RetainSeen(inodes.open, k, mount);
      ghost var nodes := inodes.nodes;
      var id := inodes.GetUnlocked(k);
      FdsSame(fds, nodes, inodes.nodes, mount);
      FdsPut(fds, inodes.nodes, mount, fd, Holding(id));
      fds := fds[fd := Holding(id)];
      ok := true;
    }

    /** fakefs_inode_orphaned. */
    method InodeOrphaned(i: Inode)
      requires Related()
      modifies this`stats
      ensures Related() && Abs() == Cleanup(old(Abs()), i)
    {
      hide OpenIn, FdsOf;
      if !exists p :: p in paths && paths[p] == i { stats := stats - {i}; }
    }

    /** The descriptor lets go of its inode. */
    method LetGo(fd: FdId) returns (i: Inode, last: bool)
      requires Valid() && fd in fds && fds[fd].Holding?
      modifies this`fds, inodes
      ensures Related() && fd in old(Abs()).fds && old(Abs()).fds[fd] == Opened(i) && i in old(Abs()).open
      ensures Abs() == old(Abs()).(fds := old(Abs()).fds - {fd}, open := Dropped(old(Abs()).open, i))
      ensures last <==> i !in Abs().open
    {
      hide Consistent, OpenIn, FdsOf, Placed, InodeTable.Released, Dropped;
      ghost var nodes, open, others := inodes.nodes, inodes.open, fds - {fd};
      FdMapped(fds, nodes, mount, fd);
      HeldHere(fds, inodes, mount, fd);
      var id := fds[fd].node;
      i := inodes.nodes[id].key.number;
      ghost var k := nodes[id].key;
      ReleaseSeen(open, k, mount);
      FdsDrop(fds, nodes, mount, fd);
      OthersElsewhere(Abs(), fds, nodes, mount, fd, open);
      LastOne(open, k);
      fds := fds - {fd};
      last := inodes.Release(id);
      FdsAfter(others, nodes, inodes.nodes, mount, id, last);
      OpenAt(inodes.open, mount, i);
    }

    /** fd_close with inode_release: the object counts one holder less, and after the last one the
        row goes if no path leads to it. */
    method CloseFd(fd: FdId)
      requires Valid() && fd in fds && fds[fd].Holding?
      modifies this, inodes
      ensures Valid() && Abs() == Close(old(Abs()), fd)
    {
      hide Consistent, OpenIn, FdsOf, Placed, Cleanup;
      ghost var s := Abs();
      FdMapped(fds, inodes.nodes, mount, fd);
      CloseConsistent(s, fd);
      var i, last := LetGo(fd);
      if last { InodeOrphaned(i); }
    }

    /** The transaction of fakefs_unlink and fakefs_rmdir; the caller has still to check for orphans. */
    method PathUnlink(t: TaskId, p: Path)
      requires Valid() && p in paths && t !in checks
      modifies this
      ensures Valid() && Abs() == UnlinkStart(old(Abs()), t, p)
    {
      hide Consistent, OpenIn, FdsOf;
      StepConsistent(Abs(), UnlinkStartOp(t, p));
      var i := paths[p];
      paths, checks := paths - {p}, checks[t := i];
    }

    /** inode_check_orphaned: the row goes if the table has no such inode and no path leads to it. */
    method CheckOrphaned(t: TaskId)
      requires Valid() && t in checks
      modifies this
      ensures Valid() && Abs() == UnlinkFinish(old(Abs()), t)
    {
      hide Consistent, OpenIn, FdsOf, Cleanup;
      StepConsistent(Abs(), UnlinkFinishOp(t));
      var i := checks[t];
      OpenAt(inodes.open, mount, i);
      var inode := inodes.GetData(InodeTable.Key(mount, i));
      checks := checks - {t};
      if inode.None? { InodeOrphaned(i); }
    }

    /** fakefs_rename: the rows are updated, and put back if the host did not rename the file. */
    method PathRename(src: Path, dst: Path, hostOk: bool)
      requires Valid() && (hostOk ==> Renamable(src, dst))
      modifies this
      ensures Valid() && Abs() == (if hostOk then Rename(old(Abs()), src, dst) else old(Abs()))
    {
      hide Consistent, OpenIn, FdsOf, Renamed, Renamable;
      if hostOk { StepConsistent(Abs(), RenameOp(src, dst)); }
      var before := paths;
      paths := RenameRows(paths, src, dst);
      if !hostOk { paths := before; }
    }

    /** fakefs_fsetattr. The row is there, so it does not die; and the file stays of its type. */
    method Fsetattr(fd: FdId, a: Attr)
      requires Valid() && fd in fds && fds[fd].Holding?
      modifies this`stats
      ensures Valid() && Abs() == SetAttr(old(Abs()), inodes.nodes[fds[fd].node].key.number, a)
      ensures var i := inodes.nodes[fds[fd].node].key.number;
              i in old(stats) && i in stats && stats[i].mode / TYPE_UNIT == old(stats)[i].mode / TYPE_UNIT
    {
      hide Consistent, OpenIn, FdsOf;
      var i := inodes.nodes[fds[fd].node].key.number;
      FdMapped(fds, inodes.nodes, mount, fd);
      OpenHasRow(Abs(), fd);
      StepConsistent(Abs(), SetAttrOp(i, a));
      TypeKept(stats[i], a);
      stats := stats[i := Edited(stats[i], a)];
    }
  }

  lemma Unused(open: Counts, mount: nat)
    requires forall k :: k in open ==> k.mount != mount
    ensures OpenIn(open, mount) == map[]
  {
    forall i: Inode { OpenAt(open, mount, i); }
  }

  lemma FdMapped(fds: map<FdId, Handle>, nodes: Nodes, mount: nat, fd: FdId)
    requires Placed(fds, nodes, mount)
    ensures fd in FdsOf(fds, nodes, mount) <==> fd in fds
    ensures fd in fds ==> FdsOf(fds, nodes, mount)[fd] == FdOf(fds[fd], nodes)
  {
  }

  lemma NonZero(s: State)
    requires Consistent(s)
    ensures forall p :: p in s.paths ==> s.paths[p] != 0
  {
  }

  lemma HasRow(s: State)
    requires Consistent(s)
    ensures forall p :: p in s.paths ==> s.paths[p] in s.stats
  {
  }

  lemma OpenHasRow(s: State, fd: FdId)
    requires Consistent(s) && fd in s.fds && s.fds[fd].Opened?
    ensures s.fds[fd].inode in s.stats
  {
    var i := s.fds[fd].inode;
    assert CountedAt(s, i) && fd in Holders(s.fds, i);
  }

  lemma HeldHere(fds: map<FdId, Handle>, table: InodeTable.Inodes, mount: nat, fd: FdId)
    requires table.Valid() && Placed(fds, table.nodes, mount) && fd in fds && fds[fd].Holding?
    ensures var id := fds[fd].node; id in table.nodes && table.nodes[id].key in table.open && table.nodes[id].key.mount == mount
  {
    InodeTable.Found(table.nodes, table.open, fds[fd].node);
  }

  lemma LastOne(open: Counts, k: Key)
    requires k in open
    ensures k !in InodeTable.Released(open, k) <==> open[k] <= 1
  {
  }

  /** When a descriptor is the last holder of an inode, the others hold other objects. */
  lemma OthersElsewhere(s: State, fds: map<FdId, Handle>, nodes: Nodes, mount: nat, fd: FdId, open: Counts)
    requires Placed(fds, nodes, mount) && s.fds == FdsOf(fds, nodes, mount) && s.open == OpenIn(open, mount) && Consistent(s)
    requires fd in fds && fds[fd].Holding? && nodes[fds[fd].node].key in open
    ensures open[nodes[fds[fd].node].key] <= 1 ==>
            forall x :: x in fds && x != fd && fds[x].Holding? ==> fds[x].node != fds[fd].node
  {
    var k := nodes[fds[fd].node].key;
    OpenAt(open, mount, k.number);
    assert CountedAt(s, k.number);
    forall x | x in fds && x != fd && fds[x].Holding? && fds[x].node == fds[fd].node ensures open[k] > 1 {
      TwoHolders(Holders(s.fds, k.number), fd, x);
    }
  }

  lemma TwoHolders(s: set<FdId>, a: FdId, b: FdId)
    requires a in s && b in s && a != b
    ensures |s| > 1
  {
    assert s == (s - {a}) + {a} && b in s - {a};
  }
}
