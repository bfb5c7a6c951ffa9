/** fakefs metadata and open inodes (fs/fake.c, fs/fake-db.c, fs/inode.c, fs/generic.c): two tables
    in the database and the table of open inodes, changed by the transactions and locked sections
    of many threads in any order. */
module FakeState {

  import opened FakePaths

  type FdId = nat
  type TaskId = nat

  /** mode has the file type in its top 4 of 16 bits. */
  datatype Stat = Stat(mode: nat, uid: nat, gid: nat, rdev: nat)

  const TYPE_UNIT: nat := 0x1000

  datatype Attr = Uid(uid: nat) | Gid(gid: nat) | Mode(mode: nat)

  /** fake_stat_setattr. */
  function Edited(st: Stat, a: Attr): Stat {
    match a
    case Uid(uid) => st.(uid := uid)
    case Gid(gid) => st.(gid := gid)
    case Mode(mode) => st.(mode := st.mode / TYPE_UNIT * TYPE_UNIT + mode % TYPE_UNIT)
  }

  /** Changing attributes never changes what kind of file it is. */
  lemma TypeKept(st: Stat, a: Attr)
    ensures Edited(st, a).mode / TYPE_UNIT == st.mode / TYPE_UNIT
    ensures a.Mode? ==> Edited(st, a).mode % TYPE_UNIT == a.mode % TYPE_UNIT
  {
  }

  /** A file descriptor between the database lookup and taking the inode, and one that has it. */
  datatype Fd = Opening(inode: Inode) | Opened(inode: Inode)

  /** paths and stats are the database; open counts references to inodes; checks are unlinks that
      have still to look for orphans. */
  datatype State = State(paths: Table, stats: map<Inode, Stat>, open: map<Inode, nat>, fds: map<FdId, Fd>, checks: map<TaskId, Inode>)

  // Transactions and locked sections

  /** try_cleanup_inode: the row goes unless a path still leads to it. */
  function Cleanup(s: State, i: Inode): State {
    if exists p :: p in s.paths && s.paths[p] == i then s else s.(stats := s.stats - {i})
  }

  /** path_create. */
  function Create(s: State, p: Path, i: Inode, st: Stat): State { s.(stats := s.stats[i := st], paths := s.paths[p := i]) }

  /** fakefs_open, its transaction. The file may have to be created; without metadata nothing is
      opened. */
  function OpenStart(s: State, fd: FdId, p: Path, create: bool, i: Inode, st: Stat): State {
    if p in s.paths then s.(fds := s.fds[fd := Opening(s.paths[p])])
    else if create then Create(s, p, i, st).(fds := s.fds[fd := Opening(i)])
    else s
  }

  /** generic_openat under inodes_lock: the row is read again, and the inode taken only if it is
      still there. */
  function OpenFinish(s: State, fd: FdId): State
    requires fd in s.fds
  {
    var i := s.fds[fd].inode;
    if i in s.stats then s.(open := Retained(s.open, i), fds := s.fds[fd := Opened(i)]) else s.(fds := s.fds - {fd})
  }

  function Retained(open: map<Inode, nat>, i: Inode): map<Inode, nat> { open[i := if i in open then open[i] + 1 else 1] }

  /** inode_release. */
  function Close(s: State, fd: FdId): State
    requires fd in s.fds
  {
    var i := s.fds[fd].inode;
    var t := s.(fds := s.fds - {fd});
    if i !in s.open then t
    else if s.open[i] <= 1 then Cleanup(t.(open := s.open - {i}), i)
    else t.(open := s.open[i := s.open[i] - 1])
  }

  /** The transaction of fakefs_unlink and fakefs_rmdir. */
  function UnlinkStart(s: State, t: TaskId, p: Path): State
    requires p in s.paths
  {
    s.(paths := s.paths - {p}, checks := s.checks[t := s.paths[p]])
  }

  /** inode_check_orphaned. */
  function UnlinkFinish(s: State, t: TaskId): State
    requires t in s.checks
  {
    var i := s.checks[t];
    var u := s.(checks := s.checks - {t});
    if i in s.open then u else Cleanup(u, i)
  }

  /** path_link. */
  function Link(s: State, src: Path, dst: Path): State
    requires src in s.paths
  {
    s.(paths := s.paths[dst := s.paths[src]])
  }

  function Rename(s: State, src: Path, dst: Path): State { s.(paths := Renamed(s.paths, src, dst)) }

  /** fakefs_fsetattr: the row is edited; without a row the program dies. */
  function SetAttr(s: State, i: Inode, a: Attr): State {
    if i in s.stats then s.(stats := s.stats[i := Edited(s.stats[i], a)]) else s
  }

  datatype Op =
    | OpenStartOp(fd: FdId, p: Path, create: bool, i: Inode, st: Stat)
    | OpenFinishOp(fd: FdId)
    | CloseOp(fd: FdId)
    | CreateOp(p: Path, i: Inode, st: Stat)
    | UnlinkStartOp(t: TaskId, p: Path)
    | UnlinkFinishOp(t: TaskId)
    | LinkOp(src: Path, dst: Path)
    | RenameOp(src: Path, dst: Path)
    | SetAttrOp(i: Inode, a: Attr)

  /** New rows get a number that no row has, not even 0, which stands for none. The host renames
      a path onto itself or somewhere else, never to a place above or below it. */
  predicate Enabled(s: State, op: Op) {
    match op
    case OpenStartOp(fd, p, create, i, st) => fd !in s.fds && i !in s.stats && i != 0
    case OpenFinishOp(fd) => fd in s.fds && s.fds[fd].Opening?
    case CloseOp(fd) => fd in s.fds && s.fds[fd].Opened?
    case CreateOp(p, i, st) => i !in s.stats && i != 0
    case UnlinkStartOp(t, p) => p in s.paths && t !in s.checks
    case UnlinkFinishOp(t) => t in s.checks
    case LinkOp(src, dst) => src in s.paths
    case RenameOp(src, dst) => Renamable(src, dst)
    case SetAttrOp(i, a) => true
  }

  function Apply(s: State, op: Op): State
    requires Enabled(s, op)
  {
    match op
    case OpenStartOp(fd, p, create, i, st) => OpenStart(s, fd, p, create, i, st)
    case OpenFinishOp(fd) => OpenFinish(s, fd)
    case CloseOp(fd) => Close(s, fd)
    case CreateOp(p, i, st) => Create(s, p, i, st)
    case UnlinkStartOp(t, p) => UnlinkStart(s, t, p)
    case UnlinkFinishOp(t) => UnlinkFinish(s, t)
    case LinkOp(src, dst) => Link(s, src, dst)
    case RenameOp(src, dst) => Rename(s, src, dst)
    case SetAttrOp(i, a) => SetAttr(s, i, a)
  }

  predicate Runs(s: State, ops: seq<Op>, s': State)
    decreases |ops|
  {
    if ops == [] then s' == s else Enabled(s, ops[0]) && Runs(Apply(s, ops[0]), ops[1..], s')
  }

  // Consistency

  /** The descriptors that hold an inode. */
  ghost function Holders(fds: map<FdId, Fd>, i: Inode): set<FdId> { set fd | fd in fds && fds[fd] == Opened(i) }

  ghost predicate CountedAt(s: State, i: Inode) {
    (i in s.open <==> |Holders(s.fds, i)| > 0) && (i in s.open ==> s.open[i] == |Holders(s.fds, i)|)
  }

  /** Everything reachable by a path or held open has a row, and open inodes count their
      descriptors. */
  ghost predicate Consistent(s: State) {
    && (forall p :: p in s.paths ==> s.paths[p] in s.stats && s.paths[p] != 0)
    && (forall i :: i in s.open ==> i in s.stats)
    && (forall i :: CountedAt(s, i))
  }

  lemma CleanupConsistent(s: State, i: Inode)
    requires Consistent(s) && i !in s.open
    ensures Consistent(Cleanup(s, i))
  {
    hide CountedAt;
    forall j ensures CountedAt(Cleanup(s, i), j) { assert CountedAt(s, j); SameCount(s, Cleanup(s, i), j); }
  }

  lemma SameCount(s: State, t: State, i: Inode)
    requires CountedAt(s, i) && t.open == s.open && t.fds == s.fds
    ensures CountedAt(t, i)
  {
  }

  lemma SameCounts(s: State, t: State)
    requires Consistent(s) && t.open == s.open && t.fds == s.fds
    ensures forall i :: CountedAt(t, i)
  {
    forall i ensures CountedAt(t, i) { assert CountedAt(s, i); SameCount(s, t, i); }
  }

  lemma HoldersAdded(fds: map<FdId, Fd>, fd: FdId, i: Inode, j: Inode)
    requires fd in fds && fds[fd].Opening?
    ensures |Holders(fds[fd := Opened(i)], j)| == |Holders(fds, j)| + if j == i then 1 else 0
  {
    var a, b := Holders(fds, j), Holders(fds[fd := Opened(i)], j);
    if j == i { assert b == a + {fd}; } else { assert b == a; }
  }

  lemma HoldersDropped(fds: map<FdId, Fd>, fd: FdId, j: Inode)
    requires fd in fds
    ensures |Holders(fds - {fd}, j)| == |Holders(fds, j)| - if fds[fd] == Opened(j) then 1 else 0
  {
    var a, b := Holders(fds, j), Holders(fds - {fd}, j);
    if fds[fd] == Opened(j) { assert a == b + {fd}; } else { assert b == a; }
  }

  lemma OpenFinishConsistent(s: State, fd: FdId)
    requires Consistent(s) && fd in s.fds && s.fds[fd].Opening?
    ensures Consistent(OpenFinish(s, fd))
  {
    hide Holders;
    var t, i := OpenFinish(s, fd), s.fds[fd].inode;
    forall j ensures CountedAt(t, j) {
      assert CountedAt(s, j);
      if i in s.stats { HoldersAdded(s.fds, fd, i, j); } else { HoldersDropped(s.fds, fd, j); }
    }
  }

  lemma ClosedCounts(s: State, t: State, fd: FdId, j: Inode)
    requires CountedAt(s, j) && fd in s.fds && s.fds[fd].Opened? && t.fds == s.fds - {fd}
    requires var i := s.fds[fd].inode;
             i in s.open && t.open == if s.open[i] <= 1 then s.open - {i} else s.open[i := s.open[i] - 1]
    ensures CountedAt(t, j)
  {
    hide Holders;
    HoldersDropped(s.fds, fd, j);
  }

  lemma CloseConsistent(s: State, fd: FdId)
    requires Consistent(s) && fd in s.fds && s.fds[fd].Opened?
    ensures Consistent(Close(s, fd))
  {
    var i := s.fds[fd].inode;
    assert CountedAt(s, i) && fd in Holders(s.fds, i);
    var t := s.(fds := s.fds - {fd}, open := if s.open[i] <= 1 then s.open - {i} else s.open[i := s.open[i] - 1]);
    forall j ensures CountedAt(t, j) { assert CountedAt(s, j); ClosedCounts(s, t, fd, j); }
    assert Consistent(t);
    if s.open[i] <= 1 { CleanupConsistent(t, i); }
  }

  lemma OpenStartConsistent(s: State, fd: FdId, p: Path, create: bool, i: Inode, st: Stat)
    requires Consistent(s) && Enabled(s, OpenStartOp(fd, p, create, i, st))
    ensures Consistent(OpenStart(s, fd, p, create, i, st))
  {
    var t := OpenStart(s, fd, p, create, i, st);
    forall j ensures CountedAt(t, j) {
      assert CountedAt(s, j);
      assert Holders(t.fds, j) == Holders(s.fds, j);
    }
  }

  lemma RenamedInodes(paths: Table, src: Path, dst: Path, q: Path)
    requires q in Renamed(paths, src, dst)
    ensures exists p :: p in paths && Renamed(paths, src, dst)[q] == paths[p]
  {
    hide Renamed, Under, NewPath;
    RenamedAt(paths, src, dst, q);
  }

  lemma StepConsistent(s: State, op: Op)
    requires Consistent(s) && Enabled(s, op)
    ensures Consistent(Apply(s, op))
  {
    hide CountedAt, Cleanup, OpenStart, OpenFinish, Close, Renamed, Renamable;
    match op
    case OpenStartOp(fd, p, create, i, st) => OpenStartConsistent(s, fd, p, create, i, st);
    case OpenFinishOp(fd) => OpenFinishConsistent(s, fd);
    case CloseOp(fd) => CloseConsistent(s, fd);
    case CreateOp(p, i, st) => SameCounts(s, Apply(s, op));
    case UnlinkStartOp(t, p) => SameCounts(s, Apply(s, op));
    case UnlinkFinishOp(t) =>
      var u := s.(checks := s.checks - {t});
      SameCounts(s, u);
      if s.checks[t] !in s.open { CleanupConsistent(u, s.checks[t]); }
    case LinkOp(src, dst) => SameCounts(s, Apply(s, op));
    case RenameOp(src, dst) =>
      SameCounts(s, Apply(s, op));
      forall q | q in Renamed(s.paths, src, dst) ensures Renamed(s.paths, src, dst)[q] in s.stats && Renamed(s.paths, src, dst)[q] != 0 {
        RenamedInodes(s.paths, src, dst, q);
      }
    case SetAttrOp(i, a) => SameCounts(s, Apply(s, op));
  }

  /** In every interleaving the tables stay consistent. */
  lemma {:induction false} RunConsistent(s: State, ops: seq<Op>, s': State)
    requires Consistent(s) && Runs(s, ops, s')
    ensures Consistent(s')
    decreases |ops|
  {
    hide Consistent, Apply, Enabled;
    if ops != [] {
      StepConsistent(s, ops[0]);
      RunConsistent(Apply(s, ops[0]), ops[1..], s');
    }
  }

  /** An open descriptor always finds its row, so the program never dies in fakefs_fsetattr; nor
      does any path lead to a missing row. */
  lemma NeverMissing(s: State, ops: seq<Op>, s': State)
    requires Consistent(s) && Runs(s, ops, s')
    ensures forall fd :: fd in s'.fds && s'.fds[fd].Opened? ==> s'.fds[fd].inode in s'.stats
    ensures forall p :: p in s'.paths ==> s'.paths[p] in s'.stats
  {
    RunConsistent(s, ops, s');
    forall fd | fd in s'.fds && s'.fds[fd].Opened? ensures s'.fds[fd].inode in s'.stats {
      var i := s'.fds[fd].inode;
      assert CountedAt(s', i) && fd in Holders(s'.fds, i);
    }
  }

  // Rows that nothing leads to

  predicate Awaited(s: State, i: Inode) { exists t :: t in s.checks && s.checks[t] == i }

  /** A row is there for a reason: a path, an open descriptor, or an unlink about to look at it. */
  predicate Needed(s: State, i: Inode) { Linked(s.paths, i) || i in s.open || Awaited(s, i) }

  ghost predicate NoGarbage(s: State) { forall i :: i in s.stats ==> Needed(s, i) }

  /** Operations that put a path where another one was. */
  predicate Replaces(s: State, op: Op) {
    match op
    case CreateOp(p, i, st) => p in s.paths
    case LinkOp(src, dst) => dst in s.paths
    case RenameOp(src, dst) => src != dst && exists p :: p in s.paths && Replaced(s.paths, src, dst, p)
    case _ => false
  }

  lemma StillLinked(paths: Table, paths': Table, i: Inode)
    requires Linked(paths, i) && forall p :: p in paths ==> p in paths' && paths'[p] == paths[p]
    ensures Linked(paths', i)
  {
    var p :| p in paths && paths[p] == i;
    assert paths'[p] == i;
  }

  lemma NeededStays(s: State, t: State, i: Inode)
    requires Needed(s, i)
    requires forall p :: p in s.paths ==> p in t.paths && t.paths[p] == s.paths[p]
    requires i in s.open ==> i in t.open
    requires forall k :: k in s.checks ==> k in t.checks && t.checks[k] == s.checks[k]
    ensures Needed(t, i)
  {
    if Linked(s.paths, i) { StillLinked(s.paths, t.paths, i); }
    if Awaited(s, i) { var k :| k in s.checks && s.checks[k] == i; assert t.checks[k] == i; }
  }

  lemma CleanupNeeded(s: State, i: Inode)
    requires forall j :: j in s.stats && j != i ==> Needed(s, j)
    ensures NoGarbage(Cleanup(s, i))
  {
    var t := Cleanup(s, i);
    forall j | j in t.stats ensures Needed(t, j) {
      if j != i { assert Needed(s, j); NeededStays(s, t, j); } else { assert Linked(s.paths, i); }
    }
  }

  lemma CloseNoGarbage(s: State, fd: FdId)
    requires Consistent(s) && NoGarbage(s) && fd in s.fds && s.fds[fd].Opened?
    ensures NoGarbage(Close(s, fd))
  {
    hide Cleanup, Needed;
    var i := s.fds[fd].inode;
    assert CountedAt(s, i) && fd in Holders(s.fds, i);
    if s.open[i] <= 1 {
      var t := s.(fds := s.fds - {fd}).(open := s.open - {i});
      forall j | j in t.stats && j != i ensures Needed(t, j) { assert Needed(s, j); NeededStays(s, t, j); }
      CleanupNeeded(t, i);
    } else {
      forall j | j in Close(s, fd).stats ensures Needed(Close(s, fd), j) { assert Needed(s, j); NeededStays(s, Close(s, fd), j); }
    }
  }

  lemma NeededWithout(s: State, k: TaskId, i: Inode)
    requires Needed(s, i) && k in s.checks && s.checks[k] != i
    ensures Needed(s.(checks := s.checks - {k}), i)
  {
    var u := s.(checks := s.checks - {k});
    if Awaited(s, i) { var l :| l in s.checks && s.checks[l] == i; assert l in u.checks && u.checks[l] == i; }
  }

  lemma UnlinkFinishNoGarbage(s: State, t: TaskId)
    requires NoGarbage(s) && t in s.checks
    ensures NoGarbage(UnlinkFinish(s, t))
  {
    hide Cleanup, Needed;
    var i, u := s.checks[t], s.(checks := s.checks - {t});
    forall j | j in u.stats && j != i ensures Needed(u, j) { assert Needed(s, j); NeededWithout(s, t, j); }
    if i in s.open { OpenNeeded(u, i); } else { CleanupNeeded(u, i); }
  }

  lemma OpenNeeded(s: State, i: Inode)
    requires i in s.open
    ensures Needed(s, i)
  {
  }

  lemma UnlinkStartNoGarbage(s: State, t: TaskId, p: Path)
    requires NoGarbage(s) && p in s.paths && t !in s.checks
    ensures NoGarbage(UnlinkStart(s, t, p))
  {
    var u := UnlinkStart(s, t, p);
    forall j | j in u.stats ensures Needed(u, j) {
      assert Needed(s, j);
      if j == s.paths[p] {
        assert u.checks[t] == j;
      } else if Linked(s.paths, j) {
        var q :| q in s.paths && s.paths[q] == j;
        assert u.paths[q] == j;
      } else if Awaited(s, j) {
        var k :| k in s.checks && s.checks[k] == j;
        assert u.checks[k] == j;
      }
    }
  }

  lemma CreateNoGarbage(s: State, p: Path, i: Inode, st: Stat)
    requires NoGarbage(s) && p !in s.paths
    ensures NoGarbage(Create(s, p, i, st))
  {
    var u := Create(s, p, i, st);
    forall j | j in u.stats ensures Needed(u, j) {
      if j == i { assert u.paths[p] == i; } else { assert Needed(s, j); NeededStays(s, u, j); }
    }
  }

  lemma AddedNoGarbage(s: State, t: State)
    requires NoGarbage(s) && t.stats.Keys <= s.stats.Keys
    requires forall p :: p in s.paths ==> p in t.paths && t.paths[p] == s.paths[p]
    requires forall i :: i in s.open ==> i in t.open
    requires t.checks == s.checks
    ensures NoGarbage(t)
  {
    hide Needed;
    forall j | j in t.stats ensures Needed(t, j) { assert j in s.stats.Keys; assert Needed(s, j); NeededStays(s, t, j); }
  }

  /** The inodes whose rows hang on a path alone. */
  predicate OnlyLinked(s: State, i: Inode) { i in s.stats && Linked(s.paths, i) && i !in s.open && !Awaited(s, i) }

  /** A rename never looks for orphans: it leaves a row behind exactly if it replaces every path of
      an inode that nobody has open or is about to check. */
  lemma RenameGarbage(s: State, src: Path, dst: Path)
    requires NoGarbage(s) && Apart(src, dst)
    ensures NoGarbage(Rename(s, src, dst)) <==>
            forall i :: OnlyLinked(s, i) ==> Survives(s.paths, src, dst, i)
  {
    hide Linked, Renamed, Survives, Apart;
    var t := Rename(s, src, dst);
    forall i ensures Awaited(t, i) <==> Awaited(s, i) {}
    forall i { LinkedAfter(s.paths, src, dst, i); }
    if NoGarbage(t) {
      forall i | OnlyLinked(s, i) ensures Linked(t.paths, i) { assert Needed(t, i); }
    }
    forall i | i in t.stats ensures Needed(s, i) {}
  }

  /** Renaming a path onto itself changes nothing. */
  lemma RenameSelf(s: State, src: Path)
    ensures Rename(s, src, src) == s
  {
    RenameSame(s.paths, src);
  }

  lemma RenameNoGarbage(s: State, src: Path, dst: Path)
    requires NoGarbage(s) && Enabled(s, RenameOp(src, dst)) && !Replaces(s, RenameOp(src, dst))
    ensures NoGarbage(Rename(s, src, dst))
  {
    hide NoGarbage, Renamed, Replaced, Apart;
    if src == dst {
      RenameSelf(s, src);
    } else {
      RenameGarbage(s, src, dst);
      forall i | OnlyLinked(s, i) ensures Survives(s.paths, src, dst, i) {}
    }
  }

  /** No step that leaves existing paths alone leaves a row behind that nothing leads to. */
  lemma StepNoGarbage(s: State, op: Op)
    requires Consistent(s) && NoGarbage(s) && Enabled(s, op) && !Replaces(s, op)
    ensures NoGarbage(Apply(s, op))
  {
    hide NoGarbage, Consistent, Cleanup, Close, UnlinkStart, UnlinkFinish, Rename;
    match op
    case OpenStartOp(fd, p, create, i, st) =>
      if p !in s.paths && create { CreateNoGarbage(s, p, i, st); AddedNoGarbage(Create(s, p, i, st), Apply(s, op)); }
      else { AddedNoGarbage(s, Apply(s, op)); }
    case OpenFinishOp(fd) => AddedNoGarbage(s, Apply(s, op));
    case CloseOp(fd) => CloseNoGarbage(s, fd);
    case CreateOp(p, i, st) => CreateNoGarbage(s, p, i, st);
    case UnlinkStartOp(t, p) => UnlinkStartNoGarbage(s, t, p);
    case UnlinkFinishOp(t) => UnlinkFinishNoGarbage(s, t);
    case LinkOp(src, dst) => AddedNoGarbage(s, Apply(s, op));
    case RenameOp(src, dst) => RenameNoGarbage(s, src, dst);
    case SetAttrOp(i, a) => AddedNoGarbage(s, Apply(s, op));
  }

  ghost predicate Replacing(s: State, ops: seq<Op>)
    decreases |ops|
  {
    ops != [] && Enabled(s, ops[0]) && (Replaces(s, ops[0]) || Replacing(Apply(s, ops[0]), ops[1..]))
  }

  /** In every interleaving in which no path is put where another was, every row is one that a
      path, an open descriptor or a pending check leads to. */
  lemma {:induction false} RunNoGarbage(s: State, ops: seq<Op>, s': State)
    requires Consistent(s) && NoGarbage(s) && Runs(s, ops, s') && !Replacing(s, ops)
    ensures Consistent(s') && NoGarbage(s')
    decreases |ops|
  {
    hide Consistent, NoGarbage, Apply, Enabled, Replaces;
    if ops != [] {
      StepConsistent(s, ops[0]);
      StepNoGarbage(s, ops[0]);
      RunNoGarbage(Apply(s, ops[0]), ops[1..], s');
    }
  }

  /** Renaming over a file that nobody has open does that. */
  lemma RenameOver(s: State, src: Path, dst: Path)
    requires Apart(src, dst) && src in s.paths && dst in s.paths
    requires var i := s.paths[dst];
             i in s.stats && i !in s.open && !Awaited(s, i) && forall p :: p in s.paths && p != dst ==> s.paths[p] != i
    ensures !NoGarbage(Rename(s, src, dst))
  {
    hide Renamed, Under, NewPath;
    var i, t := s.paths[dst], Rename(s, src, dst);
    assert i in t.stats && i !in t.open;
    assert !Awaited(t, i) by { assert t.checks == s.checks; }
    forall q | q in t.paths ensures t.paths[q] != i {
      RenamedAt(s.paths, src, dst, q);
      ArrivesFrom(src, dst);
      SelfUnder(dst);
    }
  }

  lemma SelfUnder(p: Path)
    ensures Under(p, p)
  {
  }

  lemma ArrivesFrom(src: Path, dst: Path)
    requires Apart(src, dst)
    ensures Under(dst, dst) && NewPath(dst, dst, src) == src
    ensures forall q {:trigger Under(q, dst)} :: Under(q, dst) ==> NewPath(q, dst, src) != dst
  {
    forall q {:trigger Under(q, dst)} | Under(q, dst) ensures NewPath(q, dst, src) != dst { NewUnder(q, dst, src); }
  }
}
