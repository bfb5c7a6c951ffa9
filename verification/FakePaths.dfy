/** Paths as the fakefs database stores them (fs/fake-db.c), and the range query behind a rename. */
module FakePaths {

  type Path = seq<nat>   // bytes
  type Inode = nat

  const SLASH: nat := 0x2f
  const ZERO: nat := 0x30

  /** How the database compares blobs: byte by byte, a prefix before anything longer. */
  predicate Less(a: Path, b: Path)
    decreases |a|
  {
    if b == [] then false
    else if a == [] then true
    else a[0] < b[0] || (a[0] == b[0] && Less(a[1..], b[1..]))
  }

  predicate AtLeast(a: Path, b: Path) { !Less(a, b) }

  /** The condition of the rename statement. */
  predicate Selected(p: Path, src: Path) {
    (AtLeast(p, src + [SLASH]) && Less(p, src + [ZERO])) || p == src
  }

  /** A path itself, or something below it. */
  predicate Under(p: Path, dir: Path) { p == dir || dir + [SLASH] <= p }

  lemma {:induction false} BetweenIsBelow(p: Path, src: Path)
    ensures AtLeast(p, src + [SLASH]) && Less(p, src + [ZERO]) <==> src + [SLASH] <= p
    decreases |src|
  {
    if src == [] {
      assert src + [SLASH] == [SLASH] && src + [ZERO] == [ZERO];
      LessOne(p, SLASH);
      LessOne(p, ZERO);
    } else {
      Tails(src, SLASH);
      Tails(src, ZERO);
      if p != [] {
        BetweenIsBelow(p[1..], src[1..]);
        PrefixTail(p, src + [SLASH]);
      }
    }
  }

  lemma LessOne(p: Path, c: nat)
    ensures Less(p, [c]) <==> p == [] || p[0] < c
  {
    assert [c][1..] == [];
  }

  lemma Tails(src: Path, c: nat)
    requires src != []
    ensures (src + [c])[0] == src[0] && (src + [c])[1..] == src[1..] + [c]
  {
  }

  lemma PrefixTail(p: Path, q: Path)
    requires p != [] && q != []
    ensures q <= p <==> q[0] == p[0] && q[1..] <= p[1..]
  {
    if q[0] == p[0] && q[1..] <= p[1..] { assert q == [q[0]] + q[1..] && p == [p[0]] + p[1..]; }
  }

  /** The range of blobs that a rename updates is exactly the source and everything below it. */
  lemma SelectedIsUnder(p: Path, src: Path)
    ensures Selected(p, src) <==> Under(p, src)
  {
    BetweenIsBelow(p, src);
  }

  // Changing the prefix

  /** change_prefix. */
  function ChangePrefix(p: Path, start: nat, replacement: Path): Path
    requires start <= |p|
  {
    replacement + p[start..]
  }

  lemma UnderLonger(p: Path, dir: Path)
    requires Under(p, dir)
    ensures |dir| <= |p| && p[..|dir|] == dir
  {
  }

  function NewPath(p: Path, src: Path, dst: Path): Path
    requires Under(p, src)
  {
    UnderLonger(p, src);
    ChangePrefix(p, |src|, dst)
  }

  lemma NewUnder(p: Path, src: Path, dst: Path)
    requires Under(p, src)
    ensures Under(NewPath(p, src, dst), dst)
    ensures NewPath(NewPath(p, src, dst), dst, src) == p
  {
    UnderLonger(p, src);
    var n := NewPath(p, src, dst);
    if p == src {
      assert n == dst;
    } else {
      assert p[|src|..][0] == (src + [SLASH])[|src|];
      assert n[..|dst| + 1] == dst + [SLASH];
    }
    assert n[|dst|..] == p[|src|..];
    assert src + p[|src|..] == p;
  }

  /** Neither is at or below the other. */
  predicate Apart(a: Path, b: Path) { !Under(a, b) && !Under(b, a) }

  lemma ApartTrees(p: Path, a: Path, b: Path)
    requires Apart(a, b) && Under(p, a)
    ensures !Under(p, b)
  {
    if Under(p, b) {
      UnderLonger(p, a);
      UnderLonger(p, b);
      if |a| < |b| { BetweenTrees(p, a, b); }
      if |b| < |a| { BetweenTrees(p, b, a); }
    }
  }

  lemma BetweenTrees(p: Path, a: Path, b: Path)
    requires Under(p, a) && Under(p, b) && |a| < |b|
    ensures Under(b, a)
  {
    UnderLonger(p, a);
    UnderLonger(p, b);
    assert p != a && a + [SLASH] <= p;
    assert b[..|a| + 1] == p[..|a| + 1] == a + [SLASH];
  }

  // The table after a rename

  type Table = map<Path, Inode>

  function Arrivals(paths: Table, src: Path, dst: Path): set<Path> { set p | p in paths && Under(p, src) :: NewPath(p, src, dst) }

  /** Rows at or below the source get the new prefix; a row that stands where one arrives is
      replaced. */
  function Renamed(paths: Table, src: Path, dst: Path): Table {
    (map p | p in paths && !Under(p, src) :: paths[p])
    + (map q | q in Arrivals(paths, src, dst) && Under(q, dst) && NewPath(q, dst, src) in paths :: paths[NewPath(q, dst, src)])
  }

  lemma ArrivalOf(paths: Table, src: Path, dst: Path, q: Path)
    ensures q in Arrivals(paths, src, dst) <==> Under(q, dst) && NewPath(q, dst, src) in paths
  {
    if q in Arrivals(paths, src, dst) {
      var p :| p in paths && Under(p, src) && NewPath(p, src, dst) == q;
      NewUnder(p, src, dst);
    }
    if Under(q, dst) { NewUnder(q, dst, src); }
  }

  /** Every path after a rename, and where it comes from. */
  lemma RenamedAt(paths: Table, src: Path, dst: Path, q: Path)
    ensures var arrives := Under(q, dst) && NewPath(q, dst, src) in paths;
            && (q in Renamed(paths, src, dst) <==> arrives || (q in paths && !Under(q, src)))
            && (q in Renamed(paths, src, dst) ==>
                  Renamed(paths, src, dst)[q] == if arrives then paths[NewPath(q, dst, src)] else paths[q])
  {
    hide Under, NewPath;
    ArrivalOf(paths, src, dst, q);
  }

  /** Each row at or below the source keeps its inode and is found under the new prefix. */
  lemma RenameMoves(paths: Table, src: Path, dst: Path, p: Path)
    requires p in paths && Selected(p, src)
    ensures Under(p, src) && NewPath(p, src, dst) == dst + p[|src|..]
    ensures NewPath(p, src, dst) in Renamed(paths, src, dst) && Renamed(paths, src, dst)[NewPath(p, src, dst)] == paths[p]
  {
    hide Selected, Renamed;
    SelectedIsUnder(p, src);
    NewUnder(p, src, dst);
    RenamedAt(paths, src, dst, NewPath(p, src, dst));
  }

  /** Rows elsewhere are not touched. */
  lemma RenameKeeps(paths: Table, src: Path, dst: Path, p: Path)
    requires !Selected(p, src) && !Under(p, dst)
    ensures p in Renamed(paths, src, dst) <==> p in paths
    ensures p in paths ==> Renamed(paths, src, dst)[p] == paths[p]
  {
    hide Selected, Renamed, Under, NewPath;
    SelectedIsUnder(p, src);
    RenamedAt(paths, src, dst, p);
  }

  /** Renaming back restores the table, when nothing was in the way. */
  lemma RenameBack(paths: Table, src: Path, dst: Path)
    requires Apart(src, dst) && forall p :: p in paths ==> !Under(p, dst)
    ensures Renamed(Renamed(paths, src, dst), dst, src) == paths
  {
    hide Renamed, Under, NewPath;
    var t := Renamed(paths, src, dst);
    var u := Renamed(t, dst, src);
    forall p ensures (p in u <==> p in paths) && (p in paths ==> u[p] == paths[p]) {
      RenamedAt(t, dst, src, p);
      RenamedAt(paths, src, dst, p);
      if Under(p, src) {
        NewUnder(p, src, dst);
        ApartTrees(p, src, dst);
        RenamedAt(paths, src, dst, NewPath(p, src, dst));
        ApartTrees(NewPath(p, src, dst), dst, src);
      }
    }
  }

  // The statement row by row

  /** One row of the update: it leaves its old path, and whatever is at its new one. */
  function MoveRow(paths: Table, p: Path, src: Path, dst: Path): Table
    requires p in paths && Under(p, src)
  {
    (paths - {p})[NewPath(p, src, dst) := paths[p]]
  }

  /** What the table looks like when the rows in todo are still to be moved. */
  ghost predicate Partly(paths: Table, now: Table, todo: set<Path>, src: Path, dst: Path) {
    forall q :: PartlyAt(paths, now, todo, src, dst, q)
  }

  predicate PartlyAt(paths: Table, now: Table, todo: set<Path>, src: Path, dst: Path, q: Path) {
    var arrived := Under(q, dst) && NewPath(q, dst, src) in paths && NewPath(q, dst, src) !in todo;
    && (q in now <==> arrived || (q in paths && (!Under(q, src) || q in todo)))
    && (q in now ==> now[q] == if arrived then paths[NewPath(q, dst, src)] else if q in paths then paths[q] else 0)
  }

  lemma MoveRowPartly(paths: Table, now: Table, todo: set<Path>, src: Path, dst: Path, p: Path)
    requires Apart(src, dst) && Partly(paths, now, todo, src, dst)
    requires p in todo && (forall x :: x in todo ==> x in paths && Under(x, src))
    ensures p in now && Partly(paths, MoveRow(now, p, src, dst), todo - {p}, src, dst)
  {
    var n := NewPath(p, src, dst);
    ApartTrees(p, src, dst);
    assert PartlyAt(paths, now, todo, src, dst, p);
    forall q ensures PartlyAt(paths, MoveRow(now, p, src, dst), todo - {p}, src, dst, q) {
      MoveRowAt(paths, now, todo, src, dst, p, q);
    }
  }

  lemma MoveRowAt(paths: Table, now: Table, todo: set<Path>, src: Path, dst: Path, p: Path, q: Path)
    requires Apart(src, dst) && Partly(paths, now, todo, src, dst)
    requires p in todo && p in paths && p in now && now[p] == paths[p] && (forall x :: x in todo ==> x in paths && Under(x, src))
    ensures PartlyAt(paths, MoveRow(now, p, src, dst), todo - {p}, src, dst, q)
  {
    hide Under, NewPath;
    var n := NewPath(p, src, dst);
    NewUnder(p, src, dst);
    ApartTrees(p, src, dst);
    ApartTrees(n, dst, src);
    assert PartlyAt(paths, now, todo, src, dst, q);
    if Under(q, dst) { NewUnder(q, dst, src); }
  }

  lemma PartlyDone(paths: Table, now: Table, src: Path, dst: Path)
    requires Partly(paths, now, {}, src, dst)
    ensures now == Renamed(paths, src, dst)
  {
    hide Under, NewPath, Renamed;
    var t := Renamed(paths, src, dst);
    forall q ensures (q in now <==> q in t) && (q in t ==> now[q] == t[q]) {
      RenamedAt(paths, src, dst, q);
      assert PartlyAt(paths, now, {}, src, dst, q);
    }
  }

  /** Pairs of paths that the host can rename: onto itself, or to somewhere else. */
  predicate Renamable(src: Path, dst: Path) { src == dst || Apart(src, dst) }

  lemma RenameSame(paths: Table, src: Path)
    ensures Renamed(paths, src, src) == paths
  {
    hide Under, Renamed, NewPath;
    var t := Renamed(paths, src, src);
    forall q ensures (q in t <==> q in paths) && (q in t ==> t[q] == paths[q]) {
      RenamedAt(paths, src, src, q);
      if Under(q, src) { SamePath(q, src); }
    }
  }

  lemma SamePath(p: Path, src: Path)
    requires Under(p, src)
    ensures NewPath(p, src, src) == p
  {
    UnderLonger(p, src);
    assert p == p[..|src|] + p[|src|..];
  }

  /** path_rename: the rows in range are updated one after the other, in any order. The host
      refuses to rename a path to one below it or above it, and the update is then undone. */
  method RenameRows(paths: Table, src: Path, dst: Path) returns (now: Table)
    ensures Renamable(src, dst) ==> now == Renamed(paths, src, dst)
  {
    hide Under, NewPath, Renamed, Selected, Partly, MoveRow, Apart;
    now := paths;
    var todo := set p | p in paths && Selected(p, src);
    forall p { SelectedIsUnder(p, src); }
    PartlyStart(paths, todo, src, dst);
    while todo != {}
      invariant forall p :: p in todo ==> p in paths && Under(p, src)
      invariant Apart(src, dst) ==> Partly(paths, now, todo, src, dst)
      invariant src == dst ==> now == paths
      decreases todo
    {
      var p :| p in todo;
      if Apart(src, dst) { MoveRowPartly(paths, now, todo, src, dst, p); }
      if src == dst { MoveRowSame(paths, p, src); }
      if p in now { now := MoveRow(now, p, src, dst); }
      todo := todo - {p};
    }
    if Apart(src, dst) { PartlyDone(paths, now, src, dst); }
    if src == dst { RenameSame(paths, src); }
  }

  lemma MoveRowSame(paths: Table, p: Path, src: Path)
    requires p in paths && Under(p, src)
    ensures MoveRow(paths, p, src, src) == paths
  {
    SamePath(p, src);
  }

  lemma PartlyStart(paths: Table, todo: set<Path>, src: Path, dst: Path)
    requires forall p :: p in todo <==> p in paths && Under(p, src)
    ensures Partly(paths, paths, todo, src, dst)
  {
    hide Under, NewPath;
    forall q ensures PartlyAt(paths, paths, todo, src, dst, q) {
      if Under(q, dst) { NewUnder(q, dst, src); }
    }
  }

  // What a rename puts out of reach

  /** A row that stands where one from below the source arrives. */
  predicate Replaced(paths: Table, src: Path, dst: Path, p: Path) { Under(p, dst) && NewPath(p, dst, src) in paths }

  predicate Linked(paths: Table, i: Inode) { exists p :: p in paths && paths[p] == i }

  /** Some path of the inode is not replaced. */
  predicate Survives(paths: Table, src: Path, dst: Path, i: Inode) {
    exists p :: p in paths && paths[p] == i && !Replaced(paths, src, dst, p)
  }

  /** An inode keeps a path exactly if one of its paths is not replaced. */
  lemma LinkedAfter(paths: Table, src: Path, dst: Path, i: Inode)
    requires Apart(src, dst)
    ensures Linked(Renamed(paths, src, dst), i) <==> Survives(paths, src, dst, i)
  {
    hide Renamed, Under, NewPath;
    var t := Renamed(paths, src, dst);
    if q :| q in t && t[q] == i {
      RenamedAt(paths, src, dst, q);
      if Replaced(paths, src, dst, q) {
        var p := NewPath(q, dst, src);
        NewUnder(q, dst, src);
        ApartTrees(p, src, dst);
        assert paths[p] == i && !Replaced(paths, src, dst, p);
      }
    }
    if p :| p in paths && paths[p] == i && !Replaced(paths, src, dst, p) {
      StaysLinked(paths, src, dst, p);
    }
  }

  lemma StaysLinked(paths: Table, src: Path, dst: Path, p: Path)
    requires Apart(src, dst) && p in paths && !Replaced(paths, src, dst, p)
    ensures Linked(Renamed(paths, src, dst), paths[p])
  {
    hide Renamed, Under, NewPath;
    var t := Renamed(paths, src, dst);
    if Under(p, src) {
      var q := NewPath(p, src, dst);
      NewUnder(p, src, dst);
      RenamedAt(paths, src, dst, q);
      assert t[q] == paths[p];
    } else {
      RenamedAt(paths, src, dst, p);
      assert t[p] == paths[p];
    }
  }
}
