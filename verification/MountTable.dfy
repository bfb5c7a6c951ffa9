/** The mount table (fs/mount.c) and finding the file system of a path (fs/generic.c). */
module MountTable {

  import opened PathNames

  /** stamp tells mounts apart by when they were made. */
  datatype Mount = Mount(point: string, stamp: nat, refcount: nat)

  /** Longer mount points first, and among those of one length the newer first. */
  ghost predicate Ordered(ms: seq<Mount>) { forall i, j :: 0 <= i < j < |ms| ==> Above(ms[i], ms[j]) }

  predicate Above(a: Mount, b: Mount) { |a.point| > |b.point| || (|a.point| == |b.point| && a.stamp > b.stamp) }

  ghost predicate Older(ms: seq<Mount>, stamp: nat) { forall i :: 0 <= i < |ms| ==> ms[i].stamp < stamp }

  /** The root file system. */
  predicate HasRoot(ms: seq<Mount>) { exists i :: 0 <= i < |ms| && ms[i].point == "" }

  /** The best of the mounts that contain a path: the longest, and among equals the newest. */
  ghost predicate Best(ms: seq<Mount>, path: string, k: nat) {
    && k < |ms| && Covers(ms[k].point, path)
    && forall j :: 0 <= j < |ms| && j != k && Covers(ms[j].point, path) ==> Above(ms[k], ms[j])
  }

  /** The first mount at a point, which is the newest one there. */
  ghost predicate FirstAt(ms: seq<Mount>, point: string, k: nat) {
    k < |ms| && ms[k].point == point && forall j :: 0 <= j < k ==> ms[j].point != point
  }

  datatype UmountResult = Removed | EINVAL | EBUSY

  function Inserted(ms: seq<Mount>, k: nat, m: Mount): seq<Mount>
    requires k <= |ms|
  {
    ms[..k] + [m] + ms[k..]
  }

  lemma InsertOrdered(ms: seq<Mount>, k: nat, m: Mount)
    requires Ordered(ms) && k <= |ms| && Older(ms, m.stamp)
    requires (forall i :: 0 <= i < k ==> |ms[i].point| > |m.point|) && (k < |ms| ==> |ms[k].point| <= |m.point|)
    ensures Ordered(Inserted(ms, k, m))
  {
    var r := Inserted(ms, k, m);
    forall i, j | 0 <= i < j < |r| ensures Above(r[i], r[j]) {
      if i != k && j != k {
        var i', j' := if i < k then i else i - 1, if j < k then j else j - 1;
        assert r[i] == ms[i'] && r[j] == ms[j'] && Above(ms[i'], ms[j']);
      } else if i == k {
        assert r[j] == ms[j - 1] && ms[j - 1].stamp < m.stamp;
        if k < j - 1 { assert Above(ms[k], ms[j - 1]); }
      }
    }
  }

  lemma RemoveOrdered(ms: seq<Mount>, k: nat)
    requires Ordered(ms) && k < |ms|
    ensures Ordered(ms[..k] + ms[k + 1..])
  {
    var r := ms[..k] + ms[k + 1..];
    forall i, j | 0 <= i < j < |r| ensures Above(r[i], r[j]) {
      var i', j' := if i < k then i else i + 1, if j < k then j else j + 1;
      assert r[i] == ms[i'] && r[j] == ms[j'] && Above(ms[i'], ms[j']);
    }
  }

  lemma CountedOrdered(ms: seq<Mount>, k: nat, n: nat)
    requires Ordered(ms) && k < |ms|
    ensures Ordered(ms[k := ms[k].(refcount := n)])
  {
    var r := ms[k := ms[k].(refcount := n)];
    forall i, j | 0 <= i < j < |r| ensures Above(r[i], r[j]) { assert Above(ms[i], ms[j]); }
  }

  class Mounts {
    var list: seq<Mount>
    var clock: nat

    ghost predicate Valid()
      reads this
    {
      Ordered(list) && Older(list, clock)
    }

    /** do_mount, once the file system itself agreed. */
    method DoMount(point: string)
      requires Valid()
      modifies this
      ensures Valid() && clock == old(clock) + 1
      ensures exists k :: 0 <= k <= |old(list)| && list == Inserted(old(list), k, Mount(point, old(clock), 0))
      ensures HasRoot(list) <==> HasRoot(old(list)) || point == ""
    {
      var m := Mount(point, clock, 0);
      var i := 0;
      while i < |list|
        invariant 0 <= i <= |list| && unchanged(this)
        invariant forall j :: 0 <= j < i ==> |list[j].point| > |point|
      {
        if |list[i].point| <= |point| { break; }
        i := i + 1;
      }
      InsertOrdered(list, i, m);
      ghost var before := list;
      InsertRoot(list, i, m);
      list := Inserted(list, i, m);
      clock := clock + 1;
      forall j | 0 <= j < |list| ensures list[j].stamp < clock {
        if j < i { assert list[j] == before[j]; } else if j > i { assert list[j] == before[j - 1]; }
      }
    }

    /** mount_find: the first entry that contains the path is the best one. */
    method Find(path: string) returns (k: nat)
      requires Valid() && HasRoot(list) && Tidy(path)
      modifies this
      ensures Valid() && HasRoot(list) && Best(old(list), path, k)
      ensures list == old(list)[k := old(list)[k].(refcount := old(list)[k].refcount + 1)]
    {
      k := 0;
      RootCovers(list, path);
      while k < |list|
        invariant 0 <= k <= |list| && unchanged(this)
        invariant forall j :: 0 <= j < k ==> !Covers(list[j].point, path)
        invariant exists j :: k <= j < |list| && Covers(list[j].point, path)
      {
        if Covers(list[k].point, path) { break; }
        k := k + 1;
      }
      forall j | 0 <= j < |list| && j != k && Covers(list[j].point, path) ensures Above(list[k], list[j]) {
        assert k < j;
      }
      CountedOrdered(list, k, list[k].refcount + 1);
      CountedRoot(list, k, list[k].refcount + 1);
      list := list[k := list[k].(refcount := list[k].refcount + 1)];
    }

    /** find_mount_and_trim_path: the path splits into the mount point and a path within it, and the
        mount is kept in use until it is released. */
    method FindAndTrim(path: string) returns (k: nat, trimmed: string)
      requires Valid() && HasRoot(list) && Tidy(path)
      modifies this
      ensures Valid() && HasRoot(list) && Best(old(list), path, k)
      ensures list == old(list)[k := old(list)[k].(refcount := old(list)[k].refcount + 1)]
      ensures path == old(list)[k].point + trimmed && Tidy(trimmed)
    {
      k := Find(path);
      var n := |list[k].point|;
      trimmed := "";
      var i := n;
      while i < |path|
        invariant n <= i <= |path| && trimmed == path[n..i]
      {
        trimmed := trimmed + [path[i]];
        i := i + 1;
      }
      TrimTidy(path, n);
    }

    /** mount_release. */
    method Release(k: nat)
      requires Valid() && k < |list| && list[k].refcount > 0
      modifies this
      ensures Valid() && list == old(list)[k := old(list)[k].(refcount := old(list)[k].refcount - 1)]
      ensures HasRoot(list) <==> HasRoot(old(list))
    {
      CountedRoot(list, k, list[k].refcount - 1);
      CountedOrdered(list, k, list[k].refcount - 1);
      list := list[k := list[k].(refcount := list[k].refcount - 1)];
    }

    /** do_umount and mount_remove: the newest mount at the point goes, unless it is in use. There is
        a root file system afterwards exactly if another mount is one. */
    method Umount(point: string) returns (r: UmountResult)
      requires Valid()
      modifies this
      ensures Valid()
      ensures r == EINVAL <==> forall j :: 0 <= j < |old(list)| ==> old(list)[j].point != point
      ensures r == EBUSY <==> exists k: nat :: FirstAt(old(list), point, k) && old(list)[k].refcount != 0
      ensures r == Removed ==> exists k: nat :: (FirstAt(old(list), point, k) && old(list)[k].refcount == 0 && RemovedAt(old(list), list, k))
      ensures r != Removed ==> list == old(list)
    {
      var k := 0;
      while k < |list| && list[k].point != point
        invariant 0 <= k <= |list| && unchanged(this)
        invariant forall j :: 0 <= j < k ==> list[j].point != point
      {
        k := k + 1;
      }
      if k == |list| { return EINVAL; }
      assert FirstAt(list, point, k);
      if list[k].refcount != 0 { return EBUSY; }
      RemoveOrdered(list, k);
      RemoveRoot(list, k);
      ghost var before := list;
      NewestFirst(before, point, k);
      list := list[..k] + list[k + 1..];
      forall j | 0 <= j < |list| ensures list[j].stamp < clock { assert list[j] == before[if j < k then j else j + 1]; }
      r := Removed;
    }
  }

  /** The mount at k is gone, the newest at its point, and the rest is as it was. */
  ghost predicate RemovedAt(before: seq<Mount>, after: seq<Mount>, k: nat)
    requires k < |before|
  {
    && after == before[..k] + before[k + 1..]
    && (forall j :: 0 <= j < |before| && j != k && before[j].point == before[k].point ==> before[j].stamp < before[k].stamp)
    && (HasRoot(after) <==> exists j :: 0 <= j < |before| && j != k && before[j].point == "")
  }

  lemma NewestFirst(ms: seq<Mount>, point: string, k: nat)
    requires Ordered(ms) && FirstAt(ms, point, k)
    ensures forall j :: 0 <= j < |ms| && j != k && ms[j].point == point ==> ms[j].stamp < ms[k].stamp
  {
    forall j | 0 <= j < |ms| && j != k && ms[j].point == point ensures ms[j].stamp < ms[k].stamp { assert Above(ms[k], ms[j]); }
  }

  lemma InsertRoot(ms: seq<Mount>, k: nat, m: Mount)
    requires k <= |ms|
    ensures HasRoot(Inserted(ms, k, m)) <==> HasRoot(ms) || m.point == ""
  {
    var r := Inserted(ms, k, m);
    assert r[k] == m;
    forall i | 0 <= i < |ms| ensures ms[i] == r[if i < k then i else i + 1] {}
    forall i | 0 <= i < |r| && i != k ensures r[i] == ms[if i < k then i else i - 1] {}
  }

  lemma RemoveRoot(ms: seq<Mount>, k: nat)
    requires k < |ms|
    ensures HasRoot(ms[..k] + ms[k + 1..]) <==> exists j :: 0 <= j < |ms| && j != k && ms[j].point == ""
  {
    var r := ms[..k] + ms[k + 1..];
    forall i | 0 <= i < |r| ensures r[i] == ms[if i < k then i else i + 1] {}
    forall i | 0 <= i < |ms| && i != k ensures ms[i] == r[if i < k then i else i - 1] {}
  }

  lemma CountedRoot(ms: seq<Mount>, k: nat, n: nat)
    requires k < |ms|
    ensures HasRoot(ms[k := ms[k].(refcount := n)]) <==> HasRoot(ms)
  {
    var r := ms[k := ms[k].(refcount := n)];
    forall i | 0 <= i < |ms| ensures r[i].point == ms[i].point {}
  }

  lemma RootCovers(ms: seq<Mount>, path: string)
    requires HasRoot(ms) && Tidy(path)
    ensures exists j :: 0 <= j < |ms| && Covers(ms[j].point, path)
  {
    var j :| 0 <= j < |ms| && ms[j].point == "";
    assert Covers(ms[j].point, path);
  }

  lemma TrimTidy(path: string, n: nat)
    requires Tidy(path) && n <= |path| && (n == |path| || path[n] == '/')
    ensures Tidy(path[n..])
  {
    var t := path[n..];
    forall i | 0 <= i < |t| - 1 ensures !(t[i] == '/' && t[i + 1] == '/') { assert t[i] == path[n + i] && t[i + 1] == path[n + i + 1]; }
  }

  lemma JoinLonger(a: seq<string>, b: seq<string>)
    requires a <= b && a != b
    ensures |Join(a)| < |Join(b)|
  {
    var c := b[|a|..];
    assert b == a + c;
    JoinAppend(a, c);
    JoinStart(c);
  }

  /** In terms of components: the point of the best mount is an initial part of the path, no other
      mount has a longer one, and no newer mount has the same one. */
  lemma BestIsLongest(ms: seq<Mount>, cs: seq<string>, k: nat, es: seq<string>, j: nat, ds: seq<string>)
    requires AllPlain(cs) && AllPlain(ds) && AllPlain(es) && Best(ms, Join(cs), k)
    requires ms[k].point == Join(es) && j < |ms| && ms[j].point == Join(ds) && ds <= cs
    ensures es <= cs && |ds| <= |es| && (ds == es ==> ms[j].stamp <= ms[k].stamp)
  {
    hide Join, Covers, AllPlain;
    CoversComponents(ds, cs);
    CoversComponents(es, cs);
    assert Covers(ms[j].point, Join(cs)) && (j == k || Above(ms[k], ms[j]));
    if |ds| > |es| {
      PrefixOfSame(es, ds, cs);
      JoinLonger(es, ds);
    }
  }

  lemma PrefixOfSame(a: seq<string>, b: seq<string>, c: seq<string>)
    requires a <= c && b <= c && |a| < |b|
    ensures a <= b && a != b
  {
    assert a == c[..|a|] && b == c[..|b|];
    assert b[..|a|] == a;
  }
}
