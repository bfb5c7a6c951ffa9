/** Path names as sequences of components (fs/path.c). */
module PathNames {

  /** A component of a normalized path. */
  predicate Plain(c: string) { c != "" && '/' !in c && c != "." && c != ".." }

  predicate AllPlain(cs: seq<string>) { forall i :: 0 <= i < |cs| ==> Plain(cs[i]) }

  /** "/a/b" for the components a and b; the root is the empty string. */
  function Join(cs: seq<string>): string {
    if cs == [] then "" else "/" + cs[0] + Join(cs[1..])
  }

  // Splitting

  function SkipSlashes(p: string): (r: string)
    ensures |r| <= |p| && (r == "" || r[0] != '/')
  {
    if p != "" && p[0] == '/' then SkipSlashes(p[1..]) else p
  }

  /** The first component. */
  function Head(p: string): (h: string)
    ensures |h| <= |p| && h == p[..|h|] && '/' !in h
    ensures |h| == |p| || p[|h|] == '/'
  {
    if p == "" || p[0] == '/' then "" else [p[0]] + Head(p[1..])
  }

  /** What follows it, without the slashes in between. */
  function Rest(p: string): (r: string)
    requires p != "" && p[0] != '/'
    ensures |r| < |p| && (r == "" || r[0] != '/')
    ensures |r| + |Head(p)| <= |p|
  {
    SkipSlashes(p[|Head(p)|..])
  }

  /** The components of a path that starts with one. */
  function Split(p: string): seq<string>
    requires p == "" || p[0] != '/'
    decreases |p|
  {
    if p == "" then [] else [Head(p)] + Split(Rest(p))
  }

  /** The non-empty components of a path. */
  function Components(p: string): seq<string> { Split(SkipSlashes(p)) }

  predicate Name(c: string) { c != "" && '/' !in c }

  predicate AllNames(cs: seq<string>) { forall i :: 0 <= i < |cs| ==> Name(cs[i]) }

  lemma {:induction false} SplitNames(p: string)
    requires p == "" || p[0] != '/'
    ensures AllNames(Split(p))
    decreases |p|
  {
    hide Rest;
    if p != "" {
      assert Head(p) != "";
      SplitNames(Rest(p));
    }
  }

  // Joining and splitting

  lemma {:induction false} JoinAppend(a: seq<string>, b: seq<string>)
    ensures Join(a + b) == Join(a) + Join(b)
  {
    if a == [] {
      assert a + b == b;
    } else {
      JoinAppend(a[1..], b);
      assert (a + b)[1..] == a[1..] + b && (a + b)[0] == a[0];
    }
  }

  lemma {:induction false} HeadOf(c: string, s: string)
    requires '/' !in c && (s == "" || s[0] == '/')
    ensures Head(c + s) == c
  {
    if c == "" {
      assert c + s == s;
    } else {
      HeadOf(c[1..], s);
      assert (c + s)[1..] == c[1..] + s;
    }
  }

  lemma JoinStart(cs: seq<string>)
    ensures Join(cs) == "" <==> cs == []
    ensures cs != [] ==> Join(cs)[0] == '/'
  {
  }

  lemma SplitStep(c: string, t: string)
    requires Name(c) && (t == "" || t[0] == '/')
    ensures Components("/" + c + t) == [c] + Components(t)
  {
    hide Head;
    var q := c + t;
    assert ("/" + c + t)[1..] == q && q[0] == c[0];
    assert '/' != c[0];
    assert SkipSlashes(q) == q;
    HeadOf(c, t);
    assert q[|c|..] == t;
  }

  /** Components undoes Join. */
  lemma {:induction false} SplitJoin(cs: seq<string>)
    requires AllNames(cs)
    ensures Components(Join(cs)) == cs
  {
    hide Components;
    if cs == [] {
      EmptySplit();
    } else {
      JoinStart(cs[1..]);
      SplitStep(cs[0], Join(cs[1..]));
      SplitJoin(cs[1..]);
    }
  }

  lemma EmptySplit()
    ensures Components("") == []
  {
  }

  // path_is_normalized

  /** Nothing, or a slash at the start and no two slashes in a row. */
  predicate Tidy(p: string) {
    (p == "" || p[0] == '/') && forall i :: 0 <= i < |p| - 1 ==> !(p[i] == '/' && p[i + 1] == '/')
  }

  lemma {:induction false} JoinTidy(cs: seq<string>)
    requires AllPlain(cs)
    ensures Tidy(Join(cs)) && (cs != [] ==> Join(cs)[|Join(cs)| - 1] != '/')
  {
    if cs != [] {
      var c, t := cs[0], Join(cs[1..]);
      JoinTidy(cs[1..]);
      JoinStart(cs[1..]);
      var j := Join(cs);
      assert j == "/" + c + t;
      forall i | 0 <= i < |j| - 1 ensures !(j[i] == '/' && j[i + 1] == '/') {
        if 1 <= i <= |c| { assert j[i] == c[i - 1]; }
        if 1 <= i + 1 <= |c| { assert j[i + 1] == c[i]; }
        if i > |c| { assert j[i] == t[i - |c| - 1] && j[i + 1] == t[i - |c|]; }
      }
      if cs[1..] == [] { assert j[|j| - 1] == c[|c| - 1]; } else { assert j[|j| - 1] == t[|t| - 1]; }
    }
  }

  /** path_is_normalized. A trailing slash passes. */
  method IsNormalized(p: string) returns (r: bool)
    ensures r <==> Tidy(p)
  {
    var i := 0;
    while i < |p|
      invariant 0 <= i <= |p|
      invariant i == 0 || (p[0] == '/' && p[i - 1] != '/') || (i == |p| && p[0] == '/')
      invariant forall j :: 0 <= j < i - 1 ==> !(p[j] == '/' && p[j + 1] == '/')
      invariant i == 0 || i == |p| || p[i] == '/'
    {
      if p[i] != '/' { return false; }
      i := i + 1;
      if i < |p| && p[i] == '/' {
        assert p[i - 1] == '/' && p[i - 1 + 1] == '/';
        return false;
      }
      while i < |p| && p[i] != '/'
        invariant 0 < i <= |p| && p[0] == '/'
        invariant p[i - 1] == '/' ==> i == |p| || p[i] != '/'
        invariant forall j :: 0 <= j < i - 1 ==> !(p[j] == '/' && p[j + 1] == '/')
      {
        i := i + 1;
      }
    }
    r := true;
  }

  // Which path contains which

  /** The test of mount_find: a prefix that ends where a component ends. */
  predicate Covers(point: string, path: string) { point <= path && (|path| == |point| || path[|point|] == '/') }

  lemma {:induction false} CoversComponents(a: seq<string>, b: seq<string>)
    requires AllPlain(a) && AllPlain(b)
    ensures Covers(Join(a), Join(b)) <==> a <= b
  {
    if a == [] {
      JoinStart(b);
      assert a <= b;
    } else if b == [] {
      JoinStart(a);
    } else {
      var s, t := Join(a[1..]), Join(b[1..]);
      JoinStart(a[1..]);
      JoinStart(b[1..]);
      CoversComponents(a[1..], b[1..]);
      assert Join(a) == "/" + a[0] + s && Join(b) == "/" + b[0] + t;
      if a[0] == b[0] {
        CoversDrop("/" + a[0], s, t);
        assert a == [a[0]] + a[1..] && b == [a[0]] + b[1..];
      } else if Covers(Join(a), Join(b)) {
        FirstSame(a[0], s, b[0], t, Join(a), Join(b));
      }
    }
  }

  lemma CoversDrop(c: string, s: string, t: string)
    ensures Covers(c + s, c + t) <==> Covers(s, t)
  {
    if Covers(c + s, c + t) {
      assert s == (c + s)[|c|..] && t == (c + t)[|c|..];
      assert t[..|s|] == (c + t)[..|c + s|][|c|..];
    }
  }

  /** Two joined paths of which one contains the other start with the same component. */
  lemma FirstSame(c: string, s: string, d: string, t: string, p: string, q: string)
    requires Plain(c) && Plain(d) && (s == "" || s[0] == '/') && (t == "" || t[0] == '/')
    requires p == "/" + c + s && q == "/" + d + t && Covers(p, q)
    ensures c == d
  {
    assert p[1..] == c + s && q[1..] == d + t;
    HeadOf(c, s);
    HeadOf(d, t);
    HeadCovers(c + s, d + t, c);
  }

  lemma {:induction false} HeadCovers(p: string, q: string, c: string)
    requires Covers(p, q) && Head(p) == c
    ensures Head(q) == c
  {
    var r := q[|c|..];
    assert q == c + r;
    assert |c| < |p| ==> q[|c|] == p[|c|];
    assert r == "" || r[0] == '/';
    HeadOf(c, r);
  }
}
